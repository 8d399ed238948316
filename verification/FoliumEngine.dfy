/** The engine: moves made and taken back with their digests stacked by ply, and the
    quiescence search over them. */
module FoliumEngine {
  import opened FoliumXor
  import opened FoliumPosition
  import opened FoliumLine
  import opened FoliumBoard
  import opened FoliumMoves
  import opened FoliumGenerator
  import opened FoliumStages

  const MAX_PLY := 512

  // The square of the next depth stays below the point where history scores are halved.
  const DEEPEST := 361

  ghost function TraceAt(rules: Rules, l: Line, i: nat): nat
    requires |l.positions| == |l.steps| + 1 && i <= |l.steps|
  {
    if i == 0 then CreateTrace(Status(rules, l.positions[0]), EMPTY, 0)
    else match l.steps[i - 1]
         case Play(src, dst, captured) => CreateTrace(Status(rules, l.positions[i]), captured, CreateMove(src, dst))
         case Null(previous) => NullTrace(previous)
  }

  /** What the traces tell is what the line says. */
  lemma TraceTells(rules: Rules, l: Line, i: nat)
    requires Linked(l) && i <= |l.steps|
    ensures TraceFlag(TraceAt(rules, l, i)) == Flag(rules, l, i)
    ensures i > 0 && l.steps[i - 1].Play? ==>
              var t, step := TraceAt(rules, l, i), l.steps[i - 1];
              Src(t) == step.src && Dst(t) == step.dst && TraceCaptured(t) == step.captured
  {
    hide Consistent, Unmoved, CreateTrace, CreateMove, Src, Dst, TraceFlag, TraceCaptured;
    if i == 0 {
      TraceRoundTrip(Status(rules, l.positions[0]), EMPTY, 0);
    } else {
      assert Follows(l, i - 1);
      match l.steps[i - 1]
      case Play(src, dst, captured) =>
        TraceRoundTrip(Status(rules, l.positions[i]), captured, CreateMove(src, dst));
        MoveRoundTrip(src, dst);
      case Null(previous) =>
        NullTraceFlag(previous);
    }
  }

  /** Only a trace whose step was a move names a move. */
  lemma MoveTraced(rules: Rules, l: Line, i: nat)
    requires Linked(l) && i <= |l.steps| && TraceMove(TraceAt(rules, l, i)) != 0
    ensures i > 0 && l.steps[i - 1].Play?
  {
    hide Consistent, Follows, CreateTrace, NullTrace, TraceMove, Status;
    NamesNoMove(if i == 0 then Status(rules, l.positions[0]) else if l.steps[i - 1].Null? then l.steps[i - 1].previous else 0);
  }

  lemma NamesNoMove(flag: nat)
    ensures TraceMove(CreateTrace(flag, EMPTY, 0)) == 0 && TraceMove(NullTrace(flag)) == 0
  {
  }

  lemma NullTraceFlag(previous: nat)
    ensures TraceFlag(NullTrace(previous)) == previous
  {
  }

  /** A trace keeps the low 14 bits of the move it is made from. */
  lemma TraceOfMove(flag: nat, captured: nat, move: nat)
    ensures CreateTrace(flag, captured, move) == CreateTrace(flag, captured, CreateMove(Src(move), Dst(move)))
  {
    LowBits(move);
    var low := move % 0x4000;
    assert CreateMove(Src(move), Dst(move)) == low;
  }

  ghost predicate AllDistinct(a: object, b: object, c: object, d: object) {
    a != b && a != c && a != d && b != c && b != d && c != d
  }

  predicate Within(moves: seq<nat>, all: seq<nat>) {
    forall m :: m in moves ==> m in all
  }

  predicate AllLegal(rules: Rules, p: Position, moves: seq<nat>)
    requires Consistent(p)
  {
    forall m :: m in moves ==> Legal(rules, p, m)
  }

  function NonZero(moves: seq<nat>): seq<nat> {
    if moves == [] then []
    else
      var rest := NonZero(moves[..|moves| - 1]);
      if moves[|moves| - 1] == 0 then rest else rest + [moves[|moves| - 1]]
  }

  lemma {:induction false} NonZeroWithin(moves: seq<nat>, all: seq<nat>)
    requires forall k :: 0 <= k < |moves| ==> moves[k] in all || moves[k] == 0
    ensures Within(NonZero(moves), all)
  {
    if moves != [] {
      NonZeroWithin(moves[..|moves| - 1], all);
    }
  }

  lemma RootsMovable(rules: Rules, p: Position, ban: set<nat>, r: seq<nat>)
    requires Consistent(p) && Sane(rules) && RootMoves(rules, p, ban, r)
    ensures AllMovable(p, r)
  {
    hide Consistent, Movable, TakesKing;
    assert AllMovable(p, rules.rootMoves(p));
    forall i | 0 <= i < |r|
      ensures Movable(p, Src(r[i]), Dst(r[i]))
    {
      assert r[i] in r && r[i] in rules.rootMoves(p);
    }
  }

  lemma SquareBelow(depth: nat)
    ensures depth <= DEEPEST + 1 ==> depth * depth < HALVING_POINT
  {
    if depth <= DEEPEST + 1 {
      assert depth * depth <= (DEEPEST + 1) * depth <= (DEEPEST + 1) * (DEEPEST + 1);
    }
  }

  class Engine {
    const rules: Rules
    const xq: XQ
    var ply: nat
    var startPly: int
    var nullPly: int
    const keys: array<bv32>
    const locks: array<bv64>
    const values: array<int>
    const traces: array<nat>
    const history: History
    const tables: Tables
    ghost var line: Line         // the play that led here

    ghost predicate Shaped() {
      && keys.Length == MAX_PLY && locks.Length == MAX_PLY && values.Length == MAX_PLY && traces.Length == MAX_PLY
      && AllDistinct(keys, locks, values, traces)
      && {keys as object, locks as object, values as object, traces as object} !!
         {xq.pieces as object, xq.squares as object, xq.bitmap.lines as object}
    }

    /** The killer table and the history scores are none of the arrays that play goes on in. */
    ghost predicate Apart(killers: array<Killer>) {
      && history.Shaped() && Aside(killers) && Aside(history.scores) && history.scores as object != killers
    }

    ghost predicate Aside(a: object) {
      && a !in {keys as object, locks as object, values as object, traces as object}
      && a !in {xq.pieces as object, xq.squares as object, xq.bitmap.lines as object}
    }

    /** At every ply of a line the stacks hold what that ply's position and step say. */
    ghost predicate Stacked(l: Line)
      requires Shaped() && WellFormed(l) && l.Ply() < MAX_PLY
      reads keys, locks, values, traces
    {
      forall i :: 0 <= i <= l.Ply() ==>
        && Digest(keys[i], locks[i], values[i]) == DigestOf(rules, l.positions[i])
        && traces[i] == TraceAt(rules, l, i)
    }

    ghost predicate Valid()
      reads this, keys, locks, values, traces, xq, xq.pieces, xq.squares, xq.bitmap, xq.bitmap.lines
    {
      && Shaped() && xq.Valid() && xq.rules == rules
      && Linked(line) && line.Last() == xq.State() && ply == line.Ply() < MAX_PLY
      && (startPly >= 0 ==> startPly == line.start && nullPly == NullPly(line, ply))
      && Stacked(line)
    }

    /** The first digest is computed piece by piece. */
    constructor (rules: Rules, tables: Tables, captureScore: (nat, nat) -> nat, p: Position)
      requires Consistent(p)
      ensures Valid() && line == Line([p], [], 0) && this.rules == rules && startPly == -1 && this.tables == tables
      ensures history.Valid() && Aside(history.scores) && fresh(history.scores)
    {
      hide XQ.Valid, Consistent;
      this.tables := tables;
      history := new History(captureScore);
      this.rules, ply, startPly, nullPly := rules, 0, -1, 0;
      xq := new XQ(rules, p);
      keys, locks, values, traces := new bv32[MAX_PLY], new bv64[MAX_PLY], new int[MAX_PLY], new nat[MAX_PLY];
      line := Line([p], [], 0);
      new;
      StartStacks();
    }

    /** The first entry of every stack; the digest is computed piece by piece. */
    method StartStacks()
      requires Shaped() && xq.Valid() && xq.rules == rules && line == Line([xq.State()], [], 0)
      modifies keys, locks, values, traces
      ensures Stacked(line)
    {
      hide XQ.Valid, Consistent, DigestUpTo, Xor32, Xor64, CreateTrace;
      Standing();
      ghost var p := xq.State();
      var position := xq.Read();
      traces[0] := CreateTrace(Status(rules, position), EMPTY, 0);
      keys[0], locks[0], values[0] := 0, 0, 0;
      for i := 0 to 32
        invariant xq.State() == p && traces[0] == TraceAt(rules, line, 0)
        invariant Digest(keys[0], locks[0], values[0]) == DigestUpTo(rules, p.pieces, i)
      {
        var square := xq.pieces[i];
        assert square == p.pieces[i];
        OnePieceMore(p.pieces, i, Digest(keys[0], locks[0], values[0]));
        if square == NOWHERE { continue; }
        keys[0] := Xor32(keys[0], rules.key(i, square));
        locks[0] := Xor64(locks[0], rules.lock(i, square));
        values[0] := values[0] + rules.value(i, square);
      }
    }

    lemma Standing()
      requires xq.Valid()
      ensures xq.Shaped()
      ensures var p := xq.State();
              Consistent(p) && p.player == xq.player && |p.pieces| == 32 && DigestUpTo(rules, p.pieces, 0) == NOTHING
    {
    }

    lemma OnePieceMore(pieces: seq<nat>, i: nat, d: Digest)
      requires i < |pieces| && d == DigestUpTo(rules, pieces, i)
      ensures DigestUpTo(rules, pieces, i + 1) ==
              if pieces[i] == NOWHERE then d else Put(d, rules, i, pieces[i])
    {
      hide Put;
    }

    // ------------------------------------------------------------------------
    // Moves and null moves
    // ------------------------------------------------------------------------

    method MakeMove(move: nat) returns (made: bool)
      requires Valid() && ply + 1 < MAX_PLY && Movable(line.Last(), Src(move), Dst(move))
      modifies this`ply, this`line, keys, locks, values, traces
      modifies xq`player, xq.pieces, xq.squares, xq.bitmap, xq.bitmap.lines
      ensures Valid()
      ensures made <==> Legal(rules, old(line.Last()), move)
      ensures line == if made then After(old(line), move) else old(line)
    {
      hide XQ.Valid, Consistent, Movable, Placed, Moved, Src, Dst, NullPly, Linked, Stacked;
      Standing();
      ghost var l := line;
      LinkedWellFormed(l);
      SquaresKnown(l.Last(), Src(move), Dst(move));
      var src, dst := Src(move), Dst(move);
      var srcPiece, dstPiece := xq.squares[src], xq.squares[dst];
      made := xq.DoMove(src, dst);
      if !made { return; }
      AfterLinked(l, move);
      Push(move, srcPiece, dstPiece);
    }

    /** Pushes what a move that was made leaves on the stacks. */
    method Push(move: nat, srcPiece: nat, dstPiece: nat)
      requires Shaped() && Linked(line) && ply == line.Ply() && ply + 1 < MAX_PLY && Stacked(line)
      requires Movable(line.Last(), Src(move), Dst(move)) && xq.Shaped()
      requires xq.State() == Moved(line.Last(), Src(move), Dst(move))
      requires srcPiece == line.Last().squares[Src(move)] && dstPiece == line.Last().squares[Dst(move)]
      modifies this`ply, this`line, keys, locks, values, traces
      ensures line == After(old(line), move) && ply == line.Ply() && Stacked(line)
    {
      hide Consistent, Movable, Placed, Moved, Put, Take, Src, Dst, CreateTrace, Linked, DigestOf, TraceAt;
      ghost var l := line;
      LinkedWellFormed(l);
      TopOfMove(l, move);
      var src, dst := Src(move), Dst(move);
      ply := ply + 1;
      var position := xq.Read();
      traces[ply] := CreateTrace(Status(rules, position), dstPiece, move);
      PushDigest(srcPiece, dstPiece, src, dst);
      line := After(line, move);
      PushedTop(l, move);
    }

    /** What belongs on top of the stacks after a move. */
    lemma TopOfMove(l: Line, move: nat)
      requires WellFormed(l) && Movable(l.Last(), Src(move), Dst(move))
      ensures var r, n, p, src, dst := After(l, move), l.Ply() + 1, l.Last(), Src(move), Dst(move);
              && r.positions[n] == Moved(p, src, dst)
              && TraceAt(rules, r, n) == CreateTrace(Status(rules, r.positions[n]), p.squares[dst], move)
              && var e := Put(Take(DigestOf(rules, p), rules, p.squares[src], src), rules, p.squares[src], dst);
                 DigestOf(rules, r.positions[n]) == if p.squares[dst] == EMPTY then e else Take(e, rules, p.squares[dst], dst)
    {
      hide Consistent, Movable, Moved, Put, Take, CreateTrace, CreateMove, Src, Dst, DigestOf;
      var r, n := After(l, move), l.Ply() + 1;
      SquaresKnown(l.Last(), Src(move), Dst(move));
      DigestOfMove(rules, l.Last(), Src(move), Dst(move));
      TraceOfMove(Status(rules, r.positions[n]), l.Last().squares[Dst(move)], move);
    }

    lemma LinkedWellFormed(l: Line)
      requires Linked(l)
      ensures WellFormed(l)
    {
    }

    lemma SquaresKnown(p: Position, src: nat, dst: nat)
      requires Consistent(p) && Movable(p, src, dst)
      ensures |p.squares| == 91 && |p.pieces| == 32 && src < 90 && dst < 90 && p.squares[src] < 32 && p.squares[dst] <= EMPTY
    {
    }

    /** A new top is all it takes for the stacks to follow the line one step further. */
    lemma PushedTop(l: Line, move: nat)
      requires Shaped() && WellFormed(l) && Movable(l.Last(), Src(move), Dst(move)) && l.Ply() + 1 < MAX_PLY
      requires Stacked(l)
      requires var r, n := After(l, move), l.Ply() + 1;
               Digest(keys[n], locks[n], values[n]) == DigestOf(rules, r.positions[n]) && traces[n] == TraceAt(rules, r, n)
      ensures Stacked(After(l, move))
    {
      hide Consistent, Movable, DigestOf, CreateTrace, CreateMove, Src, Dst;
      var r := After(l, move);
      forall i | 0 <= i <= r.Ply()
        ensures Digest(keys[i], locks[i], values[i]) == DigestOf(rules, r.positions[i]) && traces[i] == TraceAt(rules, r, i)
      {
        if i <= l.Ply() {
          assert r.positions[i] == l.positions[i];
          assert i > 0 ==> r.steps[i - 1] == l.steps[i - 1];
        }
      }
    }

    /** The new top of the digest stacks, from the one below it. */
    method PushDigest(srcPiece: nat, dstPiece: nat, src: nat, dst: nat)
      requires Shaped() && 0 < ply < MAX_PLY
      modifies keys, locks, values
      ensures forall i :: 0 <= i < MAX_PLY && i != ply ==>
                keys[i] == old(keys[i]) && locks[i] == old(locks[i]) && values[i] == old(values[i])
      ensures var d := Digest(old(keys[ply - 1]), old(locks[ply - 1]), old(values[ply - 1]));
              var e := Put(Take(d, rules, srcPiece, src), rules, srcPiece, dst);
              Digest(keys[ply], locks[ply], values[ply]) == if dstPiece == EMPTY then e else Take(e, rules, dstPiece, dst)
    {
      hide Xor32, Xor64;
      var key := Xor32(Xor32(keys[ply - 1], rules.key(srcPiece, src)), rules.key(srcPiece, dst));
      var lock := Xor64(Xor64(locks[ply - 1], rules.lock(srcPiece, src)), rules.lock(srcPiece, dst));
      var value := values[ply - 1] + rules.value(srcPiece, dst) - rules.value(srcPiece, src);
      if dstPiece != EMPTY {
        key := Xor32(key, rules.key(dstPiece, dst));
        lock := Xor64(lock, rules.lock(dstPiece, dst));
        value := value - rules.value(dstPiece, dst);
      }
      keys[ply], locks[ply], values[ply] := key, lock, value;
    }

    /** Takes back the last step, which must have been a move. */
    method UnmakeMove()
      requires Valid() && line.Ply() > line.start && line.steps[line.Ply() - 1].Play?
      modifies this`ply, this`line, xq`player, xq.pieces, xq.squares, xq.bitmap, xq.bitmap.lines
      ensures Valid() && line == Before(old(line))
    {
      hide XQ.Valid, Consistent, Unmovable, Unmoved, NullPly, Linked, Src, Dst, TraceCaptured, TraceAt, DigestOf;
      ghost var l := line;
      LinkedWellFormed(l);
      BeforeLinked(l);
      TraceTells(rules, l, l.Ply());
      PlyBefore(l);
      var trace := traces[ply];
      ply := ply - 1;
      xq.UndoMove(Src(trace), Dst(trace), TraceCaptured(trace));
      line := Before(l);
      StackedBefore(l);
    }

    /** The position before the last step is sound, being one of the line's. */
    lemma PlyBefore(l: Line)
      requires Linked(l) && l.Ply() > l.start
      ensures Consistent(l.positions[l.Ply() - 1]) && l.Last() == l.positions[l.Ply()] && Follows(l, l.Ply() - 1)
      ensures Before(l).Last() == l.positions[l.Ply() - 1]
    {
    }

    lemma StackedBefore(l: Line)
      requires Shaped() && WellFormed(l) && l.Ply() > l.start && l.Ply() < MAX_PLY && Stacked(l)
      ensures Stacked(Before(l))
    {
      hide Consistent, DigestOf, CreateTrace, CreateMove;
      var r := Before(l);
      forall i | 0 <= i <= r.Ply()
        ensures Digest(keys[i], locks[i], values[i]) == DigestOf(rules, r.positions[i]) && traces[i] == TraceAt(rules, r, i)
      {
        assert r.positions[i] == l.positions[i];
        assert i > 0 ==> r.steps[i - 1] == l.steps[i - 1];
      }
    }

    /** Passes the turn.  The trace keeps the null ply to go back to. */
    method DoNull()
      requires Valid() && ply + 1 < MAX_PLY && startPly >= 0
      modifies this`ply, this`nullPly, this`line, keys, locks, values, traces, xq`player
      ensures Valid() && line == AfterNull(old(line)) && nullPly == ply
    {
      hide XQ.Valid, Consistent, NullPly, Linked, Stacked;
      ghost var l := line;
      LinkedWellFormed(l);
      AfterNullLinked(l);
      PushNull();
      xq.DoNull();
    }

    /** Pushes what a null move leaves on the stacks. */
    method PushNull()
      requires Shaped() && WellFormed(line) && ply == line.Ply() && ply + 1 < MAX_PLY && Stacked(line)
      requires nullPly == NullPly(line, ply)
      modifies this`ply, this`nullPly, this`line, keys, locks, values, traces
      ensures line == AfterNull(old(line)) && ply == line.Ply() == nullPly && Stacked(line)
    {
      hide Consistent, NullPly, TraceAt, DigestOf, NullTrace;
      ghost var l := line;
      TopOfNull(l);
      var op, np := ply, ply + 1;
      keys[np] := keys[op];
      locks[np] := locks[op];
      values[np] := values[op];
      traces[np] := NullTrace(nullPly);
      ply := np;
      nullPly := np;
      line := AfterNull(l);
      PushedNull(l);
    }

    lemma TopOfNull(l: Line)
      requires WellFormed(l)
      ensures var r, n := AfterNull(l), l.Ply() + 1;
              && r.positions[n] == Flipped(l.positions[l.Ply()])
              && TraceAt(rules, r, n) == NullTrace(NullPly(l, l.Ply()))
              && DigestOf(rules, r.positions[n]) == DigestOf(rules, l.positions[l.Ply()])
    {
      hide NullPly, NullTrace;
    }

    lemma PushedNull(l: Line)
      requires Shaped() && WellFormed(l) && l.Ply() + 1 < MAX_PLY && Stacked(l)
      requires var r, n := AfterNull(l), l.Ply() + 1;
               Digest(keys[n], locks[n], values[n]) == DigestOf(rules, r.positions[n]) && traces[n] == TraceAt(rules, r, n)
      ensures Stacked(AfterNull(l))
    {
      hide Consistent, DigestOf, CreateTrace, CreateMove, NullPly;
      var r := AfterNull(l);
      forall i | 0 <= i <= r.Ply()
        ensures Digest(keys[i], locks[i], values[i]) == DigestOf(rules, r.positions[i]) && traces[i] == TraceAt(rules, r, i)
      {
        if i <= l.Ply() {
          assert r.positions[i] == l.positions[i];
          assert i > 0 ==> r.steps[i - 1] == l.steps[i - 1];
        }
      }
    }

    method UndoNull()
      requires Valid() && startPly >= 0 && line.Ply() > line.start && line.steps[line.Ply() - 1].Null?
      modifies this`ply, this`nullPly, this`line, xq`player
      ensures Valid() && line == Before(old(line))
    {
      hide XQ.Valid, Consistent, Unmovable, Unmoved, NullPly, Linked, TraceFlag, TraceAt, DigestOf;
      ghost var l := line;
      LinkedWellFormed(l);
      BeforeLinked(l);
      TraceTells(rules, l, l.Ply());
      PlyBefore(l);
      nullPly := TraceFlag(traces[ply]);
      ply := ply - 1;
      xq.DoNull();
      line := Before(l);
      PlayerKnown(line.Last());
      PlayerKnown(l.Last());
      StackedBefore(l);
    }

    // ------------------------------------------------------------------------
    // Scores
    // ------------------------------------------------------------------------

    method Value() returns (v: int)
      requires Valid()
      ensures v == StaticValue(rules, line.Last())
    {
      hide XQ.Valid, Consistent, NullPly, Linked, TraceAt, DigestOf;
      LinkedWellFormed(line);
      v := (if xq.player == 0 then values[ply] else -values[ply]) + 4;
    }

    method LoopValue(depth: int) returns (score: int)
      requires Valid() && startPly >= 0 && depth == line.Depth()
      ensures score == LoopScore(rules, line)
    {
      hide XQ.Valid, Consistent, NullPly, Linked, TraceAt, DigestOf, TraceFlag, Flag, StaticValue;
      LinkedWellFormed(line);
      NullPlyReached(line, line.Ply());
      if ply - nullPly >= 4 && keys[ply] == keys[ply - 4] {
        TraceTells(rules, line, ply);
        TraceTells(rules, line, ply - 1);
        TraceTells(rules, line, ply - 2);
        TraceTells(rules, line, ply - 3);
        var v := Value();
        if TraceFlag(traces[ply]) != 0 && TraceFlag(traces[ply - 2]) != 0 {
          if TraceFlag(traces[ply - 1]) != 0 && TraceFlag(traces[ply - 3]) != 0 { return rules.ninePerTen(v); }
          return INVALIDVALUE - (depth - 1);
        } else if TraceFlag(traces[ply - 1]) != 0 && TraceFlag(traces[ply - 3]) != 0 {
          return depth - 1 - INVALIDVALUE;
        }
        return rules.ninePerTen(v);
      }
      return INVALIDVALUE;
    }

    // ------------------------------------------------------------------------
    // Quiescence search
    // ------------------------------------------------------------------------

    /** The generated moves, in a list of 128 slots. */
    method Generate(all: bool) returns (ml: array<nat>, size: nat)
      requires Valid() && Sane(rules)
      ensures fresh(ml) && ml.Length == 128 && size <= 128
      ensures ml[..size] == if all then rules.moves(line.Last()) else rules.captures(line.Last())
      ensures Tryable(line.Last(), ml[..size])
    {
      hide XQ.Valid, Consistent, Linked, Stacked, Movable;
      Standing();
      var position := xq.Read();
      var moves := if all then rules.moves(position) else rules.captures(position);
      assert Tryable(position, moves);
      ml := new nat[128](i => if 0 <= i < |moves| then moves[i] else 0);
      size := |moves|;
      assert ml[..size] == moves;
    }

    /** Selection in place: the largest of the moves not yet tried comes to slot i. */
    static method SelectLargest(ml: array<nat>, i: nat, size: nat) returns (move: nat)
      requires i < size <= ml.Length
      modifies ml
      ensures move == ml[i] && forall j :: i <= j < size ==> ml[j] <= move
      ensures ml[..i] == old(ml[..i]) && multiset(ml[..size]) == old(multiset(ml[..size]))
    {
      move := ml[i];
      for j := i + 1 to size
        invariant move == ml[i] && forall k :: i <= k < j ==> ml[k] <= move
        invariant ml[..i] == old(ml[..i]) && multiset(ml[..size]) == old(multiset(ml[..size]))
      {
        if ml[j] > move {
          ghost var before := ml[..i];
          Exchange(ml, i, j, 0, size);
          assert ml[0..size] == ml[..size] && ml[..i] == before;
          move := ml[i];
        }
      }
    }

    /** Makes a move, searches what follows and takes the move back. */
    method TryMove(move: nat, alpha: int, beta: int) returns (made: bool, score: int)
      requires Valid() && Sane(rules) && startPly >= 0 && line.start + LIMIT_DEPTH < MAX_PLY
      requires 0 <= line.Depth() < LIMIT_DEPTH && Movable(line.Last(), Src(move), Dst(move))
      modifies this`ply, this`line, keys, locks, values, traces
      modifies xq`player, xq.pieces, xq.squares, xq.bitmap, xq.bitmap.lines
      ensures Valid() && line == old(line)
      ensures made <==> Legal(rules, line.Last(), move)
      ensures made && alpha < beta && SafeAfter(rules, line, move, alpha, beta) ==>
                Answers(Worth(rules, line, move), alpha, beta, score)
      decreases LIMIT_DEPTH - line.Depth(), 0
    {
      hide XQ.Valid, Consistent, Movable, Linked, Stacked, Sane, QuietValue, NullPly, Legal;
      ghost var l := line;
      LinkedWellFormed(l);
      made := MakeMove(move);
      score := 0;
      if !made { return; }
      AfterLinked(l, move);
      score := Quies(-beta, -alpha);
      score := -score;
      UnmakeMove();
    }

    /** Tries the largest of the moves that are left. */
    method TryLargest(ml: array<nat>, i: nat, size: nat, alpha: int, beta: int) returns (made: bool, score: int)
      requires Valid() && Sane(rules) && startPly >= 0 && line.start + LIMIT_DEPTH < MAX_PLY
      requires 0 <= line.Depth() < LIMIT_DEPTH && i < size <= ml.Length == 128 && Tryable(line.Last(), ml[..size])
      requires ml !in {traces, xq.pieces, xq.squares} && ml as object != values
      modifies this`ply, this`line, keys, locks, values, traces, ml
      modifies xq`player, xq.pieces, xq.squares, xq.bitmap, xq.bitmap.lines
      ensures Valid() && line == old(line)
      ensures ml[..i] == old(ml[..i]) && multiset(ml[..size]) == old(multiset(ml[..size]))
      ensures made <==> Legal(rules, line.Last(), ml[i])
      ensures made && alpha < beta && SafeAfter(rules, line, ml[i], alpha, beta) ==>
                Answers(Worth(rules, line, ml[i]), alpha, beta, score)
      decreases LIMIT_DEPTH - line.Depth(), 1
    {
      hide XQ.Valid, Consistent, Movable, Linked, Stacked, Sane, NullPly, Worth, Legal, Answers, Src, Dst, SafeAfter;
      ghost var all := ml[..size];
      LinkedWellFormed(line);
      var move := SelectLargest(ml, i, size);
      StillTryable(line.Last(), all, ml[..size]);
      assert move == ml[..size][i];
      made, score := TryMove(move, alpha, beta);
    }

    /** The quiescence search answers for the value of the unpruned one, and leaves the
        engine as it found it. */
    method Quies(alpha0: int, beta: int) returns (r: int)
      requires Valid() && Sane(rules) && startPly >= 0 && line.start + LIMIT_DEPTH < MAX_PLY
      requires 0 <= line.Depth() <= LIMIT_DEPTH
      modifies this`ply, this`line, keys, locks, values, traces
      modifies xq`player, xq.pieces, xq.squares, xq.bitmap, xq.bitmap.lines
      ensures Valid() && line == old(line)
      ensures alpha0 < beta && (Narrow(alpha0, beta) || LeavesAboveMates(rules, line)) ==>
                Answers(QuietValue(rules, line), alpha0, beta, r)
      ensures line.Depth() == LIMIT_DEPTH ==> r == AtLimit(rules, line, beta)
      decreases LIMIT_DEPTH - line.Depth(), 3
    {
      hide XQ.Valid, Consistent, Movable, Linked, Stacked, Sane, NullPly, LoopScore, StaticValue, Flag,
        Tryable, BestOf;
      LinkedWellFormed(line);
      TopFlag();
      var depth := ply - startPly;
      var flag := TraceFlag(traces[ply]) != 0;
      var alpha, best := alpha0, depth - WINSCORE;
      var score := LoopValue(depth);
      if score != INVALIDVALUE { return score; }
      if LeavesAboveMates(rules, line) { QuietAboveMated(rules, line); }
      if best >= beta { return best; }
      if depth == LIMIT_DEPTH { r := Value(); return; }
      QuietAboveStandPat(rules, line);
      if !flag {
        score := Value();
        if score >= beta { return score; }
        if score > best {
          best := score;
          if score > alpha { alpha := score; }
        }
      }
      var ml, size := Generate(flag);
      r := TryAll(ml, size, alpha0, alpha, beta, best);
    }

    lemma TopFlag()
      requires Valid()
      ensures TraceFlag(traces[ply]) == Flag(rules, line, ply)
      ensures TraceMove(traces[ply]) != 0 ==> ply > 0 && line.steps[ply - 1].Play?
    {
      hide Consistent, TraceMove, TraceFlag, DigestOf;
      TraceTells(rules, line, ply);
      if TraceMove(traces[ply]) != 0 {
        MoveTraced(rules, line, ply);
      }
    }

    /** The loop of both quiescence routines: each move in turn, best first. */
    method TryAll(ml: array<nat>, size: nat, ghost alpha0: int, alpha': int, beta: int, best': int) returns (r: int)
      requires Valid() && Sane(rules) && startPly >= 0 && line.start + LIMIT_DEPTH < MAX_PLY
      requires 0 <= line.Depth() < LIMIT_DEPTH && size <= ml.Length == 128 && Tryable(line.Last(), ml[..size])
      requires ml !in {traces, xq.pieces, xq.squares} && ml as object != values
      modifies this`ply, this`line, keys, locks, values, traces, ml
      modifies xq`player, xq.pieces, xq.squares, xq.bitmap, xq.bitmap.lines
      ensures Valid() && line == old(line)
      ensures Running(best', alpha0, beta, alpha', best') && Safe(rules, line, old(ml[..size]), alpha0, beta) ==>
                Answers(BestOf(rules, line, old(ml[..size]), best'), alpha0, beta, r)
      decreases LIMIT_DEPTH - line.Depth(), 2
    {
      hide XQ.Valid, Consistent, Movable, Linked, Stacked, Sane, NullPly, BestOf, Worth, Legal,
        Answers, Running, Safe, SafeAfter, Src, Dst;
      LinkedWellFormed(line);
      ghost var l, all := line, ml[..size];
      ghost var sound := Running(best', alpha0, beta, alpha', best') && Safe(rules, l, all, alpha0, beta);
      var alpha, best := alpha', best';
      NothingTried(rules, l, ml[..0], best');
      for i := 0 to size
        invariant Valid() && line == l
        invariant multiset(ml[..size]) == multiset(all)
        invariant sound ==> Running(BestOf(rules, l, ml[..i], best'), alpha0, beta, alpha, best)
      {
        StillTryable(l.Last(), all, ml[..size]);
        assert ml[..size][..i] == ml[..i];
        var made, score := TryLargest(ml, i, size, alpha, beta);
        assert ml[..size][..i] == ml[..i] && ml[..size][..i + 1] == ml[..i + 1];
        OneTried(rules, l, all, ml[..size], i, best', sound, alpha0, beta, alpha, best, made, score);
        if !made { continue; }
        if score >= beta { return beta; }
        if score > best {
          best := score;
          if score > alpha { alpha := score; }
        }
      }
      BestOfReordered(rules, l, ml[..size], all, best');
      if sound {
        RunningAnswers(BestOf(rules, l, all, best'), alpha0, beta, alpha, best);
      }
      return best;
    }

    /** The captures searched where the full search stops. */
    method Leaf(alpha: int, beta: int) returns (r: int)
      requires Valid() && Sane(rules) && startPly >= 0 && line.start + LIMIT_DEPTH < MAX_PLY
      requires 0 <= line.Depth() < LIMIT_DEPTH
      modifies this`ply, this`line, keys, locks, values, traces
      modifies xq`player, xq.pieces, xq.squares, xq.bitmap, xq.bitmap.lines
      ensures Valid() && line == old(line)
      ensures alpha < beta && line.Depth() - WINSCORE < beta && StaticValue(rules, line.Last()) < beta &&
              Safe(rules, line, rules.captures(line.Last()), alpha, beta) ==>
                Answers(LeafValue(rules, line), alpha, beta, r)
    {
      hide XQ.Valid, Consistent, Movable, Linked, Stacked, Sane, NullPly, StaticValue, Tryable, BestOf;
      LinkedWellFormed(line);
      var best := ply - startPly - WINSCORE;
      var score := Value();
      if score > best { best := score; }
      var ml, size := Generate(false);
      r := TryAll(ml, size, alpha, alpha, beta, best);
    }

    // ------------------------------------------------------------------------
    // Full search
    // ------------------------------------------------------------------------

    /** What the full search takes from outside: the square tables, and a test of moves that
        accepts no man's capture of his own side. */
    ghost predicate Trusted() {
      SoundTables(tables) && LegalSound(rules.legal)
    }

    /** Searches to a depth.  What the hash table answers and when the search is told to
        stop are left open (`*`); a move from the hash table has passed the test of moves.
        Whatever they are, the search ends, stays within the killer table, passes the turn
        only where `TryNull` allows it, and leaves the engine as it found it. */
    method Full(killers: array<Killer>, depth': int, alpha': int, beta: int) returns (r: int)
      requires Valid() && Sane(rules) && startPly >= 0 && line.start + LIMIT_DEPTH < MAX_PLY
      requires 0 <= line.Depth() <= LIMIT_DEPTH && killers.Length == LIMIT_DEPTH + 1 && Apart(killers) && Trusted()
      modifies this`ply, this`nullPly, this`line, keys, locks, values, traces, killers, history.scores
      modifies xq`player, xq.pieces, xq.squares, xq.bitmap, xq.bitmap.lines
      ensures Valid() && line == old(line)
      ensures killers[..line.Depth()] == old(killers[..line.Depth()])
      ensures old(history.Valid()) && depth' <= DEEPEST ==> history.Valid()
      decreases LIMIT_DEPTH - line.Depth(), 4
    {
      hide History.Valid, XQ.Valid, Consistent, Movable, Linked, Stacked, Sane, NullPly, LoopScore, StaticValue, Legal,
        TraceFlag, TraceMove, LeafValue, Answers;
      LinkedWellFormed(line);
      TopFlag();
      var depth, alpha := depth', alpha';
      var stopped: bool := *;
      if stopped { return -WINSCORE; }
      var ply' := ply - startPly;
      var score := LoopValue(ply');
      if score != INVALIDVALUE { return score; }
      var best := ply' - WINSCORE;
      if best >= beta { return best; }
      if ply' == LIMIT_DEPTH { r := Value(); return; }
      var moved, flag := TraceMove(traces[ply]) != 0, TraceFlag(traces[ply]) != 0;
      if moved && flag {
        depth := if depth + 1 < 1 then 1 else depth + 1;
      }
      if depth <= 0 {
        score := Value();
        if score >= beta { return score; }
        r := Leaf(alpha, beta);
        return;
      }
      var hashMove := Probe();
      var hashScore: int := *;
      if hashScore != INVALIDVALUE { return hashScore; }
      killers[ply' + 1] := Killer(0, 0);
      var value := Value();
      if depth >= 2 && moved && !flag && value - beta > 4 && -MATEVALUE < beta < MATEVALUE {
        score := TryNull(killers, depth, beta);
        if score >= beta { return score; }
      }
      r := TryEach(killers, hashMove, depth, alpha, beta, best);
    }

    /** Lets the player pass, which is done only right after a move and out of check. */
    method TryNull(killers: array<Killer>, depth: int, beta: int) returns (score: int)
      requires Valid() && Sane(rules) && startPly >= 0 && line.start + LIMIT_DEPTH < MAX_PLY
      requires 0 <= line.Depth() < LIMIT_DEPTH && killers.Length == LIMIT_DEPTH + 1 && Apart(killers) && Trusted()
      requires line.Ply() > 0 && line.steps[line.Ply() - 1].Play? && Flag(rules, line, line.Ply()) == 0
      modifies this`ply, this`nullPly, this`line, keys, locks, values, traces, killers, history.scores
      modifies xq`player, xq.pieces, xq.squares, xq.bitmap, xq.bitmap.lines
      ensures Valid() && line == old(line)
      ensures killers[..line.Depth() + 1] == old(killers[..line.Depth() + 1])
      ensures old(history.Valid()) && depth <= DEEPEST + 1 ==> history.Valid()
      decreases LIMIT_DEPTH - line.Depth(), 0
    {
      hide History.Valid, XQ.Valid, Consistent, Movable, Linked, Stacked, Sane, NullPly, Flag;
      LinkedWellFormed(line);
      AfterNullLinked(line);
      DoNull();
      score := Full(killers, depth - 2, -beta, -beta + 1);
      score := -score;
      UndoNull();
    }

    /** The move in the record of the position, if there is one: it may be any that passes
        the test of moves, if only because two positions share a lock. */
    method Probe() returns (move: nat)
      requires Valid()
      ensures move == 0 || rules.legal(line.Last(), move)
    {
      hide XQ.Valid, Linked, Stacked, NullPly, Consistent;
      Standing();
      var position := xq.Read();
      move := *;
      if !rules.legal(position, move) { move := 0; }
    }

    /** The moves of one node, each made, searched and taken back as the generator gives it. */
    method TryEach(killers: array<Killer>, hashMove: nat, depth: int, alpha': int, beta: int, best': int) returns (best: int)
      requires Valid() && Sane(rules) && startPly >= 0 && line.start + LIMIT_DEPTH < MAX_PLY && depth > 0
      requires 0 <= line.Depth() < LIMIT_DEPTH && killers.Length == LIMIT_DEPTH + 1 && Apart(killers) && Trusted()
      requires hashMove == 0 || rules.legal(line.Last(), hashMove)
      modifies this`ply, this`nullPly, this`line, keys, locks, values, traces, killers, history.scores
      modifies xq`player, xq.pieces, xq.squares, xq.bitmap, xq.bitmap.lines
      ensures Valid() && line == old(line)
      ensures killers[..line.Depth()] == old(killers[..line.Depth()])
      ensures old(history.Valid()) && depth <= DEEPEST + 1 ==> history.Valid()
      decreases LIMIT_DEPTH - line.Depth(), 3
    {
      hide History.Valid, XQ.Valid, Consistent, Movable, Linked, Stacked, Sane, NullPly, Legal, Src, Dst, Generator.Valid, Ready, Trusted,
        SoundTables, LegalSound;
      LinkedWellFormed(line);
      Standing();
      var generator := StartGenerator(killers, hashMove);
      var ply', alpha, bestMove, found, refuted, move := ply - startPly, alpha', 0, false, false, 1;
      best := best';
      while move != 0
        invariant Valid() && line == old(line) && Using(generator, killers)
        invariant killers[..ply' + 1] == old(killers[..ply' + 1]) && generator.killer == killers[ply']
        invariant old(history.Valid()) && depth <= DEEPEST + 1 ==> history.Valid()
        invariant fresh(generator) && fresh(generator.ml) && fresh(generator.ml.slots)
        invariant Ready(xq, generator.ml, history) && xq.Shaped() && Consistent(line.Last()) && generator.Valid(line.Last())
        decreases 122 - |generator.Given()| - generator.extras, if move == 0 then 0 else 1
      {
        var made, score;
        move, made, score := TryNext(killers, generator, depth, alpha, beta, found);
        if move == 0 || !made { continue; }
        if score > best {
          best, bestMove := score, move % 0x4000;
          if score >= beta {
            refuted := true;
            break;
          }
          if score > alpha { found, alpha := true, score; }
        }
      }
      var stopped: bool := *;
      if stopped { return -WINSCORE; }
      if refuted || bestMove != 0 { Remember(killers, ply', bestMove, depth, refuted); }
    }

    /** A generator over this engine's board. */
    ghost predicate Using(generator: Generator, killers: array<Killer>) {
      && generator.xq == xq && generator.history == history && generator.legal == rules.legal
      && Aside(generator.ml.slots) && generator.ml.slots as object != killers && generator.ml.slots as object != history.scores
    }

    method StartGenerator(killers: array<Killer>, hashMove: nat) returns (generator: Generator)
      requires Valid() && 0 <= line.Depth() < LIMIT_DEPTH && startPly >= 0
      requires killers.Length == LIMIT_DEPTH + 1 && Apart(killers) && Trusted()
      requires hashMove == 0 || rules.legal(line.Last(), hashMove)
      ensures Using(generator, killers) && fresh(generator) && fresh(generator.ml) && fresh(generator.ml.slots)
      ensures Ready(xq, generator.ml, history) && generator.Valid(line.Last())
      ensures generator.killer == killers[line.Depth()]
    {
      hide XQ.Valid, Consistent, Linked, Stacked, NullPly, SoundTables, LegalSound, Generator.Valid, Ready;
      Standing();
      generator := new Generator(tables, xq, history, hashMove, killers[ply - startPly], rules.goodCapture, rules.legal);
    }

    /** Asks for the next move, and makes, searches and takes it back. */
    method TryNext(killers: array<Killer>, generator: Generator, depth: int, alpha: int, beta: int, found: bool)
      returns (move: nat, made: bool, score: int)
      requires Valid() && Sane(rules) && startPly >= 0 && line.start + LIMIT_DEPTH < MAX_PLY
      requires 0 <= line.Depth() < LIMIT_DEPTH && killers.Length == LIMIT_DEPTH + 1 && Apart(killers) && Trusted()
      requires Using(generator, killers) && Ready(xq, generator.ml, history) && generator.Valid(line.Last())
      modifies this`ply, this`nullPly, this`line, keys, locks, values, traces, killers, history.scores
      modifies xq`player, xq.pieces, xq.squares, xq.bitmap, xq.bitmap.lines
      modifies generator, generator.ml, generator.ml.slots
      ensures Valid() && line == old(line) && Ready(xq, generator.ml, history) && generator.Valid(line.Last())
      ensures killers[..line.Depth() + 1] == old(killers[..line.Depth() + 1])
      ensures old(history.Valid()) && depth <= DEEPEST + 1 ==> history.Valid()
      ensures |generator.Given()| + generator.extras <= 122
      ensures |generator.Given()| + generator.extras ==
              old(|generator.Given()| + generator.extras) + if move == 0 then 0 else 1
      decreases LIMIT_DEPTH - line.Depth(), 2
    {
      hide History.Valid, XQ.Valid, Consistent, Movable, Playable, Linked, Stacked, Sane, NullPly, Legal, Src, Dst, Generator.Valid, Ready,
        SoundTables, LegalSound, Generator.Given;
      LinkedWellFormed(line);
      Standing();
      move := generator.Next();
      generator.AtMost(line.Last());
      made, score := false, 0;
      if move != 0 {
        ReadyIs(xq, generator.ml, history);
        made, score := TryFull(killers, move, depth, alpha, beta, found);
        ReadyIs(xq, generator.ml, history);
      }
    }

    method TryFull(killers: array<Killer>, move: nat, depth: int, alpha: int, beta: int, found: bool)
      returns (made: bool, score: int)
      requires Valid() && Sane(rules) && startPly >= 0 && line.start + LIMIT_DEPTH < MAX_PLY
      requires 0 <= line.Depth() < LIMIT_DEPTH && killers.Length == LIMIT_DEPTH + 1 && Apart(killers) && Trusted()
      requires Movable(line.Last(), Src(move), Dst(move))
      modifies this`ply, this`nullPly, this`line, keys, locks, values, traces, killers, history.scores
      modifies xq`player, xq.pieces, xq.squares, xq.bitmap, xq.bitmap.lines
      ensures Valid() && line == old(line) && (made <==> Legal(rules, line.Last(), move))
      ensures killers[..line.Depth() + 1] == old(killers[..line.Depth() + 1])
      ensures old(history.Valid()) && depth <= DEEPEST + 1 ==> history.Valid()
      decreases LIMIT_DEPTH - line.Depth(), 1
    {
      hide History.Valid, XQ.Valid, Consistent, Movable, Linked, Stacked, Sane, NullPly, Legal, Src, Dst;
      LinkedWellFormed(line);
      made := MakeMove(move);
      score := 0;
      if !made { return; }
      AfterLinked(old(line), move);
      score := Full(killers, depth - 1, if found then -1 - alpha else -beta, -alpha);
      score := -score;
      if found && alpha < score < beta {
        score := Full(killers, depth - 1, -beta, -alpha);
        score := -score;
      }
      UnmakeMove();
    }

    /** Remembers a move for other nodes: in the history, and as a killer unless it is a
        good capture that refuted the node. */
    method Remember(killers: array<Killer>, i: nat, move: nat, depth: nat, refuted: bool)
      requires Valid() && i < killers.Length && Apart(killers)
      modifies killers, history.scores
      ensures Valid() && line == old(line)
      ensures killers[..i] == old(killers[..i])
      ensures old(history.Valid()) && depth <= DEEPEST + 1 ==> history.Valid()
    {
      hide History.Valid, XQ.Valid, Linked, Stacked, NullPly, Halved;
      Standing();
      SquareBelow(depth);
      var position := xq.Read();
      history.UpdateHistory(move, depth);
      if !refuted || !rules.goodCapture(position, move) { killers[i] := killers[i].Push(move); }
    }

    // ------------------------------------------------------------------------
    // The root
    // ------------------------------------------------------------------------

    /** Each move is tried on the board itself. */
    method GenerateRootMoves(ban: set<nat>) returns (r: seq<nat>)
      requires Valid() && Sane(rules)
      modifies xq`player, xq.pieces, xq.squares, xq.bitmap, xq.bitmap.lines
      ensures Valid() && line == old(line) && RootMoves(rules, line.Last(), ban, r)
    {
      hide Consistent, Movable, Linked, Stacked, NullPly, Legal, Src, Dst, XQ.Valid, TakesKing;
      Standing();
      var position := xq.Read();
      var moves := rules.rootMoves(position);
      assert AllMovable(position, moves);
      r := [];
      for i := 0 to |moves|
        invariant Valid() && line == old(line)
        invariant forall k :: 0 <= k < i ==> !TakesKing(position, moves[k])
        invariant forall m :: m in r <==> m in moves[..i] && Legal(rules, position, m) && m !in ban
      {
        var move := moves[i];
        assert Movable(position, Src(move), Dst(move)) && moves[..i + 1] == moves[..i] + [move];
        if TakesKing(position, move) { return [move]; }
        if move in ban { continue; }
        var made := TryAtRoot(move);
        if made { r := r + [move]; }
      }
      assert moves[..|moves|] == moves;
    }

    method TryAtRoot(move: nat) returns (made: bool)
      requires Valid() && Movable(line.Last(), Src(move), Dst(move))
      modifies xq`player, xq.pieces, xq.squares, xq.bitmap, xq.bitmap.lines
      ensures Valid() && line == old(line) && (made <==> Legal(rules, line.Last(), move))
    {
      hide Consistent, Movable, Placed, Moved, Unmovable, Unmoved, Linked, Stacked, NullPly, Src, Dst, XQ.Valid;
      Standing();
      LinkedWellFormed(line);
      ghost var p := line.Last();
      SquaresKnown(p, Src(move), Dst(move));
      UnmoveIsInverse(p, Src(move), Dst(move));
      var captured := xq.squares[Dst(move)];
      made := xq.DoMove(Src(move), Dst(move));
      if made { xq.UndoMove(Src(move), Dst(move), captured); }
    }

    lemma StackedRooted(l: Line)
      requires Shaped() && WellFormed(l) && l.Ply() < MAX_PLY && Stacked(l)
      ensures Stacked(l.(start := l.Ply()))
    {
      hide Consistent, DigestOf, CreateTrace, CreateMove;
      var r := l.(start := l.Ply());
      forall i | 0 <= i <= l.Ply()
        ensures TraceAt(rules, r, i) == TraceAt(rules, l, i)
      {
      }
    }

    /** Picks a move at the root by deepening, one depth after another, the best moves so
        far first.  How long there is time and when the search is told to stop are left
        open (`*`).  It answers one of the root moves, or 0 for none. */
    method Search(killers: array<Killer>, depth: int, ban: set<nat>) returns (move: nat, ghost roots: seq<nat>)
      requires Valid() && Sane(rules) && ply + LIMIT_DEPTH < MAX_PLY
      requires forall i :: 0 <= i < |line.steps| ==> line.steps[i].Play?
      requires killers.Length == LIMIT_DEPTH + 1 && Apart(killers) && Trusted()
      modifies this`ply, this`startPly, this`nullPly, this`line, keys, locks, values, traces, killers, history.scores
      modifies xq`player, xq.pieces, xq.squares, xq.bitmap, xq.bitmap.lines
      ensures Valid() && line == old(line).(start := old(ply))
      ensures 2 * depth <= DEEPEST ==> history.Valid()
      ensures RootMoves(rules, line.Last(), ban, roots) && (move == 0 || move in roots)
    {
      hide History.Valid, XQ.Valid, Consistent, Movable, Linked, Stacked, Sane, RootMoves, Legal, Src, Dst;
      RootedLinked(line);
      LinkedWellFormed(line);
      StackedRooted(line);
      startPly, nullPly := ply, ply;
      line := line.(start := ply);
      ghost var l := line;
      history.Clear();
      var ml := GenerateRootMoves(ban);
      RootsMovable(rules, l.Last(), ban, ml);
      roots := ml;
      var bests, best := [], 0;
      var i := 1;
      while true
        invariant 1 <= i && Valid() && line == l && startPly == l.start
        invariant 2 * depth <= DEEPEST ==> history.Valid()
        invariant Within(ml, roots) && Within(bests, roots) && AllLegal(rules, l.Last(), bests)
        decreases 2 * depth - i
      {
        var inTime, stopped: bool := *, *;
        if !(i <= depth || (i <= depth * 2 && inTime)) || stopped { break; }
        if |ml| == 1 { return ml[0], roots; }
        if |ml| == 0 { break; }
        var olds := bests;
        best, bests := SearchAgain(killers, i, olds, roots);
        best, bests, ml := SearchAll(killers, i, ml, best, bests, roots);
        if best > MATEVALUE || best < -MATEVALUE { break; }
        ml := NonZero(ml);
        i := i + 1;
      }
      if bests == [] { return 0, roots; }
      var pick: nat := *;
      move := bests[pick % |bests|];
    }

    /** One depth over the best moves of the depth before.  Whether they can be made is not
        asked again. */
    method SearchAgain(killers: array<Killer>, depth: int, olds: seq<nat>, ghost roots: seq<nat>)
      returns (best: int, bests: seq<nat>)
      requires Valid() && Sane(rules) && startPly == ply && ply + LIMIT_DEPTH < MAX_PLY
      requires killers.Length == LIMIT_DEPTH + 1 && Apart(killers) && Trusted()
      requires Within(olds, roots) && AllLegal(rules, line.Last(), olds)
      modifies this`ply, this`nullPly, this`line, keys, locks, values, traces, killers, history.scores
      modifies xq`player, xq.pieces, xq.squares, xq.bitmap, xq.bitmap.lines
      ensures Valid() && line == old(line)
      ensures old(history.Valid()) && depth <= DEEPEST ==> history.Valid()
      ensures Within(bests, roots) && AllLegal(rules, line.Last(), bests)
    {
      hide History.Valid, XQ.Valid, Consistent, Linked, Stacked, Sane, Movable, Src, Dst, NullPly;
      LinkedWellFormed(line);
      best, bests := -WINSCORE, [];
      for j := 0 to |olds|
        invariant Valid() && line == old(line)
        invariant old(history.Valid()) && depth <= DEEPEST ==> history.Valid()
        invariant Within(bests, roots) && AllLegal(rules, line.Last(), bests)
      {
        var stopped: bool := *;
        if stopped { break; }
        ghost var l := line;
        assert olds[j] in olds;
        var _ := MakeMove(olds[j]);
        AfterLinked(l, olds[j]);
        var score := SearchMove(killers, depth, best, 1 - best, -1 - best);
        UnmakeMove();
        if score >= best {
          if score > best { bests := []; }
          if olds[j] !in bests { bests := bests + [olds[j]]; }
          best := score;
        }
      }
    }

    /** One depth over all the moves left; those that lose are dropped. */
    method SearchAll(killers: array<Killer>, depth: int, ml': seq<nat>, best': int, bests': seq<nat>, ghost roots: seq<nat>)
      returns (best: int, bests: seq<nat>, ml: seq<nat>)
      requires Valid() && Sane(rules) && startPly == ply && ply + LIMIT_DEPTH < MAX_PLY
      requires killers.Length == LIMIT_DEPTH + 1 && Apart(killers) && Trusted()
      requires Within(ml', roots) && AllMovable(line.Last(), roots)
      requires Within(bests', roots) && AllLegal(rules, line.Last(), bests')
      modifies this`ply, this`nullPly, this`line, keys, locks, values, traces, killers, history.scores
      modifies xq`player, xq.pieces, xq.squares, xq.bitmap, xq.bitmap.lines
      ensures Valid() && line == old(line)
      ensures old(history.Valid()) && depth <= DEEPEST ==> history.Valid()
      ensures Within(bests, roots) && AllLegal(rules, line.Last(), bests) && Within(NonZero(ml), roots)
      ensures |ml| == |ml'| && forall k :: 0 <= k < |ml| ==> ml[k] == ml'[k] || ml[k] == 0
    {
      hide History.Valid, XQ.Valid, Consistent, Linked, Stacked, Sane, Movable, Legal, Src, Dst, NullPly, NonZero;
      LinkedWellFormed(line);
      best, bests, ml := best', bests', ml';
      for j := 0 to |ml|
        invariant Valid() && line == old(line) && |ml| == |ml'|
        invariant old(history.Valid()) && depth <= DEEPEST ==> history.Valid()
        invariant forall k :: 0 <= k < |ml| ==> ml[k] == ml'[k] || ml[k] == 0
        invariant forall k :: j <= k < |ml| ==> ml[k] == ml'[k]
        invariant Within(bests, roots) && AllLegal(rules, line.Last(), bests)
      {
        var stopped: bool := *;
        if stopped { break; }
        assert ml[j] in ml' && ml[j] in roots;
        var made, score := TryRoot(killers, depth, ml[j], best);
        if !made {
          ml := ml[j := 0];
          continue;
        }
        if score > best {
          bests, best := [ml[j]], score;
        } else if score < -MATEVALUE {
          ml := ml[j := 0];
        }
      }
      assert forall k :: 0 <= k < |ml| ==> ml'[k] in ml';
      NonZeroWithin(ml, roots);
    }

    method TryRoot(killers: array<Killer>, depth: int, move: nat, best: int) returns (made: bool, score: int)
      requires Valid() && Sane(rules) && startPly == ply && ply + LIMIT_DEPTH < MAX_PLY
      requires killers.Length == LIMIT_DEPTH + 1 && Apart(killers) && Trusted()
      requires Movable(line.Last(), Src(move), Dst(move))
      modifies this`ply, this`nullPly, this`line, keys, locks, values, traces, killers, history.scores
      modifies xq`player, xq.pieces, xq.squares, xq.bitmap, xq.bitmap.lines
      ensures old(history.Valid()) && depth <= DEEPEST ==> history.Valid()
      ensures Valid() && line == old(line) && (made <==> Legal(rules, line.Last(), move))
    {
      hide History.Valid, XQ.Valid, Consistent, Linked, Stacked, Sane, Movable, Legal, Src, Dst, NullPly;
      LinkedWellFormed(line);
      made := MakeMove(move);
      score := 0;
      if !made { return; }
      AfterLinked(old(line), move);
      score := SearchMove(killers, depth, best, -best, -best);
      UnmakeMove();
    }

    /** Searches the position after a root move, first in a narrow window once there is a
        score to beat. */
    method SearchMove(killers: array<Killer>, depth: int, best: int, beta: int, betaAgain: int) returns (score: int)
      requires Valid() && Sane(rules) && startPly >= 0 && line.start + LIMIT_DEPTH < MAX_PLY
      requires 0 <= line.Depth() <= LIMIT_DEPTH && killers.Length == LIMIT_DEPTH + 1 && Apart(killers) && Trusted()
      modifies this`ply, this`nullPly, this`line, keys, locks, values, traces, killers, history.scores
      modifies xq`player, xq.pieces, xq.squares, xq.bitmap, xq.bitmap.lines
      ensures Valid() && line == old(line)
      ensures old(history.Valid()) && depth <= DEEPEST ==> history.Valid()
    {
      hide History.Valid, XQ.Valid, Linked, Stacked, Sane, NullPly;
      if best == -WINSCORE {
        score := Full(killers, depth, -WINSCORE, WINSCORE);
        return -score;
      }
      score := Full(killers, depth, -1 - best, beta);
      score := -score;
      if score > best {
        score := Full(killers, depth, -WINSCORE, betaAgain);
        score := -score;
      }
    }
  }
}
