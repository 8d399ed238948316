/** The move generators: they fill a list of 128 slots, each move packed below its score. */
module FoliumGenerator {
  import opened FoliumPosition
  import opened FoliumBoard
  import opened FoliumLine
  import opened FoliumMoves

  const HALVING_POINT := 0x2_0000

  /** A score above a move, in a word of 32 bits: a score too large for it loses its top. */
  function Packed(score: nat, move: nat): nat {
    (0x4000 * score + move) % 0x1_0000_0000
  }

  /** Whatever the score, the move comes back. */
  lemma PackedMove(score: nat, move: nat)
    requires move < 0x4000
    ensures Packed(score, move) % 0x4000 == move
  {
    var w := 0x4000 * score + move;
    var top, rest := w / 0x1_0000_0000, Packed(score, move);
    Split(w, 0x1_0000_0000);
    Split(rest, 0x4000);
    assert 0x1_0000_0000 * top == 0x4000 * (0x4_0000 * top);
    SameRest(score, move, 0x4_0000 * top + rest / 0x4000, rest % 0x4000);
  }

  lemma Split(w: nat, d: nat)
    requires d > 0
    ensures w == d * (w / d) + w % d && w % d < d
  {
  }

  /** A number has one quotient and one rest. */
  lemma SameRest(q: int, r: nat, q': int, r': nat)
    requires r < 0x4000 && r' < 0x4000 && 0x4000 * q + r == 0x4000 * q' + r'
    ensures r == r'
  {
  }

  /** Up to the halving point nothing is lost: words are ordered by their scores first. */
  lemma PackedOrder(a: nat, m: nat, b: nat, n: nat)
    requires a < HALVING_POINT && b < HALVING_POINT && m < 0x4000 && n < 0x4000
    ensures Packed(a, m) / 0x4000 == a
    ensures Packed(a, m) < Packed(b, n) <==> a < b || (a == b && m < n)
  {
  }

  function Halved(s: seq<nat>): (r: seq<nat>)
    ensures |r| == |s| && forall i :: 0 <= i < |s| ==> r[i] == s[i] / 2
  {
    seq(|s|, i requires 0 <= i < |s| => s[i] / 2)
  }

  /** The history scores, one for each of the 2^14 moves. */
  class History {
    const scores: array<nat>
    const captureScore: (nat, nat) -> nat

    predicate Shaped() {
      scores.Length == 0x4000
    }

    constructor (captureScore: (nat, nat) -> nat)
      ensures Valid() && fresh(scores) && this.captureScore == captureScore
    {
      scores := new nat[0x4000](_ => 0);
      this.captureScore := captureScore;
    }

    ghost predicate Valid()
      reads scores
    {
      Shaped() && forall i :: 0 <= i < 0x4000 ==> scores[i] < HALVING_POINT
    }

    /** A score that reaches the halving point halves them all. */
    method UpdateHistory(move: nat, depth: nat)
      requires Shaped()
      modifies scores
      ensures old(Valid()) && depth * depth < HALVING_POINT ==> Valid()
      ensures var m := move % 0x4000;
              var s := old(scores[..])[m := old(scores[m]) + depth * depth];
              scores[..] == if s[m] >= HALVING_POINT then Halved(s) else s
    {
      var m, d := move % 0x4000, depth * depth;
      scores[m] := scores[m] + d;
      ghost var s := scores[..];
      if scores[m] >= HALVING_POINT {
        for i := 0 to 0x4000
          invariant forall k :: 0 <= k < i ==> scores[k] == s[k] / 2
          invariant forall k :: i <= k < 0x4000 ==> scores[k] == s[k]
        {
          scores[i] := scores[i] / 2;
        }
        assert scores[..] == Halved(s);
      }
    }

    method Clear()
      requires Shaped()
      modifies scores
      ensures Valid() && forall i :: 0 <= i < 0x4000 ==> scores[i] == 0
    {
      for i := 0 to 0x4000
        invariant forall k :: 0 <= k < i ==> scores[k] == 0
      {
        scores[i] := 0;
      }
    }
  }

  class MoveList {
    const slots: array<nat>
    var length: nat

    ghost predicate Valid()
      reads this
    {
      slots.Length == 128 && length <= 128
    }

    ghost function Contents(): seq<nat>
      requires Valid()
      reads this, slots
    {
      slots[..length]
    }

    constructor ()
      ensures Valid() && Contents() == [] && fresh(slots)
    {
      slots, length := new nat[128], 0;
    }

    method Clear()
      requires Valid()
      modifies this
      ensures Valid() && Contents() == []
    {
      length := 0;
    }

    method Push(word: nat)
      requires Valid() && length < 128
      modifies this, slots
      ensures Valid() && Contents() == old(Contents()) + [word]
    {
      slots[length] := word;
      length := length + 1;
    }
  }

  ghost predicate Ready(xq: XQ, ml: MoveList, history: History)
    reads xq, xq.pieces, xq.squares, xq.bitmap, xq.bitmap.lines, ml
  {
    && xq.Valid() && ml.Valid() && history.Shaped()
    && ml.slots != xq.pieces && ml.slots != xq.squares && ml.slots != history.scores
    && ml.slots as object != xq.bitmap.lines
  }

  lemma ReadyIs(xq: XQ, ml: MoveList, history: History)
    ensures Ready(xq, ml, history) <==>
            && xq.Valid() && ml.Valid() && history.Shaped()
            && ml.slots != xq.pieces && ml.slots != xq.squares && ml.slots != history.scores
            && ml.slots as object != xq.bitmap.lines
  {
    hide XQ.Valid;
  }

  /** Every entry is a move below its history score. */
  ghost predicate ScoredBy(s: seq<nat>, scores: seq<nat>)
    requires |scores| == 0x4000
  {
    forall k :: 0 <= k < |s| ==> s[k] == Packed(scores[s[k] % 0x4000], s[k] % 0x4000)
  }

  /** The list holds exactly the moves, and those of the full list with their scores. */
  ghost predicate Listed(ml: MoveList, history: History, captures: bool, moves: set<nat>)
    requires ml.Valid() && history.Shaped()
    reads ml, ml.slots, history.scores
  {
    Lists(ml.Contents(), moves) && (captures || ScoredBy(ml.Contents(), history.scores[..]))
  }

  lemma NothingListed(ml: MoveList, history: History, captures: bool)
    requires ml.Valid() && history.Shaped() && ml.length == 0
    ensures Listed(ml, history, captures, {})
  {
  }

  lemma ScoredOneMore(s: seq<nat>, scores: seq<nat>, move: nat)
    requires |scores| == 0x4000 && ScoredBy(s, scores) && move < 0x4000
    ensures ScoredBy(s + [Packed(scores[move], move)], scores)
  {
    hide Packed;
    PackedMove(scores[move], move);
  }

  /** Black pawns are scored as if the king took. */
  function ScoredAs(piece: nat): nat {
    if piece > 26 then 16 else piece
  }

  /** One more move for the list, with its score. */
  method PushMove(xq: XQ, ml: MoveList, history: History, piece: nat, src: nat, dst: nat, captures: bool,
                  ghost moves: set<nat>)
    requires Ready(xq, ml, history) && Listed(ml, history, captures, moves) && ml.length < 128
    requires src < 90 && dst < 90 && CreateMove(src, dst) !in moves
    modifies ml, ml.slots
    ensures Ready(xq, ml, history) && Listed(ml, history, captures, moves + {CreateMove(src, dst)})
    ensures ml.length == old(ml.length) + 1 && xq.State() == old(xq.State())
  {
    hide CreateMove, Packed, Consistent, Lists, ScoredBy;
    var move := CreateMove(src, dst);
    CreateMoveSmall(src, dst);
    var score := if captures then history.captureScore(xq.squares[dst], ScoredAs(piece)) else history.scores[move];
    PackedMove(score, move);
    ListsOneMore(ml.Contents(), moves, Packed(score, move));
    if !captures { ScoredOneMore(ml.Contents(), history.scores[..], move); }
    ml.Push(Packed(score, move));
  }

  /** The moves of a piece that has a table. */
  method PushHops(xq: XQ, ml: MoveList, history: History, piece: nat, src: nat, row: seq<Hop>, captures: bool,
                  ghost moves: set<nat>)
    requires Ready(xq, ml, history) && Listed(ml, history, captures, moves) && ml.length + |row| <= 128
    requires src < 90 && SoundRow(row, |row|) && forall m :: m in moves ==> Src(m) != src
    modifies ml, ml.slots
    ensures Ready(xq, ml, history) && xq.State() == old(xq.State())
    ensures Listed(ml, history, captures, moves + HopMoves(xq.State(), src, row, captures)) && ml.length <= old(ml.length) + |row|
  {
    hide Consistent, XQ.Valid, MoveList.Valid, History.Shaped, CreateMove, Listed, Src, SoundRow, HopMoves;
    Standing(xq, ml, history);
    ghost var p := xq.State();
    ghost var done := {};
    NoHops(p, src, row, captures);
    assert moves + done == moves;
    for j := 0 to |row|
      invariant Ready(xq, ml, history) && xq.State() == p && ml.length <= old(ml.length) + j
      invariant done == HopMoves(p, src, row[..j], captures) && Listed(ml, history, captures, moves + done)
    {
      Standing(xq, ml, history);
      OneHopMore(p, src, row, captures, j, moves);
      var hop := row[j];
      var dst := hop.dst;
      var color := ColorOf(xq.squares[dst]);
      if (if captures then color == 1 - xq.player else color != xq.player)
         && (hop.Direct? || xq.squares[hop.leg] == EMPTY)
      {
        PushMove(xq, ml, history, piece, src, dst, captures, moves + done);
        assert moves + done + {CreateMove(src, dst)} == moves + (done + {CreateMove(src, dst)});
        done := done + {CreateMove(src, dst)};
      }
    }
    assert row[..|row|] == row;
  }

  lemma Standing(xq: XQ, ml: MoveList, history: History)
    requires Ready(xq, ml, history)
    ensures xq.Valid() && xq.Shaped() && ml.Valid() && Consistent(xq.State()) && xq.bitmap.Valid()
    ensures xq.State().squares == xq.squares[..] && xq.State().player == xq.player
    ensures forall s: nat :: s in xq.bitmap.occupied <==> s < 90 && xq.squares[s] != EMPTY
  {
  }

  lemma NoHops(p: Position, src: nat, row: seq<Hop>, captures: bool)
    requires Consistent(p) && SoundRow(row, |row|)
    ensures SoundRow(row[..0], 0) && HopMoves(p, src, row[..0], captures) == {}
    ensures forall j :: 0 <= j <= |row| ==> SoundRow(row[..j], |row[..j]|)
  {
    hide Consistent;
  }

  /** The next entry is a move that is not listed yet. */
  lemma OneHopMore(p: Position, src: nat, row: seq<Hop>, captures: bool, j: nat, moves: set<nat>)
    requires Consistent(p) && SoundRow(row, |row|) && j < |row| && src < 90
    requires forall m :: m in moves ==> Src(m) != src
    ensures SoundRow(row[..j], |row[..j]|) && SoundRow(row[..j + 1], |row[..j + 1]|)
    ensures var hop, done := row[j], HopMoves(p, src, row[..j], captures);
            && hop.dst < 90 && (hop.Through? ==> hop.leg < 90)
            && CreateMove(src, hop.dst) !in moves + done
            && HopMoves(p, src, row[..j + 1], captures) ==
                 if Fits(p, hop, captures) then done + {CreateMove(src, hop.dst)} else done
  {
    hide Consistent, CreateMove, Src, Dst, Fits;
    var hop, done := row[j], HopMoves(p, src, row[..j], captures);
    MoveRoundTrip(src, hop.dst);
    forall i | 0 <= i < j
      ensures CreateMove(src, row[i].dst) != CreateMove(src, hop.dst)
    {
      MoveRoundTrip(src, row[i].dst);
    }
    var longer := HopMoves(p, src, row[..j + 1], captures);
    forall m | m in longer
      ensures m in if Fits(p, hop, captures) then done + {CreateMove(src, hop.dst)} else done
    {
      var i :| 0 <= i < j + 1 && Fits(p, row[..j + 1][i], captures) && m == CreateMove(src, row[..j + 1][i].dst);
      if i < j { assert row[..j][i] == row[i]; }
    }
    forall m | m in done
      ensures m in longer
    {
      var i :| 0 <= i < j && Fits(p, row[..j][i], captures) && m == CreateMove(src, row[..j][i].dst);
      assert row[..j + 1][i] == row[i];
    }
    assert row[..j + 1][j] == hop;
  }

  // --------------------------------------------------------------------------
  // Rooks and cannons
  // --------------------------------------------------------------------------

  /** How many squares there are in a direction. */
  function Room(src: nat, dir: Direction): nat
    requires src < 90
  {
    match dir
    case Left => src % 9
    case Right => 8 - src % 9
    case Down => src / 9
    case Up => 9 - src / 9
  }

  lemma RoomIs(src: nat, dir: Direction, k: nat)
    requires src < 90
    ensures At(src, dir, k) < 90 <==> k <= Room(src, dir)
    ensures At(src, dir, k) < 90 || At(src, dir, k) == NOWHERE
  {
  }

  /** One step further. */
  lemma AtNext(src: nat, dir: Direction, k: nat)
    requires src < 90 && At(src, dir, k) < 90
    ensures At(At(src, dir, k), dir, 1) == At(src, dir, k + 1)
  {
  }

  lemma AtOnce(src: nat, d: Direction, j: nat, e: Direction, k: nat)
    requires src < 90 && 0 < j && 0 < k && At(src, d, j) == At(src, e, k) < 90
    ensures d == e && j == k
  {
  }

  /** The empty squares before the n-th. */
  ghost function OpenMoves(src: nat, dir: Direction, n: nat): set<nat>
    requires src < 90
  {
    set k | 0 < k < n :: CreateMove(src, At(src, dir, k))
  }

  /** Where the runs of a piece end: at the n-th square in front of it, and, for a cannon
      with a man there, at the m-th. */
  ghost predicate Stops(p: Position, src: nat, jumps: bool, dir: Direction, n: nat, m: nat)
    requires Consistent(p) && src < 90
  {
    && 0 < n && Clear(p, src, dir, n) && !EmptyAt(p, src, dir, n)
    && (jumps && At(src, dir, n) < 90 ==>
          n < m && !EmptyAt(p, src, dir, m) && forall j :: n < j < m ==> EmptyAt(p, src, dir, j))
  }

  function Target(src: nat, jumps: bool, dir: Direction, n: nat, m: nat): nat
    requires src < 90
  {
    if At(src, dir, n) < 90 && jumps then At(src, dir, m) else At(src, dir, n)
  }

  lemma ReachesIs(p: Position, src: nat, jumps: bool, dir: Direction, n: nat, m: nat, k: nat)
    requires Consistent(p) && src < 90 && Stops(p, src, jumps, dir, n, m) && 0 < k
    ensures var target, to := Target(src, jumps, dir, n, m), if At(src, dir, n) < 90 && jumps then m else n;
            && target < 91 && (target < 90 ==> target == At(src, dir, to) && 0 < to < 10)
            && (Reaches(p, src, jumps, dir, k) <==> k < n || (k == to && target < 90 && Enemy(p, target)))
            && (Reaches(p, src, jumps, dir, k) ==> k < 10)
            && (k < n ==> At(src, dir, k) < 90 && !Enemy(p, At(src, dir, k)))
  {
    hide At;
    var to := if At(src, dir, n) < 90 && jumps then m else n;
    RoomIs(src, dir, n);
    RoomIs(src, dir, to);
    RoomIs(src, dir, k);
    if k < n {
      assert EmptyAt(p, src, dir, k);
    } else if k > n && jumps && OneBetween(p, src, dir, k) {
      assert At(src, dir, k) < 90 ==> k <= m;
    }
  }

  /** A run's moves are the empty squares up to where it stops and the enemy it stops at. */
  lemma RunMovesAre(p: Position, src: nat, jumps: bool, dir: Direction, n: nat, m: nat, captures: bool)
    requires Consistent(p) && src < 90 && Stops(p, src, jumps, dir, n, m)
    ensures var target := Target(src, jumps, dir, n, m);
            target < 91 &&
            RunMoves(p, src, jumps, dir, captures) ==
              (if target < 90 && Enemy(p, target) then {CreateMove(src, target)} else {}) +
              (if captures then {} else OpenMoves(src, dir, n))
  {
    hide CreateMove, At, Consistent, Stops, Reaches, Target, Enemy;
    var target := Target(src, jumps, dir, n, m);
    forall k: nat | 0 < k
      ensures target < 91
      ensures Reaches(p, src, jumps, dir, k) ==>
                k < n || (target < 90 && Enemy(p, target) && At(src, dir, k) == target)
      ensures k < n ==> k < 10 && Reaches(p, src, jumps, dir, k) && At(src, dir, k) < 90 && !Enemy(p, At(src, dir, k))
    {
      ReachesIs(p, src, jumps, dir, n, m, k);
    }
    ReachesIs(p, src, jumps, dir, n, m, 1);
    var to := if At(src, dir, n) < 90 && jumps then m else n;
    if target < 90 {
      ReachesIs(p, src, jumps, dir, n, m, to);
      assert At(src, dir, to) == target;
    }
  }

  /** The moves of a rook or cannon in one direction: the enemy it can take, then, unless
      only captures are wanted, the empty squares up to the first man. */
  method PushRun(xq: XQ, ml: MoveList, history: History, piece: nat, src: nat, jumps: bool, dir: Direction,
                 captures: bool, ghost moves: set<nat>)
    requires Ready(xq, ml, history) && Listed(ml, history, captures, moves) && src < 90 && ml.length + Room(src, dir) <= 128
    requires Untaken(src, dir, moves)
    modifies ml, ml.slots
    ensures Ready(xq, ml, history) && xq.State() == old(xq.State())
    ensures Listed(ml, history, captures, moves + RunMoves(xq.State(), src, jumps, dir, captures))
    ensures ml.length <= old(ml.length) + Room(src, dir)
  {
    hide Consistent, XQ.Valid, MoveList.Valid, History.Shaped, Bitmap.Valid, CreateMove, Listed, At, Room, RunMoves,
      Untaken, FirstAt, Stops, OpenMoves;
    Standing(xq, ml, history);
    ghost var p := xq.State();
    var first, n := xq.bitmap.Nonempty1(src, dir);
    var target := first;
    ghost var m := 0;
    if jumps {
      ghost var n2;
      target, n2, m := xq.bitmap.Nonempty2(src, dir);
      FirstOnce(xq.bitmap.occupied, src, dir, n, n2);
    }
    StopsThere(p, xq.bitmap.occupied, src, jumps, dir, n, m);
    RunMovesAre(p, src, jumps, dir, n, m, captures);
    RunFits(p, src, jumps, dir, n, m, moves);
    ghost var done := {};
    assert moves + done == moves;
    if ColorOf(xq.squares[target]) == 1 - xq.player {
      PushMove(xq, ml, history, piece, src, target, captures, moves);
      done := {CreateMove(src, target)};
    }
    if !captures {
      PushQuiet(xq, ml, history, piece, src, dir, first, n, moves + done);
      assert moves + done + OpenMoves(src, dir, n) == moves + (done + OpenMoves(src, dir, n));
    }
    assert done + (if captures then {} else OpenMoves(src, dir, n)) == RunMoves(p, src, jumps, dir, captures);
    assert captures ==> done + {} == done;
  }

  /** None of the moves in the direction is in the set. */
  ghost predicate Untaken(src: nat, dir: Direction, moves: set<nat>)
    requires src < 90
  {
    forall k :: 0 < k && At(src, dir, k) < 90 ==> CreateMove(src, At(src, dir, k)) !in moves
  }

  /** The empty squares, one after the other, up to the first man or the edge. */
  method PushQuiet(xq: XQ, ml: MoveList, history: History, piece: nat, src: nat, dir: Direction, first: nat,
                   ghost n: nat, ghost moves: set<nat>)
    requires Ready(xq, ml, history) && Listed(ml, history, false, moves) && src < 90 && 0 < n && ml.length + n - 1 <= 128
    requires first == At(src, dir, n) && forall k :: 0 < k < n ==> At(src, dir, k) < 90 && At(src, dir, k) != first
    requires forall k :: 0 < k < n ==> CreateMove(src, At(src, dir, k)) !in moves
    modifies ml, ml.slots
    ensures Ready(xq, ml, history) && xq.State() == old(xq.State())
    ensures Listed(ml, history, false, moves + OpenMoves(src, dir, n)) && ml.length == old(ml.length) + n - 1
  {
    hide Consistent, XQ.Valid, MoveList.Valid, History.Shaped, CreateMove, Listed, At;
    Standing(xq, ml, history);
    ghost var p, k := xq.State(), 1;
    var dst := At(src, dir, 1);
    assert moves + OpenMoves(src, dir, 1) == moves;
    while dst != first
      invariant Ready(xq, ml, history) && xq.State() == p && 0 < k <= n && dst == At(src, dir, k)
      invariant Listed(ml, history, false, moves + OpenMoves(src, dir, k)) && ml.length == old(ml.length) + k - 1
      decreases n - k
    {
      QuietOneMore(src, dir, n, k);
      PushMove(xq, ml, history, piece, src, dst, false, moves + OpenMoves(src, dir, k));
      assert moves + OpenMoves(src, dir, k) + {CreateMove(src, dst)} == moves + OpenMoves(src, dir, k + 1);
      dst := At(dst, dir, 1);
      k := k + 1;
    }
  }

  lemma QuietOneMore(src: nat, dir: Direction, n: nat, k: nat)
    requires src < 90 && 0 < k < n && forall j :: 0 < j < n ==> At(src, dir, j) < 90
    ensures CreateMove(src, At(src, dir, k)) !in OpenMoves(src, dir, k)
    ensures OpenMoves(src, dir, k + 1) == OpenMoves(src, dir, k) + {CreateMove(src, At(src, dir, k))}
    ensures At(At(src, dir, k), dir, 1) == At(src, dir, k + 1)
  {
    hide At, CreateMove;
    AtNext(src, dir, k);
    forall j | 0 < j < k
      ensures CreateMove(src, At(src, dir, j)) != CreateMove(src, At(src, dir, k))
    {
      MovesDiffer(src, dir, j, dir, k);
    }
  }

  lemma MovesDiffer(src: nat, d: Direction, j: nat, e: Direction, k: nat)
    requires src < 90 && 0 < j && 0 < k && At(src, d, j) < 90 && At(src, e, k) < 90 && (d != e || j != k)
    ensures CreateMove(src, At(src, d, j)) != CreateMove(src, At(src, e, k))
    ensures At(src, d, j) != At(src, e, k)
  {
    hide At;
    if At(src, d, j) == At(src, e, k) {
      AtOnce(src, d, j, e, k);
    }
  }

  lemma FirstOnce(occupied: set<nat>, src: nat, dir: Direction, n: nat, m: nat)
    requires src < 90 && FirstAt(occupied, src, dir, 0, n) && FirstAt(occupied, src, dir, 0, m)
    ensures n == m
  {
    hide At;
  }

  lemma StopsThere(p: Position, occupied: set<nat>, src: nat, jumps: bool, dir: Direction, n: nat, m: nat)
    requires Consistent(p) && src < 90 && FirstAt(occupied, src, dir, 0, n)
    requires forall s: nat :: s in occupied <==> s < 90 && p.squares[s] != EMPTY
    requires jumps && At(src, dir, n) != NOWHERE ==> FirstAt(occupied, src, dir, n, m)
    ensures Stops(p, src, jumps, dir, n, m)
  {
    hide At;
    forall k: nat
      ensures At(src, dir, k) <= 90
    {
      RoomIs(src, dir, k);
    }
  }

  lemma RunFits(p: Position, src: nat, jumps: bool, dir: Direction, n: nat, m: nat, moves: set<nat>)
    requires Consistent(p) && src < 90 && Stops(p, src, jumps, dir, n, m) && Untaken(src, dir, moves)
    ensures var target := Target(src, jumps, dir, n, m);
            && target < 91 && (target < 90 ==> CreateMove(src, target) !in moves)
            && n - 1 + (if target < 90 then 1 else 0) <= Room(src, dir)
            && 0 < n && At(src, dir, n) <= NOWHERE && target <= NOWHERE
            && forall k :: 0 < k < n ==>
                 && At(src, dir, k) < 90 && At(src, dir, k) != At(src, dir, n)
                 && CreateMove(src, At(src, dir, k)) !in moves
                 && CreateMove(src, At(src, dir, k)) != CreateMove(src, target)
  {
    hide At, CreateMove, Room;
    var target, to := Target(src, jumps, dir, n, m), if At(src, dir, n) < 90 && jumps then m else n;
    RoomIs(src, dir, n);
    RoomIs(src, dir, n - 1);
    RoomIs(src, dir, to);
    forall k | 0 < k < n
      ensures && At(src, dir, k) < 90 && At(src, dir, k) != At(src, dir, n)
              && CreateMove(src, At(src, dir, k)) !in moves
              && CreateMove(src, At(src, dir, k)) != CreateMove(src, target)
    {
      assert EmptyAt(p, src, dir, k);
      if target < 90 { MovesDiffer(src, dir, k, dir, to); } else { NowhereElse(src, At(src, dir, k)); }
    }
  }

  lemma NowhereElse(src: nat, dst: nat)
    requires dst < 90
    ensures CreateMove(src, dst) != CreateMove(src, NOWHERE)
  {
  }

  /** All the moves of a rook or cannon. */
  method PushRuns(xq: XQ, ml: MoveList, history: History, piece: nat, src: nat, jumps: bool, captures: bool,
                  ghost moves: set<nat>)
    requires Ready(xq, ml, history) && Listed(ml, history, captures, moves) && src < 90 && ml.length + 17 <= 128
    requires forall m :: m in moves ==> Src(m) != src
    modifies ml, ml.slots
    ensures Ready(xq, ml, history) && xq.State() == old(xq.State()) && ml.length <= old(ml.length) + 17
    ensures Listed(ml, history, captures, moves + AllRuns(xq.State(), src, jumps, captures))
  {
    hide Consistent, XQ.Valid, MoveList.Valid, History.Shaped, CreateMove, Src, Listed, At, Room, RunMoves, Untaken;
    Standing(xq, ml, history);
    ghost var p, l := xq.State(), RunMoves(xq.State(), src, jumps, Left, captures);
    ghost var r, d := RunMoves(p, src, jumps, Right, captures), RunMoves(p, src, jumps, Down, captures);
    ghost var u := RunMoves(p, src, jumps, Up, captures);
    NoneTaken(src, moves);
    RoomInAll(src);
    RunsDiffer(p, src, jumps, captures, Left, moves);
    PushRun(xq, ml, history, piece, src, jumps, Left, captures, moves);
    Standing(xq, ml, history);
    RunsDiffer(p, src, jumps, captures, Right, moves + l);
    PushRun(xq, ml, history, piece, src, jumps, Right, captures, moves + l);
    Standing(xq, ml, history);
    RunsDiffer(p, src, jumps, captures, Down, moves + l + r);
    PushRun(xq, ml, history, piece, src, jumps, Down, captures, moves + l + r);
    Standing(xq, ml, history);
    PushRun(xq, ml, history, piece, src, jumps, Up, captures, moves + l + r + d);
    assert moves + l + r + d + u == moves + (l + r + d + u);
  }

  lemma NoneTaken(src: nat, moves: set<nat>)
    requires src < 90 && forall m :: m in moves ==> Src(m) != src
    ensures forall dir :: Untaken(src, dir, moves)
  {
    hide At, CreateMove, Src, Dst;
    forall dir, k | 0 < k && At(src, dir, k) < 90
      ensures CreateMove(src, At(src, dir, k)) !in moves
    {
      MoveRoundTrip(src, At(src, dir, k));
    }
  }

  lemma RoomInAll(src: nat)
    requires src < 90
    ensures Room(src, Left) + Room(src, Right) + Room(src, Down) + Room(src, Up) == 17
  {
  }

  /** The moves in one direction take none in another. */
  lemma RunsDiffer(p: Position, src: nat, jumps: bool, captures: bool, d: Direction, moves: set<nat>)
    requires Consistent(p) && src < 90
    ensures forall e | e != d && Untaken(src, e, moves) :: Untaken(src, e, moves + RunMoves(p, src, jumps, d, captures))
  {
    hide Consistent, At, CreateMove, Clear, OneBetween, Enemy, EmptyAt;
    var run := RunMoves(p, src, jumps, d, captures);
    forall e: Direction, k | e != d && 0 < k && At(src, e, k) < 90
      ensures CreateMove(src, At(src, e, k)) !in run
    {
      forall j | 0 < j && At(src, d, j) < 90
        ensures CreateMove(src, At(src, d, j)) != CreateMove(src, At(src, e, k))
      {
        MovesDiffer(src, d, j, e, k);
      }
    }
  }

  /** Generates the player's moves, all of them or the captures only: each is listed once,
      and there are never more than 119. */
  method Generate(t: Tables, xq: XQ, ml: MoveList, history: History, captures: bool)
    requires Ready(xq, ml, history) && SoundTables(t)
    modifies ml, ml.slots
    ensures Ready(xq, ml, history) && xq.State() == old(xq.State())
    ensures Listed(ml, history, captures, AllMoves(t, xq.State(), captures)) && ml.length <= 119
  {
    hide Consistent, XQ.Valid, History.Shaped, Listed, PieceMoves, SoundTables, MostUpTo, HopMoves, AllRuns, Hops, Runs, Jumps,
      Nth, Most, SoundRow, Src;
    ml.Clear();
    NothingListed(ml, history, captures);
    Standing(xq, ml, history);
    ghost var p := xq.State();
    MostInAll(p, 0);
    for i := 0 to 16
      invariant Ready(xq, ml, history) && xq.State() == p
      invariant Listed(ml, history, captures, MovesUpTo(t, p, i, captures)) && ml.length <= MostUpTo(p, i) <= 119
    {
      Standing(xq, ml, history);
      PieceKnown(p, i);
      MostInAll(p, i);
      MostInAll(p, i + 1);
      PieceMovesOpen(t, p, Nth(p.player, i), captures);
      ghost var moves := MovesUpTo(t, p, i, captures);
      var piece := Nth(xq.player, i);
      var src := xq.pieces[piece];
      if src == NOWHERE {
        assert moves + {} == moves;
        continue;
      }
      MovesOfOthers(t, p, i, captures);
      if Runs(piece) {
        PushRuns(xq, ml, history, piece, src, Jumps(piece), captures, moves);
      } else {
        var row := Hops(t, piece, src);
        SoundRowAnyLength(row, Most(piece, src));
        PushHops(xq, ml, history, piece, src, row, captures, moves);
      }
    }
    MostInAll(p, 16);
  }

  /** One of the player's first n pieces stands in the middle of the palace. */
  predicate CenterTaken(p: Position, n: nat)
    requires Consistent(p) && n <= 16
  {
    exists j :: 0 <= j < n && p.pieces[Nth(p.player, j)] == Center(p.player)
  }

  lemma NthsBelow32(player: nat)
    requires player < 2
    ensures forall j :: 0 <= j < 16 ==> Nth(player, j) < 32
  {
  }

  /** Only one of the king and the five pawns can stand where there are four ways. */
  lemma {:induction false} MostOfKingAndPawns(p: Position, n: nat)
    requires Consistent(p) && n <= 6
    ensures MostUpTo(p, n) <= 3 * n + if CenterTaken(p, n) then 1 else 0
  {
    hide Most, Nth;
    if n > 0 {
      MostOfKingAndPawns(p, n - 1);
      PieceKnown(p, n - 1);
      NthsBelow32(p.player);
      var piece := Nth(p.player, n - 1);
      if p.pieces[piece] == Center(p.player) {
        assert p.squares[Center(p.player)] == piece;
        forall j | 0 <= j < n - 1
          ensures p.pieces[Nth(p.player, j)] != Center(p.player)
        {
          PieceKnown(p, j);
          NthIsOwn(p.player, n - 1);
        }
        assert CenterTaken(p, n);
      } else if CenterTaken(p, n) {
        assert CenterTaken(p, n - 1);
      }
    }
  }

  lemma {:induction false} MostInAll(p: Position, i: nat)
    requires Consistent(p) && i <= 16
    ensures MostUpTo(p, i) <= if i <= 6 then 19
                              else if i <= 10 then 4 * i - 5
                              else if i <= 12 then 17 * i - 135
                              else if i <= 14 then 8 * i - 27
                              else 17 * i - 153
    ensures i < 16 ==>
              var piece := Nth(p.player, i);
              && MostUpTo(p, i) <= MostUpTo(p, i + 1)
              && (p.pieces[piece] != NOWHERE ==> MostUpTo(p, i + 1) == MostUpTo(p, i) + Most(piece, p.pieces[piece]))
  {
    hide Most, Nth;
    if i < 16 { PieceKnown(p, i); }
    if i <= 6 {
      MostOfKingAndPawns(p, i);
    } else {
      MostInAll(p, i - 1);
      PieceKnown(p, i - 1);
    }
  }

  lemma PieceKnown(p: Position, i: nat)
    requires Consistent(p) && i < 16
    ensures p.player < 2
    ensures var piece := Nth(p.player, i);
            && piece < 32 && ColorOf(piece) == p.player && |p.pieces| == 32 && p.pieces[piece] <= NOWHERE
            && (Runs(piece) ==> i in {10, 11, 14, 15} && Most(piece, p.pieces[piece]) == 17)
            && Most(piece, p.pieces[piece]) <=
                 (if i < 6 then (if p.pieces[piece] == Center(p.player) then 4 else 3)
                  else if i < 10 then 4 else if i == 12 || i == 13 then 8 else 17)
  {
  }

  lemma PieceMovesOpen(t: Tables, p: Position, piece: nat, captures: bool)
    requires SoundTables(t) && Consistent(p) && piece < 32
    ensures var src := p.pieces[piece];
            && (src == NOWHERE ==> PieceMoves(t, p, piece, captures) == {})
            && (src != NOWHERE && Runs(piece) ==>
                  src < 90 && PieceMoves(t, p, piece, captures) == AllRuns(p, src, Jumps(piece), captures))
            && (src != NOWHERE && !Runs(piece) ==>
                  src < 90 && SoundRow(Hops(t, piece, src), |Hops(t, piece, src)|) && |Hops(t, piece, src)| <= Most(piece, src) &&
                  PieceMoves(t, p, piece, captures) == HopMoves(p, src, Hops(t, piece, src), captures))
  {
    hide SoundTables, HopMoves, AllRuns, SoundRow, Runs, Hops, Most;
    if p.pieces[piece] != NOWHERE && !Runs(piece) {
      SoundRowAnyLength(Hops(t, piece, p.pieces[piece]), Most(piece, p.pieces[piece]));
    }
  }

  /** The moves listed before a piece's turn start elsewhere. */
  lemma MovesOfOthers(t: Tables, p: Position, i: nat, captures: bool)
    requires SoundTables(t) && Consistent(p) && i < 16 && Nth(p.player, i) < 32 && p.pieces[Nth(p.player, i)] < 90
    ensures forall m :: m in MovesUpTo(t, p, i, captures) ==> Src(m) != p.pieces[Nth(p.player, i)]
  {
    hide SoundTables, PieceMoves, MovesUpTo, Nth, Src, Dst, Enemy, Playable;
    forall m | m in MovesUpTo(t, p, i, captures)
      ensures Src(m) != p.pieces[Nth(p.player, i)]
    {
      var j := MoverOf(t, p, i, captures, m);
      NthIsOwn(p.player, j);
      NthIsOwn(p.player, i);
      PieceMovesKnown(t, p, Nth(p.player, j), captures, m);
    }
  }

  /** The capture list lists those moves of the full list that take an enemy. */
  lemma CapturesFiltered(t: Tables, p: Position, s: seq<nat>)
    requires SoundTables(t) && Consistent(p)
    ensures Lists(s, AllMoves(t, p, true)) <==>
            Lists(s, set m | m in AllMoves(t, p, false) && Dst(m) < 90 && Enemy(p, Dst(m)))
  {
    hide SoundTables, Consistent, AllMoves, Enemy, Dst, Lists;
    forall m
      ensures m in AllMoves(t, p, true) <==> m in AllMoves(t, p, false) && Dst(m) < 90 && Enemy(p, Dst(m))
    {
      CapturesAreMovesToEnemies(t, p, m);
    }
    assert AllMoves(t, p, true) == set m | m in AllMoves(t, p, false) && Dst(m) < 90 && Enemy(p, Dst(m));
  }

  /** What is generated may be played, and so be tried by the search. */
  lemma GeneratedTryable(t: Tables, p: Position, s: seq<nat>, captures: bool)
    requires SoundTables(t) && Consistent(p) && Lists(s, AllMoves(t, p, captures)) && |s| <= 119
    ensures Tryable(p, s) && 0 !in s
    ensures forall k :: 0 <= k < |s| ==> Playable(p, Src(s[k]), Dst(s[k]))
  {
    hide SoundTables, Consistent, AllMoves, Enemy, Dst, Src, Movable;
    forall k | 0 <= k < |s|
      ensures Playable(p, Src(s[k]), Dst(s[k])) && s[k] != 0
    {
      CapturesAreMovesToEnemies(t, p, s[k] % 0x4000);
      LowPartPlays(s[k]);
      NoMoveIsZero(p);
    }
  }

  lemma LowPartPlays(word: nat)
    ensures Src(word % 0x4000) == Src(word) && Dst(word % 0x4000) == Dst(word)
  {
    LowBits(word);
    LowBits(word % 0x4000);
  }

  lemma NoMoveIsZero(p: Position)
    requires Consistent(p)
    ensures !Movable(p, Src(0), Dst(0))
  {
  }

  // --------------------------------------------------------------------------
  // Scores and the quiescence value
  // --------------------------------------------------------------------------

  /** Two sets of rules whose generators list the same moves, scored as they may be. */
  ghost predicate Rescored(t: Tables, a: Rules, b: Rules) {
    && SoundTables(t) && b == a.(moves := b.moves, captures := b.captures)
    && forall p :: Consistent(p) ==> Generates(t, a, p) && Generates(t, b, p)
  }

  ghost predicate Generates(t: Tables, rules: Rules, p: Position)
    requires SoundTables(t) && Consistent(p)
  {
    && |rules.moves(p)| <= 119 && Lists(rules.moves(p), AllMoves(t, p, false))
    && |rules.captures(p)| <= 119 && Lists(rules.captures(p), AllMoves(t, p, true))
  }

  /** Rules whose lists come from these generators are what the search asks for. */
  lemma GeneratorsAreSane(t: Tables, rules: Rules)
    requires SoundTables(t)
    requires forall p: Position :: Consistent(p) ==>
               Generates(t, rules, p) && forall m :: m in rules.rootMoves(p) ==> m in AllMoves(t, p, false)
    ensures Sane(rules)
  {
    hide SoundTables, Consistent, AllMoves, Movable, Src, Dst, Lists;
    forall p: Position | Consistent(p)
      ensures Tryable(p, rules.moves(p)) && Tryable(p, rules.captures(p)) && AllMovable(p, rules.rootMoves(p))
    {
      assert Generates(t, rules, p);
      GeneratedTryable(t, p, rules.moves(p), false);
      GeneratedTryable(t, p, rules.captures(p), true);
      forall i | 0 <= i < |rules.rootMoves(p)|
        ensures Movable(p, Src(rules.rootMoves(p)[i]), Dst(rules.rootMoves(p)[i]))
      {
        CapturesAreMovesToEnemies(t, p, rules.rootMoves(p)[i]);
      }
    }
  }

  /** The scores decide in which order the moves are tried, not what the search is for. */
  lemma {:induction false} ScoresOnlyOrder(t: Tables, a: Rules, b: Rules, l: Line)
    requires Rescored(t, a, b) && Sane(a) && Sane(b) && WellFormed(l) && l.Depth() <= LIMIT_DEPTH
    ensures QuietValue(a, l) == QuietValue(b, l)
    decreases LIMIT_DEPTH - l.Depth(), 1
  {
    hide SoundTables, Consistent, Generates, LoopScore, StaticValue, Flag, BestOf, Legal, Sane;
    SameButOrder(a, b, l);
    LastConsistent(l);
    if l.Depth() < LIMIT_DEPTH && LoopScore(a, l) == INVALIDVALUE {
      QuietIsBest(a, l);
      QuietIsBest(b, l);
      BestOfAtMost(t, a, b, l, StandPat(a, l));
      BestOfAtMost(t, b, a, l, StandPat(a, l));
    }
  }

  lemma QuietIsBest(rules: Rules, l: Line)
    requires Sane(rules) && WellFormed(l) && l.Depth() < LIMIT_DEPTH
    ensures |QuietMoves(rules, l)| <= 128 && Consistent(l.Last()) && Tryable(l.Last(), QuietMoves(rules, l))
    ensures LoopScore(rules, l) == INVALIDVALUE ==>
              QuietValue(rules, l) == BestOf(rules, l, QuietMoves(rules, l), StandPat(rules, l))
  {
    hide LoopScore, StandPat, Flag, Consistent, Playable, BestOf;
    LastConsistent(l);
    assert Tryable(l.Last(), rules.moves(l.Last())) && Tryable(l.Last(), rules.captures(l.Last()));
  }

  lemma {:induction false} BestOfAtMost(t: Tables, a: Rules, b: Rules, l: Line, best: int)
    requires Rescored(t, a, b) && Sane(a) && Sane(b) && WellFormed(l) && l.Depth() < LIMIT_DEPTH
    requires |QuietMoves(a, l)| <= 128 && |QuietMoves(b, l)| <= 128
    ensures BestOf(a, l, QuietMoves(a, l), best) <= BestOf(b, l, QuietMoves(b, l), best)
    decreases LIMIT_DEPTH - l.Depth(), 0
  {
    hide SoundTables, Consistent, LoopScore, StaticValue, Flag, BestOf, Legal, Sane, QuietMoves, QuietValue, Generates, Src, Dst;
    LastConsistent(l);
    SameButOrder(a, b, l);
    var p, v := l.Last(), BestOf(a, l, QuietMoves(a, l), best);
    BestOfBounds(a, l, QuietMoves(a, l), best);
    BestOfBounds(b, l, QuietMoves(b, l), best);
    if v != best {
      var i :| 0 <= i < |QuietMoves(a, l)| && Legal(a, p, QuietMoves(a, l)[i]) && v == Worth(a, l, QuietMoves(a, l)[i]);
      var m := QuietMoves(a, l)[i];
      var j := SameMove(t, a, b, l, i);
      var n := QuietMoves(b, l)[j];
      LegalLow(a, p, m, n);
      SameLegal(a, b, p, n);
      LegalMovable(a, p, m);
      LegalMovable(a, p, n);
      ScoresOnlyOrder(t, a, b, After(l, m));
    }
  }

  /** The move of the other list with the same low bits. */
  lemma SameMove(t: Tables, a: Rules, b: Rules, l: Line, i: nat) returns (j: nat)
    requires Rescored(t, a, b) && WellFormed(l) && i < |QuietMoves(a, l)|
    ensures j < |QuietMoves(b, l)| && Src(QuietMoves(b, l)[j]) == Src(QuietMoves(a, l)[i])
    ensures Dst(QuietMoves(b, l)[j]) == Dst(QuietMoves(a, l)[i])
  {
    hide SoundTables, Consistent, AllMoves, Flag, Src, Dst;
    LastConsistent(l);
    SameButOrder(a, b, l);
    assert Generates(t, a, l.Last()) && Generates(t, b, l.Last());
    var m := QuietMoves(a, l)[i];
    j :| 0 <= j < |QuietMoves(b, l)| && QuietMoves(b, l)[j] % 0x4000 == m % 0x4000;
    LowPartPlays(m);
    LowPartPlays(QuietMoves(b, l)[j]);
  }

  lemma LegalLow(rules: Rules, p: Position, m: nat, n: nat)
    requires Consistent(p) && Src(m) == Src(n) && Dst(m) == Dst(n)
    ensures Legal(rules, p, m) == Legal(rules, p, n)
  {
  }

  lemma SameLegal(a: Rules, b: Rules, p: Position, m: nat)
    requires Consistent(p) && b == a.(moves := b.moves, captures := b.captures)
    ensures Legal(a, p, m) == Legal(b, p, m)
  {
    hide Consistent, Placed, Movable;
  }

  lemma LegalMovable(rules: Rules, p: Position, m: nat)
    requires Consistent(p) && Legal(rules, p, m)
    ensures Movable(p, Src(m), Dst(m))
  {
  }

  lemma {:induction false} SameDigest(a: Rules, b: Rules, pieces: seq<nat>, n: nat)
    requires b == a.(moves := b.moves, captures := b.captures) && n <= |pieces|
    ensures DigestUpTo(a, pieces, n) == DigestUpTo(b, pieces, n)
  {
    if n > 0 { SameDigest(a, b, pieces, n - 1); }
  }

  /** Everything else about a line is the same. */
  lemma SameButOrder(a: Rules, b: Rules, l: Line)
    requires b == a.(moves := b.moves, captures := b.captures) && WellFormed(l)
    ensures LoopScore(a, l) == LoopScore(b, l) && StaticValue(a, l.Last()) == StaticValue(b, l.Last())
    ensures Flag(a, l, l.Ply()) == Flag(b, l, l.Ply())
  {
    hide Consistent, DigestUpTo;
    forall p: Position
      ensures DigestOf(a, p) == DigestOf(b, p) && Status(a, p) == Status(b, p)
    {
      SameDigest(a, b, p.pieces, |p.pieces|);
    }
    NullPlyReached(l, l.Ply());
  }
}
