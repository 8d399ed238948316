/** What the engine's search is to compute: the value of a line of play, without pruning. */
module FoliumLine {
  import opened FoliumPosition

  const WINSCORE := 1000
  const MATEVALUE := 900
  const INVALIDVALUE := 2000
  const LIMIT_DEPTH := 64

  datatype Step = Play(src: nat, dst: nat, captured: nat) | Null(previous: nat)

  /** The last two moves that refuted something at a ply; 0 for none. */
  datatype Killer = Killer(first: nat, second: nat) {
    function Push(move: nat): Killer {
      if move == first then this else Killer(move, first)
    }
  }

  /** The positions from the first to the present one and the steps between them; the
      search began at ply `start`. */
  datatype Line = Line(positions: seq<Position>, steps: seq<Step>, start: nat) {
    function Ply(): nat { |steps| }

    function Last(): Position
      requires positions != []
    {
      positions[|positions| - 1]
    }

    function Depth(): int { |steps| - start }
  }

  ghost predicate WellFormed(l: Line) {
    && |l.positions| == |l.steps| + 1 && l.start <= |l.steps|
    && (forall i :: 0 <= i < |l.positions| ==> Consistent(l.positions[i]))
  }

  /** Every step leads from the position before it to the one after it, and can be taken
      back from there. */
  ghost predicate Linked(l: Line) {
    && WellFormed(l)
    && forall i :: 0 <= i < |l.steps| ==> Follows(l, i)
  }

  ghost predicate Follows(l: Line, i: nat)
    requires WellFormed(l) && i < |l.steps|
  {
    match l.steps[i]
    case Play(src, dst, captured) =>
      Unmovable(l.positions[i + 1], src, dst, captured) && Unmoved(l.positions[i + 1], src, dst, captured) == l.positions[i]
    case Null(previous) => l.positions[i] == Flipped(l.positions[i + 1]) && previous == NullPly(l, i)
  }

  function Status(rules: Rules, p: Position): nat {
    if rules.inCheck(p, p.player) then 1 else 0
  }

  /** The flag field of the trace at ply i: whether the player to move is in check, except
      that after a null move it is the ply of the null move before. */
  function Flag(rules: Rules, l: Line, i: nat): nat
    requires |l.positions| == |l.steps| + 1 && i <= |l.steps|
  {
    if i > 0 && l.steps[i - 1].Null? then l.steps[i - 1].previous else Status(rules, l.positions[i])
  }

  /** The ply of the latest null move, or of the start of the search. */
  function NullPly(l: Line, i: nat): nat
    requires i <= |l.steps|
  {
    if i <= l.start then l.start
    else if l.steps[i - 1].Null? then i
    else NullPly(l, i - 1)
  }

  lemma {:induction false} NullPlyReached(l: Line, i: nat)
    requires l.start <= i <= |l.steps|
    ensures l.start <= NullPly(l, i) <= i
  {
    if i > l.start && !l.steps[i - 1].Null? {
      NullPlyReached(l, i - 1);
    }
  }

  function StaticValue(rules: Rules, p: Position): int {
    (if p.player == 0 then DigestOf(rules, p).value else -DigestOf(rules, p).value) + 4
  }

  /** The score of a repetition: INVALIDVALUE for none.  Who alone gives check in it loses. */
  function LoopScore(rules: Rules, l: Line): int
    requires WellFormed(l)
  {
    var n, ply := l.Ply(), l.Depth();
    if n - NullPly(l, n) >= 4 && DigestOf(rules, l.positions[n]).key == DigestOf(rules, l.positions[n - 4]).key then
      if Flag(rules, l, n) != 0 && Flag(rules, l, n - 2) != 0 then
        if Flag(rules, l, n - 1) != 0 && Flag(rules, l, n - 3) != 0 then rules.ninePerTen(StaticValue(rules, l.Last()))
        else INVALIDVALUE - (ply - 1)
      else if Flag(rules, l, n - 1) != 0 && Flag(rules, l, n - 3) != 0 then ply - 1 - INVALIDVALUE
      else rules.ninePerTen(StaticValue(rules, l.Last()))
    else INVALIDVALUE
  }

  /** What the generators are trusted with: moves the player may try, no more than the
      move list holds. */
  ghost predicate Sane(rules: Rules) {
    forall p: Position :: Consistent(p) ==>
      Tryable(p, rules.moves(p)) && Tryable(p, rules.captures(p)) && AllMovable(p, rules.rootMoves(p))
  }

  predicate AllMovable(p: Position, moves: seq<nat>)
    requires Consistent(p)
  {
    forall i :: 0 <= i < |moves| ==> Movable(p, Src(moves[i]), Dst(moves[i]))
  }

  /** What is_legal_move asks before anything else: a man, and another side's square or an
      empty one.  Whose turn it is it does not ask. */
  ghost predicate LegalSound(legal: (Position, nat) -> bool) {
    forall p: Position, m: nat :: Consistent(p) && legal(p, m) ==> Movable(p, Src(m), Dst(m))
  }

  ghost predicate Tryable(p: Position, moves: seq<nat>)
    requires Consistent(p)
  {
    |moves| <= 128 && forall i :: 0 <= i < |moves| ==> Movable(p, Src(moves[i]), Dst(moves[i]))
  }

  /** A move is made unless it leaves the player's own king in check. */
  predicate Legal(rules: Rules, p: Position, move: nat)
    requires Consistent(p)
  {
    Movable(p, Src(move), Dst(move)) && !rules.inCheck(Placed(p, Src(move), Dst(move)), p.player)
  }

  predicate TakesKing(p: Position, move: nat)
    requires Consistent(p) && Movable(p, Src(move), Dst(move))
  {
    p.squares[Dst(move)] == 0 || p.squares[Dst(move)] == 16
  }

  /** The moves the search chooses from: one that takes a king if there is any, else the
      legal ones that are not banned, all of them. */
  ghost predicate RootMoves(rules: Rules, p: Position, ban: set<nat>, r: seq<nat>)
    requires Consistent(p) && AllMovable(p, rules.rootMoves(p))
  {
    var moves := rules.rootMoves(p);
    if exists k :: 0 <= k < |moves| && TakesKing(p, moves[k]) then
      exists k :: 0 <= k < |moves| && TakesKing(p, moves[k]) && r == [moves[k]]
    else
      forall m :: m in r <==> m in moves && Legal(rules, p, m) && m !in ban
  }

  function After(l: Line, move: nat): (r: Line)
    requires WellFormed(l) && Movable(l.Last(), Src(move), Dst(move))
    ensures WellFormed(r) && r.Depth() == l.Depth() + 1
  {
    var p := l.Last();
    Line(l.positions + [Moved(p, Src(move), Dst(move))],
         l.steps + [Play(Src(move), Dst(move), p.squares[Dst(move)])], l.start)
  }

  function AfterNull(l: Line): (r: Line)
    requires WellFormed(l)
    ensures WellFormed(r) && r.Depth() == l.Depth() + 1
  {
    Line(l.positions + [Flipped(l.Last())], l.steps + [Null(NullPly(l, l.Ply()))], l.start)
  }

  /** The line without its last step. */
  function Before(l: Line): (r: Line)
    requires WellFormed(l) && |l.steps| > l.start
    ensures WellFormed(r)
  {
    Line(l.positions[..|l.steps|], l.steps[..|l.steps| - 1], l.start)
  }

  lemma {:induction false} NullPlyOfPrefix(l: Line, m: Line, i: nat)
    requires l.start == m.start && i <= |l.steps| && i <= |m.steps|
    requires forall j :: 0 <= j < i ==> l.steps[j] == m.steps[j]
    ensures NullPly(l, i) == NullPly(m, i)
  {
    if i > l.start && !l.steps[i - 1].Null? {
      NullPlyOfPrefix(l, m, i - 1);
    }
  }

  lemma AfterLinked(l: Line, move: nat)
    requires Linked(l) && Movable(l.Last(), Src(move), Dst(move))
    ensures var r := After(l, move);
            Linked(r) && Before(r) == l && NullPly(r, r.Ply()) == NullPly(l, l.Ply())
  {
    hide Movable, Moved, Unmovable, Unmoved, Consistent;
    var r := After(l, move);
    UnmoveIsInverse(l.Last(), Src(move), Dst(move));
    NullPlyOfPrefix(l, r, l.Ply());
    forall i | 0 <= i < |r.steps|
      ensures Follows(r, i)
    {
      if i < |l.steps| {
        assert Follows(l, i);
        NullPlyOfPrefix(l, r, i);
      }
    }
  }

  lemma AfterNullLinked(l: Line)
    requires Linked(l)
    ensures var r := AfterNull(l);
            Linked(r) && Before(r) == l && NullPly(r, r.Ply()) == r.Ply()
  {
    hide Unmovable, Unmoved, Consistent;
    var r := AfterNull(l);
    PlayerKnown(l.Last());
    NullPlyOfPrefix(l, r, l.Ply());
    forall i | 0 <= i < |r.steps|
      ensures Follows(r, i)
    {
      if i < |l.steps| {
        assert Follows(l, i);
        NullPlyOfPrefix(l, r, i);
      }
    }
  }

  lemma PlayerKnown(p: Position)
    requires Consistent(p)
    ensures p.player < 2 && Consistent(Flipped(p)) && Flipped(Flipped(p)) == p
  {
  }

  /** A search may start where only moves have been made. */
  lemma RootedLinked(l: Line)
    requires Linked(l) && forall i :: 0 <= i < |l.steps| ==> l.steps[i].Play?
    ensures Linked(l.(start := l.Ply()))
  {
    hide Unmovable, Unmoved, Consistent;
    var r := l.(start := l.Ply());
    forall i | 0 <= i < |r.steps|
      ensures Follows(r, i)
    {
      assert Follows(l, i);
    }
  }

  lemma BeforeLinked(l: Line)
    requires Linked(l) && |l.steps| > l.start
    ensures Linked(Before(l)) && Follows(l, |l.steps| - 1)
    ensures NullPly(Before(l), |l.steps| - 1) == NullPly(l, |l.steps| - 1)
    ensures NullPly(l, l.Ply()) == if l.steps[|l.steps| - 1].Null? then l.Ply() else NullPly(l, |l.steps| - 1)
  {
    hide Unmovable, Unmoved, Consistent;
    var r := Before(l);
    NullPlyOfPrefix(l, r, |l.steps| - 1);
    forall i | 0 <= i < |r.steps|
      ensures Follows(r, i)
    {
      assert Follows(l, i);
      NullPlyOfPrefix(l, r, i);
    }
  }

  // --------------------------------------------------------------------------
  // The quiescence value, every move searched
  // --------------------------------------------------------------------------

  function Larger(a: int, b: int): int {
    if a > b then a else b
  }

  ghost function QuietMoves(rules: Rules, l: Line): seq<nat>
    requires WellFormed(l)
  {
    if Flag(rules, l, l.Ply()) != 0 then rules.moves(l.Last()) else rules.captures(l.Last())
  }

  /** The score a position has before any move is tried. */
  ghost function StandPat(rules: Rules, l: Line): int
    requires WellFormed(l)
  {
    var mated := l.Depth() - WINSCORE;
    if Flag(rules, l, l.Ply()) != 0 then mated else Larger(mated, StaticValue(rules, l.Last()))
  }

  ghost function QuietValue(rules: Rules, l: Line): int
    requires WellFormed(l) && Sane(rules) && l.Depth() <= LIMIT_DEPTH
    decreases LIMIT_DEPTH - l.Depth(), 129
  {
    if LoopScore(rules, l) != INVALIDVALUE then LoopScore(rules, l)
    else if l.Depth() == LIMIT_DEPTH then StaticValue(rules, l.Last())
    else
      var moves := QuietMoves(rules, l);
      assert Tryable(l.Last(), moves);
      BestOf(rules, l, moves, StandPat(rules, l))
  }

  /** The largest of `best` and what the legal ones among the moves lead to. */
  ghost function BestOf(rules: Rules, l: Line, moves: seq<nat>, best: int): int
    requires WellFormed(l) && Sane(rules) && l.Depth() < LIMIT_DEPTH && |moves| <= 128
    decreases LIMIT_DEPTH - l.Depth(), |moves|
  {
    if moves == [] then best
    else
      var n := |moves| - 1;
      var sofar := BestOf(rules, l, moves[..n], best);
      if Legal(rules, l.Last(), moves[n]) then Larger(sofar, -QuietValue(rules, After(l, moves[n]))) else sofar
  }

  /** What a legal move is worth to the player who makes it. */
  ghost function Worth(rules: Rules, l: Line, move: nat): int
    requires WellFormed(l) && Sane(rules) && l.Depth() < LIMIT_DEPTH && Legal(rules, l.Last(), move)
  {
    -QuietValue(rules, After(l, move))
  }

  lemma BestOfNext(rules: Rules, l: Line, moves: seq<nat>, i: nat, best: int)
    requires WellFormed(l) && Sane(rules) && l.Depth() < LIMIT_DEPTH && i < |moves| <= 128
    ensures var sofar := BestOf(rules, l, moves[..i], best);
            BestOf(rules, l, moves[..i + 1], best) ==
            if Legal(rules, l.Last(), moves[i]) then Larger(sofar, Worth(rules, l, moves[i])) else sofar
  {
    assert moves[..i + 1][..i] == moves[..i];
  }

  ghost predicate Bounds(rules: Rules, l: Line, moves: seq<nat>, best: int, v: int)
    requires WellFormed(l) && Sane(rules) && l.Depth() < LIMIT_DEPTH
  {
    && v >= best
    && (forall i :: 0 <= i < |moves| && Legal(rules, l.Last(), moves[i]) ==> v >= Worth(rules, l, moves[i]))
    && (v == best || exists i :: 0 <= i < |moves| && Legal(rules, l.Last(), moves[i]) && v == Worth(rules, l, moves[i]))
  }

  lemma BoundsNext(rules: Rules, l: Line, moves: seq<nat>, best: int, v: int, m: nat)
    requires WellFormed(l) && Sane(rules) && l.Depth() < LIMIT_DEPTH
    requires Bounds(rules, l, moves, best, v)
    ensures Bounds(rules, l, moves + [m], best,
                   if Legal(rules, l.Last(), m) then Larger(v, Worth(rules, l, m)) else v)
  {
    hide Legal, Sane, WellFormed, Worth;
    var longer := moves + [m];
    assert forall i :: 0 <= i < |moves| ==> longer[i] == moves[i];
    assert longer[|moves|] == m;
  }

  lemma {:induction false} BestOfBounds(rules: Rules, l: Line, moves: seq<nat>, best: int)
    requires WellFormed(l) && Sane(rules) && l.Depth() < LIMIT_DEPTH && |moves| <= 128
    ensures Bounds(rules, l, moves, best, BestOf(rules, l, moves, best))
    decreases |moves|
  {
    hide Legal, Sane, WellFormed, Worth, QuietValue;
    if moves != [] {
      var n := |moves| - 1;
      BestOfBounds(rules, l, moves[..n], best);
      BestOfNext(rules, l, moves, n, best);
      BoundsNext(rules, l, moves[..n], best, BestOf(rules, l, moves[..n], best), moves[n]);
      assert moves == moves[..n] + [moves[n]] == moves[..n + 1];
    }
  }

  /** The order in which the moves are tried does not matter. */
  lemma BestOfReordered(rules: Rules, l: Line, a: seq<nat>, b: seq<nat>, best: int)
    requires WellFormed(l) && Sane(rules) && l.Depth() < LIMIT_DEPTH && |a| <= 128 && |b| <= 128
    requires multiset(a) == multiset(b)
    ensures BestOf(rules, l, a, best) == BestOf(rules, l, b, best)
  {
    hide Legal, Sane, WellFormed, BestOf, Worth;
    BestOfBounds(rules, l, a, best);
    BestOfBounds(rules, l, b, best);
    SameMembers(a, b);
  }

  lemma SameMembers(a: seq<nat>, b: seq<nat>)
    requires multiset(a) == multiset(b)
    ensures forall i :: 0 <= i < |a| ==> a[i] in b
    ensures forall i :: 0 <= i < |b| ==> b[i] in a
  {
    assert forall i :: 0 <= i < |a| ==> a[i] in multiset(a);
    assert forall i :: 0 <= i < |b| ==> b[i] in multiset(b);
  }

  lemma Exchanged(a: seq<nat>, b: seq<nat>, i: nat, j: nat)
    requires i < j < |a| == |b| && b[i] == a[j] && b[j] == a[i]
    requires forall k :: 0 <= k < |a| && k != i && k != j ==> b[k] == a[k]
    ensures multiset(b) == multiset(a)
  {
    assert b == a[i := a[j]][j := a[i]];
  }

  /** Exchanging two entries keeps what a part of an array holds. */
  method Exchange(a: array<nat>, i: nat, j: nat, from: nat, to: nat)
    requires from <= i < j < to <= a.Length
    modifies a
    ensures a[i] == old(a[j]) && a[j] == old(a[i])
    ensures forall k :: 0 <= k < a.Length && k != i && k != j ==> a[k] == old(a[k])
    ensures multiset(a[from..to]) == old(multiset(a[from..to]))
  {
    ghost var was := a[from..to];
    a[i], a[j] := a[j], a[i];
    Exchanged(was, a[from..to], i - from, j - from);
  }

  /** What is left to search at depth zero: the captures only, and the static value. */
  ghost function LeafValue(rules: Rules, l: Line): int
    requires WellFormed(l) && Sane(rules) && l.Depth() < LIMIT_DEPTH
  {
    assert Tryable(l.Last(), rules.captures(l.Last()));
    BestOf(rules, l, rules.captures(l.Last()), Larger(l.Depth() - WINSCORE, StaticValue(rules, l.Last())))
  }

  // --------------------------------------------------------------------------
  // What a pruned search may answer
  // --------------------------------------------------------------------------

  /** r is exact inside the window and a bound on the right side outside it. */
  predicate Answers(v: int, alpha: int, beta: int, r: int) {
    && (r >= beta ==> v >= r)
    && (r <= alpha ==> v <= r)
    && (alpha < r < beta ==> r == v)
  }

  /** How the running maximum, the running alpha and the true maximum of the moves tried so
      far hang together. */
  predicate Running(m: int, alpha0: int, beta: int, alpha: int, best: int) {
    && alpha0 <= alpha < beta && best < beta
    && (alpha == alpha0 || alpha == best)
    && m <= best && (best > alpha0 ==> m == best)
  }

  /** One more move, worth w, answered by score. */
  lemma RunningNext(m: int, alpha0: int, beta: int, alpha: int, best: int, w: int, score: int)
    requires Running(m, alpha0, beta, alpha, best) && Answers(w, alpha, beta, score)
    ensures score >= beta ==> Answers(Larger(m, w), alpha0, beta, beta)
    ensures score < beta ==>
              Running(Larger(m, w), alpha0, beta,
                      if score > best && score > alpha then score else alpha, Larger(best, score))
    ensures score < beta && score <= best ==> Running(Larger(m, w), alpha0, beta, alpha, best)
  {
  }

  lemma RunningAnswers(m: int, alpha0: int, beta: int, alpha: int, best: int)
    requires Running(m, alpha0, beta, alpha, best)
    ensures Answers(m, alpha0, beta, best)
  {
  }

  /** One more move of the loop, if its window was sound. */
  lemma LoopNext(sound: bool, m: int, alpha0: int, beta: int, alpha: int, best: int, w: int, score: int, v: int)
    requires sound ==> Running(m, alpha0, beta, alpha, best) && (alpha < beta ==> Answers(w, alpha, beta, score))
    requires Larger(m, w) <= v
    ensures sound && score >= beta ==> Answers(v, alpha0, beta, beta)
    ensures sound && score < beta ==>
              Running(Larger(m, w), alpha0, beta,
                      if score > best && score > alpha then score else alpha, Larger(best, score))
  {
    if sound {
      RunningNext(m, alpha0, beta, alpha, best, w, score);
    }
  }

  lemma StillTryable(p: Position, a: seq<nat>, b: seq<nat>)
    requires Consistent(p) && Tryable(p, a) && multiset(a) == multiset(b)
    ensures Tryable(p, b)
  {
    hide Consistent, Movable;
    SameMembers(a, b);
    assert |multiset(a)| == |a| && |multiset(b)| == |b|;
  }

  lemma NothingTried(rules: Rules, l: Line, none: seq<nat>, best: int)
    requires WellFormed(l) && Sane(rules) && l.Depth() < LIMIT_DEPTH && none == []
    ensures BestOf(rules, l, none, best) == best
  {
  }

  /** Nowhere below, where the depth limit cuts the search off, is the static value worse
      than the deepest mate. */
  ghost predicate LeavesAboveMates(rules: Rules, l: Line)
    requires WellFormed(l) && Sane(rules) && l.Depth() <= LIMIT_DEPTH
    decreases LIMIT_DEPTH - l.Depth(), 1
  {
    || LoopScore(rules, l) != INVALIDVALUE
    || if l.Depth() == LIMIT_DEPTH then StaticValue(rules, l.Last()) >= LIMIT_DEPTH - WINSCORE
       else AllAboveMates(rules, l, QuietMoves(rules, l))
  }

  ghost predicate AllAboveMates(rules: Rules, l: Line, moves: seq<nat>)
    requires WellFormed(l) && Sane(rules) && l.Depth() < LIMIT_DEPTH
    decreases LIMIT_DEPTH - l.Depth(), 0
  {
    forall m :: m in moves && Legal(rules, l.Last(), m) ==> LeavesAboveMates(rules, After(l, m))
  }

  lemma OneAboveMates(rules: Rules, l: Line, all: seq<nat>, now: seq<nat>, i: nat)
    requires WellFormed(l) && Sane(rules) && l.Depth() < LIMIT_DEPTH && AllAboveMates(rules, l, all)
    requires multiset(all) == multiset(now) && i < |now| && Legal(rules, l.Last(), now[i])
    ensures LeavesAboveMates(rules, After(l, now[i]))
  {
    hide WellFormed, Sane, Legal, LeavesAboveMates;
    SameMembers(all, now);
  }

  /** Without a repetition no line is worth less than being mated here. */
  lemma QuietAboveMated(rules: Rules, l: Line)
    requires WellFormed(l) && Sane(rules) && 0 <= l.Depth() <= LIMIT_DEPTH && LeavesAboveMates(rules, l)
    ensures LoopScore(rules, l) == INVALIDVALUE ==> QuietValue(rules, l) >= l.Depth() - WINSCORE
  {
    hide WellFormed, Consistent, LoopScore, Flag, DigestOf, AllAboveMates;
    LastConsistent(l);
    if LoopScore(rules, l) == INVALIDVALUE && l.Depth() < LIMIT_DEPTH {
      QuietAboveStandPat(rules, l);
    }
  }

  /** What the search answers at the depth limit: it compares with being mated before it
      looks at the board. */
  function AtLimit(rules: Rules, l: Line, beta: int): int
    requires WellFormed(l)
  {
    if LoopScore(rules, l) != INVALIDVALUE then LoopScore(rules, l)
    else if LIMIT_DEPTH - WINSCORE >= beta then LIMIT_DEPTH - WINSCORE
    else StaticValue(rules, l.Last())
  }

  /** A window within the scores of the deepest mates. */
  predicate Narrow(alpha: int, beta: int) {
    LIMIT_DEPTH - WINSCORE <= alpha && beta <= WINSCORE - LIMIT_DEPTH
  }

  /** The window is narrow, or no line below ends at the limit worse than mated. */
  ghost predicate Safe(rules: Rules, l: Line, moves: seq<nat>, alpha: int, beta: int)
    requires WellFormed(l) && Sane(rules) && l.Depth() < LIMIT_DEPTH
  {
    Narrow(alpha, beta) || AllAboveMates(rules, l, moves)
  }

  ghost predicate SafeAfter(rules: Rules, l: Line, move: nat, alpha: int, beta: int)
    requires WellFormed(l) && Sane(rules) && l.Depth() < LIMIT_DEPTH && Legal(rules, l.Last(), move)
  {
    Narrow(alpha, beta) || LeavesAboveMates(rules, After(l, move))
  }

  lemma StaysSafe(rules: Rules, l: Line, all: seq<nat>, now: seq<nat>, i: nat, alpha0: int, alpha: int, beta: int)
    requires WellFormed(l) && Sane(rules) && l.Depth() < LIMIT_DEPTH && Safe(rules, l, all, alpha0, beta)
    requires multiset(all) == multiset(now) && i < |now| && Legal(rules, l.Last(), now[i]) && alpha0 <= alpha
    ensures SafeAfter(rules, l, now[i], alpha, beta)
  {
    hide WellFormed, Sane, Legal, LeavesAboveMates, AllAboveMates;
    if !Narrow(alpha0, beta) { OneAboveMates(rules, l, all, now, i); }
  }

  /** At the limit the answer is right for a window just if the window reaches above the
      deepest mate or the static value is not worse than it; and so for every window just
      if the static value is not. */
  lemma LimitIsExact(rules: Rules, l: Line)
    requires WellFormed(l) && Sane(rules) && l.Depth() == LIMIT_DEPTH
    ensures forall alpha, beta :: alpha < beta ==>
              (Answers(QuietValue(rules, l), alpha, beta, AtLimit(rules, l, beta)) <==>
               beta > LIMIT_DEPTH - WINSCORE || LeavesAboveMates(rules, l))
    ensures (forall alpha, beta :: alpha < beta ==> Answers(QuietValue(rules, l), alpha, beta, AtLimit(rules, l, beta))) <==>
            LeavesAboveMates(rules, l)
  {
    hide WellFormed, LoopScore, StaticValue;
    if !LeavesAboveMates(rules, l) {
      var beta := LIMIT_DEPTH - WINSCORE;
      assert !Answers(QuietValue(rules, l), beta - 1, beta, AtLimit(rules, l, beta));
    }
  }

  lemma QuietAboveStandPat(rules: Rules, l: Line)
    requires WellFormed(l) && Sane(rules) && 0 <= l.Depth() < LIMIT_DEPTH
    ensures LoopScore(rules, l) == INVALIDVALUE ==> QuietValue(rules, l) >= StandPat(rules, l)
  {
    hide WellFormed, Consistent, LoopScore, Flag, DigestOf, Legal, StandPat;
    LastConsistent(l);
    var moves := QuietMoves(rules, l);
    assert Tryable(l.Last(), moves);
    BestOfBounds(rules, l, moves, StandPat(rules, l));
  }

  lemma LastConsistent(l: Line)
    requires WellFormed(l)
    ensures |l.positions| == |l.steps| + 1 && Consistent(l.Last())
  {
  }

  lemma {:induction false} BestOfGrows(rules: Rules, l: Line, moves: seq<nat>, n: nat, best: int)
    requires WellFormed(l) && Sane(rules) && l.Depth() < LIMIT_DEPTH && n <= |moves| <= 128
    ensures BestOf(rules, l, moves[..n], best) <= BestOf(rules, l, moves, best)
    decreases |moves| - n
  {
    hide WellFormed, Sane, Legal, QuietValue, BestOf;
    if n == |moves| {
      assert moves[..n] == moves;
    } else {
      BestOfNext(rules, l, moves, n, best);
      BestOfGrows(rules, l, moves, n + 1, best);
    }
  }

  /** The i-th move of the loop has been tried; v is what all moves in their first order give. */
  lemma OneTried(rules: Rules, l: Line, all: seq<nat>, now: seq<nat>, i: nat, best0: int, sound: bool,
                 alpha0: int, beta: int, alpha: int, best: int, made: bool, score: int)
    requires WellFormed(l) && Sane(rules) && l.Depth() < LIMIT_DEPTH && i < |now| <= 128 && |all| <= 128
    requires multiset(now) == multiset(all) && (made <==> Legal(rules, l.Last(), now[i]))
    requires made && alpha < beta && SafeAfter(rules, l, now[i], alpha, beta) ==>
               Answers(Worth(rules, l, now[i]), alpha, beta, score)
    requires sound ==> Safe(rules, l, all, alpha0, beta)
    requires sound ==> Running(BestOf(rules, l, now[..i], best0), alpha0, beta, alpha, best)
    ensures sound && !made ==> Running(BestOf(rules, l, now[..i + 1], best0), alpha0, beta, alpha, best)
    ensures sound && made && score >= beta ==> Answers(BestOf(rules, l, all, best0), alpha0, beta, beta)
    ensures sound && made && score < beta ==>
              Running(BestOf(rules, l, now[..i + 1], best0), alpha0, beta,
                      if score > best && score > alpha then score else alpha, Larger(best, score))
  {
    hide WellFormed, Sane, Legal, Worth, BestOf, Answers, Running, Safe, SafeAfter;
    BestOfNext(rules, l, now, i, best0);
    if sound { RunningOpen(BestOf(rules, l, now[..i], best0), alpha0, beta, alpha, best); }
    if made {
      if sound { StaysSafe(rules, l, all, now, i, alpha0, alpha, beta); }
      BestOfGrows(rules, l, now, i + 1, best0);
      BestOfReordered(rules, l, now, all, best0);
      LoopNext(sound, BestOf(rules, l, now[..i], best0), alpha0, beta, alpha, best, Worth(rules, l, now[i]), score,
               BestOf(rules, l, all, best0));
    }
  }

  lemma RunningOpen(m: int, alpha0: int, beta: int, alpha: int, best: int)
    requires Running(m, alpha0, beta, alpha, best)
    ensures alpha0 <= alpha < beta
  {
  }
}
