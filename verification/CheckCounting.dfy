/** The counters that end a game by perpetual check or by length, against what they are
    meant to count: properties of the whole history of checks. */
module CheckCounting {
  import opened Xiangqi

  const PERPETUAL_CHECKS_MAX := 6
  const EFFECTIVE_MOVES_MAX := 200

  /** Which moves so far gave check; Red made the moves with an even index. */
  type History = seq<bool>

  /** The table's four counting fields. */
  datatype Tally = Tally(prevCheck: bool, effective: nat, redChecks: nat, blackChecks: nat)

  const NO_MOVES := Tally(false, 0, 0, 0)

  function Mover(h: History): Color {
    if |h| % 2 == 0 then Red else Black
  }

  /** What one move does to the counters. */
  function Count(t: Tally, c: Color, check: bool): Tally {
    Tally(
      check,
      if !check && !t.prevCheck then t.effective + 1 else t.effective,
      if c != Red then t.redChecks else if check then t.redChecks + 1 else 0,
      if c != Black then t.blackChecks else if check then t.blackChecks + 1 else 0)
  }

  /** The verdict on a move that the counters now stand at t for. */
  function Judge(t: Tally, c: Color, check: bool, prevCheck: bool): Status {
    if check then
      if c == Red && t.redChecks > PERPETUAL_CHECKS_MAX then BlackWin
      else if c == Black && t.blackChecks > PERPETUAL_CHECKS_MAX then RedWin
      else InProgress
    else if !prevCheck && t.effective > EFFECTIVE_MOVES_MAX then Drawn
    else InProgress
  }

  function TallyOf(h: History): Tally {
    if h == [] then NO_MOVES
    else
      var before := h[..|h| - 1];
      Count(TallyOf(before), Mover(before), h[|h| - 1])
  }

  /** One more move. */
  lemma OneMoreMove(h: History, check: bool)
    ensures TallyOf(h + [check]) == Count(TallyOf(h), Mover(h), check)
    ensures GoesOn(h + [check]) <==>
            GoesOn(h) && Judge(TallyOf(h + [check]), Mover(h), check, TallyOf(h).prevCheck) == InProgress
  {
    assert (h + [check])[..|h|] == h;
  }

  // --------------------------------------------------------------------------
  // What the counters mean
  // --------------------------------------------------------------------------

  /** The moves of one side, in order. */
  ghost function OwnMoves(h: History, c: Color): seq<bool> {
    if h == [] then []
    else
      var before := h[..|h| - 1];
      OwnMoves(before, c) + if Mover(before) == c then [h[|h| - 1]] else []
  }

  /** s ends in exactly n checks. */
  ghost predicate EndsInChecks(s: seq<bool>, n: nat) {
    && n <= |s|
    && (forall i :: |s| - n <= i < |s| ==> s[i])
    && (n < |s| ==> !s[|s| - n - 1])
  }

  predicate IsEffective(h: History, i: nat)
    requires i < |h|
  {
    !h[i] && (i == 0 || !h[i - 1])
  }

  /** The non-check moves that do not follow a check. */
  ghost function EffectiveMoves(h: History): set<nat> {
    set i: nat | i < |h| && IsEffective(h, i)
  }

  lemma {:induction false} EffectiveGrows(h: History)
    requires h != []
    ensures var n := |h| - 1;
            && EffectiveMoves(h) == EffectiveMoves(h[..n]) + (if IsEffective(h, n) then {n} else {})
            && n !in EffectiveMoves(h[..n])
  {
    var n := |h| - 1;
    assert forall i: nat :: i < n ==> IsEffective(h, i) == IsEffective(h[..n], i);
  }

  lemma EffectiveMeans(h: History)
    ensures h != [] ==> IsEffective(h, |h| - 1) == (!h[|h| - 1] && (|h| == 1 || !h[|h| - 2]))
  {
  }

  lemma NothingCounted()
    ensures EffectiveMoves([]) == {} && EndsInChecks([], 0)
  {
  }

  lemma ChecksGrow(s: seq<bool>, n: nat, check: bool)
    requires EndsInChecks(s, n)
    ensures EndsInChecks(s + [check], if check then n + 1 else 0)
  {
  }

  /** The four counters are what they are named for, whatever the history. */
  lemma {:induction false} TallyMeaning(h: History)
    ensures var t := TallyOf(h);
            && t.prevCheck == (h != [] && h[|h| - 1])
            && t.effective == |EffectiveMoves(h)|
            && EndsInChecks(OwnMoves(h, Red), t.redChecks)
            && EndsInChecks(OwnMoves(h, Black), t.blackChecks)
  {
    hide EndsInChecks, EffectiveMoves, IsEffective;
    if h == [] {
      NothingCounted();
    } else {
      EffectiveMeans(h);
      var n := |h| - 1;
      var before := h[..n];
      TallyMeaning(before);
      EffectiveGrows(h);
      var t, c := TallyOf(before), Mover(before);
      ChecksGrow(OwnMoves(before, c), if c == Red then t.redChecks else t.blackChecks, h[n]);
      assert OwnMoves(h, c.Other()) == OwnMoves(before, c.Other());
    }
  }

  // --------------------------------------------------------------------------
  // How long a game can last
  // --------------------------------------------------------------------------

  /** No move so far has ended the game by the counters. */
  ghost predicate GoesOn(h: History) {
    h == [] ||
    var before := h[..|h| - 1];
    && GoesOn(before)
    && Judge(TallyOf(h), Mover(before), h[|h| - 1], TallyOf(before).prevCheck) == InProgress
  }

  ghost predicate OnlyRedChecks(h: History) {
    forall i :: 0 <= i < |h| && i % 2 == 1 ==> !h[i]
  }

  /** How often a side has given check. */
  ghost function ChecksGiven(h: History, c: Color): nat {
    if h == [] then 0
    else ChecksGiven(h[..|h| - 1], c) + if h[|h| - 1] && Mover(h[..|h| - 1]) == c then 1 else 0
  }

  function RowOf(t: Tally, c: Color): nat {
    if c == Red then t.redChecks else t.blackChecks
  }

  /** How many moves the counters allow for: seven for every effective move, two for every
      check in c's present row of checks and seven for every check of the other side's, but
      for the last one where c's row goes on. */
  function Allowance(t: Tally, c: Color, checks: nat): int {
    7 * t.effective + 2 * RowOf(t, c) + 7 * checks - if t.prevCheck && RowOf(t, c) > 0 then 7 else 0
  }

  /** A move of c and one of the other side use up no more than they allow for. */
  lemma OneRound(t: Tally, c: Color, checks: nat, own: bool, other: bool)
    requires RowOf(t, c) <= PERPETUAL_CHECKS_MAX
    ensures var after := Count(Count(t, c, own), c.Other(), other);
            Allowance(t, c, checks) + 2 <= Allowance(after, c, checks + if other then 1 else 0)
  {
  }

  /** The counters of a game that goes on are within their limits. */
  lemma {:induction false} WithinLimits(h: History)
    requires GoesOn(h)
    ensures TallyOf(h).effective <= EFFECTIVE_MOVES_MAX
    ensures TallyOf(h).redChecks <= PERPETUAL_CHECKS_MAX && TallyOf(h).blackChecks <= PERPETUAL_CHECKS_MAX
  {
    if h != [] {
      WithinLimits(h[..|h| - 1]);
    }
  }

  /** Round by round, beginning with c: after at most one move of the other side's. */
  lemma {:induction false} RoundsAllowed(h: History, c: Color)
    requires GoesOn(h) && Mover(h) == c
    ensures |h| <= Allowance(TallyOf(h), c, ChecksGiven(h, c.Other()))
  {
    hide Count, Allowance, Judge;
    if |h| <= 1 {
      FirstAllowed(h, c);
    } else {
      var b := h[..|h| - 1];
      var r := b[..|b| - 1];
      MoverByParity(h);
      MoverByParity(b);
      MoverByParity(r);
      RoundsAllowed(r, c);
      WithinLimits(r);
      OneRound(TallyOf(r), c, ChecksGiven(r, c.Other()), b[|b| - 1], h[|h| - 1]);
    }
  }

  lemma FirstAllowed(h: History, c: Color)
    requires |h| <= 1 && Mover(h) == c
    ensures |h| <= Allowance(TallyOf(h), c, ChecksGiven(h, c.Other()))
  {
    if h != [] {
      assert h[..0] == [];
    }
  }

  /** The counters end every game by the 1412th move, but for seven more for every check
      that a side has given, whichever side one takes. */
  lemma LongestGame(h: History, c: Color)
    requires GoesOn(h)
    ensures |h| <= 1412 + 7 * ChecksGiven(h, c)
  {
    hide TallyOf, GoesOn, ChecksGiven;
    WithinLimits(h);
    MoverByParity(h);
    if Mover(h) == c.Other() {
      RoundsAllowed(h, c.Other());
    } else if h != [] {
      var b := h[..|h| - 1];
      MoverByParity(b);
      OneMoreMove(b, h[|h| - 1]);
      assert h == b + [h[|h| - 1]];
      WithinLimits(b);
      RoundsAllowed(b, c.Other());
      ChecksGrowWith(h, c);
    }
  }

  lemma ChecksGrowWith(h: History, c: Color)
    requires h != []
    ensures ChecksGiven(h[..|h| - 1], c) <= ChecksGiven(h, c)
  {
  }

  lemma {:induction false} NoBlackChecks(h: History)
    requires OnlyRedChecks(h)
    ensures ChecksGiven(h, Black) == 0
  {
    if h != [] {
      NoBlackChecks(h[..|h| - 1]);
    }
  }

  /** If Black never gives check, the counters end every game by the 1412th move. */
  lemma LongestOneSided(h: History)
    requires OnlyRedChecks(h) && GoesOn(h)
    ensures |h| <= 1412
  {
    NoBlackChecks(h);
    LongestGame(h, Black);
  }

  /** Red checks six times, then makes a quiet move, and Black only answers: q rounds of
      14 moves, and r moves of the next. */
  ghost function OneSided(q: nat, r: nat): (h: History)
    requires r < 14
    ensures |h| == 14 * q + r
    decreases q, r
  {
    if r > 0 then OneSided(q, r - 1) + [r % 2 == 1 && r != 13]
    else if q > 0 then OneSided(q - 1, 13) + [false]
    else []
  }

  /** What is counted after them. */
  function OneSidedAt(q: nat, r: nat): Tally {
    Tally(r % 2 == 1 && r != 13, 2 * q + (if r == 13 then 1 else 0), if r == 13 then 0 else (r + 1) / 2, 0)
  }

  lemma OneSidedNext(q: nat, r: nat)
    requires r < 14 && q + r > 0
    ensures var before := if r > 0 then OneSidedAt(q, r - 1) else OneSidedAt(q - 1, 13);
            var c, check := if r % 2 == 1 then Red else Black, r % 2 == 1 && r != 13;
            && Count(before, c, check) == OneSidedAt(q, r)
            && (14 * q + r <= 1412 ==> Judge(OneSidedAt(q, r), c, check, before.prevCheck) == InProgress)
  {
  }

  lemma {:induction false} OneSidedTally(q: nat, r: nat)
    requires r < 14
    ensures TallyOf(OneSided(q, r)) == OneSidedAt(q, r)
    ensures OnlyRedChecks(OneSided(q, r))
    ensures 14 * q + r <= 1412 ==> GoesOn(OneSided(q, r))
    decreases q, r
  {
    hide OnlyRedChecks, TallyOf, GoesOn, Mover, Count, Judge, OneSidedAt, OneSided;
    EvenRounds(7, q, r);
    OneSidedIs(q, r);
    if q + r == 0 {
      NoMoves();
      NoRounds();
    } else {
      if r > 0 { OneSidedTally(q, r - 1); } else { OneSidedTally(q - 1, 13); }
      var before, check := if r > 0 then OneSided(q, r - 1) else OneSided(q - 1, 13), r % 2 == 1 && r != 13;
      MoverByParity(before);
      OneMoreMove(before, check);
      OnlyRedGrows(before, check);
      OneSidedNext(q, r);
    }
  }

  lemma OneSidedIs(q: nat, r: nat)
    requires r < 14
    ensures OneSided(q, r) ==
            if r > 0 then OneSided(q, r - 1) + [r % 2 == 1 && r != 13]
            else if q > 0 then OneSided(q - 1, 13) + [false] else []
  {
  }

  lemma NoRounds()
    ensures OneSidedAt(0, 0) == NO_MOVES
  {
  }

  lemma NoMoves()
    ensures TallyOf([]) == NO_MOVES && GoesOn([]) && OnlyRedChecks([])
  {
  }

  lemma MoverByParity(h: History)
    ensures Mover(h) == if |h| % 2 == 0 then Red else Black
  {
  }

  lemma EvenRounds(k: nat, q: nat, r: nat)
    ensures (2 * k * q + r) % 2 == r % 2
  {
    assert 2 * k * q + r == 2 * (k * q) + r;
  }

  lemma OnlyRedGrows(h: History, check: bool)
    ensures OnlyRedChecks(h) && (check ==> |h| % 2 == 0) ==> OnlyRedChecks(h + [check])
  {
  }

  /** The bound is reached. */
  lemma LongestOneSidedReached()
    ensures exists h :: |h| == 1412 && OnlyRedChecks(h) && GoesOn(h)
  {
    OneSidedTally(100, 12);
    assert |OneSided(100, 12)| == 1412;
  }

  /** Both sides check twice in three moves, each quiet move answering a check: q rounds
      of 6 moves, and r moves of the next. */
  ghost function BothCheck(q: nat, r: nat): (h: History)
    requires r < 6
    ensures |h| == 6 * q + r
    decreases q, r
  {
    if r > 0 then BothCheck(q, r - 1) + [r != 3]
    else if q > 0 then BothCheck(q - 1, 5) + [false]
    else []
  }

  /** What is counted after r moves of a round. */
  predicate BothCheckAt(t: Tally, r: nat) {
    && t.effective == 0 && t.prevCheck == (r != 3 && r != 0)
    && t.redChecks <= (if r == 3 || r == 4 then 0 else if r == 5 || r == 0 then 1 else 2)
    && t.blackChecks <= r / 2
  }

  lemma BothCheckNext(t: Tally, r: nat)
    requires r < 6 && BothCheckAt(t, if r > 0 then r - 1 else 5)
    ensures var c, check := if r % 2 == 1 then Red else Black, r != 3 && r != 0;
            && BothCheckAt(Count(t, c, check), r)
            && Judge(Count(t, c, check), c, check, t.prevCheck) == InProgress
  {
  }

  lemma {:induction false} BothCheckTally(q: nat, r: nat)
    requires r < 6
    ensures BothCheckAt(TallyOf(BothCheck(q, r)), r) && GoesOn(BothCheck(q, r))
    decreases q, r
  {
    hide TallyOf, GoesOn, Mover, BothCheck, Count, Judge, BothCheckAt;
    EvenRounds(3, q, r);
    BothCheckIs(q, r);
    if q + r == 0 {
      NoMoves();
      NothingChecked();
    } else {
      if r > 0 { BothCheckTally(q, r - 1); } else { BothCheckTally(q - 1, 5); }
      var before, check := if r > 0 then BothCheck(q, r - 1) else BothCheck(q - 1, 5), r != 3 && r != 0;
      MoverByParity(before);
      OneMoreMove(before, check);
      BothCheckNext(TallyOf(before), r);
    }
  }

  lemma NothingChecked()
    ensures BothCheckAt(NO_MOVES, 0)
  {
  }

  lemma BothCheckIs(q: nat, r: nat)
    requires r < 6
    ensures BothCheck(q, r) ==
            if r > 0 then BothCheck(q, r - 1) + [r != 3] else if q > 0 then BothCheck(q - 1, 5) + [false] else []
  {
  }

  lemma {:induction false} BothCheckAtOnce(q: nat, r: nat)
    requires r < 6 && 6 * q + r >= 2
    ensures BothCheck(q, r)[0] && BothCheck(q, r)[1]
    decreases q, r
  {
    if 6 * q + r > 2 {
      if r > 0 { BothCheckAtOnce(q, r - 1); } else { BothCheckAtOnce(q - 1, 5); }
    }
  }

  /** When both sides give check there is no bound at all. */
  lemma NoBoundWhenBothCheck(n: nat)
    ensures exists h :: |h| == n && GoesOn(h) && (n >= 2 ==> ChecksBy(h, Red) && ChecksBy(h, Black))
  {
    hide GoesOn, TallyOf;
    var h := BothCheck(n / 6, n % 6);
    BothCheckTally(n / 6, n % 6);
    if n >= 2 {
      BothCheckAtOnce(n / 6, n % 6);
      assert h[..0] == [] && h[..1] == [h[0]];
      MoverByParity(h[..0]);
      MoverByParity(h[..1]);
    }
    assert |h| == n;
  }

  /** A side gives check in the history. */
  ghost predicate ChecksBy(h: History, c: Color) {
    exists i :: 0 <= i < |h| && h[i] && Mover(h[..i]) == c
  }
}
