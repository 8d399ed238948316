/** A line on which the quiescence search is wrong at its depth limit. */
module FoliumFacts {
  import opened FoliumXor
  import opened FoliumPosition
  import opened FoliumLine

  // Red has only his king left and Black has all his men, at home.  The king goes to and
  // fro beside his home square, and a rook goes up and down its column in three moves, so
  // that no position comes back within four plies.

  /** After m moves of the king, and of the rook. */
  function KingAfter(m: nat): nat {
    if m == 0 then 4 else if KingAfter(m - 1) == 4 then 3 else 4
  }

  function RookAfter(m: nat): nat {
    if m == 0 then 81 else if RookAfter(m - 1) == 81 then 72 else if RookAfter(m - 1) == 72 then 63 else 81
  }

  lemma {:induction false} Returns(k: nat)
    ensures KingAfter(2 * k) == 4 && RookAfter(3 * k) == 81
  {
    if k > 0 {
      Returns(k - 1);
      assert KingAfter(2 * k - 1) == 3;
      assert RookAfter(3 * k - 2) == 72 && RookAfter(3 * k - 1) == 63;
    }
  }

  lemma LastPlaces()
    ensures KingAt(60) == KingAt(64) == 4 && RookAt(60) == 81 && RookAt(64) == 63
  {
    Returns(10);
    Returns(15);
    Returns(16);
    assert RookAfter(31) == 72;
  }

  function KingAt(i: nat): nat { KingAfter((i + 1) / 2) }

  function RookAt(i: nat): nat { RookAfter(i / 2) }

  /** Where Black's men stand, but for the rook that walks. */
  function Home(piece: nat): nat {
    if piece < 16 || piece > 31 || piece == 21 then NOWHERE
    else [85, 84, 86, 83, 87, NOWHERE, 89, 82, 88, 64, 70, 54, 56, 58, 60, 62][piece - 16]
  }

  function AtHome(square: nat): nat {
    if square == 85 then 16 else if square == 84 then 17 else if square == 86 then 18
    else if square == 83 then 19 else if square == 87 then 20 else if square == 89 then 22
    else if square == 82 then 23 else if square == 88 then 24 else if square == 64 then 25
    else if square == 70 then 26 else if square == 54 then 27 else if square == 56 then 28
    else if square == 58 then 29 else if square == 60 then 30 else if square == 62 then 31
    else if square == NOWHERE then INVALID_INDEX else EMPTY
  }

  function Army(king: nat, rook: nat, player: nat): Position {
    Position(
      seq(91, s => if s == king then 0 else if s == rook then 21 else if 0 <= s < 91 then AtHome(s) else EMPTY),
      seq(32, k => if k == 0 then king else if k == 21 then rook else if 0 <= k < 32 then Home(k) else NOWHERE),
      player)
  }

  function Walk(i: nat): Position {
    Army(KingAt(i), RookAt(i), i % 2)
  }

  function WalkStep(i: nat): Step {
    if i % 2 == 0 then Play(KingAt(i), KingAt(i + 1), EMPTY) else Play(RookAt(i), RookAt(i + 1), EMPTY)
  }

  function LongWalk(): Line {
    Line(seq(65, i requires 0 <= i < 65 => Walk(i)), seq(64, i requires 0 <= i < 64 => WalkStep(i)), 0)
  }

  // --------------------------------------------------------------------------
  // The line
  // --------------------------------------------------------------------------

  predicate Walkable(king: nat, rook: nat) {
    king in {3, 4} && rook in {81, 72, 63}
  }

  lemma HomesAgree(piece: nat, square: nat)
    ensures piece < 32 && Home(piece) != NOWHERE ==> Home(piece) < 90 && AtHome(Home(piece)) == piece
    ensures square < 90 && AtHome(square) < 32 ==> Home(AtHome(square)) == square && AtHome(square) !in {0, 21}
    ensures AtHome(square) <= INVALID_INDEX && (square < 90 ==> AtHome(square) <= EMPTY)
    ensures Home(piece) <= NOWHERE && Home(0) == Home(21) == NOWHERE
    ensures forall k, r :: Walkable(k, r) ==> AtHome(k) == EMPTY && AtHome(r) == EMPTY && k != r
  {
  }

  lemma ArmyConsistent(king: nat, rook: nat, player: nat)
    requires Walkable(king, rook) && player < 2
    ensures Consistent(Army(king, rook, player))
  {
    hide Home, AtHome;
    HomesAgree(0, NOWHERE);
    forall piece: nat
      ensures Home(piece) <= NOWHERE
      ensures piece < 32 && Home(piece) != NOWHERE ==> Home(piece) < 90 && AtHome(Home(piece)) == piece
    {
      HomesAgree(piece, 0);
    }
    forall square: nat
      ensures square < 90 ==> AtHome(square) <= EMPTY
      ensures square < 90 && AtHome(square) < 32 ==> Home(AtHome(square)) == square && AtHome(square) !in {0, 21}
    {
      HomesAgree(0, square);
    }
    OffBoard();
  }

  lemma OffBoard()
    ensures AtHome(NOWHERE) == INVALID_INDEX
  {
  }

  /** The king or the rook goes back. */
  lemma StepBack(king: nat, king': nat, rook: nat, rook': nat, player: nat)
    requires Walkable(king, rook) && Walkable(king', rook') && player < 2 && (king == king') != (rook == rook')
    ensures Consistent(Army(king, rook, player)) && Consistent(Army(king', rook', 1 - player))
    ensures var q, src, dst := Army(king', rook', 1 - player), if rook == rook' then king else rook,
                               if rook == rook' then king' else rook';
            Unmovable(q, src, dst, EMPTY) && Unmoved(q, src, dst, EMPTY) == Army(king, rook, player)
  {
    hide Home, AtHome, Consistent;
    ArmyConsistent(king, rook, player);
    ArmyConsistent(king', rook', 1 - player);
    HomesAgree(0, 0);
    var p, q := Army(king, rook, player), Army(king', rook', 1 - player);
    var u := Unmoved(q, if rook == rook' then king else rook, if rook == rook' then king' else rook', EMPTY);
    assert u.squares == p.squares;
    assert u.pieces == p.pieces;
  }

  lemma Turns(i: nat)
    ensures (i + 1) % 2 == 1 - i % 2 && Walkable(KingAt(i), RookAt(i)) && Walkable(KingAt(i + 1), RookAt(i + 1))
    ensures if i % 2 == 0 then KingAt(i) != KingAt(i + 1) && RookAt(i) == RookAt(i + 1)
            else KingAt(i) == KingAt(i + 1) && RookAt(i) != RookAt(i + 1)
  {
    hide KingAfter, RookAfter;
    var m := i / 2;
    assert (i + 1) / 2 == m + i % 2 && (i + 2) / 2 == m + 1;
    OneMore(m);
    OneMore(m + 1);
  }

  lemma OneMore(m: nat)
    ensures KingAfter(m) in {3, 4} && RookAfter(m) in {81, 72, 63}
    ensures KingAfter(m) != KingAfter(m + 1) && RookAfter(m) != RookAfter(m + 1)
  {
  }

  lemma WalkFollows(i: nat)
    ensures Consistent(Walk(i)) && Consistent(Walk(i + 1)) && WalkStep(i).Play?
    ensures var s := WalkStep(i);
            && Unmovable(Walk(i + 1), s.src, s.dst, s.captured)
            && Unmoved(Walk(i + 1), s.src, s.dst, s.captured) == Walk(i)
  {
    hide Consistent, Army, KingAfter, RookAfter, Unmovable, Unmoved, Walkable;
    Turns(i);
    StepBack(KingAt(i), KingAt(i + 1), RookAt(i), RookAt(i + 1), i % 2);
  }

  lemma {:induction false} NoNulls(i: nat)
    requires i <= 64
    ensures NullPly(LongWalk(), i) == 0
  {
    hide Walk;
    if i > 0 { NoNulls(i - 1); }
  }

  // --------------------------------------------------------------------------
  // Its value
  // --------------------------------------------------------------------------

  /** The entries of engine_data.cpp for the men of the last position, where they stand. */
  function Entry(piece: nat): int {
    if piece == 0 then 5005
    else if piece < 16 || piece > 31 then 0
    else [-5005, -40, -40, -40, -40, -198, -194, -85, -85, -96, -96, -7, -7, -15, -7, -7][piece - 16]
  }

  function EntriesUpTo(n: nat): int {
    if n == 0 then 0 else EntriesUpTo(n - 1) + Entry(n - 1)
  }

  /** Rules with those entries, and with two different ones for the rook's two squares. */
  predicate Tabulated(rules: Rules) {
    && (forall k :: 0 <= k < 32 && Walk(64).pieces[k] != NOWHERE ==> rules.value(k, Walk(64).pieces[k]) == Entry(k))
    && rules.key(21, 63) != rules.key(21, 81)
  }

  lemma {:induction false} ValueIs(rules: Rules, n: nat)
    requires Tabulated(rules) && n <= 32
    ensures DigestUpTo(rules, Walk(64).pieces, n).value == EntriesUpTo(n)
  {
    hide Xor32, Xor64, Walk;
    Pieces64();
    if n > 0 {
      ValueIs(rules, n - 1);
      Absent(n - 1);
    }
  }

  lemma Pieces64()
    ensures |Walk(64).pieces| == 32 && Walk(64).player == 0
  {
  }

  lemma Absent(k: nat)
    requires k < 32
    ensures |Walk(64).pieces| == 32 && (Walk(64).pieces[k] == NOWHERE ==> Entry(k) == 0)
  {
    LastPlaces();
  }

  const SUMS := [5005, 0, -40, -80, -120, -160, -358, -552, -637, -722, -818, -914, -921, -928, -943, -950, -957]

  lemma {:induction false} EntriesSum(n: nat)
    requires 16 <= n <= 32
    ensures EntriesUpTo(n) == SUMS[n - 16]
  {
    hide Entry;
    if n == 16 {
      OnlyTheKing(16);
    } else {
      EntriesSum(n - 1);
      EntryIs(n);
    }
  }

  lemma EntryIs(n: nat)
    requires 16 < n <= 32
    ensures Entry(n - 1) == SUMS[n - 16] - SUMS[n - 17]
  {
  }

  lemma {:induction false} OnlyTheKing(n: nat)
    requires 1 <= n <= 16
    ensures EntriesUpTo(n) == 5005
  {
    if n > 1 { OnlyTheKing(n - 1); }
  }

  /** The rook alone tells the position from the one four plies before. */
  lemma KeysDiffer(rules: Rules)
    requires Tabulated(rules)
    ensures DigestOf(rules, Walk(64)).key != DigestOf(rules, Walk(60)).key
  {
    hide Xor32, Xor64, DigestUpTo, Tabulated, Home, AtHome, Take;
    var a, b := Walk(64).pieces, Walk(60).pieces;
    LastPlaces();
    var gone := a[21 := NOWHERE];
    assert b[21 := NOWHERE] == gone && a == gone[21 := 63] && b == gone[21 := 81];
    DigestWith(rules, gone, 21, 63, 32);
    DigestWith(rules, gone, 21, 81, 32);
    RookKeys(rules);
    Xor32Tells(DigestUpTo(rules, gone, 32).key, rules.key(21, 63), rules.key(21, 81));
  }

  lemma RookKeys(rules: Rules)
    requires Tabulated(rules)
    ensures rules.key(21, 63) != rules.key(21, 81)
  {
  }

  /** A line of 64 moves that can all be taken back, with no repetition, at whose end the
      search answers with the deepest mate although the position is worth less. */
  lemma HopelessLine(rules: Rules)
    requires Sane(rules) && Tabulated(rules)
    ensures var l := LongWalk();
            && Linked(l) && l.Depth() == LIMIT_DEPTH && LoopScore(rules, l) == INVALIDVALUE
            && !LeavesAboveMates(rules, l)
            && QuietValue(rules, l) == -953 && AtLimit(rules, l, -936) == -936 && !Answers(-953, -937, -936, -936)
  {
    hide Consistent, Walk, WalkStep, DigestUpTo, Unmovable, Unmoved, Sane, Tabulated;
    var l := LongWalk();
    forall i | 0 <= i < 65
      ensures Consistent(l.positions[i])
    {
      WalkFollows(i);
    }
    forall i | 0 <= i < 64
      ensures Follows(l, i)
    {
      WalkFollows(i);
    }
    NoNulls(64);
    KeysDiffer(rules);
    Pieces64();
    ValueIs(rules, 32);
    EntriesSum(32);
  }

  /** There are such rules. */
  lemma SomeRules()
    ensures exists rules :: Sane(rules) && Tabulated(rules)
  {
    hide Consistent;
    var rules := Rules((piece, s) => if s == 63 then 1 else 0, (piece, s) => 0, (piece: nat, s: nat) => Entry(piece),
                       (p, player) => false, p => [], p => [], p => [], (p, m) => false, (p, m) => false, v => v);
    assert Sane(rules) && Tabulated(rules);
  }
}
