/** Which moves the engine's generators are to list: the rule, square by square, that the
    quiet generator and the capture generator are both measured against. */
module FoliumMoves {
  import opened FoliumPosition
  import opened FoliumBoard

  /** An entry of a piece's table: where it may go, and the square that must be empty. */
  datatype Hop = Direct(dst: nat) | Through(dst: nat, leg: nat)

  /** The tables of xq_data.cpp, a row for every square, without their terminators. */
  datatype Tables = Tables(
    redKingPawn: seq<seq<nat>>,
    blackKingPawn: seq<seq<nat>>,
    advisorBishop: seq<seq<nat>>,
    knight: seq<seq<Hop>>)

  predicate SoundRow(row: seq<Hop>, longest: nat) {
    && |row| <= longest
    && (forall j :: 0 <= j < |row| ==> row[j].dst < 90 && (row[j].Through? ==> row[j].leg < 90))
    && (forall i, j :: 0 <= i < j < |row| ==> row[i].dst != row[j].dst)
  }

  predicate SoundRows(rows: seq<seq<nat>>) {
    |rows| == 91 && forall s {:trigger rows[s]} :: 0 <= s < 90 ==>
      && |rows[s]| <= 4
      && (forall j :: 0 <= j < |rows[s]| ==> rows[s][j] < 90)
      && (forall i, j :: 0 <= i < j < |rows[s]| ==> rows[s][i] != rows[s][j])
  }

  /** The middle of a palace: only from there are there four ways for a king or pawn. */
  function Center(player: nat): nat {
    if player == 0 then 13 else 76
  }

  predicate SoundTables(t: Tables) {
    && SoundRows(t.redKingPawn) && SoundRows(t.blackKingPawn) && SoundRows(t.advisorBishop)
    && (forall s {:trigger t.redKingPawn[s]} :: 0 <= s < 90 && s != Center(0) ==> |t.redKingPawn[s]| <= 3)
    && (forall s {:trigger t.blackKingPawn[s]} :: 0 <= s < 90 && s != Center(1) ==> |t.blackKingPawn[s]| <= 3)
    && |t.knight| == 91 && forall s {:trigger t.knight[s]} :: 0 <= s < 90 ==> SoundRow(t.knight[s], 8)
  }

  // --------------------------------------------------------------------------
  // Pieces
  // --------------------------------------------------------------------------

  /** Rooks and cannons run along lines; the others have tables. */
  predicate Runs(piece: nat) {
    piece % 16 in {5, 6, 9, 10}
  }

  predicate Jumps(piece: nat) {
    piece % 16 in {9, 10}
  }

  /** The most moves a piece can have where it stands. */
  function Most(piece: nat, src: nat): nat {
    if Runs(piece) then 17
    else if piece % 16 in {7, 8} then 8
    else if piece % 16 in {1, 2, 3, 4} || src == Center(piece / 16) then 4
    else 3
  }

  function Hops(t: Tables, piece: nat, src: nat): (row: seq<Hop>)
    requires SoundTables(t) && src < 90 && piece < 32 && !Runs(piece)
    ensures SoundRow(row, Most(piece, src))
  {
    var kind := piece % 16;
    if kind == 7 || kind == 8 then t.knight[src]
    else if kind == 3 || kind == 4 then
      var row := t.advisorBishop[src];
      seq(|row|, j requires 0 <= j < |row| => Through(row[j], (row[j] + src) / 2))
    else
      var row := if kind == 1 || kind == 2 then t.advisorBishop[src]
                 else if piece < 16 then t.redKingPawn[src] else t.blackKingPawn[src];
      seq(|row|, j requires 0 <= j < |row| => Direct(row[j]))
  }

  predicate Enemy(p: Position, square: nat)
    requires Consistent(p) && square < 91
  {
    ColorOf(p.squares[square]) == 1 - p.player
  }

  /** An entry is a move of the wanted kind: a capture, or a move that takes nothing of
      the player's own. */
  predicate Fits(p: Position, hop: Hop, captures: bool)
    requires Consistent(p) && hop.dst < 90 && (hop.Through? ==> hop.leg < 90)
  {
    && (if captures then Enemy(p, hop.dst) else ColorOf(p.squares[hop.dst]) != p.player)
    && (hop.Through? ==> p.squares[hop.leg] == EMPTY)
  }

  ghost function HopMoves(p: Position, src: nat, row: seq<Hop>, captures: bool): set<nat>
    requires Consistent(p) && SoundRow(row, |row|)
  {
    set j | 0 <= j < |row| && Fits(p, row[j], captures) :: CreateMove(src, row[j].dst)
  }

  predicate EmptyAt(p: Position, src: nat, dir: Direction, k: nat)
    requires Consistent(p) && src < 90
  {
    At(src, dir, k) < 90 && p.squares[At(src, dir, k)] == EMPTY
  }

  ghost predicate Clear(p: Position, src: nat, dir: Direction, k: nat)
    requires Consistent(p) && src < 90
  {
    forall j :: 0 < j < k ==> EmptyAt(p, src, dir, j)
  }

  /** Exactly one man stands between. */
  ghost predicate OneBetween(p: Position, src: nat, dir: Direction, k: nat)
    requires Consistent(p) && src < 90
  {
    exists s :: 0 < s < k && !EmptyAt(p, src, dir, s) && forall j :: 0 < j < k && j != s ==> EmptyAt(p, src, dir, j)
  }

  /** A runner reaches the k-th square of a direction: an empty one over empty ones, and an
      enemy over empty ones or, a cannon, over exactly one man. */
  ghost predicate Reaches(p: Position, src: nat, jumps: bool, dir: Direction, k: nat)
    requires Consistent(p) && src < 90
  {
    && 0 < k && At(src, dir, k) < 90
    && if EmptyAt(p, src, dir, k) then Clear(p, src, dir, k)
       else Enemy(p, At(src, dir, k)) && if jumps then OneBetween(p, src, dir, k) else Clear(p, src, dir, k)
  }

  ghost function RunMoves(p: Position, src: nat, jumps: bool, dir: Direction, captures: bool): set<nat>
    requires Consistent(p) && src < 90
  {
    set k | 0 < k < 10 && Reaches(p, src, jumps, dir, k) && (captures ==> Enemy(p, At(src, dir, k))) ::
      CreateMove(src, At(src, dir, k))
  }

  ghost function AllRuns(p: Position, src: nat, jumps: bool, captures: bool): set<nat>
    requires Consistent(p) && src < 90
  {
    RunMoves(p, src, jumps, Left, captures) + RunMoves(p, src, jumps, Right, captures) +
    RunMoves(p, src, jumps, Down, captures) + RunMoves(p, src, jumps, Up, captures)
  }

  ghost function PieceMoves(t: Tables, p: Position, piece: nat, captures: bool): set<nat>
    requires SoundTables(t) && Consistent(p) && piece < 32
  {
    var src := p.pieces[piece];
    if src == NOWHERE then {}
    else if Runs(piece) then
      AllRuns(p, src, Jumps(piece), captures)
    else HopMoves(p, src, Hops(t, piece, src), captures)
  }

  /** The n-th piece in the order of the generators: king, pawns, then the others. */
  function Nth(player: nat, n: nat): nat
    requires n < 16
  {
    16 * player + if n == 0 then 0 else if n < 6 then 10 + n else n - 5
  }

  /** The moves of the player's first n pieces. */
  ghost function MovesUpTo(t: Tables, p: Position, n: nat, captures: bool): set<nat>
    requires SoundTables(t) && Consistent(p) && n <= 16
  {
    if n == 0 then {} else MovesUpTo(t, p, n - 1, captures) + PieceMoves(t, p, Nth(p.player, n - 1), captures)
  }

  ghost function AllMoves(t: Tables, p: Position, captures: bool): set<nat>
    requires SoundTables(t) && Consistent(p)
  {
    MovesUpTo(t, p, 16, captures)
  }

  function MostUpTo(p: Position, n: nat): nat
    requires Consistent(p) && n <= 16
  {
    if n == 0 then 0
    else
      var piece := Nth(p.player, n - 1);
      MostUpTo(p, n - 1) + if p.pieces[piece] == NOWHERE then 0 else Most(piece, p.pieces[piece])
  }

  // --------------------------------------------------------------------------
  // Lists of packed moves
  // --------------------------------------------------------------------------

  /** The low 14 bits of the entries are exactly the moves of the set, each once. */
  ghost predicate Lists(s: seq<nat>, moves: set<nat>) {
    && (forall k :: 0 <= k < |s| ==> s[k] % 0x4000 in moves)
    && (forall m :: m in moves ==> exists k :: 0 <= k < |s| && s[k] % 0x4000 == m)
    && (forall j, k :: 0 <= j < k < |s| ==> s[j] % 0x4000 != s[k] % 0x4000)
  }

  lemma ListsOneMore(s: seq<nat>, moves: set<nat>, word: nat)
    requires Lists(s, moves) && word % 0x4000 !in moves
    ensures Lists(s + [word], moves + {word % 0x4000})
  {
    var r := s + [word];
    forall m | m in moves + {word % 0x4000}
      ensures exists k :: 0 <= k < |r| && r[k] % 0x4000 == m
    {
      if m in moves {
        var k :| 0 <= k < |s| && s[k] % 0x4000 == m;
        assert r[k] == s[k];
      } else {
        assert r[|s|] == word;
      }
    }
  }

  // --------------------------------------------------------------------------
  // What the two rules have in common
  // --------------------------------------------------------------------------

  lemma RunOf(p: Position, src: nat, jumps: bool, captures: bool, m: nat) returns (dir: Direction, k: nat)
    requires Consistent(p) && src < 90
    requires m in AllRuns(p, src, jumps, captures)
    ensures 0 < k < 10 && Reaches(p, src, jumps, dir, k) && (captures ==> Enemy(p, At(src, dir, k)))
    ensures m == CreateMove(src, At(src, dir, k)) && Src(m) == src && Dst(m) == At(src, dir, k)
  {
    hide Consistent, CreateMove, Src, Dst, Enemy;
    dir := if m in RunMoves(p, src, jumps, Left, captures) then Left
           else if m in RunMoves(p, src, jumps, Right, captures) then Right
           else if m in RunMoves(p, src, jumps, Down, captures) then Down else Up;
    k :| 0 < k < 10 && Reaches(p, src, jumps, dir, k) && (captures ==> Enemy(p, At(src, dir, k))) &&
         m == CreateMove(src, At(src, dir, k));
    MoveRoundTrip(src, At(src, dir, k));
  }

  lemma HopOf(p: Position, src: nat, row: seq<Hop>, captures: bool, m: nat) returns (j: nat)
    requires Consistent(p) && src < 90 && SoundRow(row, |row|) && m in HopMoves(p, src, row, captures)
    ensures j < |row| && Fits(p, row[j], captures) && m == CreateMove(src, row[j].dst)
    ensures Src(m) == src && Dst(m) == row[j].dst
  {
    hide Consistent, CreateMove, Src, Dst, Enemy;
    j :| 0 <= j < |row| && Fits(p, row[j], captures) && m == CreateMove(src, row[j].dst);
    MoveRoundTrip(src, row[j].dst);
  }

  /** A move of a piece starts where it stands and may be played, and it is a capture just
      if it goes to an enemy. */
  lemma PieceMovesKnown(t: Tables, p: Position, piece: nat, captures: bool, m: nat)
    requires SoundTables(t) && Consistent(p) && piece < 32 && ColorOf(piece) == p.player
    requires m in PieceMoves(t, p, piece, captures)
    ensures p.pieces[piece] < 90 && Src(m) == p.pieces[piece] && Dst(m) < 90 && m < 0x4000
    ensures Playable(p, Src(m), Dst(m)) && p.squares[Src(m)] == piece
    ensures captures ==> Enemy(p, Dst(m)) && m in PieceMoves(t, p, piece, false)
    ensures Enemy(p, Dst(m)) ==> m in PieceMoves(t, p, piece, true)
  {
    hide SoundTables, SoundRow, CreateMove, Dst, Src, Hops, RunMoves, HopMoves, Runs, Jumps, Most, Enemy;
    var src := p.pieces[piece];
    assert p.squares[src] == piece;
    if Runs(piece) {
      RunMovesKnown(p, src, Jumps(piece), captures, m);
    } else {
      SoundRowAnyLength(Hops(t, piece, src), Most(piece, src));
      HopMovesKnown(p, src, Hops(t, piece, src), captures, m);
    }
  }

  lemma SoundRowAnyLength(row: seq<Hop>, longest: nat)
    requires SoundRow(row, longest)
    ensures SoundRow(row, |row|) && |row| <= longest
  {
  }

  lemma RunMovesKnown(p: Position, src: nat, jumps: bool, captures: bool, m: nat)
    requires Consistent(p) && src < 90 && p.squares[src] < 32 && ColorOf(p.squares[src]) == p.player
    requires m in AllRuns(p, src, jumps, captures)
    ensures Src(m) == src && Dst(m) < 90 && m < 0x4000 && Playable(p, Src(m), Dst(m))
    ensures captures ==>
              && Enemy(p, Dst(m))
              && m in AllRuns(p, src, jumps, false)
    ensures Enemy(p, Dst(m)) ==>
              m in AllRuns(p, src, jumps, true)
  {
    hide CreateMove, Dst, Src, Clear, OneBetween, At;
    var dir, k := RunOf(p, src, jumps, captures, m);
    CreateMoveSmall(src, At(src, dir, k));
    if captures { AmongRuns(p, src, jumps, dir, false, m); }
    if Enemy(p, Dst(m)) { AmongRuns(p, src, jumps, dir, true, m); }
  }

  lemma AmongRuns(p: Position, src: nat, jumps: bool, dir: Direction, captures: bool, m: nat)
    requires Consistent(p) && src < 90 && m in RunMoves(p, src, jumps, dir, captures)
    ensures m in AllRuns(p, src, jumps, captures)
  {
    hide Consistent, RunMoves;
    match dir { case Left => case Right => case Down => case Up => }
  }

  lemma HopMovesKnown(p: Position, src: nat, row: seq<Hop>, captures: bool, m: nat)
    requires Consistent(p) && src < 90 && p.squares[src] < 32 && ColorOf(p.squares[src]) == p.player
    requires SoundRow(row, |row|) && m in HopMoves(p, src, row, captures)
    ensures Src(m) == src && Dst(m) < 90 && m < 0x4000 && Playable(p, Src(m), Dst(m))
    ensures captures ==> Enemy(p, Dst(m)) && m in HopMoves(p, src, row, false)
    ensures Enemy(p, Dst(m)) ==> m in HopMoves(p, src, row, true)
  {
    hide CreateMove, Dst, Src;
    var j := HopOf(p, src, row, captures, m);
    CreateMoveSmall(src, row[j].dst);
    assert Enemy(p, Dst(m)) ==> Fits(p, row[j], true);
    assert captures ==> Fits(p, row[j], false);
  }

  lemma CreateMoveSmall(src: nat, dst: nat)
    requires src < 90 && dst < 90
    ensures CreateMove(src, dst) < 0x4000 && CreateMove(src, dst) % 0x4000 == CreateMove(src, dst)
  {
  }

  lemma {:induction false} MoverOf(t: Tables, p: Position, n: nat, captures: bool, m: nat) returns (i: nat)
    requires SoundTables(t) && Consistent(p) && n <= 16 && m in MovesUpTo(t, p, n, captures)
    ensures i < n && m in PieceMoves(t, p, Nth(p.player, i), captures)
  {
    hide SoundTables, Consistent, PieceMoves, Nth;
    PlayerBelow2(p);
    NthIsOwn(p.player, n - 1);
    if m in PieceMoves(t, p, Nth(p.player, n - 1), captures) {
      i := n - 1;
    } else {
      i := MoverOf(t, p, n - 1, captures, m);
    }
  }

  lemma {:induction false} AmongMoves(t: Tables, p: Position, n: nat, captures: bool, i: nat, m: nat)
    requires SoundTables(t) && Consistent(p) && i < n <= 16 && m in PieceMoves(t, p, Nth(p.player, i), captures)
    ensures m in MovesUpTo(t, p, n, captures)
  {
    hide SoundTables, Consistent, PieceMoves;
    if i < n - 1 {
      AmongMoves(t, p, n - 1, captures, i, m);
    }
  }

  lemma NthIsOwn(player: nat, n: nat)
    requires player < 2 && n < 16
    ensures Nth(player, n) < 32 && ColorOf(Nth(player, n)) == player
    ensures forall k :: 0 <= k < n ==> Nth(player, k) != Nth(player, n)
  {
  }

  /** The order of the generators misses no piece. */
  lemma EveryPiece(player: nat, piece: nat) returns (n: nat)
    requires player < 2 && piece < 32 && ColorOf(piece) == player
    ensures n < 16 && Nth(player, n) == piece
  {
    var k := piece % 16;
    n := if k == 0 then 0 else if k > 10 then k - 10 else k + 5;
  }

  /** The moves of a set may be played; the captures among them are those onto an enemy. */
  lemma CapturesAreMovesToEnemies(t: Tables, p: Position, m: nat)
    requires SoundTables(t) && Consistent(p)
    ensures m in AllMoves(t, p, false) ==> m < 0x4000 && Dst(m) < 90 && Playable(p, Src(m), Dst(m))
    ensures m in AllMoves(t, p, true) <==> m in AllMoves(t, p, false) && Enemy(p, Dst(m))
  {
    hide SoundTables, Consistent, PieceMoves, Nth, Playable, Enemy, MovesUpTo;
    PlayerBelow2(p);
    if m in AllMoves(t, p, false) {
      var i := MoverOf(t, p, 16, false, m);
      NthIsOwn(p.player, i);
      PieceMovesKnown(t, p, Nth(p.player, i), false, m);
      if Enemy(p, Dst(m)) {
        AmongMoves(t, p, 16, true, i, m);
      }
    }
    if m in AllMoves(t, p, true) {
      var i := MoverOf(t, p, 16, true, m);
      NthIsOwn(p.player, i);
      PieceMovesKnown(t, p, Nth(p.player, i), true, m);
      AmongMoves(t, p, 16, false, i, m);
    }
  }

  lemma PlayerBelow2(p: Position)
    requires Consistent(p)
    ensures p.player < 2
  {
  }
}
