/** The rules of Xiangqi as the server's referee plays them, stated over a map from
    squares to men: no lists, no cells and no undoing.  The imperative board of
    `Referee.dfy` is proved to follow exactly this rule. */
module Xiangqi {

  datatype Option<+T> = None | Some(value: T)

  datatype Color = Red | Black {
    function Other(): Color {
      if this == Red then Black else Red
    }
  }

  datatype Kind = King | Advisor | Elephant | Chariot | Horse | Cannon | Pawn

  datatype Man = Man(kind: Kind, color: Color)

  /** x runs over the 9 columns and y over the 10 rows; Black's home row is y == 0.
      A position need not lie on the board: the referee is asked about any pair. */
  datatype Pos = Pos(x: int, y: int) {
    predicate OnBoard() {
      0 <= x <= 8 && 0 <= y <= 9
    }

    predicate InPalace(c: Color) {
      3 <= x <= 5 && if c == Black then 0 <= y <= 2 else 7 <= y <= 9
    }

    // The row alone decides this, so a column off the board still counts.
    predicate InCountry(c: Color) {
      if c == Black then 0 <= y <= 4 else 5 <= y <= 9
    }
  }

  type Placement = map<Pos, Man>

  datatype Game = Game(men: Placement, turn: Color)

  datatype Move = Move(from: Pos, to: Pos)

  datatype Status = Unknown | Open | Ready | InProgress | RedWin | BlackWin | Drawn

  function Abs(n: int): nat {
    if n < 0 then -n else n
  }

  // --------------------------------------------------------------------------
  // How each kind of man moves
  // --------------------------------------------------------------------------

  predicate Aligned(p: Pos, q: Pos) {
    (p.x == q.x) != (p.y == q.y)
  }

  /** z lies strictly between p and q on the row or column they share. */
  predicate Between(p: Pos, z: Pos, q: Pos) {
    || (p.x == z.x == q.x && (p.y < z.y < q.y || q.y < z.y < p.y))
    || (p.y == z.y == q.y && (p.x < z.x < q.x || q.x < z.x < p.x))
  }

  /** The men standing strictly between p and q. */
  function Screens(men: Placement, p: Pos, q: Pos): set<Pos> {
    set z | z in men.Keys && Between(p, z, q)
  }

  /** The square next to a horse that must be free for it to jump from p to q. */
  function Leg(p: Pos, q: Pos): Pos {
    if Abs(q.y - p.y) == 2 then Pos(p.x, if q.y > p.y then p.y + 1 else p.y - 1)
    else Pos(if q.x > p.x then p.x + 1 else p.x - 1, p.y)
  }

  function Forward(c: Color): int {
    if c == Black then 1 else -1
  }

  predicate Reaches(men: Placement, m: Man, p: Pos, q: Pos) {
    var dx, dy := Abs(q.x - p.x), Abs(q.y - p.y);
    match m.kind
    case King => q.InPalace(m.color) && dx + dy == 1
    case Advisor => q.InPalace(m.color) && dx == 1 && dy == 1
    case Elephant =>
      q.InCountry(m.color) && dx == 2 && dy == 2 && Pos((p.x + q.x) / 2, (p.y + q.y) / 2) !in men
    case Chariot => Aligned(p, q) && Screens(men, p, q) == {}
    case Horse => ((dx == 1 && dy == 2) || (dx == 2 && dy == 1)) && Leg(p, q) !in men
    case Cannon =>
      && Aligned(p, q)
      && if q in men then men[q].color != m.color && |Screens(men, p, q)| == 1
         else Screens(men, p, q) == {}
    case Pawn =>
      || (q.x == p.x && q.y == p.y + Forward(m.color))
      || (q.y == p.y && dx == 1 && !q.InCountry(m.color))
  }

  /** The man on p may go to q as far as its own way of moving is concerned. */
  predicate CanGo(men: Placement, p: Pos, q: Pos) {
    && p in men
    && Reaches(men, men[p], p, q)
    && (q in men ==> men[q].color != men[p].color)
  }

  // --------------------------------------------------------------------------
  // Check, facing kings, and legal moves
  // --------------------------------------------------------------------------

  predicate KingAt(men: Placement, k: Pos, c: Color) {
    k in men && men[k] == Man(King, c)
  }

  ghost predicate Attacked(men: Placement, c: Color) {
    exists p, k {:trigger CanGo(men, p, k)} :: CanGo(men, p, k) && KingAt(men, k, c) && men[p].color != c
  }

  /** The referee's test for kings that face each other: any third man on the
      column screens them, wherever on the column he stands. */
  ghost predicate Facing(men: Placement) {
    exists r, k :: KingAt(men, r, Red) && KingAt(men, k, Black) && r.x == k.x
                   && forall z :: z in men && z != r && z != k ==> z.x != r.x
  }

  /** A target off the board is accepted by some of the men's ways of moving; the man
      then stays where he is. */
  function Step(men: Placement, p: Pos, q: Pos): Placement
    requires p in men
  {
    if q.OnBoard() then (men - {p})[q := men[p]] else men
  }

  ghost predicate Legal(g: Game, p: Pos, q: Pos) {
    && CanGo(g.men, p, q)
    && g.men[p].color == g.turn
    && !Attacked(Step(g.men, p, q), g.turn)
    && !Facing(Step(g.men, p, q))
  }

  function Next(g: Game, p: Pos, q: Pos): Game
    requires p in g.men
  {
    Game(Step(g.men, p, q), g.turn.Other())
  }

  /** The side to move has a legal move to a square of the board. */
  ghost predicate HasReply(g: Game) {
    exists p: Pos, q: Pos :: q.OnBoard() && Legal(g, p, q)
  }

  /** What the referee reports about the position an accepted move leads to. */
  ghost function Verdict(g: Game): Status {
    if HasReply(g) then InProgress else if g.turn == Black then RedWin else BlackWin
  }

  // --------------------------------------------------------------------------
  // The initial position, and games played from it
  // --------------------------------------------------------------------------

  function BackRow(x: int): Kind {
    if x == 0 || x == 8 then Chariot
    else if x == 1 || x == 7 then Horse
    else if x == 2 || x == 6 then Elephant
    else if x == 3 || x == 5 then Advisor
    else King
  }

  function InitialMan(p: Pos): Option<Man> {
    if !p.OnBoard() then None
    else
      var c := if p.y <= 4 then Black else Red;
      if p.y == 0 || p.y == 9 then Some(Man(BackRow(p.x), c))
      else if (p.y == 2 || p.y == 7) && (p.x == 1 || p.x == 7) then Some(Man(Cannon, c))
      else if (p.y == 3 || p.y == 6) && p.x % 2 == 0 then Some(Man(Pawn, c))
      else None
  }

  function Squares(): (s: set<Pos>)
    ensures forall p :: p in s <==> p.OnBoard()
  {
    set x, y | 0 <= x <= 8 && 0 <= y <= 9 :: Pos(x, y)
  }

  function InitialMen(): Placement {
    map p | p in Squares() && InitialMan(p).Some? :: InitialMan(p).value
  }

  /** The game after the given moves, or None if one of them is not accepted. */
  ghost function Play(first: Color, moves: seq<Move>): Option<Game> {
    if moves == [] then Some(Game(InitialMen(), first))
    else
      var last := moves[|moves| - 1];
      match Play(first, moves[..|moves| - 1])
      case None => None
      case Some(g) => if Legal(g, last.from, last.to) then Some(Next(g, last.from, last.to)) else None
  }

  // --------------------------------------------------------------------------
  // What every game keeps
  // --------------------------------------------------------------------------

  function AdvisorPoints(c: Color): set<Pos> {
    if c == Black then {Pos(3, 0), Pos(5, 0), Pos(4, 1), Pos(3, 2), Pos(5, 2)}
    else {Pos(3, 9), Pos(5, 9), Pos(4, 8), Pos(3, 7), Pos(5, 7)}
  }

  function ElephantPoints(c: Color): set<Pos> {
    if c == Black then {Pos(2, 0), Pos(6, 0), Pos(0, 2), Pos(4, 2), Pos(8, 2), Pos(2, 4), Pos(6, 4)}
    else {Pos(2, 9), Pos(6, 9), Pos(0, 7), Pos(4, 7), Pos(8, 7), Pos(2, 5), Pos(6, 5)}
  }

  /** Where a man can ever stand.  A pawn never falls behind its first row, and short of
      the river it is on an even column. */
  predicate Confined(m: Man, p: Pos) {
    && p.OnBoard()
    && match m.kind
       case King => p.InPalace(m.color)
       case Advisor => p in AdvisorPoints(m.color)
       case Elephant => p in ElephantPoints(m.color)
       case Pawn =>
         if m.color == Black then p.y >= 3 && (p.y <= 4 ==> p.x % 2 == 0)
         else p.y <= 6 && (p.y >= 5 ==> p.x % 2 == 0)
       case _ => true
  }

  ghost predicate OneKing(men: Placement, c: Color) {
    && (exists k :: KingAt(men, k, c))
    && forall k, k' :: KingAt(men, k, c) && KingAt(men, k', c) ==> k == k'
  }

  /** The invariant of every game: one king a side, nobody where he cannot be, and the
      side that has just moved not in check. */
  ghost predicate Sound(g: Game) {
    && (forall p :: p in g.men ==> Confined(g.men[p], p))
    && OneKing(g.men, Red)
    && OneKing(g.men, Black)
    && !Attacked(g.men, g.turn.Other())
  }

  lemma TargetIsEnemy(men: Placement, p: Pos, q: Pos)
    ensures CanGo(men, p, q) ==> p in men && p != q && (q in men ==> men[q].color != men[p].color)
  {
  }

  lemma LegalReaches(g: Game, p: Pos, q: Pos)
    requires Legal(g, p, q)
    ensures p in g.men && g.men[p].color == g.turn && Reaches(g.men, g.men[p], p, q)
  {
  }

  lemma FacingKings(men: Placement, r: Pos, k: Pos)
    requires OneKing(men, Red) && OneKing(men, Black)
    requires KingAt(men, r, Red) && KingAt(men, k, Black)
    ensures Facing(men) <==> r.x == k.x && forall z :: z in men && z != r && z != k ==> z.x != r.x
  {
  }

  lemma InitialSound(first: Color)
    ensures Sound(Game(InitialMen(), first))
  {
    hide InitialMen, Confined, OneKing, Attacked;
    InitialConfined();
    InitialKings();
    InitialQuiet(first.Other());
  }

  lemma InitialConfined()
    ensures forall p :: p in InitialMen() ==> Confined(InitialMen()[p], p)
  {
  }

  lemma InitialKings()
    ensures OneKing(InitialMen(), Red) && OneKing(InitialMen(), Black)
  {
    assert KingAt(InitialMen(), Pos(4, 9), Red) && KingAt(InitialMen(), Pos(4, 0), Black);
  }

  lemma InitialQuiet(c: Color)
    ensures !Attacked(InitialMen(), c)
  {
    hide Reaches;
    var men := InitialMen();
    forall p, k | CanGo(men, p, k) && KingAt(men, k, c)
      ensures men[p].color == c
    {
      if men[p].color != c {
        InitialOutOfReach(p, c);
      }
    }
  }

  lemma InitialOutOfReach(p: Pos, c: Color)
    requires InitialMan(p).Some? && InitialMan(p).value.color != c
    ensures !Reaches(InitialMen(), InitialMan(p).value, p, Pos(4, if c == Black then 0 else 9))
  {
    hide InitialMen, Screens;
  }

  /** A king is never captured: taking him would have been possible before the move,
      so his side would have been in check after its own move. */
  lemma KingNeverCaptured(g: Game, p: Pos, q: Pos)
    requires Sound(g) && CanGo(g.men, p, q) && g.men[p].color == g.turn
    ensures q in g.men ==> g.men[q].kind != King
  {
    if q in g.men && g.men[q].kind == King {
      assert KingAt(g.men, q, g.turn.Other());
      assert false;
    }
  }

  lemma StepKeepsKings(g: Game, p: Pos, q: Pos, c: Color)
    requires Sound(g) && CanGo(g.men, p, q) && g.men[p].color == g.turn
    ensures OneKing(Step(g.men, p, q), c)
  {
    KingNeverCaptured(g, p, q);
    var men' := Step(g.men, p, q);
    assert OneKing(g.men, c) by { if c == Red {} else {} }
    var k :| KingAt(g.men, k, c);
    var k' := if k == p && q.OnBoard() then q else k;
    assert KingAt(men', k', c);
    forall z | KingAt(men', z, c)
      ensures z == k'
    {
      assert KingAt(g.men, if z == q && q.OnBoard() then p else z, c);
    }
  }

  lemma StepKeepsConfined(men: Placement, p: Pos, q: Pos)
    requires forall z :: z in men ==> Confined(men[z], z)
    requires p in men && Reaches(men, men[p], p, q)
    ensures forall z :: z in Step(men, p, q) ==> Confined(Step(men, p, q)[z], z)
  {
    assert Confined(men[p], p);
    if q.OnBoard() {
      assert Confined(men[p], q);
    }
  }

  lemma LegalKeepsSound(g: Game, p: Pos, q: Pos)
    requires Sound(g) && Legal(g, p, q)
    ensures Sound(Next(g, p, q))
  {
    StepKeepsKings(g, p, q, Red);
    StepKeepsKings(g, p, q, Black);
    StepKeepsConfined(g.men, p, q);
  }

  /** Every game that can be played at all is sound. */
  lemma {:induction false} RunSound(first: Color, moves: seq<Move>)
    requires Play(first, moves).Some?
    ensures Sound(Play(first, moves).value)
  {
    if moves == [] {
      InitialSound(first);
    } else {
      var last, before := moves[|moves| - 1], moves[..|moves| - 1];
      var g := Play(first, before).value;
      RunSound(first, before);
      LegalKeepsSound(g, last.from, last.to);
      assert Play(first, moves) == Some(Next(g, last.from, last.to));
    }
  }

  /** The turn tells the parity of the number of moves played. */
  lemma {:induction false} TurnParity(first: Color, moves: seq<Move>)
    requires Play(first, moves).Some?
    ensures Play(first, moves).value.turn == (if |moves| % 2 == 0 then first else first.Other())
  {
    hide Legal, InitialMen, Step;
    if moves != [] {
      var last, before := moves[|moves| - 1], moves[..|moves| - 1];
      TurnParity(first, before);
      LegalReaches(Play(first, before).value, last.from, last.to);
      assert Play(first, moves) == Some(Next(Play(first, before).value, last.from, last.to));
    }
  }

  /** King safety over whole games: after any accepted sequence of moves both kings are
      there, each in its palace, the side that has just moved is not in check, and no
      further move the referee might accept, or merely try out, captures a king. */
  lemma KingSafety(first: Color, moves: seq<Move>)
    requires Play(first, moves).Some?
    ensures var g := Play(first, moves).value;
            && (exists r: Pos, b: Pos :: KingAt(g.men, r, Red) && r.InPalace(Red) && KingAt(g.men, b, Black) && b.InPalace(Black))
            && !Attacked(g.men, g.turn.Other())
            && (forall p, q :: CanGo(g.men, p, q) && g.men[p].color == g.turn && q in g.men
                               ==> g.men[q].kind != King)
  {
    RunSound(first, moves);
    var g := Play(first, moves).value;
    var r, b :| KingAt(g.men, r, Red) && KingAt(g.men, b, Black);
    assert Confined(g.men[r], r) && Confined(g.men[b], b);
    forall p, q | CanGo(g.men, p, q) && g.men[p].color == g.turn && q in g.men
      ensures g.men[q].kind != King
    {
      KingNeverCaptured(g, p, q);
    }
  }
}
