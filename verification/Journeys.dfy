/** The way a man has come: which man of an earlier position, and of the first one, each
    man of a game is. */
module Journeys {
  import opened Xiangqi

  /** Where the man on p, after a move, stood before it. */
  function StoodBefore(m: Move, p: Pos): Pos {
    if m.to.OnBoard() && p == m.to then m.from else p
  }

  /** Where the man on p, after all the moves, stood after the first i. */
  function Whence(moves: seq<Move>, i: nat, p: Pos): Pos
    requires i <= |moves|
  {
    if i == |moves| then p
    else Whence(moves[..|moves| - 1], i, StoodBefore(moves[|moves| - 1], p))
  }

  /** A pawn has come from q to p without ever going back, and, short of the river, without
      leaving its column. */
  predicate PawnsWay(c: Color, q: Pos, p: Pos) {
    && (p.y - q.y) * Forward(c) >= 0
    && (p.InCountry(c) ==> p.x == q.x)
  }

  lemma StepBack(g: Game, m: Move, p: Pos)
    requires Sound(g) && Legal(g, m.from, m.to) && p in Step(g.men, m.from, m.to)
    ensures var q := StoodBefore(m, p);
            && q in g.men && q.OnBoard() && g.men[q] == Step(g.men, m.from, m.to)[p]
            && (g.men[q].kind == Pawn ==> PawnsWay(g.men[q].color, q, p))
  {
    hide Attacked, Facing, OneKing;
    LegalReaches(g, m.from, m.to);
    assert Confined(g.men[StoodBefore(m, p)], StoodBefore(m, p));
  }

  /** Ways of pawns join: a pawn still short of the river was so all along. */
  lemma WaysJoin(c: Color, o: Pos, q: Pos, p: Pos)
    requires PawnsWay(c, o, q) && PawnsWay(c, q, p) && q.OnBoard()
    ensures PawnsWay(c, o, p)
  {
  }

  /** One more accepted move. */
  lemma PlayStep(first: Color, moves: seq<Move>)
    requires Play(first, moves).Some? && moves != []
    ensures var m, before := moves[|moves| - 1], Play(first, moves[..|moves| - 1]);
            && before.Some? && Sound(before.value) && Legal(before.value, m.from, m.to) && m.from in before.value.men
            && Play(first, moves).value.men == Step(before.value.men, m.from, m.to)
  {
    hide Legal, Sound, Step, InitialMen;
    RunSound(first, moves[..|moves| - 1]);
    LegalReaches(Play(first, moves[..|moves| - 1]).value, moves[|moves| - 1].from, moves[|moves| - 1].to);
  }

  /** Every man of a game is one of the men of each earlier position, and a pawn has come
      from there the way of pawns. */
  lemma {:induction false} ManKept(first: Color, moves: seq<Move>, i: nat, p: Pos)
    requires Play(first, moves).Some? && i <= |moves| && p in Play(first, moves).value.men
    ensures Play(first, moves[..i]).Some?
    ensures var men, before, q := Play(first, moves).value.men, Play(first, moves[..i]).value.men, Whence(moves, i, p);
            && q in before && before[q] == men[p]
            && (men[p].kind == Pawn ==> PawnsWay(men[p].color, q, p))
    decreases |moves|
  {
    hide Legal, Sound, Step, InitialMen, Play, PawnsWay;
    if i == |moves| {
      assert moves[..i] == moves;
      StandsStill(p);
    } else {
      var n := |moves| - 1;
      var shorter := moves[..n];
      assert shorter[..i] == moves[..i];
      PlayStep(first, moves);
      var g, q := Play(first, shorter).value, StoodBefore(moves[n], p);
      StepBack(g, moves[n], p);
      ManKept(first, shorter, i, q);
      if g.men[q].kind == Pawn {
        WaysJoin(g.men[q].color, Whence(shorter, i, q), q, p);
      }
    }
  }

  lemma StandsStill(p: Pos)
    ensures forall c :: PawnsWay(c, p, p)
  {
  }

  /** Two men are never the same earlier man. */
  lemma {:induction false} MenStayApart(first: Color, moves: seq<Move>, i: nat, p: Pos, p': Pos)
    requires Play(first, moves).Some? && i <= |moves| && p != p'
    requires p in Play(first, moves).value.men && p' in Play(first, moves).value.men
    ensures Whence(moves, i, p) != Whence(moves, i, p')
    decreases |moves|
  {
    hide Legal, Sound, InitialMen, Play;
    if i < |moves| {
      var n := |moves| - 1;
      PlayStep(first, moves);
      LegalReaches(Play(first, moves[..n]).value, moves[n].from, moves[n].to);
      StepBack(Play(first, moves[..n]).value, moves[n], p);
      StepBack(Play(first, moves[..n]).value, moves[n], p');
      MenStayApart(first, moves[..n], i, StoodBefore(moves[n], p), StoodBefore(moves[n], p'));
    }
  }

  /** Over a whole game a pawn only advances from where it started, and keeps its column
      until it has crossed the river. */
  lemma PawnsJourney(first: Color, moves: seq<Move>, p: Pos)
    requires Play(first, moves).Some? && p in Play(first, moves).value.men && Play(first, moves).value.men[p].kind == Pawn
    ensures var pawn, start := Play(first, moves).value.men[p], Whence(moves, 0, p);
            && InitialMan(start) == Some(pawn) && PawnsWay(pawn.color, start, p)
  {
    hide Play, PawnsWay;
    ManKept(first, moves, 0, p);
    PlayNothing(first, moves);
  }

  lemma PlayNothing(first: Color, moves: seq<Move>)
    ensures Play(first, moves[..0]) == Some(Game(InitialMen(), first))
  {
    hide InitialMen;
    assert moves[..0] == [];
  }

  /** So two pawns of a colour that have not crossed the river are on different columns. */
  lemma UncrossedPawnsApart(first: Color, moves: seq<Move>, p: Pos, p': Pos)
    requires Play(first, moves).Some?
    requires var men := Play(first, moves).value.men;
             && p in men && p' in men && p != p' && men[p].kind == Pawn && men[p'] == men[p]
             && p.InCountry(men[p].color) && p'.InCountry(men[p].color)
    ensures p.x != p'.x
  {
    hide Play, InitialMen;
    PawnsJourney(first, moves, p);
    PawnsJourney(first, moves, p');
    MenStayApart(first, moves, 0, p, p');
  }
}
