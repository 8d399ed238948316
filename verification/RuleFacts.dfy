/** Where the rule the referee plays departs from the rule of the game, and exactly when. */
module RuleFacts {
  import opened Xiangqi
  import opened Games

  // --------------------------------------------------------------------------
  // Targets off the board
  // --------------------------------------------------------------------------

  /** An accepted move moves its man just if its target is on the board; otherwise it only
      passes the turn.  Kings and advisors never pass, and elephants only sideways. */
  lemma AcceptedMoveMoves(g: Game, p: Pos, q: Pos)
    requires Legal(g, p, q)
    ensures Next(g, p, q).men != g.men <==> q.OnBoard()
    ensures !q.OnBoard() ==> Next(g, p, q) == Game(g.men, g.turn.Other()) && g.men[p].kind !in {King, Advisor}
    ensures !q.OnBoard() && g.men[p].kind == Elephant ==> 0 <= q.y <= 9
  {
    LegalReaches(g, p, q);
    TargetIsEnemy(g.men, p, q);
    if q.OnBoard() {
      assert p !in Step(g.men, p, q);
    }
  }

  /** Red's horse may open the game by jumping off the board. */
  lemma PassIsAccepted()
    ensures Recorded(["190;"]) == Some(Game(InitialMen(), Black))
  {
    hide Attacked, Facing, Reaches;
    var g, p, q := Game(InitialMen(), Red), Pos(1, 9), Pos(0, 11);
    var s := "190;";
    assert ParseMove(s) == Some(Move(p, q));
    var moves := Parsed([s]);
    assert moves == [Move(p, q)];
    assert moves[..0] == [];
    assert Play(Red, moves[..0]) == Some(g);
    HorseJumps(g.men);
    InitialQuiet(Red);
    InitialScreened();
    assert Legal(g, p, q);
    assert Play(Red, moves) == Some(Next(g, p, q));
  }

  lemma HorseJumps(men: Placement)
    requires men == InitialMen()
    ensures Pos(1, 9) in men && men[Pos(1, 9)] == Man(Horse, Red) && Pos(0, 11) !in men
    ensures Reaches(men, Man(Horse, Red), Pos(1, 9), Pos(0, 11))
  {
    assert InitialMan(Pos(1, 10)) == None;
  }

  lemma InitialScreened()
    ensures !Facing(InitialMen())
  {
    var men := InitialMen();
    assert Pos(4, 3) in men && Pos(4, 9) in men;
    forall r, k | KingAt(men, r, Red) && KingAt(men, k, Black)
      ensures Pos(4, 3) != r && Pos(4, 3) != k && r.x == 4
    {
    }
  }

  // --------------------------------------------------------------------------
  // Kings that face each other
  // --------------------------------------------------------------------------

  /** The rule of the game: one column and nobody between. */
  predicate Opposed(men: Placement, r: Pos, k: Pos) {
    r.x == k.x && Screens(men, r, k) == {}
  }

  /** The referee agrees with the rule of the game unless the kings are opposed and some
      man stands on their column beyond one of them: then it lets them face each other. */
  lemma FacingIsOpposed(men: Placement, r: Pos, k: Pos)
    requires OneKing(men, Red) && OneKing(men, Black) && KingAt(men, r, Red) && KingAt(men, k, Black)
    ensures Facing(men) ==> Opposed(men, r, k)
    ensures (Facing(men) <==> Opposed(men, r, k)) <==>
            !(Opposed(men, r, k) && exists z :: z in men && z != r && z != k && z.x == r.x)
  {
    FacingKings(men, r, k);
    if Facing(men) {
      forall z | z in men
        ensures !Between(r, z, k)
      {
      }
      assert Screens(men, r, k) == {};
    }
  }

  /** The initial position without its kings. */
  function Kingless(): Placement {
    InitialMen() - {Pos(4, 9), Pos(4, 0)}
  }

  /** And with the kings elsewhere. */
  function KingsAt(r: Pos, k: Pos): Placement {
    Kingless()[r := Man(King, Red)][k := Man(King, Black)]
  }

  predicate Walkable(r: Pos, k: Pos) {
    r in {Pos(4, 9), Pos(4, 8), Pos(3, 8)} && k in {Pos(4, 0), Pos(4, 1), Pos(3, 1)}
  }

  lemma KinglessKnown()
    ensures forall z :: z in Kingless() ==> InitialMan(z) == Some(Kingless()[z]) && Kingless()[z].kind != King
    ensures Pos(4, 3) in Kingless() && Pos(3, 0) in Kingless() && Pos(3, 9) in Kingless()
    ensures forall r, k :: Walkable(r, k) ==> r !in Kingless() && k !in Kingless() && r != k
  {
  }

  lemma KingsKnown(r: Pos, k: Pos)
    requires Walkable(r, k)
    ensures var men := KingsAt(r, k);
            && (forall z :: KingAt(men, z, Red) <==> z == r) && (forall z :: KingAt(men, z, Black) <==> z == k)
            && Pos(4, 3) in men && Pos(3, 0) in men && Pos(3, 9) in men
            && (forall z :: z in men && z != r && z != k ==> InitialMan(z) == Some(men[z]) && men[z].kind != King)
            && (forall z :: z in men <==> z == r || z == k || z in Kingless())
  {
    hide Kingless, InitialMan, Walkable;
    KinglessKnown();
  }

  /** No man can go from where he started to a king that near to home. */
  lemma FarFromKings(men: Placement, r: Pos, k: Pos, z: Pos)
    requires Walkable(r, k) && InitialMan(z).Some? && InitialMan(z).value.kind != King
    ensures InitialMan(z).value.color == Red ==> !Reaches(men, InitialMan(z).value, z, k)
    ensures InitialMan(z).value.color == Black ==> !Reaches(men, InitialMan(z).value, z, r)
  {
    hide Screens;
  }

  lemma KingsFarApart(men: Placement, r: Pos, k: Pos)
    requires Walkable(r, k)
    ensures !Reaches(men, Man(King, Red), r, k) && !Reaches(men, Man(King, Black), k, r)
  {
  }

  lemma KingsUnattacked(r: Pos, k: Pos, c: Color)
    requires Walkable(r, k)
    ensures !Attacked(KingsAt(r, k), c)
  {
    hide Reaches, KingsAt, InitialMan, Walkable;
    var men, home, away := KingsAt(r, k), if c == Red then r else k, if c == Red then k else r;
    KingsKnown(r, k);
    KingsFarApart(men, r, k);
    assert KingAt(men, home, c) && KingAt(men, away, c.Other()) && forall y :: KingAt(men, y, c) ==> y == home;
    forall z | z in men && men[z].color != c
      ensures !CanGo(men, z, home)
    {
      if z != away { FarFromKings(men, r, k, z); }
    }
  }

  lemma KingsScreened(r: Pos, k: Pos)
    requires Walkable(r, k)
    ensures !Facing(KingsAt(r, k))
  {
    hide KingsAt, InitialMan;
    KingsKnown(r, k);
    assert Pos(if r.x == 4 then 4 else 3, if r.x == 4 then 3 else 9) in KingsAt(r, k);
  }

  /** Moving one king of the two. */
  lemma StepOfKing(base: Placement, p: Pos, q: Pos, other: Pos, m: Man, n: Man)
    requires p !in base && q !in base && other !in base && p != q && p != other && q != other && q.OnBoard()
    ensures Step(base[p := m][other := n], p, q) == base[q := m][other := n]
    ensures Step(base[other := n][p := m], p, q) == base[other := n][q := m]
  {
  }

  /** A king walks one square. */
  lemma KingWalks(r: Pos, k: Pos, c: Color, q: Pos)
    requires var r', k' := if c == Red then q else r, if c == Red then k else q; Walkable(r, k) && Walkable(r', k')
    requires var p := if c == Red then r else k; Abs(q.x - p.x) + Abs(q.y - p.y) == 1
    ensures var g, p, r', k' := Game(KingsAt(r, k), c), if c == Red then r else k, if c == Red then q else r, if c == Red then k else q;
            Legal(g, p, q) && Next(g, p, q) == Game(KingsAt(r', k'), c.Other())
  {
    hide Attacked, Facing, Kingless, Step, InitialMan;
    var p, r', k' := if c == Red then r else k, if c == Red then q else r, if c == Red then k else q;
    KinglessKnown();
    KingsKnown(r, k);
    StepOfKing(Kingless(), p, q, if c == Red then k else r, Man(King, c), Man(King, c.Other()));
    KingsUnattacked(r', k', c);
    KingsScreened(r', k');
  }

  /** One recorded step of a king more. */
  lemma OneWalks(moves: seq<string>, r: Pos, k: Pos, c: Color, s: string, q: Pos)
    requires Recorded(moves) == Some(Game(KingsAt(r, k), c)) && ParseMove(s) == Some(Move(if c == Red then r else k, q))
    requires Walkable(r, k) && Walkable(if c == Red then q else r, if c == Red then k else q)
    requires var p := if c == Red then r else k; Abs(q.x - p.x) + Abs(q.y - p.y) == 1
    ensures Recorded(moves + [s]) ==
            Some(Game(KingsAt(if c == Red then q else r, if c == Red then k else q), c.Other()))
  {
    hide Legal, KingsAt, Recorded, Walkable;
    KingWalks(r, k, c, q);
    OneMoveMore(moves, s);
  }

  /** Both kings step forward and then aside, and stand on one column with nobody between
      them, each in front of his own advisor: the referee accepts it all. */
  lemma OpposedKingsAreAccepted()
    ensures Recorded(["4948", "4041", "4838", "4131"]) == Some(Game(KingsAt(Pos(3, 8), Pos(3, 1)), Red))
    ensures Opposed(KingsAt(Pos(3, 8), Pos(3, 1)), Pos(3, 8), Pos(3, 1))
  {
    hide Legal, KingsAt, Recorded, Screens;
    NothingPlayed();
    OneWalks([], Pos(4, 9), Pos(4, 0), Red, "4948", Pos(4, 8));
    assert [] + ["4948"] == ["4948"];
    OneWalks(["4948"], Pos(4, 8), Pos(4, 0), Black, "4041", Pos(4, 1));
    assert ["4948"] + ["4041"] == ["4948", "4041"];
    OneWalks(["4948", "4041"], Pos(4, 8), Pos(4, 1), Red, "4838", Pos(3, 8));
    assert ["4948", "4041"] + ["4838"] == ["4948", "4041", "4838"];
    OneWalks(["4948", "4041", "4838"], Pos(3, 8), Pos(4, 1), Black, "4131", Pos(3, 1));
    assert ["4948", "4041", "4838"] + ["4131"] == ["4948", "4041", "4838", "4131"];
    NobodyBetween();
  }

  lemma NothingPlayed()
    ensures Recorded([]) == Some(Game(KingsAt(Pos(4, 9), Pos(4, 0)), Red))
  {
    assert Parsed([]) == [];
    assert KingsAt(Pos(4, 9), Pos(4, 0)) == InitialMen();
  }

  lemma NobodyBetween()
    ensures Screens(KingsAt(Pos(3, 8), Pos(3, 1)), Pos(3, 8), Pos(3, 1)) == {}
  {
  }
}
