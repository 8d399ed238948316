/** Games that reach the states a table is not made for. */
module TableFacts {
  import opened Xiangqi
  import opened Games
  import opened RuleFacts
  import opened Clocks
  import opened Elo
  import opened Tables

  /** After Red's pass Black has a reply, as with every other quiet first move. */
  lemma BlackReplies()
    ensures HasReply(Game(InitialMen(), Black))
  {
    hide Attacked, Facing;
    var g, p, q := Game(InitialMen(), Black), Pos(0, 3), Pos(0, 4);
    PawnStepsQuietly(g.men, p, q);
    assert Legal(g, p, q);
  }

  lemma PawnStepsQuietly(men: Placement, p: Pos, q: Pos)
    requires men == InitialMen() && p == Pos(0, 3) && q == Pos(0, 4)
    ensures CanGo(men, p, q) && men[p].color == Black
    ensures !Attacked(Step(men, p, q), Black) && !Facing(Step(men, p, q))
  {
    hide Reaches, Facing, InitialMen, Confined;
    PawnReaches(men, p, q);
    var men' := Step(men, p, q);
    forall k | KingAt(men', k, Black)
      ensures k == Pos(4, 0)
    {
      KingsHome(men, p, q, k);
    }
    forall z | z in men' && men'[z].color == Red
      ensures !CanGo(men', z, Pos(4, 0))
    {
      RedOutOfReach(men', z);
    }
    ColumnScreened(men');
  }

  lemma PawnReaches(men: Placement, p: Pos, q: Pos)
    requires men == InitialMen() && p == Pos(0, 3) && q == Pos(0, 4)
    ensures p in men && men[p] == Man(Pawn, Black) && q !in men && Reaches(men, men[p], p, q)
    ensures var men' := Step(men, p, q);
            && Pos(4, 3) in men' && KingAt(men', Pos(4, 9), Red) && KingAt(men', Pos(4, 0), Black)
            && forall z :: z in men' && men'[z].color == Red ==> InitialMan(z) == Some(men'[z])
  {
  }

  lemma KingsHome(men: Placement, p: Pos, q: Pos, k: Pos)
    requires men == InitialMen() && p == Pos(0, 3) && q == Pos(0, 4) && p in men && KingAt(Step(men, p, q), k, Black)
    ensures k == Pos(4, 0)
  {
  }

  lemma RedOutOfReach(men: Placement, z: Pos)
    requires InitialMan(z).Some? && InitialMan(z).value.color == Red
    ensures !Reaches(men, InitialMan(z).value, z, Pos(4, 0))
  {
    hide Screens;
  }

  lemma ColumnScreened(men: Placement)
    requires Pos(4, 3) in men && men[Pos(4, 3)].kind != King
    requires forall z, c :: KingAt(men, z, c) ==> z.x == 4
    ensures !Facing(men)
  {
  }

  /** One move into a game that opened with a pass it is in progress. */
  lemma AfterThePass()
    ensures Recorded(["190;"]) == Some(Game(InitialMen(), Black))
    ensures Standing(Checks([]), Game(InitialMen(), Black)) == InProgress
  {
    PassIsAccepted();
    BlackReplies();
    InitialQuiet(Black);
  }

  /** A new table at which two players have sat down. */
  method TwoSeated(initialTime: TimeInfo) returns (table: Table, red: Player, black: Player)
    ensures fresh(table) && fresh(red) && fresh(black) && red != black
    ensures fresh(table.board) && fresh(table.board.cells) && fresh(table.board.roster)
    ensures table.Valid() && table.status == Ready && table.redPlayer == red && table.blackPlayer == black
    ensures table.moves == [] && table.times == [] && table.allPlayers == [red, black]
  {
    hide Table.Valid;
    table := new Table("1", initialTime);
    red := new Player("red", false);
    black := new Player("black", false);
    var _ := table.AssignPlayerAs(red, Some(Red));
    var _ := table.AssignPlayerAs(black, Some(Black));
  }

  lemma OpenToRed(table: Table)
    requires table.Valid() && table.status == Ready && table.moves == []
    ensures table.board.nextColor == Red
  {
    hide InitialMen;
    assert Parsed([]) == [];
  }

  /** Red moves and goes to watch, Black resigns: ending the game meets the empty seat. */
  method EmptySeatReached(initialTime: TimeInfo) returns (table: Table, red: Player, black: Player, rc: ResultCode)
    ensures rc == NullSeat && table.status == RedWin && table.moves == ["190;"]
    ensures table.redPlayer == null && red in table.allPlayers && table.blackPlayer == black
  {
    hide Table.Valid, Recorded, Standing, Checks, InitialMen, Paid, RedRecord, BlackRecord;
    table, red, black := TwoSeated(initialTime);
    OpenToRed(table);
    AfterThePass();
    assert [] + ["190;"] == ["190;"];
    rc := table.AcceptMove(red, "190;", 0);
    rc := table.AssignPlayerAs(red, None);
    rc := table.HandleResignRequest(black);
  }
}
