/** The server as a whole: its players and its tables, and whatever the players do in
    whatever order. */
module Server {
  import opened Xiangqi
  import opened Lists
  import opened Games
  import opened Clocks
  import opened Elo
  import opened Tables
  import opened TableManagement

  /** The boards of some tables, with their cells and pieces. */
  ghost function Boards(tables: set<Table>): set<object>
    reads tables`board
  {
    (set t | t in tables :: t.board) + (set t | t in tables :: t.board.cells as object) +
    (set t, p | t in tables && p in t.board.roster :: p)
  }

  lemma BoardsAllocated(tables: set<Table>)
    ensures NobodyIn(Boards(tables)) && forall o :: o in Boards(tables) ==> allocated(o)
  {
  }

  ghost predicate AllValid(tables: set<Table>)
    reads tables, Boards(tables)
  {
    forall t :: t in tables ==> t.Valid()
  }

  /** No two tables share a board or a piece. */
  ghost predicate Separate(tables: set<Table>)
    reads tables`board
  {
    forall t, u :: t in tables && u in tables && t != u ==>
      t.board != u.board && t.board.cells != u.board.cells && t.board.roster !! u.board.roster
  }

  /** No table remembers a move later than now. */
  ghost predicate Past(tables: set<Table>, now: int)
    reads tables`times
  {
    forall t :: t in tables ==> t.Timely(now)
  }

  lemma OneOut(tables: set<Table>, t: Table, now: int, later: int)
    requires t in tables && AllValid(tables) && Past(tables, now) && Separate(tables) && now <= later
    ensures AllValid(tables - {t}) && Past(tables - {t}, later) && t.Valid() && t.Timely(later)
    ensures Separate(tables - {t}) && {t.board, t.board.cells} + t.board.roster !! Boards(tables - {t})
  {
    hide Table.Valid;
  }

  ghost predicate NobodyIn(objects: set<object>) {
    && (forall p: Player :: p !in objects) && (forall t: Table :: t !in objects)
    && (forall r: TableMgr :: r !in objects) && forall b: Lobby :: b !in objects
  }

  lemma BoardsSplit(tables: set<Table>, t: Table)
    requires t in tables
    ensures Boards(tables) == Boards(tables - {t}) + {t.board, t.board.cells} + t.board.roster
  {
    assert forall u :: u in tables ==> u == t || u in tables - {t};
  }

  lemma Fewer(tables: set<Table>, fewer: set<Table>, now: int)
    requires fewer <= tables && AllValid(tables) && Past(tables, now) && Separate(tables)
    ensures AllValid(fewer) && Past(fewer, now) && Separate(fewer) && Boards(fewer) <= Boards(tables)
  {
    hide Table.Valid;
  }

  lemma OneIn(tables: set<Table>, t: Table, now: int)
    requires t in tables && AllValid(tables - {t}) && Past(tables - {t}, now) && t.Valid() && t.Timely(now)
    requires Separate(tables - {t}) && {t.board, t.board.cells} + t.board.roster !! Boards(tables - {t})
    ensures AllValid(tables) && Past(tables, now) && Separate(tables)
  {
    hide Table.Valid;
    assert forall u :: u in tables ==> u == t || u in tables - {t};
  }

  class Lobby {
    const mgr: TableMgr
    const roll: seq<Player>
    var clock: int

    ghost function Everyone(): set<Player> {
      set p | p in roll
    }

    ghost function Registered(): set<Table>
      reads mgr
    {
      mgr.tableMap.Values
    }

    ghost predicate Good()
      reads this, mgr, Registered(), Everyone()`tables, Boards(Registered())
    {
      && mgr.Valid() && NoDup(roll) && Linked(Everyone(), Registered())
      && Separate(Registered()) && Past(Registered(), clock) && AllValid(Registered())
    }

    constructor (roll: seq<Player>)
      requires NoDup(roll) && forall p :: p in roll ==> p.tables == {}
      ensures Good() && this.roll == roll && Registered() == {} && fresh(mgr)
    {
      hide NoDup;
      this.roll, clock := roll, 0;
      mgr := new TableMgr();
    }

    lemma SeatsOnRoll(table: Table)
      requires Linked(Everyone(), Registered()) && table in Registered() && table.Valid()
      ensures SeatedOn(table, roll)
    {
      hide Table.Valid, NoDup;
      table.Distinct();
      assert forall p :: p in table.allPlayers ==> p in Everyone();
    }

    /** Something happens at one table. */
    method Act(table: Table, action: Action, elapsed: nat) returns (rc: ResultCode)
      requires Good() && table in Registered()
      modifies this`clock, table, table.board, table.board.cells, table.board.roster, table.SeatedPlayers()`record
      ensures Good() && table.allPlayers == old(table.allPlayers)
      ensures fresh(Boards(Registered()) - old(Boards(Registered())))
      ensures action.Move? ==>
                && (rc == OK || rc == NullSeat <==> old(table.Acceptable(action.player, action.text)))
                && table.moves == old(table.moves) + if rc == OK || rc == NullSeat then [action.text] else []
      ensures HandedOnce(old(Records(roll)), Records(roll))
    {
      hide Table.Acceptable, Table.Valid, Table.Timely, TableMgr.Valid, HandedOnce, Records, NoDup, Linked, Separate, Past,
        AllValid, Boards, SeatedOn;
      OneOut(Registered(), table, clock, clock + elapsed);
      SeatsOnRoll(table);
      BoardsSplit(Registered(), table);
      ghost var rest, others := Registered() - {table}, Boards(Registered() - {table});
      clock := clock + elapsed;
      BoardsAllocated(rest);
      assert AllValid(rest);
      rc := ActAt(table, action, clock, roll);
      assert Boards(rest) == others;
      assert AllValid(rest);
      OneIn(Registered(), table, clock);
      BoardsSplit(Registered(), table);
    }

    method Join(player: Player, table: Table, role: Option<Color>) returns (rc: ResultCode)
      requires Good() && table in Registered() && player in roll
      modifies player`tables, table`allPlayers, table`redPlayer, table`blackPlayer, table`status
      ensures Good() && Records(roll) == old(Records(roll)) && Boards(Registered()) == old(Boards(Registered()))
      ensures rc == OK ==> table in player.tables && player in table.allPlayers
    {
      hide Table.Valid, TableMgr.Valid, Records, NoDup, Linked, Separate, Past, AllValid, Boards;
      OneOut(Registered(), table, clock, clock);
      ghost var rest, others := Registered() - {table}, Boards(Registered() - {table});
      BoardsAllocated(rest);
      rc := player.JoinTableAs(table, role, Everyone(), Registered());
      assert Boards(rest) == others;
      assert AllValid(rest);
      OneIn(Registered(), table, clock);
    }

    method Leave(player: Player, table: Table) returns (rc: ResultCode)
      requires Good() && table in Registered() && player in roll
      modifies player`tables, table.SeatedPlayers()`record
      modifies table`allPlayers, table`redPlayer, table`blackPlayer, table`status, table`drawPlayerId, table`scored
      ensures Good() && Boards(Registered()) == old(Boards(Registered()))
      ensures rc != NullSeat ==> player.tables == old(player.tables) - {table}
      ensures HandedOnce(old(Records(roll)), Records(roll))
    {
      hide Table.Valid, TableMgr.Valid, Records, NoDup, Linked, Separate, Past, AllValid, Boards, HandedOnce, Paid,
        Table.Forfeits, Table.IsScored;
      OneOut(Registered(), table, clock, clock);
      ghost var rest, others := Registered() - {table}, Boards(Registered() - {table});
      BoardsAllocated(rest);
      rc := player.LeaveTable(table, roll, Everyone(), Registered());
      assert Boards(rest) == others;
      assert AllValid(rest);
      OneIn(Registered(), table, clock);
    }

    method LeaveAll(player: Player) returns (rc: ResultCode)
      requires Good() && player in roll
      modifies player`tables, Everyone()`record
      modifies Registered()`allPlayers, Registered()`redPlayer, Registered()`blackPlayer
      modifies Registered()`status, Registered()`drawPlayerId, Registered()`scored
      ensures Good() && (rc == OK ==> player.tables == {}) && Boards(Registered()) == old(Boards(Registered()))
      ensures Handed(old(Records(roll)), Records(roll))
    {
      hide Table.Valid, TableMgr.Valid, Records, NoDup, Linked, Separate, Past, Boards, Handed;
      rc := player.LeaveAllTables(roll, Everyone(), Registered());
    }

    method Create(initialTime: TimeInfo) returns (table: Table)
      requires Good()
      modifies mgr
      ensures Good() && fresh(table) && Registered() == old(Registered()) + {table}
      ensures fresh(Boards(Registered()) - old(Boards(Registered())))
    {
      hide Table.Valid, TableMgr.Valid, Records, NoDup, Linked, Separate, Past, AllValid, Boards;
      ghost var before, boards := Registered(), Boards(Registered());
      BoardsAllocated(before);
      table := mgr.CreateTable(initialTime, Everyone());
      assert Registered() - {table} == before;
      assert AllValid(before) && Boards(before) == boards;
      OneIn(Registered(), table, clock);
      BoardsSplit(Registered(), table);
    }

    method Cleanup()
      requires Good()
      modifies mgr
      ensures Good() && Registered() <= old(Registered()) && Boards(Registered()) <= old(Boards(Registered()))
      ensures mgr.tableMap == map k | k in old(mgr.tableMap) && old(mgr.tableMap)[k].allPlayers != [] :: old(mgr.tableMap)[k]
    {
      hide Table.Valid, TableMgr.Valid, NoDup, Linked, Separate, Past, AllValid, Boards;
      ghost var before := Registered();
      BoardsAllocated(before);
      mgr.RunCleanup(Everyone());
      Fewer(before, Registered(), clock);
    }

    /** All that events can change. */
    ghost function Footprint(): set<object>
      reads mgr, Registered()`board
    {
      {this, mgr} + Registered() + Everyone() + Boards(Registered())
    }

    lemma Reached(table: Table)
      requires Good() && table in Registered()
      ensures table.SeatedPlayers() <= Everyone()
      ensures {table.board, table.board.cells} + table.board.roster <= Boards(Registered())
    {
      hide Table.Valid, NoDup, Boards, Separate, Past, Linked, TableMgr.Valid;
      SeatsOnRoll(table);
      BoardsSplit(Registered(), table);
    }

    /** One event; `crashed` tells that the end of a game met an empty seat. */
    method Perform(e: Event) returns (crashed: bool)
      requires Good()
      modifies Footprint()
      ensures Good() && forall o :: o in Footprint() ==> o in old(Footprint()) || fresh(o)
      ensures Handed(old(Records(roll)), Records(roll))
    {
      hide Table.Valid, Good, Records, Boards, Handed, HandedOnce;
      ghost var before := Records(roll);
      NothingHanded(before);
      var rc := OK;
      match e {
      case At(id, action, elapsed) =>
        if id in mgr.tableMap {
          Reached(mgr.tableMap[id]);
          rc := Act(mgr.tableMap[id], action, elapsed);
          OnceIsHanded(before, Records(roll));
        }
      case Join(player, id, role) =>
        if player in roll && id in mgr.tableMap { var _ := Join(player, mgr.tableMap[id], role); }
      case Leave(player, id) =>
        if player in roll && id in mgr.tableMap {
          Reached(mgr.tableMap[id]);
          rc := Leave(player, mgr.tableMap[id]);
          OnceIsHanded(before, Records(roll));
        }
      case LeaveAll(player) =>
        if player in roll { rc := LeaveAll(player); }
      case Create(initialTime) => var _ := Create(initialTime);
      case Cleanup => Cleanup();
      }
      crashed := rc == NullSeat;
    }

    /** Whatever happens and in whatever order: every table stays valid, players and tables
        stay linked, ids stay unique, and the records change only by scored games.  So the
        ratings keep their sum, and wins and losses their difference. */
    method Run(events: seq<Event>) returns (done: nat, crashed: bool)
      requires Good()
      modifies Footprint()
      ensures Good() && done <= |events| && (done == |events| || crashed)
      ensures Handed(old(Records(roll)), Records(roll))
      ensures Total(Records(roll), ScoreOf) == Total(old(Records(roll)), ScoreOf)
      ensures Total(Records(roll), Margin) == Total(old(Records(roll)), Margin)
    {
      hide Good, Records, Boards, Handed, Total;
      ghost var before := Records(roll);
      NothingHanded(before);
      done, crashed := 0, false;
      while done < |events| && !crashed
        invariant done <= |events| && Good()
        invariant forall o :: o in Footprint() ==> o in old(Footprint()) || fresh(o)
        invariant Handed(before, Records(roll))
      {
        ghost var now := Records(roll);
        crashed := Perform(events[done]);
        HandedOn(before, now, Records(roll));
        done := done + 1;
      }
      HandedConserves(before, Records(roll));
    }
  }

  /** What can happen to the server.  A table is named by its id; the clocks of the tables
      are checked one by one. */
  datatype Event =
    | At(id: string, action: Action, elapsed: nat)
    | Join(player: Player, id: string, role: Option<Color>)
    | Leave(player: Player, id: string)
    | LeaveAll(player: Player)
    | Create(initialTime: TimeInfo)
    | Cleanup

  /** What a player may do at a table, and the check of the clock. */
  datatype Action =
    | Move(player: Player, text: string)
    | Resign(player: Player)
    | OfferDraw(player: Player)
    | Reset(player: Player)
    | Update(player: Player, rated: bool, time: TimeInfo)
    | CheckClock

  method ActAt(table: Table, action: Action, now: int, ghost roll: seq<Player>) returns (rc: ResultCode)
    requires table.Valid() && table.Timely(now) && NoDup(roll) && SeatedOn(table, roll)
    modifies table, table.board, table.board.cells, table.board.roster, table.SeatedPlayers()`record
    ensures table.Valid() && table.Timely(now) && table.allPlayers == old(table.allPlayers)
    ensures table.board == old(table.board) || (fresh(table.board) && fresh(table.board.cells) && fresh(table.board.roster))
    ensures action.Move? ==>
              && (rc == OK || rc == NullSeat <==> old(table.Acceptable(action.player, action.text)))
              && table.moves == old(table.moves) + if rc == OK || rc == NullSeat then [action.text] else []
    ensures HandedOnce(old(Records(roll)), Records(roll))
  {
    hide Table.Acceptable, Table.Valid, HandedOnce, Paid, Records, NoDup, Table.EndsAs;
    match action
    case Move(player, text) =>
      rc := MoveAt(table, player, text, now, roll);
    case Resign(player) =>
      rc := ResignAt(table, player, roll);
    case OfferDraw(player) =>
      rc := OfferDrawAt(table, player, roll);
    case CheckClock =>
      rc := CheckClockAt(table, now, roll);
    case Reset(player) =>
      NoneHandedOnce(Records(roll));
      rc := table.HandleResetRequest(player);
    case Update(player, rated, time) =>
      NoneHandedOnce(Records(roll));
      rc := table.HandleUpdateRequest(player, rated, time);
  }

  ghost predicate SeatedOn(table: Table, roll: seq<Player>)
    reads table
  {
    && (table.redPlayer != null ==> table.redPlayer in roll && table.redPlayer != table.blackPlayer)
    && (table.blackPlayer != null ==> table.blackPlayer in roll)
  }

  /** What a table has paid, the roll has been handed. */
  lemma EndHanded(table: Table, roll: seq<Player>, before: seq<Record>, red0: Record, black0: Record, scored0: nat,
                  rc: ResultCode, ended: bool)
    requires NoDup(roll) && |before| == |roll| && SeatedOn(table, roll)
    requires if ended then Over(table.status) && table.EndsAs(table.status, rc, red0, black0, scored0)
             else table.RedNow() == red0 && table.BlackNow() == black0
    requires forall i :: 0 <= i < |roll| ==>
               && (roll[i] == table.redPlayer ==> before[i] == red0) && (roll[i] == table.blackPlayer ==> before[i] == black0)
               && (roll[i] != table.redPlayer && roll[i] != table.blackPlayer ==> before[i] == roll[i].record)
    ensures HandedOnce(before, Records(roll))
  {
    hide NoDup, Paid, HandedOnce, Records, Table.EndsAs;
    if ended {
      table.EndsPaid(table.status, rc, red0, black0, scored0);
    } else {
      table.UnendedPaid(table.status, red0, black0);
    }
    PaidIsHanded(roll, before, table.redPlayer, table.blackPlayer, red0, black0, table.status, ended && table.IsScored());
  }

  method MoveAt(table: Table, player: Player, text: string, now: int, ghost roll: seq<Player>) returns (rc: ResultCode)
    requires table.Valid() && table.Timely(now) && NoDup(roll) && SeatedOn(table, roll)
    modifies table, table.board, table.board.cells, table.board.roster, table.SeatedPlayers()`record
    ensures table.Valid() && table.Timely(now) && table.allPlayers == old(table.allPlayers) && table.board == old(table.board)
    ensures rc == OK || rc == NullSeat <==> old(table.Acceptable(player, text))
    ensures table.moves == old(table.moves) + if rc == OK || rc == NullSeat then [text] else []
    ensures HandedOnce(old(Records(roll)), Records(roll))
  {
    hide Table.Valid, Table.Timely, Table.GameFields, Recorded, Standing, Checks, HandedOnce, Records, NoDup, Table.EndsAs,
      Table.Acceptable;
    ghost var before, red0, black0, scored0 := Records(roll), table.RedNow(), table.BlackNow(), table.scored;
    ghost var acceptable, moves0 := table.Acceptable(player, text), table.moves;
    rc := table.AcceptMove(player, text, now);
    assert !acceptable ==> table.moves + [] == moves0;
    EndHanded(table, roll, before, red0, black0, scored0, rc, acceptable && Over(table.status));
  }

  method ResignAt(table: Table, player: Player, ghost roll: seq<Player>) returns (rc: ResultCode)
    requires table.Valid() && NoDup(roll) && SeatedOn(table, roll)
    modifies table`status, table`drawPlayerId, table`scored, table.SeatedPlayers()`record
    ensures table.Valid() && HandedOnce(old(Records(roll)), Records(roll))
  {
    hide Table.Valid, HandedOnce, Records, NoDup, Table.EndsAs;
    ghost var before, red0, black0, scored0 := Records(roll), table.RedNow(), table.BlackNow(), table.scored;
    rc := table.HandleResignRequest(player);
    if rc != NotAllowed { EndsOver(table, if player == table.redPlayer then BlackWin else RedWin, rc, red0, black0, scored0); }
    EndHanded(table, roll, before, red0, black0, scored0, rc, rc != NotAllowed);
  }

  lemma EndsOver(table: Table, status: Status, rc: ResultCode, red0: Record, black0: Record, scored0: nat)
    requires table.EndsAs(status, rc, red0, black0, scored0)
    ensures table.status == status && table.EndsAs(table.status, rc, red0, black0, scored0)
  {
    hide RedRecord, BlackRecord;
  }

  method OfferDrawAt(table: Table, player: Player, ghost roll: seq<Player>) returns (rc: ResultCode)
    requires table.Valid() && NoDup(roll) && SeatedOn(table, roll)
    modifies table`status, table`drawPlayerId, table`scored, table.SeatedPlayers()`record
    ensures table.Valid() && HandedOnce(old(Records(roll)), Records(roll))
  {
    hide Table.Valid, HandedOnce, Records, NoDup, Table.EndsAs;
    ghost var before, red0, black0, scored0 := Records(roll), table.RedNow(), table.BlackNow(), table.scored;
    ghost var offered := table.drawPlayerId;
    rc := table.HandleDrawRequest(player);
    ghost var ended := rc != NotAllowed && offered != "" && player.id != offered;
    if ended { EndsOver(table, Drawn, rc, red0, black0, scored0); }
    EndHanded(table, roll, before, red0, black0, scored0, rc, ended);
  }

  method CheckClockAt(table: Table, now: int, ghost roll: seq<Player>) returns (rc: ResultCode)
    requires table.Valid() && NoDup(roll) && SeatedOn(table, roll)
    modifies table`status, table`drawPlayerId, table`scored, table.SeatedPlayers()`record
    ensures table.Valid() && HandedOnce(old(Records(roll)), Records(roll))
  {
    hide Table.Valid, HandedOnce, Records, NoDup, Table.EndsAs;
    ghost var before, red0, black0, scored0 := Records(roll), table.RedNow(), table.BlackNow(), table.scored;
    var ended;
    ended, rc := table.CheckTimeoutOnMove(now);
    if ended {
      EndsOver(table, if MoverOf(|table.moves|) == Red then BlackWin else RedWin, rc, red0, black0, scored0);
    }
    EndHanded(table, roll, before, red0, black0, scored0, rc, ended);
  }
}
