/** A table: two seats, observers, a game, its clocks and its score. */
module Tables {
  import opened Xiangqi
  import opened Lists
  import opened CheckCounting
  import opened Games
  import opened Referee
  import opened Clocks
  import opened Elo

  /** NullSeat stands for the null dereference that ending a game with an empty seat is. */
  datatype ResultCode = OK | Err | NotAllowed | NotValid | NullSeat

  class Player {
    const id: string
    const guest: bool
    var record: Record
    var tables: set<Table>

    constructor (id: string, guest: bool)
      ensures this.id == id && this.guest == guest && tables == {} && record == Record(0, 0, 0, 0)
    {
      this.id, this.guest, tables, record := id, guest, {}, Record(0, 0, 0, 0);
    }

    method JoinTableAs(table: Table, role: Option<Color>, ghost players: set<Player>, ghost registered: set<Table>)
      returns (rc: ResultCode)
      requires table.Valid() && Linked(players, registered) && this in players && table in registered
      modifies this`tables, table`allPlayers, table`redPlayer, table`blackPlayer, table`status
      ensures table.Valid() && Linked(players, registered)
      ensures rc == if (role == Some(Red) && old(table.redPlayer) != null) ||
                       (role == Some(Black) && old(table.blackPlayer) != null) then Err else OK
      ensures rc == OK ==> tables == old(tables) + {table} && this in table.allPlayers
      ensures rc == OK ==>
                && (table.redPlayer == this <==> role == Some(Red)) && (table.blackPlayer == this <==> role == Some(Black))
                && table.status == BySeats(old(table.status), table.redPlayer, table.blackPlayer)
      ensures rc != OK ==>
                && tables == old(tables) && table.allPlayers == old(table.allPlayers) && table.status == old(table.status)
                && table.redPlayer == old(table.redPlayer) && table.blackPlayer == old(table.blackPlayer)
    {
      hide Table.Valid;
      rc := table.AssignPlayerAs(this, role);
      if rc != OK { return; }
      tables := tables + {table};
    }

    method LeaveTable(table: Table, ghost roll: seq<Player>, ghost players: set<Player>, ghost registered: set<Table>)
      returns (rc: ResultCode)
      requires table.Valid() && Linked(players, registered) && this in players && table in registered
      requires NoDup(roll) && forall p :: p in roll <==> p in players
      modifies this`tables
      modifies table`allPlayers, table`redPlayer, table`blackPlayer, table`status, table`drawPlayerId, table`scored
      modifies table.SeatedPlayers()`record
      ensures table.Valid() && (rc == OK || rc == NullSeat)
      ensures Linked(players, registered)
      ensures rc == OK ==> tables == old(tables) - {table} && table.allPlayers == Without(old(table.allPlayers), this)
      ensures rc == NullSeat ==> tables == old(tables) && table.allPlayers == old(table.allPlayers)
      ensures rc == NullSeat <==> old(table.Forfeits(this)) && (old(table.redPlayer) == null || old(table.blackPlayer) == null)
      ensures !old(table.Forfeits(this)) ==>
                table.status == BySeats(old(table.status), table.redPlayer, table.blackPlayer) && table.scored == old(table.scored)
      ensures old(table.Forfeits(this)) ==>
                && table.status == (if this == old(table.redPlayer) then BlackWin else RedWin)
                && table.scored == old(table.scored) + (if old(table.IsScored()) then 1 else 0)
      ensures Paid(old(table.redPlayer), old(table.blackPlayer), old(table.RedNow()), old(table.BlackNow()), table.status,
                   old(table.Forfeits(this)) && old(table.IsScored()))
      ensures HandedOnce(old(Records(roll)), Records(roll))
    {
      hide Table.Valid, Paid, HandedOnce, Without, NoDup, Records, Table.Forfeits, Table.IsScored, RedRecord, BlackRecord;
      table.Distinct();
      WithoutRemoves(table.allPlayers, this);
      SeatsIn(table, roll, players, registered);
      rc := table.LeaveAndPay(this, roll);
      if rc == NullSeat { return; }
      tables := tables - {table};
    }

    lemma SeatsIn(table: Table, roll: seq<Player>, players: set<Player>, registered: set<Table>)
      requires Linked(players, registered) && table in registered && forall p :: p in roll <==> p in players
      requires forall p :: p in table.SeatedPlayers() ==> p in table.allPlayers
      ensures forall p :: p in table.SeatedPlayers() ==> p in roll
    {
    }

    /** Leaves one table after another until none is left; every game this forfeits is
        scored, and nothing else happens to anybody's record. */
    method LeaveAllTables(ghost roll: seq<Player>, ghost players: set<Player>, ghost registered: set<Table>)
      returns (rc: ResultCode)
      requires Linked(players, registered) && this in players
      requires NoDup(roll) && forall p :: p in roll <==> p in players
      requires forall t :: t in registered ==> t.Valid()
      modifies this`tables, players`record
      modifies registered`allPlayers, registered`redPlayer, registered`blackPlayer
      modifies registered`status, registered`drawPlayerId, registered`scored
      ensures rc == OK || rc == NullSeat
      ensures (rc == OK ==> tables == {}) && Linked(players, registered)
      ensures rc == OK ==> forall t :: t in registered ==> this !in t.allPlayers
      ensures forall t :: t in registered ==> t.Valid()
      ensures Handed(old(Records(roll)), Records(roll))
    {
      hide Table.Valid, Without, Handed, HandedOnce, Paid, Records, Table.Forfeits;
      ghost var records := Records(roll);
      NothingHanded(records);
      rc := OK;
      while tables != {}
        invariant Linked(players, registered) && rc == OK
        invariant forall t :: t in registered ==> t.Valid()
        invariant Handed(records, Records(roll))
        decreases tables
      {
        var table :| table in tables;
        ghost var now := Records(roll);
        table.Distinct();
        rc := LeaveTable(table, roll, players, registered);
        OnceIsHanded(now, Records(roll));
        HandedOn(records, now, Records(roll));
        if rc == NullSeat { return; }
      }
    }
  }

  /** The records of all players, in the order of a roll. */
  ghost function Records(roll: seq<Player>): (r: seq<Record>)
    reads (set p | p in roll)`record
    ensures |r| == |roll| && forall i :: 0 <= i < |roll| ==> r[i] == roll[i].record
  {
    if roll == [] then [] else Records(roll[..|roll| - 1]) + [roll[|roll| - 1].record]
  }

  /** Whoever is paid for a game, it is one scored game or none for the roll as a whole. */
  lemma PaidIsHanded(roll: seq<Player>, before: seq<Record>, red: Player?, black: Player?, red0: Record, black0: Record,
                     status: Status, counts: bool)
    requires NoDup(roll) && |before| == |roll| && Paid(red, black, red0, black0, status, counts)
    requires (red != null ==> red in roll) && (black != null ==> black in roll)
    requires counts ==> red != null && black != null && red != black && Over(status)
    requires forall i :: 0 <= i < |roll| ==>
               && (roll[i] == red ==> before[i] == red0) && (roll[i] == black ==> before[i] == black0)
               && (roll[i] != red && roll[i] != black ==> before[i] == roll[i].record)
    ensures HandedOnce(before, Records(roll))
  {
    hide RedRecord, BlackRecord, Records;
    if counts {
      var i :| 0 <= i < |roll| && roll[i] == red;
      var j :| 0 <= j < |roll| && roll[j] == black;
      var g := Result(i, j, status);
      forall k | 0 <= k < |roll|
        ensures roll[k].record == Scored(before, g)[k]
      {
        assert k != i ==> roll[k] != red;
        assert k != j ==> roll[k] != black;
      }
      assert Playable(g, |before|) && Records(roll) == Scored(before, g);
    } else {
      assert Records(roll) == before;
    }
  }

  /** Players and registered tables know each other, both ways, and nobody else. */
  ghost predicate Linked(players: set<Player>, registered: set<Table>)
    reads players`tables, registered`allPlayers
  {
    && (forall p, t :: p in players && t in registered ==> (t in p.tables <==> p in t.allPlayers))
    && (forall p :: p in players ==> p.tables <= registered)
    && (forall t, p :: t in registered && p in t.allPlayers ==> p in players)
  }

  predicate Over(s: Status) {
    s == RedWin || s == BlackWin || s == Drawn
  }

  /** Whoever sits at the table is one of its players, and nobody has both seats. */
  ghost predicate SeatsFit(all: seq<Player>, red: Player?, black: Player?) {
    && NoDup(all)
    && (red != null ==> red in all && red != black)
    && (black != null ==> black in all)
  }

  /** READY tells that both seats are taken and OPEN that one is not; a game in progress
      tells nothing about the seats.  A game is scored once at most, at its end. */
  ghost predicate StatusIsFor(status: Status, red: Player?, black: Player?, moves: seq<string>, scored: nat) {
    && (status == Ready ==> red != null && black != null)
    && (status == Open ==> red == null || black == null)
    && (status == Open || status == Ready ==> moves == [])
    && status != Unknown
    && scored <= (if Over(status) then 1 else 0)
  }

  lemma StatusOfPlayed(s: Status, red: Player?, black: Player?, moves: seq<string>, s': Status, moves': seq<string>, scored: nat)
    requires StatusIsFor(s, red, black, moves, scored) && !Over(s)
    requires s' == InProgress || Over(s')
    ensures StatusIsFor(s', red, black, moves', 0)
    ensures Over(s') ==> StatusIsFor(s', red, black, moves', scored + 1)
    ensures scored == 0
  {
  }

  function Both(red: Player?, black: Player?): set<Player> {
    (if red == null then {} else {red}) + (if black == null then {} else {black})
  }

  /** Before a game the status follows the seats; later on it does not. */
  function BySeats(status: Status, red: Player?, black: Player?): Status {
    if status == Open || status == Ready then (if red != null && black != null then Ready else Open) else status
  }

  lemma SeatsDiffer(all: seq<Player>, red: Player?, black: Player?)
    requires SeatsFit(all, red, black)
    ensures red != null ==> red != black
  {
  }

  /** The board stands where the moves lead, and a game in progress is not lost. */
  ghost predicate Shows(moves: seq<string>, g: Game, inProgress: bool) {
    Recorded(moves) == Some(g) && (inProgress ==> HasReply(g))
  }

  /** The counters have counted the moves, and have not ended the game. */
  ghost predicate Counts(moves: seq<string>, tally: Tally) {
    tally == TallyOf(Checks(moves)) && GoesOn(Checks(moves))
  }

  /** The clocks have run as the times of the moves say. */
  ghost predicate Clocked(moves: seq<string>, times: seq<int>, last: int, initial: TimeInfo, stale: int, k: Clock) {
    && |times| == |moves| && Monotone(times)
    && (times != [] ==> last == times[|times| - 1])
    && k == ClockOf(initial, stale, times)
  }

  lemma ClockedGives(moves: seq<string>, times: seq<int>, last: int, initial: TimeInfo, stale: int, k: Clock)
    requires Clocked(moves, times, last, initial, stale, k)
    ensures |times| == |moves| && (times != [] ==> last == times[|times| - 1])
  {
  }

  /** The records of the two players of a game that ended, if it was scored, or did not. */
  ghost predicate Paid(red: Player?, black: Player?, red0: Record, black0: Record, status: Status, scored: bool)
    reads Both(red, black)`record
  {
    && (red != null ==> red.record == if scored then RedRecord(red0, black0, status) else red0)
    && (black != null ==> black.record == if scored then BlackRecord(red0, black0, status) else black0)
  }

  class Table {
    const id: string
    var rated: bool
    var initialTime: TimeInfo
    var redTime: TimeInfo
    var blackTime: TimeInfo
    var redPlayer: Player?
    var blackPlayer: Player?
    var allPlayers: seq<Player>
    var board: Board
    var status: Status
    var moves: seq<string>
    var drawPlayerId: string
    var lastMoveTime: int
    var nextMoveExpiry: int
    var isPrevMoveCheck: bool
    var effectiveMoves: nat
    var redChecks: nat
    var blackChecks: nat
    ghost var times: seq<int>   // when the moves of the game in progress were made
    ghost var stale: int        // the expiry the last game left behind
    ghost var scored: nat       // how often the present game has been scored

    // ------------------------------------------------------------------------
    // Invariant
    // ------------------------------------------------------------------------

    ghost predicate Seated()
      reads this
    {
      SeatsFit(allPlayers, redPlayer, blackPlayer)
    }

    ghost predicate StatusFits()
      reads this
    {
      StatusIsFor(status, redPlayer, blackPlayer, moves, scored)
    }

    ghost function CountedAs(): Tally
      reads this
    {
      Tally(isPrevMoveCheck, effectiveMoves, redChecks, blackChecks)
    }

    ghost function ClockShown(): Clock
      reads this
    {
      Clock(redTime, blackTime, nextMoveExpiry)
    }

    /** The board, the counters and the clocks are what the recorded moves make them. */
    ghost predicate Faithful()
      reads this, board, board.cells, board.roster
    {
      && board.Valid()
      && Shows(moves, board.State(), status == InProgress)
      && (!Over(status) ==>
            && Counts(moves, CountedAs())
            && Clocked(moves, times, lastMoveTime, initialTime, stale, ClockShown()))
    }

    ghost predicate Valid()
      reads this, board, board.cells, board.roster
    {
      Seated() && StatusFits() && Faithful()
    }

    lemma Distinct()
      requires Valid()
      ensures NoDup(allPlayers) && (redPlayer != null ==> redPlayer in allPlayers && redPlayer != blackPlayer)
      ensures (blackPlayer != null ==> blackPlayer in allPlayers) && forall p :: p in SeatedPlayers() ==> p in allPlayers
    {
      hide NoDup, StatusFits, Faithful;
    }

    /** Time does not run backwards. */
    ghost predicate Timely(now: int)
      reads this`times
    {
      times != [] ==> times[|times| - 1] <= now
    }

    constructor (id: string, initialTime: TimeInfo)
      ensures Valid() && fresh(board) && fresh(board.cells) && fresh(board.roster)
      ensures redPlayer == null && blackPlayer == null && rated
      ensures status == Open && allPlayers == [] && moves == [] && times == [] && this.id == id && this.initialTime == initialTime
    {
      hide Board.Valid, Shows, Counts, Clocked, InitialMen;
      this.id, this.initialTime, redTime, blackTime := id, initialTime, initialTime, initialTime;
      rated, redPlayer, blackPlayer, allPlayers := true, null, null, [];
      status, moves, drawPlayerId := Open, [], "";
      lastMoveTime, nextMoveExpiry := 0, 0;
      isPrevMoveCheck, effectiveMoves, redChecks, blackChecks := false, 0, 0, 0;
      times, stale, scored := [], 0, 0;
      board := new Board(Red);
      new;
      FreshRecord(board.State(), initialTime, stale, lastMoveTime);
    }

    // ------------------------------------------------------------------------
    // Seats
    // ------------------------------------------------------------------------

    /** Adds a player, or moves one who is here already to another role. */
    method AddPlayer(player: Player, role: Option<Color>) returns (newlyAdded: bool)
      requires Seated()
      requires role == Some(Red) ==> redPlayer == null
      requires role == Some(Black) ==> blackPlayer == null
      modifies this`allPlayers, this`redPlayer, this`blackPlayer
      ensures Seated()
      ensures newlyAdded <==> player !in old(allPlayers)
      ensures allPlayers == if newlyAdded then old(allPlayers) + [player] else old(allPlayers)
      ensures redPlayer == if role == Some(Red) then player else if old(redPlayer) == player then null else old(redPlayer)
      ensures blackPlayer == if role == Some(Black) then player else if old(blackPlayer) == player then null else old(blackPlayer)
    {
      newlyAdded := player !in allPlayers;
      if newlyAdded {
        allPlayers := allPlayers + [player];
      }
      match role
      case Some(Red) =>
        redPlayer := player;
        if blackPlayer == player { blackPlayer := null; }
      case Some(Black) =>
        blackPlayer := player;
        if redPlayer == player { redPlayer := null; }
      case None =>
        if redPlayer == player { redPlayer := null; }
        if blackPlayer == player { blackPlayer := null; }
    }

    method RemovePlayer(player: Player)
      requires Seated()
      modifies this`allPlayers, this`redPlayer, this`blackPlayer
      ensures Seated()
      ensures allPlayers == Without(old(allPlayers), player) && player !in allPlayers
      ensures redPlayer == if old(redPlayer) == player then null else old(redPlayer)
      ensures blackPlayer == if old(blackPlayer) == player then null else old(blackPlayer)
    {
      WithoutRemoves(allPlayers, player);
      allPlayers := Without(allPlayers, player);
      if redPlayer == player { redPlayer := null; }
      else if blackPlayer == player { blackPlayer := null; }
    }

    method UpdateStatus()
      modifies this`status
      ensures status ==
              if old(status) == Open && redPlayer != null && blackPlayer != null then Ready
              else if old(status) == Ready && (redPlayer == null || blackPlayer == null) then Open
              else old(status)
    {
      if status == Open {
        if redPlayer != null && blackPlayer != null { status := Ready; }
      } else if status == Ready {
        if redPlayer == null || blackPlayer == null { status := Open; }
      }
    }

    /** Seats a player as requested; only an observer's place is always free. */
    method AssignPlayerAs(player: Player, role: Option<Color>) returns (rc: ResultCode)
      requires Valid()
      modifies this`allPlayers, this`redPlayer, this`blackPlayer, this`status
      ensures Valid()
      ensures rc == if (role == Some(Red) && old(redPlayer) != null) || (role == Some(Black) && old(blackPlayer) != null)
                    then Err else OK
      ensures rc == Err ==> unchanged(this)
      ensures rc == OK ==> allPlayers == if player in old(allPlayers) then old(allPlayers) else old(allPlayers) + [player]
      ensures rc == OK ==>
                redPlayer == if role == Some(Red) then player else if old(redPlayer) == player then null else old(redPlayer)
      ensures rc == OK ==>
                blackPlayer == if role == Some(Black) then player else if old(blackPlayer) == player then null else old(blackPlayer)
      ensures rc == OK ==> status == BySeats(old(status), redPlayer, blackPlayer)
    {
      hide Shows, Counts, Clocked, Board.Valid, NoDup;
      var requestOK :=
        match role
        case Some(Red) => redPlayer == null
        case Some(Black) => blackPlayer == null
        case None => true;
      if !requestOK { return Err; }
      var _ := AddPlayer(player, role);
      UpdateStatus();
      return OK;
    }

    // ------------------------------------------------------------------------
    // The end of a game
    // ------------------------------------------------------------------------

    ghost function SeatedPlayers(): set<Player>
      reads this
    {
      Both(redPlayer, blackPlayer)
    }

    method CalculateNewScores()
      requires redPlayer != null && blackPlayer != null && redPlayer != blackPlayer
      modifies redPlayer`record, blackPlayer`record
      ensures var change := RedChange(old(redPlayer.record), old(blackPlayer.record), status);
              && redPlayer.record == old(redPlayer.record).(score := old(redPlayer.record).score + change)
              && blackPlayer.record == old(blackPlayer.record).(score := old(blackPlayer.record).score - change)
    {
      var red, black := redPlayer.record, blackPlayer.record;
      var useRed := red.Played() > black.Played();
      var diff := if useRed then red.score - black.score else black.score - red.score;
      var oldRating := if useRed then red.score else black.score;
      var played := if useRed then red.Played() else black.Played();
      var result := if status == RedWin then (if useRed then 100 else 0)
                    else if status == BlackWin then (if useRed then 0 else 100)
                    else 50;
      var change := NewRatingChange(diff, oldRating, played, result);
      if useRed {
        redPlayer.record := red.(score := red.score + change);
        blackPlayer.record := black.(score := black.score - change);
      } else {
        redPlayer.record := red.(score := red.score - change);
        blackPlayer.record := black.(score := black.score + change);
      }
    }

    /** The result tells whether the new scores are announced: after a draw they change,
        but are not. */
    method RecordGameResult() returns (announced: bool)
      requires redPlayer != null && blackPlayer != null && redPlayer != blackPlayer
      modifies redPlayer`record, blackPlayer`record, this`scored
      ensures redPlayer.record == RedRecord(old(redPlayer.record), old(blackPlayer.record), status)
      ensures blackPlayer.record == BlackRecord(old(redPlayer.record), old(blackPlayer.record), status)
      ensures announced <==> status == RedWin || status == BlackWin
      ensures scored == old(scored) + 1
    {
      CalculateNewScores();
      scored := scored + 1;
      announced := true;
      var red, black := redPlayer.record, blackPlayer.record;
      match status
      case RedWin =>
        redPlayer.record := red.(wins := red.wins + 1);
        blackPlayer.record := black.(losses := black.losses + 1);
      case BlackWin =>
        redPlayer.record := red.(losses := red.losses + 1);
        blackPlayer.record := black.(wins := black.wins + 1);
      case Drawn =>
        redPlayer.record := red.(draws := red.draws + 1);
        blackPlayer.record := black.(draws := black.draws + 1);
        announced := false;
      case _ =>
        announced := false;
    }

    ghost function RedNow(): Record
      reads this, Both(redPlayer, null)`record
    {
      if redPlayer == null then Record(0, 0, 0, 0) else redPlayer.record
    }

    ghost function BlackNow(): Record
      reads this, Both(null, blackPlayer)`record
    {
      if blackPlayer == null then Record(0, 0, 0, 0) else blackPlayer.record
    }

    /** Ending the game would change the players' records. */
    ghost predicate IsScored()
      reads this
    {
      rated && redPlayer != null && blackPlayer != null && !redPlayer.guest && !blackPlayer.guest
    }

    /** What ending the game does to the scores red0 and black0: nothing with an empty seat
        (NullSeat), in an unrated game or with a guest; otherwise the game is scored once. */
    ghost predicate EndsAs(newStatus: Status, rc: ResultCode, red0: Record, black0: Record, scored0: nat)
      reads this, Both(redPlayer, blackPlayer)`record
    {
      && status == newStatus && drawPlayerId == ""
      && (rc == OK || rc == NullSeat)
      && (rc == NullSeat <==> redPlayer == null || blackPlayer == null)
      && scored == scored0 + (if IsScored() then 1 else 0)
      && RedNow() == (if IsScored() then RedRecord(red0, black0, newStatus) else red0)
      && BlackNow() == (if IsScored() then BlackRecord(red0, black0, newStatus) else black0)
    }

    lemma EndsPaid(newStatus: Status, rc: ResultCode, red0: Record, black0: Record, scored0: nat)
      requires EndsAs(newStatus, rc, red0, black0, scored0)
      ensures Paid(redPlayer, blackPlayer, red0, black0, newStatus, IsScored())
    {
      hide RedRecord, BlackRecord;
    }

    lemma UnendedPaid(newStatus: Status, red0: Record, black0: Record)
      requires RedNow() == red0 && BlackNow() == black0
      ensures Paid(redPlayer, blackPlayer, red0, black0, newStatus, false)
    {
    }

    method OnGameEnded(newStatus: Status) returns (rc: ResultCode)
      requires redPlayer != null ==> redPlayer != blackPlayer
      modifies this`status, this`drawPlayerId, this`scored, SeatedPlayers()`record
      ensures EndsAs(newStatus, rc, old(RedNow()), old(BlackNow()), old(scored))
    {
      status := newStatus;
      drawPlayerId := "";
      if redPlayer == null || blackPlayer == null { return NullSeat; }
      var guestTable := redPlayer.guest || blackPlayer.guest;
      if rated && !guestTable {
        var _ := RecordGameResult();
      }
      return OK;
    }

    // ------------------------------------------------------------------------
    // Moves
    // ------------------------------------------------------------------------

    method DetectLongGameAndPerpetualCheck(color: Color) returns (gameStatus: Status)
      requires board.Valid()
      modifies this`isPrevMoveCheck, this`effectiveMoves, this`redChecks, this`blackChecks
      ensures CountedAs() == Count(old(CountedAs()), color, GivesCheck(board.State()))
      ensures gameStatus == Judge(CountedAs(), color, GivesCheck(board.State()), old(isPrevMoveCheck))
    {
      hide GivesCheck, Board.Valid;
      gameStatus := InProgress;
      var currentCheck := board.IsLastMoveCheck();
      if currentCheck {
        var perpetualChecks;
        if color == Red {
          redChecks := redChecks + 1;
          perpetualChecks := redChecks;
        } else {
          blackChecks := blackChecks + 1;
          perpetualChecks := blackChecks;
        }
        if perpetualChecks > PERPETUAL_CHECKS_MAX {
          gameStatus := if color == Red then BlackWin else RedWin;
        }
      } else {
        if color == Red { redChecks := 0; } else { blackChecks := 0; }
        if !isPrevMoveCheck {
          effectiveMoves := effectiveMoves + 1;
          if effectiveMoves > EFFECTIVE_MOVES_MAX { gameStatus := Drawn; }
        }
      }
      isPrevMoveCheck := currentCheck;
    }

    /** Runs the mover's clock and sets the next player's deadline. */
    method ResetMoveTimers(currColor: Color, now: int)
      requires status == InProgress ==>
                 |moves| == |times| + 1 && currColor == MoverOf(|times|) &&
                 (times != [] ==> lastMoveTime == times[|times| - 1])
      modifies this`redTime, this`blackTime, this`lastMoveTime, this`nextMoveExpiry, this`times
      ensures status != InProgress ==>
                times == old(times) && ClockShown() == old(ClockShown()) && lastMoveTime == old(lastMoveTime)
      ensures status == InProgress ==>
                && times == old(times) + [now] && lastMoveTime == now
                && ClockShown() == AfterMove(old(ClockShown()), initialTime, times)
    {
      if status != InProgress { return; }
      var elapseTime := if |moves| > 2 then now - lastMoveTime else 0;
      times := times + [now];
      lastMoveTime := now;
      if |moves| < 2 { return; }
      var curr, next := if currColor == Red then redTime else blackTime, if currColor == Red then blackTime else redTime;
      curr := curr.(game := curr.game - elapseTime);
      if curr.game < 0 {
        curr := curr.(free := curr.free + curr.game);
        if curr.free < 0 { curr := curr.(free := 0); }
        curr := curr.(game := 0);
      }
      if next.game == 0 { next := next.(free := initialTime.free); }
      else { next := next.(move := initialTime.move); }
      var remain := next.game + next.free;
      if remain > next.move { remain := next.move; }
      nextMoveExpiry := now + remain;
      if currColor == Red {
        redTime, blackTime := curr, next;
      } else {
        redTime, blackTime := next, curr;
      }
    }

    lemma TurnAndTimes()
      requires Valid()
      ensures board.Valid() && board.nextColor == MoverOf(|moves|)
      ensures !Over(status) ==> |times| == |moves| && (times != [] ==> lastMoveTime == times[|times| - 1])
    {
      hide Board.Valid, HasReply, Recorded;
      TurnOfRecorded(moves);
    }

    method GetCurrentTimers(now: int) returns (red: TimeInfo, black: TimeInfo)
      requires Valid()
      ensures var c := MoverOf(|moves|);
              && (if c == Red then red else black) ==
                   Running(if c == Red then redTime else blackTime, if |moves| > 2 then now - lastMoveTime else 0)
              && (if c == Red then black else red) == if c == Red then blackTime else redTime
      ensures !Over(status) ==>
                var c := MoverOf(|times|);
                (if c == Red then red else black) == Shown(if c == Red then redTime else blackTime, times, now)
    {
      hide Seated, StatusFits, Faithful;
      TurnAndTimes();
      var elapseTime := if |moves| > 2 then now - lastMoveTime else 0;
      var next := if board.nextColor == Red then redTime else blackTime;
      next := next.(game := next.game - elapseTime);
      if next.game < 0 {
        next := next.(free := next.free + next.game);
        if next.free < 0 { next := next.(free := 0); }
        next := next.(game := 0);
      }
      next := next.(move := next.move - elapseTime);
      if next.move < 0 { next := next.(move := 0); }
      red, black := redTime, blackTime;
      if board.nextColor == Red { red := next; } else { black := next; }
    }

    /** All that a move can change at the table. */
    ghost function GameFields(): (Status, seq<string>, Tally, Clock, int, seq<int>, string, nat)
      reads this
    {
      (status, moves, CountedAs(), ClockShown(), lastMoveTime, times, drawPlayerId, scored)
    }

    /** The seat whose turn it is. */
    function SeatToMove(): Player?
      reads this, board
    {
      if board.nextColor == Red then redPlayer else blackPlayer
    }

    /** What makes a move acceptable: the list of moves, with it, still records a game. */
    ghost predicate Acceptable(player: Player, s: string)
      reads this, board
    {
      && (status == Ready || status == InProgress)
      && player == SeatToMove()
      && Recorded(moves + [s]).Some?
    }

    /** What the referee's answer means for the record. */
    lemma AcceptedMeans(moves0: seq<string>, s: string, g: Game, inProgress0: bool)
      requires Shows(moves0, g, inProgress0)
      ensures Recorded(moves0 + [s]).Some? ==> ParseMove(s).Some? && ParseMove(s).value.from in g.men
      ensures ParseMove(s).Some? ==>
                var m := ParseMove(s).value;
                && (Recorded(moves0 + [s]).Some? <==> Legal(g, m.from, m.to))
                && (Legal(g, m.from, m.to) ==> m.from in g.men && Recorded(moves0 + [s]) == Some(Next(g, m.from, m.to)))
    {
      hide HasReply, Recorded, Legal, Checks, Step;
      OneMoveMore(moves0, s);
      if ParseMove(s).Some? && Legal(g, ParseMove(s).value.from, ParseMove(s).value.to) {
        LegalReaches(g, ParseMove(s).value.from, ParseMove(s).value.to);
      }
    }

    /** The game record a move leads to, split by how it leaves the game. */
    lemma FaithfulAfter(moves0: seq<string>, s: string, g: Game, tally0: Tally, inProgress0: bool, g': Game)
      requires Shows(moves0, g, inProgress0) && Counts(moves0, tally0)
      requires Recorded(moves0 + [s]) == Some(g')
      ensures Shows(moves0 + [s], g', Standing(Checks(moves0), g') == InProgress)
      ensures var c, check := MoverOf(|moves0|), GivesCheck(g');
              && Standing(Checks(moves0), g') ==
                 (if Verdict(g') != InProgress then Verdict(g')
                  else Judge(Count(tally0, c, check), c, check, tally0.prevCheck))
              && (Standing(Checks(moves0), g') == InProgress ==>
                    Counts(moves0 + [s], Count(tally0, c, check)) && Verdict(g') == InProgress)
    {
      hide HasReply, Recorded, Checks, TallyOf, GoesOn, Judge, GivesCheck;
      OneMoveMore(moves0, s);
      CheckCounting.OneMoreMove(Checks(moves0), GivesCheck(g'));
    }

    lemma ClockedAfter(moves0: seq<string>, s: string, times0: seq<int>, last0: int, k0: Clock, now: int)
      requires Clocked(moves0, times0, last0, initialTime, stale, k0)
      requires times0 != [] ==> times0[|times0| - 1] <= now
      ensures Clocked(moves0 + [s], times0 + [now], now, initialTime, stale, AfterMove(k0, initialTime, times0 + [now]))
    {
      var times' := times0 + [now];
      assert times'[..|times0|] == times0;
    }

    /** The referee's part in accepting a move, and the counting after it. */
    method JudgeMove(s: string, nextColor: Color) returns (accepted: bool, gameStatus: Status)
      requires board.Valid() && Shows(moves, board.State(), status == InProgress) && Counts(moves, CountedAs())
      requires nextColor == board.nextColor == MoverOf(|moves|)
      modifies board, board.cells, board.roster`position
      modifies this`isPrevMoveCheck, this`effectiveMoves, this`redChecks, this`blackChecks
      ensures board.Valid()
      ensures accepted <==> Recorded(moves + [s]).Some?
      ensures !accepted ==> board.State() == old(board.State()) && CountedAs() == old(CountedAs())
      ensures accepted ==> Recorded(moves + [s]) == Some(board.State())
      ensures accepted ==> gameStatus == Standing(Checks(moves), board.State()) && (gameStatus == InProgress || Over(gameStatus))
      ensures accepted ==> Shows(moves + [s], board.State(), gameStatus == InProgress)
      ensures accepted && gameStatus == InProgress ==> Counts(moves + [s], CountedAs())
    {
      hide Board.Valid, Legal, HasReply, GoesOn, TallyOf, Judge, Step, GivesCheck, Standing, Shows, Counts, Board.Mirrored;
      ghost var g, tally := board.State(), CountedAs();
      accepted, gameStatus := false, Unknown;
      AcceptedMeans(moves, s, g, status == InProgress);
      var parsed := board.StringToMove(s);
      if parsed == None { return; }
      var (move, color) := parsed.value;
      var captured;
      accepted, captured, gameStatus := board.ValidateMove(move.from, move.to, color);
      if !accepted { return; }
      FaithfulAfter(moves, s, g, tally, status == InProgress, board.State());
      StandingCases(Checks(moves), board.State());
      if !(gameStatus == RedWin || gameStatus == BlackWin) {
        gameStatus := DetectLongGameAndPerpetualCheck(nextColor);
      }
    }

    lemma StandingCases(h: History, g: Game)
      ensures Verdict(g) == InProgress || Verdict(g) == RedWin || Verdict(g) == BlackWin
      ensures Standing(h, g) == InProgress || Over(Standing(h, g))
    {
    }

    /** A move by the player whose turn it is. */
    method PlayMove(s: string, now: int) returns (accepted: bool, rc: ResultCode)
      requires Valid() && Timely(now) && !Over(status)
      modifies board, board.cells, board.roster`position
      modifies this`isPrevMoveCheck, this`effectiveMoves, this`redChecks, this`blackChecks
      modifies this`status, this`moves, this`redTime, this`blackTime, this`lastMoveTime, this`nextMoveExpiry, this`times
      modifies this`drawPlayerId, this`scored, SeatedPlayers()`record
      ensures accepted <==> Recorded(old(moves) + [s]).Some?
      ensures !accepted ==> Valid() && GameFields() == old(GameFields()) && board.State() == old(board.State())
      ensures !accepted ==> RedNow() == old(RedNow()) && BlackNow() == old(BlackNow())
      ensures accepted ==> Valid()
      ensures accepted ==>
                && moves == old(moves) + [s] && Recorded(moves) == Some(board.State())
                && status == Standing(Checks(old(moves)), board.State())
                && times == (if Over(status) then old(times) else old(times) + [now])
                && (rc == OK || (rc == NullSeat && Over(status)))
                && if Over(status) then EndsAs(status, rc, old(RedNow()), old(BlackNow()), old(scored))
                   else RedNow() == old(RedNow()) && BlackNow() == old(BlackNow()) && scored == old(scored)
    {
      hide Board.Valid, Shows, Counts, Clocked, Standing, Recorded, EndsAs, SeatsFit, StatusIsFor;
      TurnAndTimes();
      var nextColor, gameStatus := board.nextColor, Unknown;
      rc := NotValid;
      accepted, gameStatus := JudgeMove(s, nextColor);
      if accepted {
        rc := Conclude(s, nextColor, gameStatus, now);
      }
    }

    /** What follows the referee's yes. */
    method Conclude(s: string, nextColor: Color, gameStatus: Status, now: int) returns (rc: ResultCode)
      requires Seated() && StatusFits() && !Over(status) && Timely(now) && nextColor == MoverOf(|moves|)
      requires gameStatus == InProgress || Over(gameStatus)
      requires board.Valid() && Shows(moves + [s], board.State(), gameStatus == InProgress)
      requires gameStatus == InProgress ==> Counts(moves + [s], CountedAs())
      requires Clocked(moves, times, lastMoveTime, initialTime, stale, ClockShown())
      modifies this`status, this`moves, this`redTime, this`blackTime, this`lastMoveTime, this`nextMoveExpiry, this`times
      modifies this`drawPlayerId, this`scored, SeatedPlayers()`record
      ensures Valid() && moves == old(moves) + [s] && status == gameStatus
      ensures rc == OK || (rc == NullSeat && Over(status))
      ensures if Over(status) then EndsAs(status, rc, old(RedNow()), old(BlackNow()), old(scored))
              else RedNow() == old(RedNow()) && BlackNow() == old(BlackNow()) && scored == old(scored)
      ensures times == if Over(status) then old(times) else old(times) + [now]
    {
      hide Board.Valid, Shows, Counts, Clocked, EndsAs, SeatsFit, StatusIsFor, Paid, IsScored, RedNow, BlackNow;
      SeatsDiffer(allPlayers, redPlayer, blackPlayer);
      StatusOfPlayed(status, redPlayer, blackPlayer, moves, gameStatus, moves + [s], scored);
      EnterMove(s, nextColor, gameStatus, now);
      rc := EndIfOver();
    }

    method AcceptMove(player: Player, s: string, now: int) returns (rc: ResultCode)
      requires Valid() && Timely(now)
      modifies board, board.cells, board.roster`position
      modifies this`isPrevMoveCheck, this`effectiveMoves, this`redChecks, this`blackChecks
      modifies this`status, this`moves, this`redTime, this`blackTime, this`lastMoveTime, this`nextMoveExpiry, this`times
      modifies this`drawPlayerId, this`scored, SeatedPlayers()`record
      ensures rc == OK || rc == NullSeat <==> old(Acceptable(player, s))
      ensures old(Acceptable(player, s)) ==>
                && moves == old(moves) + [s] && Recorded(moves) == Some(board.State())
                && status == Standing(Checks(old(moves)), board.State())
                && times == (if Over(status) then old(times) else old(times) + [now])
                && if Over(status) then EndsAs(status, rc, old(RedNow()), old(BlackNow()), old(scored))
                   else RedNow() == old(RedNow()) && BlackNow() == old(BlackNow()) && scored == old(scored)
      ensures Valid() && Timely(now) && (rc == NullSeat ==> Over(status))
      ensures !old(Acceptable(player, s)) ==> GameFields() == old(GameFields()) && board.State() == old(board.State())
      ensures !old(Acceptable(player, s)) ==> moves == old(moves) && RedNow() == old(RedNow()) && BlackNow() == old(BlackNow())
    {
      hide Valid, Recorded, Standing, EndsAs;
      if status != Ready && status != InProgress { return NotAllowed; }
      var nextColor := board.nextColor;
      if (nextColor == Red && player != redPlayer) || (nextColor == Black && player != blackPlayer) { return NotAllowed; }
      var accepted;
      accepted, rc := PlayMove(s, now);
      if !accepted { rc := NotValid; }
    }

    /** Records an accepted move: status, list and clocks. */
    method EnterMove(s: string, nextColor: Color, gameStatus: Status, now: int)
      requires Timely(now) && nextColor == MoverOf(|moves|)
      requires Clocked(moves, times, lastMoveTime, initialTime, stale, ClockShown())
      modifies this`status, this`moves, this`redTime, this`blackTime, this`lastMoveTime, this`nextMoveExpiry, this`times
      ensures moves == old(moves) + [s] && status == gameStatus
      ensures RedNow() == old(RedNow()) && BlackNow() == old(BlackNow())
      ensures status != InProgress ==> times == old(times)
      ensures status == InProgress ==>
                times == old(times) + [now] && Clocked(moves, times, lastMoveTime, initialTime, stale, ClockShown())
    {
      hide Clocked, AfterMove;
      ClockedGives(moves, times, lastMoveTime, initialTime, stale, ClockShown());
      ClockedAfter(moves, s, times, lastMoveTime, ClockShown(), now);
      status := gameStatus;
      moves := moves + [s];
      ResetMoveTimers(nextColor, now);
    }

    method EndIfOver() returns (rc: ResultCode)
      requires redPlayer != null ==> redPlayer != blackPlayer
      modifies this`drawPlayerId, this`status, this`scored, SeatedPlayers()`record
      ensures status == old(status) && (rc == OK || rc == NullSeat) && (rc == NullSeat ==> Over(status))
      ensures if Over(status) then EndsAs(status, rc, old(RedNow()), old(BlackNow()), old(scored))
              else RedNow() == old(RedNow()) && BlackNow() == old(BlackNow()) && scored == old(scored)
      ensures scored <= old(scored) + 1
    {
      if status == RedWin || status == BlackWin || status == Drawn {
        rc := OnGameEnded(status);
      } else {
        rc := OK;
      }
    }

    // ------------------------------------------------------------------------
    // Other ways a game ends
    // ------------------------------------------------------------------------

    /** Ends a game in progress outside the board. */
    method Stop(newStatus: Status) returns (rc: ResultCode)
      requires Valid() && status == InProgress && Over(newStatus)
      modifies this`status, this`drawPlayerId, this`scored, SeatedPlayers()`record
      ensures Valid()
      ensures EndsAs(newStatus, rc, old(RedNow()), old(BlackNow()), old(scored))
    {
      hide Board.Valid, Recorded, HasReply, Counts, Clocked, SeatsFit, RedRecord, BlackRecord;
      SeatsDiffer(allPlayers, redPlayer, blackPlayer);
      rc := OnGameEnded(newStatus);
    }

    method HandleResignRequest(player: Player) returns (rc: ResultCode)
      requires Valid()
      modifies this`status, this`drawPlayerId, this`scored, SeatedPlayers()`record
      ensures Valid()
      ensures rc == NotAllowed <==> old(status) != InProgress || (player != redPlayer && player != blackPlayer)
      ensures rc == NotAllowed ==> status == old(status) && scored == old(scored)
      ensures rc == NotAllowed ==> RedNow() == old(RedNow()) && BlackNow() == old(BlackNow())
      ensures rc != NotAllowed ==>
                EndsAs(if player == redPlayer then BlackWin else RedWin, rc, old(RedNow()), old(BlackNow()), old(scored))
    {
      hide Valid;
      if status != InProgress { return NotAllowed; }
      if player == redPlayer { rc := Stop(BlackWin); }
      else if player == blackPlayer { rc := Stop(RedWin); }
      else { rc := NotAllowed; }
    }

    /** The first request is remembered; one under another id ends the game. */
    method HandleDrawRequest(player: Player) returns (rc: ResultCode)
      requires Valid()
      modifies this`status, this`drawPlayerId, this`scored, SeatedPlayers()`record
      ensures Valid()
      ensures rc == NotAllowed <==> old(status) != InProgress || (player != redPlayer && player != blackPlayer)
      ensures rc == NotAllowed ==> status == old(status) && drawPlayerId == old(drawPlayerId) && scored == old(scored)
      ensures rc == NotAllowed || old(drawPlayerId) == "" || player.id == old(drawPlayerId) ==>
                RedNow() == old(RedNow()) && BlackNow() == old(BlackNow())
      ensures rc != NotAllowed && (old(drawPlayerId) == "" || player.id == old(drawPlayerId)) ==>
                rc == OK && status == InProgress && drawPlayerId == player.id && scored == old(scored)
      ensures rc != NotAllowed && old(drawPlayerId) != "" && player.id != old(drawPlayerId) ==>
                EndsAs(Drawn, rc, old(RedNow()), old(BlackNow()), old(scored))
    {
      hide SeatsFit, Shows, Counts, Clocked, Board.Valid, StatusIsFor;
      if status != InProgress { return NotAllowed; }
      if player != redPlayer && player != blackPlayer { return NotAllowed; }
      if drawPlayerId == "" {
        drawPlayerId := player.id;
      } else if player.id == drawPlayerId {
      } else {
        rc := Stop(Drawn);
        return;
      }
      rc := OK;
    }

    /** The side to move loses once its deadline has passed, but not before both sides
        have moved. */
    method CheckTimeoutOnMove(now: int) returns (ended: bool, rc: ResultCode)
      requires Valid()
      modifies this`status, this`drawPlayerId, this`scored, SeatedPlayers()`record
      ensures Valid()
      ensures ended <==> old(status) == InProgress && |moves| >= 2 && now > ClockOf(initialTime, stale, times).expiry
      ensures !ended ==> rc == OK && status == old(status) && scored == old(scored) && RedNow() == old(RedNow()) && BlackNow() == old(BlackNow())
      ensures ended ==>
                EndsAs(if MoverOf(|moves|) == Red then BlackWin else RedWin, rc, old(RedNow()), old(BlackNow()), old(scored))
    {
      hide Board.Valid, Shows, Counts, Monotone, SeatsFit, StatusIsFor, EndsAs;
      TurnAndTimes();
      if status != InProgress || |moves| < 2 { return false, OK; }
      if now <= nextMoveExpiry { return false, OK; }
      rc := Stop(if board.nextColor == Red then BlackWin else RedWin);
      ended := true;
    }

    // ------------------------------------------------------------------------
    // Reset, options, leaving
    // ------------------------------------------------------------------------

    method OnGameReset()
      requires Valid()
      modifies this
      ensures Valid() && fresh(board) && fresh(board.cells) && fresh(board.roster)
      ensures moves == [] && times == [] && board.State() == Game(InitialMen(), Red) && scored == 0 && drawPlayerId == ""
      ensures status == if redPlayer != null && blackPlayer != null then Ready else Open
      ensures redTime == blackTime == initialTime == old(initialTime)
      ensures allPlayers == old(allPlayers) && redPlayer == old(redPlayer) && blackPlayer == old(blackPlayer)
      ensures rated == old(rated)
    {
      hide Board.Valid, Shows, Counts, Clocked, SeatsFit, InitialMen;
      ClearGame();
      board := new Board(Red);
      FreshRecord(board.State(), initialTime, stale, lastMoveTime);
    }

    method ClearGame()
      modifies this`status, this`drawPlayerId, this`redTime, this`blackTime, this`moves, this`isPrevMoveCheck
      modifies this`effectiveMoves, this`redChecks, this`blackChecks, this`times, this`stale, this`scored
      ensures moves == [] && times == [] && scored == 0 && drawPlayerId == "" && CountedAs() == NO_MOVES
      ensures status == if redPlayer != null && blackPlayer != null then Ready else Open
      ensures redTime == blackTime == initialTime && stale == nextMoveExpiry
    {
      status := Open;
      drawPlayerId := "";
      UpdateStatus();
      ClearRecord();
      ClearCounters();
    }

    method ClearRecord()
      modifies this`redTime, this`blackTime, this`moves, this`times, this`stale, this`scored
      ensures moves == [] && times == [] && scored == 0 && redTime == blackTime == initialTime && stale == nextMoveExpiry
    {
      redTime, blackTime := initialTime, initialTime;
      moves := [];
      times, stale, scored := [], nextMoveExpiry, 0;
    }

    method ClearCounters()
      modifies this`isPrevMoveCheck, this`effectiveMoves, this`redChecks, this`blackChecks
      ensures CountedAs() == NO_MOVES
    {
      isPrevMoveCheck, effectiveMoves, redChecks, blackChecks := false, 0, 0, 0;
    }

    static lemma FreshRecord(g: Game, initial: TimeInfo, stale: int, last: int)
      requires g == Game(InitialMen(), Red)
      ensures Shows([], g, false) && Counts([], NO_MOVES)
      ensures Clocked([], [], last, initial, stale, Clock(initial, initial, stale))
    {
      assert Parsed([]) == [];
    }

    method HandleResetRequest(player: Player) returns (rc: ResultCode)
      requires Valid()
      modifies this
      ensures Valid() && (board == old(board) || (fresh(board) && fresh(board.cells) && fresh(board.roster)))
      ensures rc == OK || rc == NotAllowed
      ensures rc == NotAllowed <==>
              (old(status) == InProgress && |old(moves)| >= 2) || (player != old(redPlayer) && player != old(blackPlayer))
      ensures allPlayers == old(allPlayers) && rated == old(rated) && initialTime == old(initialTime)
      ensures rc == OK && old(status) == Ready && player == old(redPlayer) ==>
                status == Ready && redPlayer == old(blackPlayer) && blackPlayer == player
      ensures !(rc == OK && old(status) == Ready && player == old(redPlayer)) ==>
                redPlayer == old(redPlayer) && blackPlayer == old(blackPlayer)
      ensures rc == OK && old(status) != Ready && old(status) != Open ==>
                moves == [] && scored == 0 && board.State() == Game(InitialMen(), Red) &&
                status == if redPlayer != null && blackPlayer != null then Ready else Open
      ensures times == old(times) || times == []
      ensures rc == NotAllowed || old(status) == Ready || old(status) == Open ==>
                status == old(status) && moves == old(moves) && scored == old(scored) && board == old(board)
    {
      hide Board.Valid, Shows, Counts, Clocked, NoDup;
      var gameStarted := |moves| >= 2;
      if status == InProgress && gameStarted { return NotAllowed; }
      if player != redPlayer && player != blackPlayer { return NotAllowed; }
      if player == redPlayer && status == Ready {
        redPlayer := blackPlayer;
        blackPlayer := player;
      } else if status == Ready || status == Open {
      } else {
        OnGameReset();
      }
      return OK;
    }

    method HandleUpdateRequest(player: Player, ratedGame: bool, newInitialTime: TimeInfo) returns (rc: ResultCode)
      requires Valid()
      modifies this`rated, this`initialTime, this`redTime, this`blackTime
      ensures Valid()
      ensures rc == (if (status == Open || status == Ready) && (player == redPlayer || (player == blackPlayer && redPlayer == null))
                     then OK else NotAllowed)
      ensures rc == OK ==> rated == ratedGame && redTime == blackTime == initialTime == newInitialTime
      ensures rc != OK ==> rated == old(rated) && initialTime == old(initialTime) && redTime == old(redTime) && blackTime == old(blackTime)
    {
      hide Board.Valid, Shows, Counts, SeatsFit;
      if status != Open && status != Ready { return NotAllowed; }
      var actionAllowed := player == redPlayer || (player == blackPlayer && redPlayer == null);
      if !actionAllowed { return NotAllowed; }
      rated := ratedGame;
      initialTime := newInitialTime;
      redTime, blackTime := initialTime, initialTime;
      return OK;
    }

    /** Leaving loses the game. */
    ghost predicate Forfeits(player: Player)
      reads this
    {
      status == InProgress && |moves| >= 2 && (player == redPlayer || player == blackPlayer)
    }

    /** A seated player who leaves a game in which both sides have moved loses it. */
    method OnLeaveFromPlayer(player: Player) returns (rc: ResultCode)
      requires Valid()
      modifies this`allPlayers, this`redPlayer, this`blackPlayer
      modifies this`status, this`drawPlayerId, this`scored, SeatedPlayers()`record
      ensures rc == OK || rc == NullSeat
      ensures rc == OK ==> Valid() && allPlayers == Without(old(allPlayers), player) && player !in allPlayers
      ensures rc == OK ==> redPlayer == if old(redPlayer) == player then null else old(redPlayer)
      ensures rc == OK ==> blackPlayer == if old(blackPlayer) == player then null else old(blackPlayer)
      ensures rc == NullSeat ==> Valid() && allPlayers == old(allPlayers)
      ensures !old(Forfeits(player)) ==>
                rc == OK && scored == old(scored) && status == BySeats(old(status), redPlayer, blackPlayer)
      ensures old(Forfeits(player)) ==>
                && status == (if player == old(redPlayer) then BlackWin else RedWin)
                && scored == old(scored) + (if old(IsScored()) then 1 else 0)
                && (rc == NullSeat <==> old(redPlayer) == null || old(blackPlayer) == null)
      ensures Paid(old(redPlayer), old(blackPlayer), old(RedNow()), old(BlackNow()), status,
                   old(Forfeits(player)) && old(IsScored()))
    {
      hide Valid, EndsAs, Forfeits, IsScored, Without, RedRecord, BlackRecord;
      rc := ForfeitIfPlaying(player);
      if rc == NullSeat { return; }
      UnassignPlayer(player);
    }

    method UnassignPlayer(player: Player)
      requires Valid()
      modifies this`allPlayers, this`redPlayer, this`blackPlayer, this`status
      ensures Valid() && allPlayers == Without(old(allPlayers), player) && player !in allPlayers
      ensures redPlayer == if old(redPlayer) == player then null else old(redPlayer)
      ensures blackPlayer == if old(blackPlayer) == player then null else old(blackPlayer)
      ensures status == BySeats(old(status), redPlayer, blackPlayer)
    {
      hide Board.Valid, Shows, Counts, Clocked, SeatsFit, Without;
      RemovePlayer(player);
      UpdateStatus();
    }

    /** What leaving comes to for all players. */
    method LeaveAndPay(player: Player, ghost roll: seq<Player>) returns (rc: ResultCode)
      requires Valid() && NoDup(roll) && forall p :: p in SeatedPlayers() ==> p in roll
      modifies this`allPlayers, this`redPlayer, this`blackPlayer
      modifies this`status, this`drawPlayerId, this`scored, SeatedPlayers()`record
      ensures Valid() && (rc == OK || rc == NullSeat)
      ensures rc == OK ==> allPlayers == Without(old(allPlayers), player)
      ensures rc == NullSeat ==> allPlayers == old(allPlayers)
      ensures rc == NullSeat <==> old(Forfeits(player)) && (old(redPlayer) == null || old(blackPlayer) == null)
      ensures !old(Forfeits(player)) ==> status == BySeats(old(status), redPlayer, blackPlayer) && scored == old(scored)
      ensures old(Forfeits(player)) ==>
                && status == (if player == old(redPlayer) then BlackWin else RedWin)
                && scored == old(scored) + (if old(IsScored()) then 1 else 0)
      ensures Paid(old(redPlayer), old(blackPlayer), old(RedNow()), old(BlackNow()), status,
                   old(Forfeits(player)) && old(IsScored()))
      ensures HandedOnce(old(Records(roll)), Records(roll))
    {
      hide Valid, Paid, HandedOnce, Without, NoDup, Records, Forfeits;
      Distinct();
      ghost var records, red, black, red0, black0 := Records(roll), redPlayer, blackPlayer, RedNow(), BlackNow();
      ghost var counts := Forfeits(player) && IsScored();
      rc := OnLeaveFromPlayer(player);
      PaidIsHanded(roll, records, red, black, red0, black0, status, counts);
    }

    method ForfeitIfPlaying(player: Player) returns (rc: ResultCode)
      requires Valid()
      modifies this`status, this`drawPlayerId, this`scored, SeatedPlayers()`record
      ensures Valid() && (rc == OK || rc == NullSeat)
      ensures !old(Forfeits(player)) ==> rc == OK && scored == old(scored) && status == old(status)
      ensures old(Forfeits(player)) ==>
                && status == (if player == redPlayer then BlackWin else RedWin)
                && scored == old(scored) + (if old(IsScored()) then 1 else 0)
                && (rc == NullSeat <==> redPlayer == null || blackPlayer == null)
      ensures Paid(redPlayer, blackPlayer, old(RedNow()), old(BlackNow()), status,
                   old(Forfeits(player)) && old(IsScored()))
    {
      hide Valid, RedRecord, BlackRecord;
      var newStatus := Unknown;
      var gameStarted := |moves| >= 2;
      if status == InProgress && gameStarted {
        if player == redPlayer { newStatus := BlackWin; }
        else if player == blackPlayer { newStatus := RedWin; }
      }
      rc := OK;
      if newStatus != Unknown {
        rc := Stop(newStatus);
      }
    }
  }

  // --------------------------------------------------------------------------
  // What the recorded moves of a table are worth
  // --------------------------------------------------------------------------

  lemma {:induction false} RecordedPrefix(moves: seq<string>, i: nat)
    requires Recorded(moves).Some? && i <= |moves|
    ensures Recorded(moves[..i]).Some?
    decreases |moves| - i
  {
    if i == |moves| {
      assert moves[..i] == moves;
    } else {
      hide Legal;
      RecordedPrefix(moves, i + 1);
      var longer := moves[..i + 1];
      assert longer[..i] == moves[..i];
      assert AllParse(moves[..i]) by {
        assert forall j :: 0 <= j < i ==> longer[j] == moves[..i][j];
      }
      assert Parsed(longer)[..i] == Parsed(moves[..i]);
    }
  }

  /** The referee's verdict on the k-th recorded move. */
  ghost function VerdictAfter(moves: seq<string>, k: nat): Status
    requires k <= |moves|
  {
    match Recorded(moves[..k])
    case None => Unknown
    case Some(g) => Verdict(g)
  }

  /** Playing a table's moves over on a fresh board: every one is accepted, each with the
      verdict it had, and the position and the turn come out the same, whatever order the
      pieces had on the board they were first played on. */
  method Replay(moves: seq<string>) returns (board: Board, verdicts: seq<Status>)
    requires Recorded(moves).Some?
    ensures board.Valid() && Recorded(moves) == Some(board.State())
    ensures |verdicts| == |moves|
    ensures forall i :: 0 <= i < |moves| ==> verdicts[i] == VerdictAfter(moves, i + 1)
  {
    hide Recorded, Verdict, Legal, Board.Valid, Checks, InitialMen;
    board := new Board(Red);
    verdicts := [];
    NothingRecorded();
    assert moves[..0] == [];
    for n := 0 to |moves|
      invariant fresh(board) && fresh(board.cells) && fresh(board.roster)
      invariant board.Valid() && Recorded(moves[..n]) == Some(board.State())
      invariant |verdicts| == n
      invariant forall i :: 0 <= i < n ==> verdicts[i] == VerdictAfter(moves, i + 1)
    {
      RecordedPrefix(moves, n + 1);
      assert moves[..n + 1] == moves[..n] + [moves[n]];
      OneMoveMore(moves[..n], moves[n]);
      var parsed := board.StringToMove(moves[n]);
      ghost var m := ParseMove(moves[n]).value;
      LegalReaches(board.State(), m.from, m.to);
      var (move, color) := parsed.value;
      var accepted, captured, verdict := board.ValidateMove(move.from, move.to, color);
      verdicts := verdicts + [verdict];
      assert verdict == VerdictAfter(moves, n + 1);
    }
    assert moves[..|moves|] == moves;
  }

  lemma NothingRecorded()
    ensures Recorded([]) == Some(Game(InitialMen(), Red))
  {
    assert Parsed([]) == [];
  }

  /** A game in progress is at most 1412 moves long, and seven more for every check that
      a side has given, whichever side one takes. */
  lemma GameLengthBound(table: Table, c: Color)
    requires table.Valid() && table.status == InProgress
    ensures |table.moves| <= 1412 + 7 * ChecksGiven(Checks(table.moves), c)
  {
    hide Board.Valid, HasReply, GoesOn, ChecksGiven;
    LongestGame(Checks(table.moves), c);
  }

  /** Whatever happened at a table before: both kings are on its board, each in its palace,
      the side that has just moved is not in check, and no move can take a king. */
  lemma TableKingSafety(table: Table)
    requires table.Valid()
    ensures var g := table.board.State();
            && (exists r: Pos, b: Pos :: KingAt(g.men, r, Red) && r.InPalace(Red) && KingAt(g.men, b, Black) && b.InPalace(Black))
            && !Attacked(g.men, g.turn.Other())
            && (forall p, q :: CanGo(g.men, p, q) && g.men[p].color == g.turn && q in g.men
                               ==> g.men[q].kind != King)
  {
    hide Board.Valid, HasReply;
    KingSafety(Red, Parsed(table.moves));
  }
}
