# Verification of the Xiangqi server and the Folium engine

This project models two parts of the repository and proves what they are for.

**The server.** `Xiangqi` states the rule of play over a plain map from squares to men. `Referee`
is the referee's board as it is written: a cell array, a list of active pieces, a list of dead
pieces, and positions inside the pieces, all changed in place, with moves tested by making them and
taking them back. It is proved to accept exactly the rule's moves and to report exactly the rule's
verdict. `RuleFacts` says where that rule departs from the rule of the game. `Tables` is the state
machine of a table (seats, status, moves, counters, clocks, scores) and its players;
`CheckCounting`, `Clocks`, `Elo` and `Games` are the functions it is proved against. `Journeys`
traces every man of a game back to where he started. `TableManagement` is the registry of tables
with its reused ids, `Server` all players and tables together over any sequence of events, and
`ThreadPool` the pool of threads that serves one listening socket.

**The engine (plugins/AI_Folium).** `FoliumBoard` is the board with its occupancy words, `FoliumXor`
the algebra of its digests, `FoliumMoves` the rule of which moves exist, `FoliumGenerator` and
`FoliumStages` the generators, and `FoliumEngine` the make/unmake machinery, the three search
routines and the root search, proved against the values of `FoliumPosition` and `FoliumLine`.

Inputs from outside are parameters or left open: times of moves, which thread step happens next,
whether creating a thread succeeds, the engine's number tables, what its hash table answers, and
when its search is told to stop.

## What was found

* Targets are not tested for being on the board (server/hoxReferee.cpp:654-672). A chariot, cannon,
  horse, pawn or elephant may "move" off it; the man stays and the turn passes.
  `RuleFacts.AcceptedMoveMoves` says exactly when, `RuleFacts.PassIsAccepted` gives a first move.
* Any third man on the kings' column keeps them from facing each other, even one behind a king
  (server/hoxReferee.cpp:640-649), although the comment there speaks of a piece in between.
  `RuleFacts.FacingIsOpposed` gives the exact condition, `RuleFacts.OpposedKingsAreAccepted` a game of
  four moves.
* A game in progress may have an empty seat: joining again as an observer clears a seat, and so does
  leaving before both sides have moved. Ending such a game dereferences the empty seat
  (server/hoxTable.cpp:778-779). The model answers `NullSeat` there, and `Tables.Table.EndsAs`
  makes it exactly the case of an empty seat; `TableFacts.EmptySeatReached` gets there.
* After a draw no score event is announced, the switch falling through to its default
  (server/hoxTable.cpp:828-876), though the scores are changed.
* While exactly two moves have been made the wait for the third is charged but not shown;
  `Clocks.ShownIsCharged` gives the exact condition.
* At the depth limit the quiescence search compares with being mated before it looks at the static
  value, so it can overrate a hopeless position. `FoliumLine.LimitIsExact` says for every window
  exactly when it does, `FoliumFacts.HopelessLine` gives a line, and `FoliumEngine.Engine.Quies` never
  goes wrong, whatever the static values, for windows within -936 and 936.
* The deadline of the previous game survives a reset until two moves are made (the field `stale`).
* The length of a game is bounded only in terms of the checks: by 1412 moves and seven more for every
  check that one of the sides has given (`CheckCounting.LongestGame`); when both go on giving check
  there is no bound (`CheckCounting.NoBoundWhenBothCheck`).
* A move from the hash table is tested by is_legal_move alone, which never asks whose man it is, so
  after a collision of locks it may be the opponent's; undoing it restores the board all the same,
  which is why the engine's moves are only asked to be `Movable`.
* Captures by black pawns are scored as if the king took (plugins/AI_Folium/generator.cpp:253).

## Model

| member | source | states |
|---|---|---|
| `Xiangqi.KingSafety` | server/hoxReferee.cpp:578-719 | After any accepted sequence of moves from the initial position both kings stand in their palaces, the side that has just moved is not attacked, and no move that can be tried takes a king |
| `Xiangqi.KingNeverCaptured` | server/hoxReferee.cpp:601-624 | In a sound game no man of the side to move can go to a king, so even a simulated capture never removes one and the king is always found |
| `Xiangqi.RunSound` | server/hoxReferee.cpp:842-1349 | Over every run: one king a side, kings in the palace, advisors on their 5 points, elephants on their 7, pawns never behind their first row and on even columns before the river, the mover not in check |
| `Xiangqi.StepKeepsConfined` | server/hoxReferee.cpp:842-942 | One step of any man, on the board or off it, keeps everybody where his kind can stand; the elephants and advisors by parity |
| `Xiangqi.LegalKeepsSound` | server/hoxReferee.cpp:654-719 | The invariant of the runs is kept by every accepted move |
| `Xiangqi.TurnParity` | server/hoxReferee.cpp:695-697 | The turn is the first colour exactly when the number of moves played is even |
| `Xiangqi.InitialSound` | server/hoxReferee.cpp:326-371 | The initial position satisfies the invariant of every game, with nobody in check |
| `Xiangqi.FacingKings` | server/hoxReferee.cpp:627-652 | With one king a side, kings face each other just if they share a column on which no third man stands |
| `Journeys.ManKept` | server/hoxReferee.cpp:1294-1335 | Every man of a game is one of the men of each of its earlier positions; a pawn has come from there without ever going back and, while short of the river, on one column |
| `Journeys.PawnsJourney` | server/hoxReferee.cpp:1294-1335 | Over every run a pawn is one of the initial pawns, its row has never gone back and, until it crosses the river, it stands on the column it started from |
| `Journeys.MenStayApart` | server/hoxReferee.cpp:559-576 | Two men of a game are never the same man of an earlier position |
| `Journeys.UncrossedPawnsApart` | server/hoxReferee.cpp:1294-1335 | Two pawns of a colour short of the river are never on one column |
| `RuleFacts.AcceptedMoveMoves` | server/hoxReferee.cpp:471-486 | An accepted move moves its man if and only if its target is on the board; otherwise it only passes the turn, which kings and advisors never do |
| `RuleFacts.PassIsAccepted` | server/hoxReferee.cpp:654-719 | The move text "190;" is accepted at the start of a game and only passes the turn |
| `RuleFacts.FacingIsOpposed` | server/hoxReferee.cpp:627-652 | The test for facing kings agrees with "nobody between them" if and only if it is not the case that they are opposed with some man on their column beyond one of them |
| `RuleFacts.OpposedKingsAreAccepted` | server/hoxReferee.cpp:640-649 | The four recorded moves 4948, 4041, 4838, 4131 are accepted from the initial position and leave the kings on one column with nobody between them |
| `Games.OneMoveMore` | server/hoxReferee.cpp:1420-1448 | What a list of recorded move texts stands for: one text more is one more legal move of the rule, or no game; coordinates narrow to a signed char |
| `Games.TurnOfRecorded` | server/hoxTable.cpp:302-378 | Red is to move just if an even number of moves is recorded |
| `Referee.Board.ValidateMove` | server/hoxReferee.cpp:654-719 | Accepts exactly the legal moves, leaves exactly the next game of the rule, reports the captured man and the rule's exact verdict; a rejected move restores cells, positions, dead list and turn, and permutes the active list only among enemies of the side to move |
| `Referee.Board.DoesNextMoveExist` | server/hoxReferee.cpp:757-775 | Answers whether the side to move has any legal move to the board, and ends, although the simulations take enemies out of the very list that is iterated and append them again; no own piece is missed |
| `Referee.Board.PieceHasMove` | server/hoxReferee.cpp:800-836 | Answers whether one piece has a legal move to the board: its generated candidates miss none |
| `Referee.Board.GetPotentialNextPositions` | server/hoxReferee.cpp:864-1349 | Every target on the board that a piece can go to is among the candidates generated for its kind |
| `Referee.Board.SimulationIsValidMove` | server/hoxReferee.cpp:727-755 | Tells whether the move is legal and restores the board, up to the order of the enemies in the list |
| `Referee.Board.RecordMove` | server/hoxReferee.cpp:540-556 | Makes a move in cells, lists and pieces: the active men become those after the step, the captured piece goes to the dead list |
| `Referee.Board.UndoMove` | server/hoxReferee.cpp:559-576 | Takes a move back: after it cells, positions, active and dead pieces are those before the move |
| `Referee.Board.UndoRecorded` | server/hoxReferee.cpp:559-576 | Record followed by undo is the identity but for the order of the active list |
| `Referee.Board.CapturePiece` | server/hoxReferee.cpp:449-464 | The piece leaves its cell and the active list and joins the dead list |
| `Referee.Board.PutbackPiece` | server/hoxReferee.cpp:526-535 | The piece leaves the dead list and stands on its cell again, last in the active list |
| `Referee.Board.MovePieceTo` | server/hoxReferee.cpp:471-486 | On the board the piece changes its cell and nobody else does; off the board nothing happens |
| `Referee.Board.SetPiece` | server/hoxReferee.cpp:410-421 | Exactly one cell changes, to the piece that stands there |
| `Referee.Board.UnsetPiece` | server/hoxReferee.cpp:428-443 | Exactly one cell changes, to empty |
| `Referee.Board.AddPiece` | server/hoxReferee.cpp:517-524 | The piece gets its cell and the end of the active list |
| `Referee.OwnSurvivesRequeue` | server/hoxReferee.cpp:517-535 | Capturing an enemy and putting him back leaves the order of one's own pieces in the list as it was |
| `Referee.OwnTailStable` | server/hoxReferee.cpp:757-775 | What an iterator over one's own pieces has still to visit does not change when enemies are moved about in the list |
| `Referee.Board.Advance` | server/hoxReferee.cpp:757-775 | The step of the iterator, on the list as the simulations have left it, loses no own piece |
| `Referee.Board.IsKingBeingChecked` | server/hoxReferee.cpp:601-624 | Answers exactly whether some enemy can go to the king of a colour |
| `Referee.Board.IsKingFaceKing` | server/hoxReferee.cpp:627-652 | Answers exactly the rule's relation of facing kings |
| `Referee.Board.GetKing` | server/hoxReferee.cpp:578-595 | Finds the king of the colour, which is always on the active list |
| `Referee.Board.IsValidMove` | server/hoxReferee.cpp:781-797 | Answers exactly whether the man may go there as far as his own way of moving is concerned |
| `Referee.Board.KingCanMoveTo` | server/hoxReferee.cpp:842-862 | The king's test is the rule's reach for kings |
| `Referee.Board.AdvisorCanMoveTo` | server/hoxReferee.cpp:882-900 | The advisor's test is the rule's reach for advisors |
| `Referee.Board.ElephantCanMoveTo` | server/hoxReferee.cpp:920-942 | The elephant's test, on the cells, is the rule's reach for elephants on the map |
| `Referee.Board.HorseCanMoveTo` | server/hoxReferee.cpp:1079-1132 | The horse's test by direction of its long step is the rule's reach with a free leg |
| `Referee.Board.ChariotCanMoveTo` | server/hoxReferee.cpp:962-1049 | The list of squares in the middle, built in a loop, is empty of men just if the rule sees no screen |
| `Referee.Board.CannonCanMoveTo` | server/hoxReferee.cpp:1156-1264 | Counting men on the list of middle squares decides as the rule does: none for a move, exactly one for a capture of an enemy |
| `Referee.Board.PawnCanMoveTo` | server/hoxReferee.cpp:1294-1335 | The pawn's test is the rule's: forward, or sideways once across the river |
| `Referee.Board.MiddleOf` | server/hoxReferee.cpp:962-1049 | The loops list each square strictly between two aligned squares once |
| `Referee.Board.CountPieces` | server/hoxReferee.cpp:1224-1232 | Counts the men standing on a list of different squares |
| `Referee.Board.StringToMove` | server/hoxReferee.cpp:1420-1448 | Reads a move text as the value-level parser does and takes the colour from the piece on the square; nothing when there is no piece |
| `Referee.Board.IsLastMoveCheck` | server/hoxReferee.cpp:721-725 | Answers whether the side to move is attacked |
| `Referee.Board.constructor` | server/hoxReferee.cpp:291-371 | Sets up 32 pieces in the given order so that cells, lists and pieces agree and show the initial position |
| `CheckCounting.TallyMeaning` | server/hoxTable.cpp:716-763 | The counters equal their definitions over the whole history of checks: the run of checks each side ends with, and the moves that neither give check nor follow one |
| `CheckCounting.LongestGame` | server/hoxTable.cpp:716-763 | A game that goes on has at most 1412 moves, and seven more for every check that a side has given, whichever side one takes |
| `CheckCounting.LongestOneSided` | server/hoxTable.cpp:716-763 | If Black never gives check, a game that goes on has at most 1412 moves |
| `CheckCounting.LongestOneSidedReached` | server/hoxEnums.h:24-30 | 1412 moves are reached, so the bound is exact |
| `CheckCounting.NoBoundWhenBothCheck` | server/hoxTable.cpp:716-763 | For every length there is a history of that length that goes on, with checks by both sides once it has two moves |
| `CheckCounting.OneMoreMove` | server/hoxTable.cpp:716-763 | One move changes the counters as one step and decides whether the game goes on |
| `CheckCounting.RoundsAllowed` | server/hoxTable.cpp:716-763 | Two moves, one of each side, use up no more than the counters allow for, whatever checks they give |
| `Elo.NewRatingChange` | server/hoxTable.cpp:61-142 | The loop over the table of rating differences computes the change that the unique matching row determines |
| `Elo.RowUnique` | server/hoxTable.cpp:61-80 | The rows cover every rating difference and no two overlap |
| `Elo.WinnerGains` | server/hoxTable.cpp:90-142 | A rated winner gains at least 1 and at most 22 |
| `Elo.DrawKeepsOrder` | server/hoxTable.cpp:90-142 | A draw never reverses the order of the two ratings |
| `Elo.SeasonConserves` | server/hoxTable.cpp:828-922 | Over any sequence of scored games among any players, the sum of the ratings and the difference of all wins and losses stay the same |
| `Elo.HandedConserves` | server/hoxTable.cpp:828-922 | Wherever the records change by scored games only, however many, the sum of the ratings and the difference of all wins and losses stay the same |
| `Elo.TotalUpdate` | server/hoxTable.cpp:879-922 | How the sum over all players changes with one player's record |
| `Clocks.GameTimeLeft` | server/hoxTable.cpp:670-714 | With times that do not run backwards, a player's game time is the larger of zero and the initial time less all seconds charged to the player, and game and free time are never negative |
| `Clocks.ShownIsCharged` | server/hoxTable.cpp:579-602 | The times shown are those a move at once would leave, if and only if the number of moves is not two, or no second has passed, or the player has no time left |
| `Clocks.InTimeNothingForgiven` | server/hoxTable.cpp:670-714 | A move made by the deadline costs exactly the seconds it took |
| `Clocks.ExpiryIs` | server/hoxTable.cpp:670-714 | From the second move on the deadline is the last move's time plus the allowance of the player to move |
| `Clocks.OneMoreMove` | server/hoxTable.cpp:670-714 | The clocks after one move more are one step from those before it |
| `Tables.Table.AcceptMove` | server/hoxTable.cpp:302-378 | Accepts exactly the legal moves of the player whose turn it is, at a ready or running table; records it, judges it as the counters' definitions say, runs the clocks, and scores a game that ends exactly once; a refused move changes neither game nor board nor anybody's record |
| `Tables.Table.PlayMove` | server/hoxTable.cpp:327-375 | The part of accepting a move that follows the checks of turn and seat; a rejected move leaves game and records as they were |
| `Tables.Table.JudgeMove` | server/hoxTable.cpp:327-357 | Referee and counters together give the standing that the recorded history defines |
| `Tables.Table.Conclude` | server/hoxTable.cpp:359-375 | Entering a judged move keeps every invariant of the table, whether or not it ends the game |
| `Tables.Table.OnGameEnded` | server/hoxTable.cpp:765-795 | Ends a game: status, no open draw offer, scores changed once by the rule of the result if it is rated and nobody is a guest; exactly an empty seat leads to the null dereference |
| `Tables.Table.RecordGameResult` | server/hoxTable.cpp:828-876 | Both records become those of the result; the change is announced for wins but not for draws |
| `Tables.Table.CalculateNewScores` | server/hoxTable.cpp:879-922 | What the winner gains the loser loses, and a draw moves the two ratings by opposite amounts |
| `Tables.Table.DetectLongGameAndPerpetualCheck` | server/hoxTable.cpp:716-763 | The four counters after the move, and the judgement on it |
| `Tables.Table.ResetMoveTimers` | server/hoxTable.cpp:670-714 | The mover's clock and the next deadline are those of the history of times |
| `Tables.Table.GetCurrentTimers` | server/hoxTable.cpp:579-602 | Shows the clock of the side to move as running and the other as it stands, at any table; while no game is over these are the clocks of the history of times |
| `Tables.Table.CheckTimeoutOnMove` | server/hoxTable.cpp:550-577 | Ends the game against the side to move exactly when it runs, both sides have moved and the deadline is past |
| `Tables.Table.HandleResignRequest` | server/hoxTable.cpp:380-409 | Only a seated player of a running game may resign, and loses |
| `Tables.Table.HandleDrawRequest` | server/hoxTable.cpp:411-453 | A first request is remembered, the other player's ends the game as a draw, repeating one's own does nothing; records change in the second case only |
| `Tables.Table.HandleResetRequest` | server/hoxTable.cpp:455-497 | Swaps the seats before a game, starts a new game after one, is refused while one is under way |
| `Tables.Table.OnGameReset` | server/hoxTable.cpp:797-826 | Everything about the game starts anew, the seats and options stay |
| `Tables.Table.HandleUpdateRequest` | server/hoxTable.cpp:499-548 | Options change only before a game and only for Red, or Black when Red's seat is empty |
| `Tables.Table.AssignPlayerAs` | server/hoxTable.cpp:236-266 | Refuses a taken seat and changes nothing; otherwise members, seats and status are exactly those asked for: before a game the table is ready just if both seats are filled, later the status stays |
| `Tables.Table.AddPlayer` | server/hoxTable.cpp:604-637 | Seats and members after joining: joining as an observer clears the player's own seat |
| `Tables.Table.RemovePlayer` | server/hoxTable.cpp:639-647 | The player is neither a member nor seated, everybody else is as before |
| `Tables.Table.UpdateStatus` | server/hoxTable.cpp:649-668 | Ready needs both seats filled, Open one empty |
| `Tables.Table.OnLeaveFromPlayer` | server/hoxTable.cpp:190-214 | A seated player who leaves a game in which both have moved loses it, and it is scored once; nobody else's leaving changes a record, and before a game the status follows the seats |
| `Tables.Table.UnassignPlayer` | server/hoxTable.cpp:289-300 | Members, seats and status without the player; every invariant is kept |
| `Tables.Table.LeaveAndPay` | server/hoxTable.cpp:190-214 | Leaving changes the records of all players by one scored game or not at all |
| `Tables.PaidIsHanded` | server/hoxTable.cpp:828-922 | What the two players of a game are given is, for all players together, exactly one scored game or nothing |
| `Tables.Table.constructor` | server/hoxTable.cpp:150-168 | A new table satisfies every invariant |
| `Tables.Replay` | server/hoxTable.cpp:797-826 | Replaying a table's recorded moves on a fresh board is accepted move by move with the verdicts they had and gives the same position and turn, whatever the order of the lists was |
| `Tables.RecordedPrefix` | server/hoxTable.cpp:302-378 | Every prefix of a recorded game is a game |
| `Tables.GameLengthBound` | server/hoxTable.cpp:343-375 | A table's running game has at most 1412 moves, and seven more for every check that a side has given, whichever side one takes |
| `Tables.TableKingSafety` | server/hoxTable.cpp:302-378 | Whatever happened at a table, its board has both kings in their palaces, the last mover is safe and no move takes a king |
| `Tables.Player.JoinTableAs` | server/hoxPlayer.cpp:48-61 | Player and table know each other afterwards, with exactly the role asked for, or the seat was taken and nothing changed |
| `Tables.Player.LeaveTable` | server/hoxPlayer.cpp:63-75 | Player and table forget each other, nobody else is touched; status and records change as for a forfeit or not at all |
| `Tables.Player.LeaveAllTables` | server/hoxPlayer.cpp:77-90 | Ends, and then the player is at no table and no registered table knows the player; the records have changed by the scores of the forfeited games only |
| `TableFacts.EmptySeatReached` | server/hoxTable.cpp:765-795 | A table with one recorded move, whose Red is among the players but no longer seated, meets the empty seat when the game ends; the calls that lead there are those of joining, moving, watching and resigning |
| `TableFacts.BlackReplies` | server/hoxReferee.cpp:757-775 | After a pass Black has a legal move from the initial position |
| `Server.Lobby.Run` | server/hoxPlayer.cpp:48-180 | Over any sequence of joins, leaves, moves, resignations, offers, resets, changes of options, clock checks, new tables and cleanups: every table stays valid, players and tables stay linked, ids stay unique, and the ratings keep their sum and wins and losses their difference |
| `Server.Lobby.Perform` | server/hoxPlayer.cpp:98-180 | Every single event keeps all of that, and changes the records by scored games only |
| `Server.Lobby.Act` | server/hoxPlayer.cpp:98-180 | What happens at one table leaves every other table as it was |
| `Server.Lobby.Join` | server/hoxPlayer.cpp:48-61 | Joining keeps all tables valid and linked, and changes no record |
| `Server.Lobby.Leave` | server/hoxPlayer.cpp:63-75 | Leaving keeps all tables valid and linked, and scores a forfeited game |
| `Server.Lobby.LeaveAll` | server/hoxPlayer.cpp:77-90 | Leaving all tables does so too, and ends |
| `Server.Lobby.Create` | server/hoxTable.cpp:1055-1064 | A new table shares no board with another and links nobody |
| `Server.Lobby.Cleanup` | server/hoxTable.cpp:1105-1130 | A cleanup cuts no player off |
| `TableManagement.IdRoundTrip` | server/hoxUtil.cpp:187-199 | Reading the decimal text of a number gives the number back, so different numbers have different texts |
| `TableManagement.HandedOut` | server/hoxTable.cpp:1142-1158 | An id taken from the free list, or one more than there are tables, is new, and used and free ids still split 1..N |
| `TableManagement.TableMgr.CreateTable` | server/hoxTable.cpp:1055-1064 | The new table gets an id nobody has, displaces no other table and leaves players and registered tables linked |
| `TableManagement.TableMgr.DeleteTable` | server/hoxTable.cpp:1066-1078 | Removes just that table and frees its id |
| `TableManagement.TableMgr.RunCleanup` | server/hoxTable.cpp:1105-1130 | Removes exactly the tables without players; used and free ids still split 1..N, and players and registered tables stay linked |
| `TableManagement.TableMgr.CleanupKeepsLinks` | server/hoxTable.cpp:1105-1130 | No player at a table is cut off by a cleanup |
| `ThreadPool.SetThreadThrottling` | server/main.cpp:417-445 | The limits per process satisfy min <= wait <= max whatever was configured, none is zero unless all are, and the processes' shares add up to the total but for rounding up |
| `ThreadPool.CeilDivMonotone` | server/main.cpp:433-441 | Dividing with rounding up keeps order, never makes a positive number zero and exceeds the exact share by less than one |
| `ThreadPool.Socket.constructor` | server/main.cpp:890-908 | The counters count the threads that could be started |
| `ThreadPool.Socket.TakeConnection` | server/main.cpp:940-950 | A connection is taken and a spare thread started exactly if too few wait and there is room |
| `ThreadPool.Socket.FinishSession` | server/main.cpp:952-961 | The thread waits again, or ends exactly if enough others wait |
| `ThreadPool.Socket.Perform` | server/main.cpp:915-962 | Every step from one blocking call to the next keeps: the counters equal the live threads, waiting <= max wait, total <= max, and, while creation succeeds, enough wait or the total is at its maximum |
| `FoliumPosition.UnmoveIsInverse` | plugins/AI_Folium/xq.h:154-196 | Undoing a move restores the position, capture and all |
| `FoliumPosition.DigestOfMove` | plugins/AI_Folium/folEngine.cpp:9-54 | The key, lock and value after a move, computed afresh from the position, are those updated for three squares, for any tables |
| `FoliumPosition.MoveRoundTrip` | plugins/AI_Folium/move.h:8-15 | Source and target come back from a packed move |
| `FoliumPosition.TraceRoundTrip` | plugins/AI_Folium/move.h:17-27 | Flag, captured piece and move come back from a packed trace |
| `FoliumPosition.TraceBits` | plugins/AI_Folium/move.h:17-27 | The same of the bit operations on 32-bit words; the fields do not overlap |
| `FoliumPosition.MoveBits` | plugins/AI_Folium/move.h:8-15 | The same for moves on 32-bit words |
| `FoliumBoard.Bitmap.ChangeBit` | plugins/AI_Folium/bitmap.h:65-71 | One square is flipped in its row word and in its column word alike |
| `FoliumBoard.Bitmap.SetBit` | plugins/AI_Folium/bitmap.h:58-64 | One square is set in both words |
| `FoliumBoard.Bitmap.DoMove` | plugins/AI_Folium/bitmap.h:89-93 | The words show the occupied squares after a move, capture or not |
| `FoliumBoard.Bitmap.UndoMove` | plugins/AI_Folium/bitmap.h:94-99 | The words show the occupied squares before the move |
| `FoliumBoard.Nearest` | plugins/AI_Folium/bitmap.h:72-87 | The nearest set bit of a line word in a direction stands for the first occupied square of the board there, and no bit for the edge |
| `FoliumBoard.Bitmap.Nonempty1` | plugins/AI_Folium/bitmap.h:101-124 | The first occupied square in any of the four directions, or none |
| `FoliumBoard.Bitmap.Nonempty2` | plugins/AI_Folium/bitmap.h:125-148 | The second one, or none |
| `FoliumBoard.XQ.DoMove` | plugins/AI_Folium/xq.h:154-180 | Makes the move and passes the turn, or, if the mover is left in check, leaves the position as it was; squares, pieces and words agree throughout |
| `FoliumBoard.XQ.UndoMove` | plugins/AI_Folium/xq.h:181-196 | Takes a move back in squares, pieces, words and turn |
| `FoliumBoard.XQ.constructor` | plugins/AI_Folium/xq.cpp:186-193 | The copy of a position shows it in all three representations |
| `FoliumMoves.CapturesAreMovesToEnemies` | plugins/AI_Folium/generator.cpp:193-349 | A move is in the rule of the captures if and only if it is in the rule of all moves and goes to an enemy; all of them may be played |
| `FoliumMoves.PieceMovesKnown` | plugins/AI_Folium/generator.cpp:3-191 | A piece's moves start where it stands, go to squares its side does not hold, and are captures just if they go to an enemy |
| `FoliumMoves.EveryPiece` | plugins/AI_Folium/generator.cpp:3-191 | The generators' order of pieces misses none of the 16 |
| `FoliumGenerator.Generate` | plugins/AI_Folium/generator.cpp:3-349 | Lists in the low 14 bits exactly the moves of the rule, or exactly its captures, each once, and never more than 119 in the 128 slots |
| `FoliumGenerator.MostOfKingAndPawns` | plugins/AI_Folium/generator.cpp:11-58 | King and pawns have at most 19 moves together, since only one of them can stand in the middle of the palace |
| `FoliumGenerator.PushHops` | plugins/AI_Folium/generator.cpp:11-99 | A piece with a table gets exactly the entries that are free to it |
| `FoliumGenerator.PushRun` | plugins/AI_Folium/generator.cpp:100-135 | A rook or cannon gets, in one direction, exactly the squares the rule lets it reach, found through the line words; the loop ends |
| `FoliumGenerator.PushQuiet` | plugins/AI_Folium/generator.cpp:110-113 | Walking from square to square pushes exactly the empty squares before the first man or the edge |
| `FoliumGenerator.RunMovesAre` | plugins/AI_Folium/generator.cpp:100-190 | What the rule says of clear lines and of the one man to jump over is what the first and second man in a direction determine |
| `FoliumGenerator.CapturesFiltered` | plugins/AI_Folium/generator.cpp:193-349 | The capture list is a listing of those moves of the full list whose target is an enemy |
| `FoliumGenerator.GeneratedTryable` | plugins/AI_Folium/generator.cpp:3-349 | Everything generated is one of the player's own men going to a square that is not his, none is 0, and they fit the move list |
| `FoliumGenerator.GeneratorsAreSane` | plugins/AI_Folium/folSearch.cpp:206-211 | The generators give the search what it asks of them |
| `FoliumGenerator.ScoresOnlyOrder` | plugins/AI_Folium/history.h:38-47 | The quiescence value is the same whatever scores the moves are packed with |
| `FoliumGenerator.PackedMove` | plugins/AI_Folium/history.h:38-47 | The move comes back from the low 14 bits whatever the score, even one that wraps |
| `FoliumGenerator.PackedOrder` | plugins/AI_Folium/history.h:38-42 | Below 2^17 the score comes back too, and words are ordered by score first |
| `FoliumGenerator.History.UpdateHistory` | plugins/AI_Folium/history.h:28-37 | One score rises by the square of the depth, and all are halved exactly if it reaches 2^17; for depths whose square is below 2^17 all scores stay below it |
| `FoliumStages.Generator.Next` | plugins/AI_Folium/generator.cpp:351-412 | Each call gives one generated move not given before or one of at most three others; 0 means every generated move has been given exactly once, and 0 it stays; every move given can be made, and is the player's own unless the hash move was not |
| `FoliumStages.Generator.GiveAll` | plugins/AI_Folium/folSearch.cpp:82-85 | The loop over the generator ends within 122 moves, among which is every generated one |
| `FoliumStages.Generator.NextOther` | plugins/AI_Folium/generator.cpp:389-409 | The rest comes in falling order of packed words, by exchanges in place that lose nothing |
| `FoliumStages.Generator.OthersByScore` | plugins/AI_Folium/generator.cpp:389-409 | If the history scores were below 2^17 when the list was made, that is falling order of score |
| `FoliumStages.Generator.NextGood` | plugins/AI_Folium/generator.cpp:363-376 | The good captures given are those of the list up to the index, in its order, and in the end all of them; each is struck out |
| `FoliumStages.Generator.NextKiller` | plugins/AI_Folium/generator.cpp:377-388 | At most two killers are given |
| `FoliumStages.GivenLargest` | plugins/AI_Folium/generator.cpp:389-409 | Giving the largest of what is left keeps the account of moves and the falling order |
| `FoliumLine.AfterLinked` | plugins/AI_Folium/folEngine.cpp:9-61 | A line of play with one move more can be taken back to the line before it, with the same null ply |
| `FoliumLine.AfterNullLinked` | plugins/AI_Folium/folEngine.h:90-108 | The same for a null move, which keeps the null ply before it in its trace |
| `FoliumLine.BestOfBounds` | plugins/AI_Folium/folSearch.cpp:211-239 | The unpruned value is the largest of the first score and the values of all legal moves |
| `FoliumLine.BestOfReordered` | plugins/AI_Folium/folSearch.cpp:212-223 | The order in which moves are tried does not change it |
| `FoliumLine.OneTried` | plugins/AI_Folium/folSearch.cpp:224-236 | One turn of the loop keeps the relation between running best, running alpha and the unpruned maximum, or justifies the cut-off |
| `FoliumLine.StaysSafe` | plugins/AI_Folium/folSearch.cpp:224-236 | A window within -936 and 936 stays within them as alpha rises, and so at every node below |
| `FoliumLine.LimitIsExact` | plugins/AI_Folium/folSearch.cpp:186-192 | At the depth limit the answer is right for a window if and only if its upper end is above -936 or the static value is not below it, and so for all windows if and only if the static value is not below |
| `FoliumFacts.HopelessLine` | plugins/AI_Folium/folSearch.cpp:186-192 | A line of 64 moves without repetition, Red's bare king against all of Black's men, at whose end, with the engine's own piece values there and whatever generators, the search answers -936 for a position worth -953 |
| `FoliumLine.QuietAboveMated` | plugins/AI_Folium/folSearch.cpp:186-192 | Without a repetition, and with no such static value at the limit below, a position is never worth less than being mated there |
| `FoliumEngine.Engine.constructor` | plugins/AI_Folium/folEngine.cpp:63-82 | The first entry of every stack is computed from the position |
| `FoliumEngine.Engine.MakeMove` | plugins/AI_Folium/folEngine.cpp:9-54 | Makes exactly the moves that leave the mover out of check, keeping at every live ply key, lock and value equal to those computed afresh from that ply's position |
| `FoliumEngine.Engine.UnmakeMove` | plugins/AI_Folium/folEngine.cpp:56-61 | Restores board, ply and stacks to the line before the move |
| `FoliumEngine.Engine.DoNull` | plugins/AI_Folium/folEngine.h:90-102 | Passes the turn, keeping the stacks |
| `FoliumEngine.Engine.UndoNull` | plugins/AI_Folium/folEngine.h:104-108 | Restores turn, ply and null ply |
| `FoliumEngine.Engine.LoopValue` | plugins/AI_Folium/folEngine.h:68-83 | The score read off the stacks is that of the repetition in the line of play |
| `FoliumEngine.Engine.Value` | plugins/AI_Folium/folEngine.h:63-66 | The value on the stack is the static value of the position |
| `FoliumEngine.Engine.SelectLargest` | plugins/AI_Folium/folSearch.cpp:214-223 | Brings the largest of the remaining moves to the front; before it nothing changes and no move is lost |
| `FoliumEngine.Engine.TryAll` | plugins/AI_Folium/folSearch.cpp:211-239 | The loop answers for the unpruned maximum over all moves, visiting each once, and leaves the engine as it was |
| `FoliumEngine.Engine.Quies` | plugins/AI_Folium/folSearch.cpp:173-239 | Ends, leaves line, board and stacks as they were, and answers for the unpruned value, a bound outside the window and exact inside, for every window within -936 and 936, and for every other where no line below ends at the limit worse than mated; what it answers at the limit |
| `FoliumEngine.Engine.Leaf` | plugins/AI_Folium/folSearch.cpp:131-172 | The same for the leaf search with the captures and the static value |
| `FoliumEngine.Engine.Full` | plugins/AI_Folium/folSearch.cpp:11-129 | With the lazy generator over its own board, and with any hash move that passes is_legal_move, the search ends, stays inside the killer table without writing a slot of the plies above, keeps history scores below 2^17 for depths up to 361, and leaves line, board, ply and null ply as they were on every path, whenever it is stopped |
| `FoliumEngine.Engine.TryNull` | plugins/AI_Folium/folSearch.cpp:64-79 | A pass is tried only right after a move and out of check, and is taken back |
| `FoliumEngine.Engine.TryEach` | plugins/AI_Folium/folSearch.cpp:81-129 | The loop of the full search over the generator ends and leaves the engine as it was |
| `FoliumEngine.Engine.TryNext` | plugins/AI_Folium/folSearch.cpp:83-97 | Between two calls of the generator the board is restored and the killers of the ply are untouched, so the generator goes on where it was; it gives at most 122 moves |
| `FoliumEngine.Engine.Probe` | plugins/AI_Folium/hash.h:41-84 | A move that comes out of the hash table has passed is_legal_move |
| `FoliumEngine.Engine.TryFull` | plugins/AI_Folium/folSearch.cpp:85-97 | A move is made just if legal, searched once or twice and taken back |
| `FoliumEngine.MoveTraced` | plugins/AI_Folium/folSearch.cpp:31-37 | A trace names a move only if its step was one, so no two passes follow each other |
| `FoliumEngine.TraceTells` | plugins/AI_Folium/folEngine.cpp:56-61 | What is unpacked from a ply's trace is the step that led there |
| `FoliumEngine.Engine.GenerateRootMoves` | plugins/AI_Folium/folEngine.cpp:297-320 | Either one move that takes a king, or exactly the legal moves that are not banned; the board is as before |
| `FoliumEngine.Engine.SearchAgain` | plugins/AI_Folium/folEngine.cpp:361-391 | The best moves so far can always be made again, so not asking whether they were made does no harm |
| `FoliumEngine.Engine.SearchAll` | plugins/AI_Folium/folEngine.cpp:392-428 | Best moves stay legal root moves, and entries of the move list stay or become 0 |
| `FoliumEngine.Engine.Search` | plugins/AI_Folium/folEngine.cpp:321-439 | Ends, leaves board and stacks as they were, keeps history scores below 2^17 for depths up to 180, and answers 0 or one of the root moves |

## Left out

- Sockets, HTTP, the database agent, logging, configuration, signals, process forking, sessions, login and reconnection: input and output, or library calls.
- Request parsing by the tokenizer and the enum/string tables; of text only move strings and table ids are modelled.
- Event broadcasting and the test client: no state of their own.
- Elo.NewRatingChange: works in hundredths with truncation toward zero where the source multiplies floats; a single change may differ by one, the stated bounds do not.
- Scores, counters, times and engine values are unbounded integers; the source's 32-bit ones cannot overflow in the runs described except after very many rated games.
- TableManagement.IdRoundTrip: covers the decimal strings the server makes itself; signs, blanks and other text that atoi accepts are not modelled.
- TableManagement.TableMgr.RunCleanup: visits the ids in any order where a std::map is visited in key order; the result is the same up to the order of the free list.
- Referee.Board.ValidateMove: a move record whose colour contradicts the piece on its square is not modelled, since stringToMove, the only source of records, copies the colour from that piece.
- Referee.Board.GetPotentialNextPositions: virtual dispatch is a match on the piece's kind, and the pieces' pointer back to the board is the board itself.
- Tables.Table.OnGameEnded: an empty seat yields NullSeat instead of the undefined behaviour of a null dereference; what the process does afterwards is not modelled.
- Tables.Player.LeaveAllTables: stops at the table whose ending would dereference an empty seat.
- Server.Lobby.Run: ends after an event that would dereference an empty seat. The players are given at the start and start at no table; the events name any registered table, where the source also asks that the player be at it. The clocks of all tables are checked by one event each.
- ThreadPool.Socket.Perform: threads and the wait for a connection are events; reporting, the other threads of a process and the exit when no thread can be started are left out.
- player_in_check, is_legal_move and is_good_cap (plugins/AI_Folium/xq.cpp) are uninterpreted functions of the position; of is_legal_move the full search uses only its first test, that a man's target is not held by his own side.
- FoliumEngine.Engine.MakeMove: the debug assertions that the man is the player's, that the move is legal and that it takes no king are left out; the bound of 512 plies, which the source does not check, is a precondition.
- FoliumEngine.Engine.Quies: for windows that reach beyond -936 or 936 its answer is right under the condition that no line of its tree that reaches ply 64 ends in a static value below -936 (`FoliumLine.LimitIsExact` shows at the limit that this is needed). The generated lists are a function of the position; FoliumGenerator.ScoresOnlyOrder shows that the history scores, which change during a search, do not matter to its value.
- FoliumEngine.Engine.Full: null moves, hash answers and extensions make it inexact by design, so only that it ends, stays in its tables and leaves the engine as it was is stated; what the hash table holds is left open.
- FoliumEngine.Engine.Search: which of the best moves is picked and how long it deepens depend on the clock and are left open; that the best score is best is not stated, the full search being inexact.
- FoliumBoard.Bitmap.ChangeBit: a 16-bit word is the set of its bits; the tables of bitmap_data.cpp are their scan. mask and distance, used only by xq.cpp, are left out.
- FoliumBoard.XQ.TakeBack: slot 32 of the piece array, written for empty squares and never read, is not part of the position.
- FoliumGenerator.Generate: the rows of xq_data.cpp are parameters: at most four different targets on the board (knights eight), and at most three for kings and pawns outside the middle of the palace.
- FoliumGenerator.History.UpdateHistory: scores are unbounded integers; a depth whose square passes 32 bits is not modelled.
- folEngine::reset repeats the constructor on the same object and is left out, as is reading and writing positions as text (plugins/AI_Folium/xq.cpp).
- folEngine.cpp has a generator of its own for the root; its list is a parameter of which only playability is asked.
