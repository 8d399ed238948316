/** A game as the server records it: a list of four-character moves. */
module Games {
  import opened Xiangqi
  import opened CheckCounting

  /** The value of an int stored in a signed char. */
  function Narrow(n: int): int {
    (n + 128) % 256 - 128
  }

  function Coordinate(c: char): int {
    Narrow(c as int - 48)
  }

  function ParseMove(s: string): Option<Move> {
    if |s| != 4 then None
    else Some(Move(Pos(Coordinate(s[0]), Coordinate(s[1])), Pos(Coordinate(s[2]), Coordinate(s[3]))))
  }

  ghost predicate AllParse(moves: seq<string>) {
    forall i :: 0 <= i < |moves| ==> ParseMove(moves[i]).Some?
  }

  function Parsed(moves: seq<string>): seq<Move>
    requires AllParse(moves)
  {
    seq(|moves|, i requires 0 <= i < |moves| => ParseMove(moves[i]).value)
  }

  /** The game that a table's list of moves records. */
  ghost function Recorded(moves: seq<string>): Option<Game> {
    if AllParse(moves) then Play(Red, Parsed(moves)) else None
  }

  ghost predicate GivesCheck(g: Game) {
    Attacked(g.men, g.turn)
  }

  /** Which moves of a recorded game gave check. */
  ghost function Checks(moves: seq<string>): (h: History)
    ensures |h| == |moves|
  {
    if moves == [] then []
    else
      var g := Recorded(moves);
      Checks(moves[..|moves| - 1]) + [g.Some? && GivesCheck(g.value)]
  }

  /** How a game stands after a move that led to g: a lost position ends it, and otherwise
      the counting rules may. */
  ghost function Standing(h: History, g: Game): Status {
    if Verdict(g) != InProgress then Verdict(g)
    else Judge(TallyOf(h + [GivesCheck(g)]), Mover(h), GivesCheck(g), TallyOf(h).prevCheck)
  }

  lemma OneMoveMore(moves: seq<string>, s: string)
    requires Recorded(moves).Some?
    ensures var g := Recorded(moves).value;
            Recorded(moves + [s]) ==
            match ParseMove(s)
            case None => None
            case Some(m) => if Legal(g, m.from, m.to) then Some(Next(g, m.from, m.to)) else None
    ensures Checks(moves + [s]) ==
            Checks(moves) + [Recorded(moves + [s]).Some? && GivesCheck(Recorded(moves + [s]).value)]
  {
    hide Legal, GivesCheck;
    var longer := moves + [s];
    assert longer[..|moves|] == moves;
    assert forall i :: 0 <= i < |moves| ==> longer[i] == moves[i];
    assert longer[|moves|] == s;
    if ParseMove(s).Some? {
      assert Parsed(longer) == Parsed(moves) + [ParseMove(s).value];
      var all := Parsed(longer);
      assert all[..|all| - 1] == Parsed(moves);
    }
  }

  lemma TurnOfRecorded(moves: seq<string>)
    requires Recorded(moves).Some?
    ensures Recorded(moves).value.turn == if |moves| % 2 == 0 then Red else Black
  {
    TurnParity(Red, Parsed(moves));
  }
}
