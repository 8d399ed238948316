/** Scoring a rated game: the Elo change of the more experienced player, taken from the
    other.  Probabilities are in hundredths, and the change is truncated toward zero. */
module Elo {
  import opened Xiangqi

  /** What the server keeps of a player's results. */
  datatype Record = Record(score: int, wins: int, draws: int, losses: int) {
    function Played(): int { wins + draws + losses }
  }

  const DIFFS: seq<int> := [0, 25, 50, 100, 150, 200, 250, 300, 350]
  const STRONGER: seq<int> := [50, 53, 57, 64, 70, 76, 81, 85, 89]
  const WEAKER: seq<int> := [50, 47, 43, 36, 30, 24, 19, 15, 11]

  function KFactor(played: int, oldRating: int): int {
    if played < 30 then 25 else if oldRating < 2400 then 15 else 10
  }

  /** Division by a hundred that rounds toward zero. */
  function Hundredths(n: int): int {
    if n >= 0 then n / 100 else -(-n / 100)
  }

  /** i is the row of the table for a rating difference: the last one it reaches. */
  ghost predicate IsRow(i: int, diff: nat) {
    0 <= i < 9 && DIFFS[i] <= diff && (i + 1 < 9 ==> diff < DIFFS[i + 1])
  }

  function Row(diff: nat): (i: int)
    ensures IsRow(i, diff)
  {
    if diff < 100 then (if diff < 25 then 0 else if diff < 50 then 1 else 2)
    else if diff >= 350 then 8 else 1 + diff / 50
  }

  lemma RowUnique(i: int, diff: nat)
    requires IsRow(i, diff)
    ensures i == Row(diff)
  {
  }

  function Change(ratingDiff: int, oldRating: int, played: int, result: int): int {
    var row := Row(Abs(ratingDiff));
    Hundredths(KFactor(played, oldRating) * (result - if ratingDiff > 0 then STRONGER[row] else WEAKER[row]))
  }

  /** Looks the row up from the far end of the table. */
  method NewRatingChange(ratingDiff: int, oldRating: int, played: int, result: int) returns (change: int)
    ensures change == Change(ratingDiff, oldRating, played, result)
  {
    var diff := if ratingDiff > 0 then ratingDiff else -ratingDiff;
    var expected := 50;
    var i := 8;
    while i >= 0
      invariant -1 <= i <= 8 && expected == 50
      invariant i < 8 ==> diff < DIFFS[i + 1]
    {
      if diff >= DIFFS[i] {
        expected := if ratingDiff > 0 then STRONGER[i] else WEAKER[i];
        RowUnique(i, diff);
        break;
      }
      i := i - 1;
    }
    assert i >= 0;
    var k := KFactor(played, oldRating);
    change := Hundredths(k * (result - expected));
  }

  function ResultFor(c: Color, status: Status): int {
    if status == RedWin then (if c == Red then 100 else 0)
    else if status == BlackWin then (if c == Red then 0 else 100)
    else 50
  }

  /** Red's rating change; Black's is its opposite. */
  function RedChange(red: Record, black: Record, status: Status): int {
    if red.Played() > black.Played() then
      Change(red.score - black.score, red.score, red.Played(), ResultFor(Red, status))
    else
      -Change(black.score - red.score, black.score, black.Played(), ResultFor(Black, status))
  }

  function RedRecord(red: Record, black: Record, status: Status): Record {
    var r := red.(score := red.score + RedChange(red, black, status));
    if status == RedWin then r.(wins := r.wins + 1)
    else if status == BlackWin then r.(losses := r.losses + 1)
    else if status == Drawn then r.(draws := r.draws + 1)
    else r
  }

  function BlackRecord(red: Record, black: Record, status: Status): Record {
    var r := black.(score := black.score - RedChange(red, black, status));
    if status == BlackWin then r.(wins := r.wins + 1)
    else if status == RedWin then r.(losses := r.losses + 1)
    else if status == Drawn then r.(draws := r.draws + 1)
    else r
  }

  /** The size of a change that goes with the result, for a share of n hundredths. */
  lemma GainBounds(k: int, n: int)
    requires k == 25 || k == 15 || k == 10
    requires 11 <= n <= 89
    ensures 1 <= Hundredths(k * n) <= 22
    ensures Hundredths(k * -n) == -Hundredths(k * n)
  {
  }

  lemma ExpectedBounds(row: int)
    requires 0 <= row < 9
    ensures 50 <= STRONGER[row] <= 89 && WEAKER[row] == 100 - STRONGER[row]
    ensures STRONGER[row] - 50 <= DIFFS[row] / 5 && (row == 0 ==> STRONGER[row] == 50)
  {
  }

  lemma RowBelow9(diff: nat)
    ensures 0 <= Row(diff) < 9
  {
  }

  /** Whoever wins a rated game gains from 1 to 22 points, and the loser loses as many. */
  lemma WinnerGains(red: Record, black: Record)
    ensures 1 <= RedChange(red, black, RedWin) <= 22
    ensures -22 <= RedChange(red, black, BlackWin) <= -1
  {
    hide Row, IsRow, Hundredths;
    var diff := if red.Played() > black.Played() then red.score - black.score else black.score - red.score;
    var row := Row(Abs(diff));
    RowBelow9(Abs(diff));
    ExpectedBounds(row);
    var expected := if diff > 0 then STRONGER[row] else WEAKER[row];
    var k := if red.Played() > black.Played() then KFactor(red.Played(), red.score)
             else KFactor(black.Played(), black.score);
    GainBounds(k, expected);
    GainBounds(k, 100 - expected);
    assert 0 - expected == -expected;
  }

  /** A draw moves the ratings towards each other, but never past each other. */
  lemma DrawKeepsOrder(red: Record, black: Record)
    ensures var r, b := RedRecord(red, black, Drawn), BlackRecord(red, black, Drawn);
            && (red.score > black.score ==> red.score >= r.score > b.score >= black.score)
            && (red.score < black.score ==> red.score <= r.score < b.score <= black.score)
            && (red.score == black.score ==> r.score == b.score)
  {
    var useRed := red.Played() > black.Played();
    var diff := if useRed then red.score - black.score else black.score - red.score;
    var row := Row(Abs(diff));
    ExpectedBounds(row);
    var k := if useRed then KFactor(red.Played(), red.score) else KFactor(black.Played(), black.score);
    DrawShift(k, STRONGER[row] - 50, Abs(diff));
  }

  lemma DrawShift(k: int, n: int, diff: nat)
    requires k == 25 || k == 15 || k == 10
    requires 0 <= n <= diff / 5
    ensures 0 <= Hundredths(k * n) <= diff / 20
    ensures Hundredths(k * -n) == -Hundredths(k * n)
  {
  }

  // --------------------------------------------------------------------------
  // A season of games
  // --------------------------------------------------------------------------

  datatype Result = Result(red: nat, black: nat, status: Status)

  ghost predicate Playable(g: Result, players: nat) {
    g.red < players && g.black < players && g.red != g.black && (g.status == RedWin || g.status == BlackWin || g.status == Drawn)
  }

  function Scored(all: seq<Record>, g: Result): (r: seq<Record>)
    requires Playable(g, |all|)
    ensures |r| == |all|
  {
    all[g.red := RedRecord(all[g.red], all[g.black], g.status)]
       [g.black := BlackRecord(all[g.red], all[g.black], g.status)]
  }

  function Season(all: seq<Record>, games: seq<Result>): (r: seq<Record>)
    requires forall g :: g in games ==> Playable(g, |all|)
    ensures |r| == |all|
    decreases |games|
  {
    if games == [] then all else Season(Scored(all, games[0]), games[1..])
  }

  function ScoreOf(r: Record): int { r.score }

  function Margin(r: Record): int { r.wins - r.losses }

  function Total(all: seq<Record>, f: Record -> int): int {
    if all == [] then 0 else f(all[0]) + Total(all[1..], f)
  }

  lemma {:induction false} TotalUpdate(all: seq<Record>, i: nat, r: Record, f: Record -> int)
    requires i < |all|
    ensures Total(all[i := r], f) == Total(all, f) - f(all[i]) + f(r)
  {
    if i == 0 {
      assert all[i := r][1..] == all[1..];
    } else {
      assert all[i := r][1..] == all[1..][i - 1 := r];
      TotalUpdate(all[1..], i - 1, r, f);
    }
  }

  /** However many games are scored, rating is only handed from one player to another, and
      every win is somebody's loss. */
  lemma {:induction false} SeasonConserves(all: seq<Record>, games: seq<Result>)
    requires forall g :: g in games ==> Playable(g, |all|)
    ensures Total(Season(all, games), ScoreOf) == Total(all, ScoreOf)
    ensures Total(Season(all, games), Margin) == Total(all, Margin)
    decreases |games|
  {
    if games != [] {
      var g := games[0];
      assert g in games;
      var red, black := RedRecord(all[g.red], all[g.black], g.status), BlackRecord(all[g.red], all[g.black], g.status);
      TotalUpdate(all, g.red, red, ScoreOf);
      TotalUpdate(all[g.red := red], g.black, black, ScoreOf);
      TotalUpdate(all, g.red, red, Margin);
      TotalUpdate(all[g.red := red], g.black, black, Margin);
      SeasonConserves(Scored(all, g), games[1..]);
    }
  }

  /** Between the two lists lie some scored games and nothing else. */
  ghost predicate Handed(before: seq<Record>, after: seq<Record>) {
    exists games :: LeadsTo(before, games, after)
  }

  ghost predicate LeadsTo(before: seq<Record>, games: seq<Result>, after: seq<Record>) {
    (forall g :: g in games ==> Playable(g, |before|)) && after == Season(before, games)
  }

  lemma NothingHanded(all: seq<Record>)
    ensures Handed(all, all)
  {
    assert LeadsTo(all, [], all);
  }

  lemma OneHanded(all: seq<Record>, g: Result)
    requires Playable(g, |all|)
    ensures Handed(all, Scored(all, g))
  {
    assert Season(Scored(all, g), []) == Scored(all, g);
    assert [g][1..] == [];
    assert LeadsTo(all, [g], Scored(all, g));
  }

  /** One scored game, or nothing. */
  ghost predicate HandedOnce(before: seq<Record>, after: seq<Record>) {
    after == before || exists g :: Playable(g, |before|) && after == Scored(before, g)
  }

  lemma NoneHandedOnce(all: seq<Record>)
    ensures HandedOnce(all, all)
  {
  }

  lemma OnceIsHanded(before: seq<Record>, after: seq<Record>)
    requires HandedOnce(before, after)
    ensures Handed(before, after)
  {
    hide Scored;
    if after == before {
      NothingHanded(before);
    } else {
      var g :| Playable(g, |before|) && after == Scored(before, g);
      OneHanded(before, g);
    }
  }

  lemma {:induction false} SeasonJoins(all: seq<Record>, a: seq<Result>, b: seq<Result>)
    requires forall g :: g in a + b ==> Playable(g, |all|)
    ensures (forall g :: g in a ==> Playable(g, |all|)) && forall g :: g in b ==> Playable(g, |all|)
    ensures Season(all, a + b) == Season(Season(all, a), b)
    decreases |a|
  {
    assert forall g :: g in a || g in b ==> g in a + b;
    if a == [] {
      assert a + b == b;
    } else {
      assert (a + b)[0] == a[0] && (a + b)[1..] == a[1..] + b;
      SeasonJoins(Scored(all, a[0]), a[1..], b);
    }
  }

  lemma HandedOn(a: seq<Record>, b: seq<Record>, c: seq<Record>)
    requires Handed(a, b) && Handed(b, c)
    ensures Handed(a, c)
  {
    var x :| LeadsTo(a, x, b);
    var y :| LeadsTo(b, y, c);
    SeasonJoins(a, x, y);
    assert LeadsTo(a, x + y, c);
  }

  /** Where records only change by scored games, the ratings keep their sum, and wins and
      losses their difference. */
  lemma HandedConserves(before: seq<Record>, after: seq<Record>)
    requires Handed(before, after)
    ensures |after| == |before|
    ensures Total(after, ScoreOf) == Total(before, ScoreOf) && Total(after, Margin) == Total(before, Margin)
  {
    var games :| LeadsTo(before, games, after);
    SeasonConserves(before, games);
  }
}
