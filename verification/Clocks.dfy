/** The two players' clocks, as a function of the times at which the moves were made. */
module Clocks {
  import opened Xiangqi

  /** Seconds left for the game, for one move, and as a reserve. */
  datatype TimeInfo = TimeInfo(game: int, move: int, free: int)

  datatype Clock = Clock(red: TimeInfo, black: TimeInfo, expiry: int) {
    function Of(c: Color): TimeInfo {
      if c == Red then red else black
    }
  }

  /** The mover's time after `elapsed` seconds: game time first, then the reserve. */
  function Spend(t: TimeInfo, elapsed: int): TimeInfo {
    var g := t.game - elapsed;
    if g >= 0 then t.(game := g)
    else t.(game := 0, free := if t.free + g < 0 then 0 else t.free + g)
  }

  /** What the player who is to move next gets back. */
  function Refresh(t: TimeInfo, initial: TimeInfo): TimeInfo {
    if t.game == 0 then t.(free := initial.free) else t.(move := initial.move)
  }

  function Allowance(t: TimeInfo): int {
    if t.game + t.free > t.move then t.move else t.game + t.free
  }

  function MoverOf(n: nat): Color {
    if n % 2 == 0 then Red else Black
  }

  /** The seconds the move made at times[|times|-1] took; the first two take none. */
  function Elapsed(times: seq<int>): int {
    var n := |times|;
    if n > 2 then times[n - 1] - times[n - 2] else 0
  }

  function AfterMove(k: Clock, initial: TimeInfo, times: seq<int>): Clock
    requires times != []
  {
    var n := |times|;
    if n < 2 then k
    else
      var now := times[n - 1];
      if MoverOf(n - 1) == Red then
        var next := Refresh(k.black, initial);
        Clock(Spend(k.red, Elapsed(times)), next, now + Allowance(next))
      else
        var next := Refresh(k.red, initial);
        Clock(next, Spend(k.black, Elapsed(times)), now + Allowance(next))
  }

  /** The clock after the moves of a game in progress; the expiry is that of the last game
      until both sides have moved. */
  function ClockOf(initial: TimeInfo, stale: int, times: seq<int>): Clock {
    if times == [] then Clock(initial, initial, stale)
    else AfterMove(ClockOf(initial, stale, times[..|times| - 1]), initial, times)
  }

  ghost predicate Monotone(times: seq<int>) {
    forall i :: 0 < i < |times| ==> times[i - 1] <= times[i]
  }

  /** The seconds charged to one side over a game. */
  ghost function Charged(times: seq<int>, c: Color): int {
    if times == [] then 0
    else
      var n := |times|;
      Charged(times[..n - 1], c) + if MoverOf(n - 1) == c then Elapsed(times) else 0
  }

  /** A player's game time is what is left of the initial time after all that was charged
      to him, never less than nothing; his reserve stays within the initial one. */
  lemma {:induction false} GameTimeLeft(initial: TimeInfo, stale: int, times: seq<int>, c: Color)
    requires Monotone(times) && initial.game >= 0 && initial.free >= 0
    ensures var t, spent := ClockOf(initial, stale, times).Of(c), Charged(times, c);
            && spent >= 0
            && t.game == (if spent >= initial.game then 0 else initial.game - spent)
            && 0 <= t.free <= initial.free
  {
    if times != [] {
      GameTimeLeft(initial, stale, times[..|times| - 1], c);
      assert Elapsed(times) >= 0;
    }
  }

  lemma OneMoreMove(initial: TimeInfo, stale: int, times: seq<int>, now: int)
    requires Monotone(times + [now])
    ensures Monotone(times) && (times != [] ==> times[|times| - 1] <= now)
    ensures ClockOf(initial, stale, times + [now]) == AfterMove(ClockOf(initial, stale, times), initial, times + [now])
  {
    var next := times + [now];
    assert next[..|times|] == times;
    forall i | 0 < i < |times|
      ensures times[i - 1] <= times[i]
    {
      assert next[i - 1] <= next[i];
    }
    if times != [] {
      assert next[|times| - 1] <= next[|times|];
    }
  }

  lemma ExpiryIs(initial: TimeInfo, stale: int, times: seq<int>)
    requires |times| >= 2
    ensures var k := ClockOf(initial, stale, times);
            k.expiry == times[|times| - 1] + Allowance(k.Of(MoverOf(|times|)))
  {
  }

  /** The time shown at `now` to the side to move. */
  function Shown(t: TimeInfo, times: seq<int>, now: int): TimeInfo {
    Running(t, if |times| > 2 then now - times[|times| - 1] else 0)
  }

  /** A clock that has run for some seconds. */
  function Running(t: TimeInfo, elapsed: int): TimeInfo {
    var s := Spend(t, elapsed);
    s.(move := if t.move - elapsed < 0 then 0 else t.move - elapsed)
  }

  /** The clock shows just the game and reserve time that moving at once would leave,
      unless exactly two moves have been made: then the wait for the third is charged but
      not shown. */
  lemma ShownIsCharged(initial: TimeInfo, stale: int, times: seq<int>, now: int)
    requires Monotone(times + [now]) && initial.game >= 0 && initial.free >= 0
    ensures var k, c := ClockOf(initial, stale, times), MoverOf(|times|);
            var shown, left := Shown(k.Of(c), times, now), ClockOf(initial, stale, times + [now]).Of(c);
            (shown.game == left.game && shown.free == left.free) <==>
            |times| != 2 || now == times[1] || (k.Of(c).game == 0 && k.Of(c).free == 0)
  {
    hide Monotone, ClockOf, Charged;
    OneMoreMove(initial, stale, times, now);
    GameTimeLeft(initial, stale, times, MoverOf(|times|));
  }

  /** A move made before the time runs out costs exactly the seconds it took: nothing of
      the game and reserve time is forgiven by the floors at zero. */
  lemma InTimeNothingForgiven(initial: TimeInfo, stale: int, times: seq<int>, now: int)
    requires Monotone(times + [now]) && initial.game >= 0 && initial.free >= 0
    requires |times| >= 2 && now <= ClockOf(initial, stale, times).expiry
    ensures var c := MoverOf(|times|);
            var t, left := ClockOf(initial, stale, times).Of(c), ClockOf(initial, stale, times + [now]).Of(c);
            left.game + left.free == t.game + t.free - (now - times[|times| - 1])
  {
    hide Monotone, ClockOf, Charged;
    OneMoreMove(initial, stale, times, now);
    ExpiryIs(initial, stale, times);
    GameTimeLeft(initial, stale, times, MoverOf(|times|));
  }
}
