/** The lazy generator of the full search: good captures first, then the killers, then the
    rest by score.  Only when asked for the next move does it do any work. */
module FoliumStages {
  import opened FoliumPosition
  import opened FoliumBoard
  import opened FoliumLine
  import opened FoliumMoves
  import opened FoliumGenerator

  /** The entries not given yet: given ones are overwritten with 0. */
  ghost function Live(s: seq<nat>): multiset<nat> {
    multiset(s)[0 := 0]
  }

  lemma LiveTaken(s: seq<nat>, i: nat)
    requires i < |s| && s[i] != 0
    ensures multiset{s[i]} + Live(s[i := 0]) == Live(s)
  {
    assert multiset(s[i := 0]) == multiset(s) - multiset{s[i]} + multiset{0};
  }

  lemma LiveFirst(s: seq<nat>)
    requires s != []
    ensures Live(s) == if s[0] == 0 then Live(s[1..]) else multiset{s[0]} + Live(s[1..])
  {
    assert s == [s[0]] + s[1..];
    assert multiset(s) == multiset{s[0]} + multiset(s[1..]);
  }

  ghost predicate Generated(t: Tables, p: Position, all: seq<nat>)
    requires SoundTables(t) && Consistent(p)
  {
    Lists(all, AllMoves(t, p, false)) && |all| <= 119 && 0 !in all
  }

  /** What has been given and what is left make up what was generated. */
  ghost predicate Accounts(all: seq<nat>, good: seq<nat>, others: seq<nat>, left: seq<nat>) {
    multiset(good) + multiset(others) + Live(left) == multiset(all)
  }

  /** Given from the highest to the lowest, and nothing left is higher. */
  ghost predicate Falling(others: seq<nat>, left: seq<nat>) {
    && (forall i, j :: 0 <= i < j < |others| ==> others[i] >= others[j])
    && (forall i, k :: 0 <= i < |others| && 0 <= k < |left| ==> left[k] <= others[i])
  }

  ghost function Sum(good: seq<nat>, others: seq<nat>): multiset<nat> {
    multiset(good) + multiset(others)
  }

  lemma SumGrows(good: seq<nat>, others: seq<nat>, move: nat)
    ensures Sum(good + [move], others) == Sum(good, others) + multiset{move}
    ensures Sum(good, others + [move]) == Sum(good, others) + multiset{move}
  {
    assert multiset(good + [move]) == multiset(good) + multiset{move};
    assert multiset(others + [move]) == multiset(others) + multiset{move};
  }

  /** A move given is one of those generated or an extra one. */
  ghost predicate Gave(before: multiset<nat>, after: multiset<nat>, extras0: nat, extras: nat, move: nat) {
    if move == 0 then after == before && extras == extras0
    else (after == before + multiset{move} && extras == extras0) || (after == before && extras == extras0 + 1)
  }

  lemma NothingGave(given: multiset<nat>, extras: nat)
    ensures Gave(given, given, extras, extras, 0)
  {
  }

  function With(moves: seq<nat>, move: nat): seq<nat> {
    if move == 0 then moves else moves + [move]
  }

  /** The moves are those given and as many extra ones. */
  ghost predicate Accounted(given: multiset<nat>, extras: nat, moves: seq<nat>) {
    given <= multiset(moves) && |given| + extras == |moves|
  }

  lemma NoneAccounted()
    ensures Accounted(multiset{}, 0, [])
  {
  }

  lemma AccountedKnown(given: multiset<nat>, extras: nat, moves: seq<nat>)
    requires Accounted(given, extras, moves)
    ensures given <= multiset(moves) && |given| + extras == |moves|
  {
  }

  lemma AccountedNext(before: multiset<nat>, after: multiset<nat>, extras0: nat, extras: nat, move: nat, moves: seq<nat>)
    requires Gave(before, after, extras0, extras, move) && Accounted(before, extras0, moves)
    ensures Accounted(after, extras, With(moves, move))
  {
    assert multiset(moves + [move]) == multiset(moves) + multiset{move};
  }

  lemma NothingGiven(all: seq<nat>)
    requires 0 !in all
    ensures Accounts(all, [], [], all)
  {
    assert multiset(all)[0] == 0;
    assert Live(all) == multiset(all);
  }

  lemma GivenGood(all: seq<nat>, good: seq<nat>, left: seq<nat>, i: nat)
    requires Accounts(all, good, [], left) && i < |left| && left[i] != 0
    ensures Accounts(all, good + [left[i]], [], left[i := 0])
  {
    LiveTaken(left, i);
    assert multiset(good + [left[i]]) == multiset(good) + multiset{left[i]};
  }

  lemma GeneratedKnown(t: Tables, p: Position, all: seq<nat>)
    requires SoundTables(t) && Consistent(p) && Generated(t, p, all)
    ensures forall k :: 0 <= k < |all| ==> all[k] != 0 && Playable(p, Src(all[k]), Dst(all[k])) && Movable(p, Src(all[k]), Dst(all[k]))
  {
    hide SoundTables, Consistent, AllMoves, Lists, Movable;
    GeneratedTryable(t, p, all, false);
  }

  /** The good captures of a list, in its order. */
  ghost function GoodAmong(good: (Position, nat) -> bool, p: Position, s: seq<nat>): seq<nat> {
    if s == [] then []
    else GoodAmong(good, p, s[..|s| - 1]) + if good(p, s[|s| - 1]) then [s[|s| - 1]] else []
  }

  lemma OneMoreGood(good: (Position, nat) -> bool, p: Position, s: seq<nat>, i: nat)
    requires i < |s|
    ensures GoodAmong(good, p, s[..i + 1]) == GoodAmong(good, p, s[..i]) + if good(p, s[i]) then [s[i]] else []
  {
    assert s[..i + 1][..i] == s[..i];
  }

  lemma Among(all: seq<nat>, good: seq<nat>, others: seq<nat>, left: seq<nat>, i: nat)
    requires Accounts(all, good, others, left) && i < |others|
    ensures others[i] in all
  {
    assert others[i] in multiset(others);
    assert others[i] in multiset(all);
  }

  lemma SkippedZero(all: seq<nat>, good: seq<nat>, others: seq<nat>, left: seq<nat>)
    requires left != [] && left[0] == 0 && Accounts(all, good, others, left) && Falling(others, left)
    ensures Accounts(all, good, others, left[1..]) && Falling(others, left[1..])
  {
    LiveFirst(left);
  }

  /** The highest of what is left is given next. */
  lemma GivenLargest(all: seq<nat>, good: seq<nat>, others: seq<nat>, left: seq<nat>, now: seq<nat>)
    requires Accounts(all, good, others, left) && Falling(others, left) && left != []
    requires multiset(now) == multiset(left) && now != [] && now[0] != 0
    requires forall k :: 0 <= k < |now| ==> now[k] <= now[0]
    ensures Accounts(all, good, others + [now[0]], now[1..]) && Falling(others + [now[0]], now[1..])
    ensures now[0] in all
  {
    LiveFirst(now);
    assert multiset(others + [now[0]]) == multiset(others) + multiset{now[0]};
    SameMembers(now, left);
    assert forall i, k :: 0 <= i < |others| && 0 <= k < |now| ==> now[k] <= others[i];
    assert now[0] in multiset(all);
  }

  class Generator {
    const t: Tables
    const xq: XQ
    const history: History
    const ml: MoveList
    const hashMove: nat
    const killer: Killer
    const goodCapture: (Position, nat) -> bool
    const legal: (Position, nat) -> bool
    var stage: nat
    var index: nat
    ghost var all: seq<nat>        // what has been generated
    ghost var good: seq<nat>       // given from it as good captures
    ghost var others: seq<nat>     // given from it afterwards
    ghost var drawn: seq<nat>      // the history scores it was generated with
    ghost var extras: nat          // moves given that came from elsewhere

    /** Nothing generated is given twice and nothing is lost. */
    ghost predicate Valid(p: Position)
      requires Consistent(p)
      reads this, ml, ml.slots
    {
      && SoundTables(t) && ml.Valid() && stage <= 4
      && extras <= (if stage == 0 then 0 else if stage < 3 then 1 else if stage == 3 then 1 + index else 3)
      && (stage < 2 ==> good == [] && all == [])
      && (stage < 4 ==> others == [])
      && (stage >= 2 ==>
            && Generated(t, p, all) && |drawn| == 0x4000 && ScoredBy(all, drawn) && ml.length == |all| && index <= (if stage == 3 then 2 else ml.length)
            && Accounts(all, good, others, ml.slots[if stage == 4 then index else 0..ml.length]))
      && (stage == 2 ==> forall k :: index <= k < ml.length ==> ml.slots[k] == all[k])
      && (stage >= 2 ==> good == GoodAmong(goodCapture, p, if stage == 2 then all[..index] else all))
      && (hashMove == 0 || legal(p, hashMove))
      && (stage == 4 ==> Falling(others, ml.slots[index..ml.length]))
    }

    /** What has been given of what was generated. */
    ghost function Given(): multiset<nat>
      reads this
    {
      Sum(good, others)
    }

    /** Every move given may be made; and every one is the player's own unless the hash
        move is not. */
    ghost predicate Fit(p: Position, move: nat)
      requires Consistent(p)
    {
      LegalSound(legal) ==>
        && Movable(p, Src(move), Dst(move))
        && (hashMove == 0 || Playable(p, Src(hashMove), Dst(hashMove)) ==> Playable(p, Src(move), Dst(move)))
    }

    constructor (t: Tables, xq: XQ, history: History, hashMove: nat, killer: Killer,
                 goodCapture: (Position, nat) -> bool, legal: (Position, nat) -> bool)
      requires SoundTables(t) && xq.Valid() && history.Shaped()
      requires hashMove == 0 || legal(xq.State(), hashMove)
      ensures Ready(xq, ml, history) && xq.Shaped() && Consistent(xq.State()) && Valid(xq.State())
      ensures this.xq == xq && this.history == history && this.legal == legal && this.killer == killer && stage == 0 && fresh(ml) && fresh(ml.slots)
    {
      hide XQ.Valid, History.Shaped, Consistent, SoundTables;
      this.t, this.xq, this.history, this.hashMove, this.killer := t, xq, history, hashMove, killer;
      this.goodCapture, this.legal := goodCapture, legal;
      ml := new MoveList();
      stage, index, all, good, others, drawn, extras := 0, 0, [], [], [], [], 0;
      new;
      Known(xq);
    }

    lemma Known(xq: XQ)
      requires xq.Valid()
      ensures xq.Shaped() && Consistent(xq.State())
    {
    }

    /** With scores below the halving point the moves after the good captures and the
        killers come from the highest score down. */
    lemma OthersByScore(p: Position)
      requires Consistent(p) && Valid(p) && stage == 4 && forall i :: 0 <= i < |drawn| ==> drawn[i] < HALVING_POINT
      ensures |drawn| == 0x4000
      ensures forall i, j :: 0 <= i < j < |others| ==> drawn[others[i] % 0x4000] >= drawn[others[j] % 0x4000]
    {
      hide Consistent, SoundTables, Generated, GoodAmong, Packed;
      forall i, j | 0 <= i < j < |others|
        ensures drawn[others[i] % 0x4000] >= drawn[others[j] % 0x4000]
      {
        Among(all, good, others, ml.slots[index..ml.length], i);
        Among(all, good, others, ml.slots[index..ml.length], j);
        var m, n := others[i] % 0x4000, others[j] % 0x4000;
        PackedOrder(drawn[m], m, drawn[n], n);
      }
    }

    /** The next move to try, or 0 when there is none left: then every generated move has
        been given exactly once. */
    method Next() returns (move: nat)
      requires Ready(xq, ml, history) && xq.Shaped() && Consistent(xq.State()) && Valid(xq.State())
      modifies this, ml, ml.slots
      ensures Ready(xq, ml, history) && xq.Shaped() && xq.State() == old(xq.State()) && Valid(xq.State())
      ensures move == 0 ==> stage == 4 && Given() == multiset(all)
      ensures Gave(old(Given()), Given(), old(extras), extras, move) && (move != 0 ==> Fit(xq.State(), move))
      ensures (move == 0 ==> index == ml.length) && (old(stage == 4 && index == ml.length) ==> move == 0)
      ensures drawn == if old(stage) < 2 && stage >= 2 then history.scores[..] else old(drawn)
    {
      hide Ready, Consistent, SoundTables, Valid, Given;
      ghost var p := xq.State();
      StageKnown(p);
      move := 0;
      if stage == 0 { move := First(p); }
      if move == 0 {
        if stage == 1 { Fill(); }
        ReadyApart();
        var position := xq.Read();
        move := Later(position);
      }
    }

    /** From the second stage on the board is only looked at. */
    method Later(p: Position) returns (move: nat)
      requires Consistent(p) && Valid(p) && stage >= 2
      modifies this, ml.slots
      ensures Valid(p) && stage >= 2 && Gave(old(Given()), Given(), old(extras), extras, move)
      ensures (move != 0 ==> Fit(p, move)) && drawn == old(drawn)
      ensures move == 0 ==> stage == 4 && index == ml.length && Given() == multiset(all)
      ensures old(stage == 4 && index == ml.length) ==> move == 0
    {
      hide Consistent, SoundTables, Valid, Given;
      StageKnown(p);
      move := 0;
      if stage == 2 { move := NextGood(p); }
      if move == 0 && stage == 3 { move := NextKiller(p); }
      if move == 0 && stage == 4 { move := NextOther(p); }
      if move == 0 { Finished(p); }
    }

    method First(ghost p: Position) returns (move: nat)
      requires Consistent(p) && Valid(p) && stage == 0
      modifies this
      ensures Valid(p) && stage == 1
      ensures Gave(old(Given()), Given(), old(extras), extras, move) && (move != 0 ==> Fit(p, move))
      ensures drawn == old(drawn)
    {
      stage := 1;
      if hashMove != 0 { extras := 1; }
      return hashMove;
    }

    method Fill()
      requires Ready(xq, ml, history) && xq.Shaped() && Consistent(xq.State()) && Valid(xq.State()) && stage == 1
      modifies this, ml, ml.slots
      ensures Ready(xq, ml, history) && xq.Shaped() && xq.State() == old(xq.State()) && Valid(xq.State()) && stage == 2
      ensures Given() == old(Given()) && extras == old(extras) && drawn == history.scores[..]
    {
      hide XQ.Valid, ScoredBy, Consistent, SoundTables, Lists, AllMoves;
      ghost var p := xq.State();
      Generate(t, xq, ml, history, false);
      GeneratedTryable(t, p, ml.Contents(), false);
      stage, index, all, drawn := 2, 0, ml.Contents(), history.scores[..];
      NothingGiven(all);
    }

    /** Good captures, in the order of the list. */
    method NextGood(p: Position) returns (move: nat)
      requires Consistent(p) && Valid(p) && stage == 2
      modifies this, ml.slots
      ensures Valid(p) && stage >= 2 && (move == 0 ==> stage == 3)
      ensures Gave(old(Given()), Given(), old(extras), extras, move) && (move != 0 ==> Fit(p, move))
      ensures drawn == old(drawn)
    {
      hide Consistent, SoundTables, Generated, Accounts, Falling, Sum, Src, Dst, Movable, Playable, GoodAmong, LegalSound;
      while index < ml.length
        invariant Valid(p) && stage == 2 && ml.slots[..] == old(ml.slots[..])
        invariant Given() == old(Given()) && extras == old(extras) && drawn == old(drawn)
        decreases ml.length - index
      {
        move := ml.slots[index];
        GeneratedKnown(t, p, all);
        OneMoreGood(goodCapture, p, all, index);
        if goodCapture(p, move) {
          ghost var was := ml.slots[..ml.length];
          ml.slots[index] := 0;
          assert ml.slots[..ml.length] == was[index := 0];
          SumGrows(good, others, move);
          GivenGood(all, good, was, index);
          good := good + [move];
          index := index + 1;
          return;
        }
        index := index + 1;
      }
      assert all[..index] == all;
      stage, index := 3, 0;
      return 0;
    }

    /** The killers that can be played here. */
    method NextKiller(p: Position) returns (move: nat)
      requires Consistent(p) && Valid(p) && stage == 3
      modifies this
      ensures Valid(p) && stage >= 2 && (move == 0 ==> stage == 4)
      ensures Gave(old(Given()), Given(), old(extras), extras, move) && (move != 0 ==> Fit(p, move))
      ensures drawn == old(drawn)
    {
      hide SoundTables, Generated, Accounts, GoodAmong, Src, Dst;
      while index < 2
        invariant Valid(p) && stage == 3 && extras <= 1 + index
        invariant Given() == old(Given()) && extras == old(extras) && drawn == old(drawn)
        decreases 2 - index
      {
        move := if index == 0 then killer.first else killer.second;
        index := index + 1;
        if move != 0 && Src(move) < 91 && ColorOf(p.squares[Src(move)]) == p.player && legal(p, move) {
          extras := extras + 1;
          return;
        }
      }
      stage, index := 4, 0;
      return 0;
    }

    /** Of what is left the highest, brought to the front by exchanges. */
    method NextOther(ghost p: Position) returns (move: nat)
      requires Consistent(p) && Valid(p) && stage == 4
      modifies this, ml.slots
      ensures Valid(p) && stage == 4
      ensures (move == 0 ==> index == ml.length) && (old(index) == ml.length ==> move == 0)
      ensures Gave(old(Given()), Given(), old(extras), extras, move) && (move != 0 ==> Fit(p, move))
      ensures drawn == old(drawn)
    {
      hide Consistent, SoundTables, Generated, Accounts, Falling, Sum, GoodAmong, ScoredBy, Fit, Gave;
      while index < ml.length
        invariant Valid(p) && stage == 4
        invariant Given() == old(Given()) && extras == old(extras) && drawn == old(drawn)
        decreases ml.length - index
      {
        move := ml.slots[index];
        ghost var left := ml.slots[index..ml.length];
        if move == 0 {
          assert ml.slots[index + 1..ml.length] == left[1..];
          SkippedZero(all, good, others, left);
          index := index + 1;
          continue;
        }
        move := GiveLargest(p);
        return;
      }
      NothingGave(Given(), extras);
      return 0;
    }

    method GiveLargest(ghost p: Position) returns (move: nat)
      requires Consistent(p) && Valid(p) && stage == 4 && index < ml.length && ml.slots[index] != 0
      modifies this, ml.slots
      ensures Valid(p) && stage == 4 && move != 0 && Gave(old(Given()), Given(), old(extras), extras, move)
      ensures Fit(p, move) && drawn == old(drawn)
    {
      hide Consistent, SoundTables, Generated, Accounts, Falling, Sum, Src, Dst, Movable, Playable, GoodAmong, LegalSound;
      ghost var left := ml.slots[index..ml.length];
      move := BringLargest();
      ghost var now := ml.slots[index..ml.length];
      assert ml.slots[index + 1..ml.length] == now[1..];
      SumGrows(good, others, move);
      GivenLargest(all, good, others, left, now);
      GeneratedKnown(t, p, all);
      others := others + [move];
      index := index + 1;
    }

    method BringLargest() returns (move: nat)
      requires ml.Valid() && index < ml.length
      modifies ml.slots
      ensures move == ml.slots[index] >= old(ml.slots[index]) && forall k :: index <= k < ml.length ==> ml.slots[k] <= move
      ensures multiset(ml.slots[index..ml.length]) == old(multiset(ml.slots[index..ml.length]))
    {
      move := ml.slots[index];
      for j := index + 1 to ml.length
        invariant move == ml.slots[index] >= old(ml.slots[index]) && forall k :: index <= k < j ==> ml.slots[k] <= move
        invariant multiset(ml.slots[index..ml.length]) == old(multiset(ml.slots[index..ml.length]))
      {
        if ml.slots[j] > move {
          Exchange(ml.slots, index, j, index, ml.length);
          move := ml.slots[index];
        }
      }
    }

    lemma ReadyApart()
      requires Ready(xq, ml, history)
      ensures ml.slots != xq.pieces && ml.slots != xq.squares && ml.slots != history.scores
      ensures ml.slots as object != xq.bitmap.lines
    {
      hide XQ.Valid, History.Shaped;
    }

    lemma StageKnown(p: Position)
      requires Consistent(p) && Valid(p)
      ensures stage <= 4
    {
    }

    lemma Finished(p: Position)
      requires Consistent(p) && Valid(p) && stage == 4 && index == ml.length
      ensures Given() == multiset(all)
    {
      hide Consistent, SoundTables, Generated;
      assert ml.slots[index..ml.length] == [];
    }

    /** The loop of the full search over the generator: it ends after at most 122 moves,
        among them every generated one. */
    method GiveAll() returns (moves: seq<nat>)
      requires Ready(xq, ml, history) && xq.Shaped() && Consistent(xq.State()) && Valid(xq.State()) && stage == 0
      modifies this, ml, ml.slots
      ensures Ready(xq, ml, history) && xq.Shaped() && xq.State() == old(xq.State()) && Valid(xq.State())
      ensures Lists(all, AllMoves(t, xq.State(), false)) && multiset(all) <= multiset(moves) && |moves| <= |all| + 3 <= 122
    {
      hide XQ.Valid, History.Shaped, Consistent, SoundTables, Valid, Given, Lists, AllMoves, Gave, Accounted, Ready;
      ghost var p := xq.State();
      moves := [];
      AtMost(p);
      var move := Next();
      NoneAccounted();
      AccountedNext(multiset{}, Given(), 0, extras, move, moves);
      while move != 0
        invariant Ready(xq, ml, history) && xq.Shaped() && xq.State() == p && Valid(p)
        invariant Accounted(Given(), extras, With(moves, move))
        invariant move == 0 ==> stage == 4 && Given() == multiset(all)
        decreases 122 - |moves|
      {
        AtMost(p);
        AccountedKnown(Given(), extras, With(moves, move));
        ghost var before, extras0 := Given(), extras;
        moves := moves + [move];
        move := Next();
        AccountedNext(before, Given(), extras0, extras, move, moves);
      }
      AtMost(p);
      AccountedKnown(Given(), extras, moves);
    }

    lemma AtMost(p: Position)
      requires Consistent(p) && Valid(p)
      ensures |Given()| <= |all| <= 119 && extras <= 3 && (stage == 0 ==> Given() == multiset{} && extras == 0)
      ensures stage == 4 ==> Lists(all, AllMoves(t, p, false))
    {
      hide Consistent, SoundTables, Lists, AllMoves;
      if stage >= 2 {
        assert Given() <= multiset(all);
        assert |multiset(all)| == |Given()| + |multiset(all) - Given()|;
      }
    }
  }
}
