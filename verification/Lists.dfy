/** Lists without repetition, as the server keeps them in `std::list`. */
module Lists {

  ghost predicate NoDup<T>(s: seq<T>) {
    forall i, j :: 0 <= i < j < |s| ==> s[i] != s[j]
  }

  function IndexOf<T(==)>(s: seq<T>, x: T): (i: nat)
    requires x in s
    ensures i < |s| && s[i] == x && x !in s[..i]
  {
    if s[0] == x then 0 else 1 + IndexOf(s[1..], x)
  }

  /** `std::list::remove` on a list that holds x at most once. */
  function Without<T(==)>(s: seq<T>, x: T): seq<T> {
    if x in s then s[..IndexOf(s, x)] + s[IndexOf(s, x) + 1..] else s
  }

  lemma WithoutRemoves<T>(s: seq<T>, x: T)
    requires NoDup(s)
    ensures NoDup(Without(s, x)) && x !in Without(s, x)
    ensures forall y :: y in s && y != x ==> y in Without(s, x)
    ensures forall y :: y in Without(s, x) ==> y in s
    ensures x in s ==> |Without(s, x)| == |s| - 1
  {
    if x in s {
      var i := IndexOf(s, x);
      forall y | y in s && y != x
        ensures y in Without(s, x)
      {
        var j :| 0 <= j < |s| && s[j] == y;
        assert j < i ==> Without(s, x)[j] == y;
        assert j > i ==> Without(s, x)[j - 1] == y;
      }
    }
  }

  lemma WithoutStep<T>(s: seq<T>, x: T)
    requires x in s
    ensures s[0] == x ==> Without(s, x) == s[1..]
    ensures s[0] != x ==> x in s[1..] && Without(s, x) == [s[0]] + Without(s[1..], x)
  {
    hide IndexOf;
    IndexStep(s, x);
    if s[0] == x {
      assert s[..0] + s[1..] == s[1..];
    } else {
      CutStep(s, IndexOf(s[1..], x));
    }
  }

  lemma IndexStep<T>(s: seq<T>, x: T)
    requires x in s
    ensures s[0] == x ==> IndexOf(s, x) == 0
    ensures s[0] != x ==> x in s[1..] && IndexOf(s, x) == 1 + IndexOf(s[1..], x)
  {
  }

  lemma CutStep<T>(s: seq<T>, i: nat)
    requires i + 1 < |s|
    ensures s[..1 + i] + s[1 + i + 1..] == [s[0]] + (s[1..][..i] + s[1..][i + 1..])
  {
    assert s[..1 + i] == [s[0]] + s[1..][..i];
    assert s[1 + i + 1..] == s[1..][i + 1..];
  }

  lemma OneLonger<T>(s: seq<T>, j: nat)
    requires j < |s|
    ensures s[..j + 1] == s[..j] + [s[j]]
  {
  }

  lemma WholeSlice<T>(s: seq<T>)
    ensures s[..|s|] == s
  {
  }

  lemma LastIsNew<T>(s: seq<T>, x: T)
    requires NoDup(s + [x])
    ensures x !in s
  {
    var t := s + [x];
    assert forall j :: 0 <= j < |s| ==> s[j] == t[j] && t[j] != t[|s|];
  }

  lemma WithoutLast<T>(s: seq<T>, x: T)
    requires x !in s
    ensures Without(s + [x], x) == s
  {
    assert forall j :: 0 <= j < |s| ==> (s + [x])[j] == s[j];
    assert (s + [x])[..|s|] == s;
  }

  /** Where x splits a list without repetition is determined by the list. */
  lemma SplitUnique<T>(a: seq<T>, b: seq<T>, a': seq<T>, b': seq<T>, x: T)
    requires a + ([x] + b) == a' + ([x] + b')
    requires x !in a && x !in a'
    ensures a == a' && b == b'
  {
    var s := a + ([x] + b);
    assert forall j :: 0 <= j < |a| ==> s[j] == a[j];
    assert forall j :: 0 <= j < |a'| ==> s[j] == a'[j];
    assert s[|a|] == x && s[|a'|] == x;
    assert a == s[..|a|] == a';
    assert b == s[|a| + 1..] == b';
  }
}
