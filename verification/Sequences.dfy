/** Lists without repetition, and taking one element out of them. */
module Sequences {

  function Min(a: nat, b: nat): nat {
    if a <= b then a else b
  }

  ghost predicate Distinct(s: seq<nat>) {
    forall i, j :: 0 <= i < j < |s| ==> s[i] != s[j]
  }

  ghost predicate Positive(s: seq<int>) {
    forall i :: 0 <= i < |s| ==> s[i] >= 1
  }

  /** Position of the first occurrence of `p`. */
  function IndexOf(s: seq<nat>, p: nat): (k: nat)
    requires p in s
    ensures k < |s| && s[k] == p && p !in s[..k]
  {
    if s[0] == p then 0 else 1 + IndexOf(s[1..], p)
  }

  /** `s` without the first occurrence of `p`. */
  function Without(s: seq<nat>, p: nat): seq<nat> {
    if p in s then
      var k := IndexOf(s, p);
      s[..k] + s[k + 1..]
    else
      s
  }

  /** Removing one occurrence shifts what is behind it by one place. */
  lemma WithoutAt(s: seq<nat>, p: nat, i: nat) returns (j: nat)
    requires i < |Without(s, p)|
    ensures i <= j <= i + 1 && j < |s| && Without(s, p)[i] == s[j]
    ensures p !in s ==> j == i
    ensures p in s ==> j == if i < IndexOf(s, p) then i else i + 1
  {
    j := if p in s && i >= IndexOf(s, p) then i + 1 else i;
  }

  lemma WithoutMembers(s: seq<nat>, p: nat)
    requires Distinct(s)
    ensures Distinct(Without(s, p))
    ensures forall q :: q in Without(s, p) <==> q in s && q != p
    ensures |Without(s, p)| == if p in s then |s| - 1 else |s|
  {
    if p in s {
      var k := IndexOf(s, p);
      var r := s[..k] + s[k + 1..];
      forall q | q in s && q != p
        ensures q in r
      {
        var i :| 0 <= i < |s| && s[i] == q;
        assert r[if i < k then i else i - 1] == q;
      }
    }
  }

  /** Pigeonhole: distinct members of `u` are no more than `u` is long. */
  lemma {:induction false} DistinctFits(s: seq<nat>, u: seq<nat>)
    requires Distinct(s) && forall q :: q in s ==> q in u
    ensures |s| <= |u|
    decreases |s|
  {
    if s != [] {
      var k := IndexOf(u, s[0]);
      var u' := u[..k] + u[k + 1..];
      forall q | q in s[1..]
        ensures q in u'
      {
        assert q in s && q in u;
        var i :| 0 <= i < |u| && u[i] == q;
        assert q != s[0];
        assert u'[if i < k then i else i - 1] == q;
      }
      DistinctFits(s[1..], u');
    }
  }

  // ----- Counting threads by where they are

  function Count<T(==)>(s: seq<T>, x: T): nat {
    multiset(s)[x]
  }

  /** Every count after one element changes. */
  lemma Moves<T(!new)>(s: seq<T>, i: nat, to: T)
    requires i < |s|
    ensures forall x ::
              Count(s[i := to], x) == Count(s, x) - (if s[i] == x then 1 else 0) + (if to == x then 1 else 0)
  {
    forall x
      ensures Count(s[i := to], x) == Count(s, x) - (if s[i] == x then 1 else 0) + (if to == x then 1 else 0)
    {
      assert multiset(s[i := to]) == multiset(s) - multiset{s[i]} + multiset{to};
    }
  }

  lemma {:induction false} CountIsAll<T>(s: seq<T>, x: T)
    ensures Count(s, x) <= |s|
    ensures Count(s, x) == |s| <==> forall i :: 0 <= i < |s| ==> s[i] == x
  {
    if s != [] {
      var last := |s| - 1;
      assert s == s[..last] + [s[last]];
      CountIsAll(s[..last], x);
    }
  }

  lemma CountOfAll<T>(s: seq<T>, x: T, other: T)
    requires forall i :: 0 <= i < |s| ==> s[i] == x
    requires x != other
    ensures Count(s, other) == 0
  {
    assert other !in s;
  }

  lemma Present<T>(s: seq<T>, i: nat)
    requires i < |s|
    ensures Count(s, s[i]) >= 1
  {
    assert s[i] in multiset(s);
  }

  // ----- Sums

  function Sum(s: seq<int>): int {
    if s == [] then 0 else s[|s| - 1] + Sum(s[..|s| - 1])
  }

  lemma {:induction false} SumUpdate(s: seq<int>, i: nat, x: int)
    requires i < |s|
    ensures Sum(s[i := x]) == Sum(s) - s[i] + x
  {
    var s' := s[i := x];
    if i == |s| - 1 {
      assert s'[..i] == s[..i];
    } else {
      SumUpdate(s[..|s| - 1], i, x);
      assert s'[..|s| - 1] == s[..|s| - 1][i := x];
    }
  }

  lemma {:induction false} SumNonNegative(s: seq<int>, i: nat)
    requires i < |s| && forall j :: 0 <= j < |s| ==> s[j] >= 0
    ensures Sum(s) >= s[i]
  {
    if i < |s| - 1 {
      SumNonNegative(s[..|s| - 1], i);
    } else if i > 0 {
      SumNonNegative(s[..|s| - 1], 0);
    }
  }

  lemma {:induction false} SumZero(s: seq<int>)
    requires forall i :: 0 <= i < |s| ==> s[i] == 0
    ensures Sum(s) == 0
  {
    if s != [] {
      SumZero(s[..|s| - 1]);
    }
  }
}
