/**
  Page replacement as it is meant to be: the resident pages form one list, newest first.
  Under LRU a hit moves the page to the front, under FIFO it does not; a load enters at the
  front and, when every frame is taken, the page at the back leaves.  `PageTable` (stamps and
  victim search) is proved against this list; here the list itself is related to the trace.
 */
module Replacement {
  import opened Sequences

  datatype Strategy = Fifo | Lru

  /** The list after a hit on `p`. */
  function Touch(strategy: Strategy, order: seq<nat>, p: nat): seq<nat> {
    if strategy == Lru && p in order then [p] + Without(order, p) else order
  }

  /** The list after `p` is loaded into one of `n` frames. */
  function Load(n: nat, order: seq<nat>, p: nat): seq<nat> {
    [p] + if |order| < n then order else order[..|order| - Min(1, |order|)]
  }

  function Next(strategy: Strategy, n: nat, order: seq<nat>, p: nat): seq<nat> {
    if p in order then Touch(strategy, order, p) else Load(n, order, p)
  }

  lemma NextMembers(strategy: Strategy, n: nat, order: seq<nat>, p: nat)
    requires n >= 1 && Distinct(order) && |order| <= n
    ensures var r := Next(strategy, n, order, p);
            && Distinct(r) && |r| <= n && p in r
            && (forall q :: q in r ==> q in order || q == p)
            && (forall q :: q in order && (p in order || |order| < n || q != order[n - 1]) ==> q in r)
            && (|order| == n && p !in order ==> order[n - 1] !in r)
            && |r| == (if p in order || |order| == n then |order| else |order| + 1)
  {
    WithoutMembers(order, p);
    if p !in order && |order| == n {
      forall q | q in order && q != order[n - 1]
        ensures q in order[..n - 1]
      {
        var i :| 0 <= i < n && order[i] == q;
        assert order[..n - 1][i] == q;
      }
    }
  }

  /** The resident pages after a whole trace, starting with empty memory. */
  function Resident(strategy: Strategy, n: nat, trace: seq<nat>): seq<nat> {
    if trace == [] then []
    else Next(strategy, n, Resident(strategy, n, trace[..|trace| - 1]), trace[|trace| - 1])
  }

  /** Page faults over a whole trace. */
  function Faults(strategy: Strategy, n: nat, trace: seq<nat>): nat {
    if trace == [] then 0
    else
      var before := trace[..|trace| - 1];
      Faults(strategy, n, before)
      + if trace[|trace| - 1] in Resident(strategy, n, before) then 0 else 1
  }

  lemma {:induction false} ResidentMembers(strategy: Strategy, n: nat, trace: seq<nat>)
    requires n >= 1
    ensures Distinct(Resident(strategy, n, trace))
    ensures |Resident(strategy, n, trace)| <= n
    ensures forall q :: q in Resident(strategy, n, trace) ==> q in trace
  {
    if trace != [] {
      var before := trace[..|trace| - 1];
      ResidentMembers(strategy, n, before);
      NextMembers(strategy, n, Resident(strategy, n, before), trace[|trace| - 1]);
    }
  }

  // ----- LRU keeps the most recently used pages

  /** Time of the last use of `p`, 0 if it was never used. */
  function LastUse(trace: seq<nat>, p: nat): (k: nat)
    ensures k <= |trace| && (k > 0 ==> trace[k - 1] == p)
    ensures forall j :: k <= j < |trace| ==> trace[j] != p
  {
    if trace == [] then 0
    else if trace[|trace| - 1] == p then |trace|
    else LastUse(trace[..|trace| - 1], p)
  }

  /** All pages of the trace, last used first. */
  function Recency(trace: seq<nat>): seq<nat> {
    if trace == [] then []
    else
      var p := trace[|trace| - 1];
      [p] + Without(Recency(trace[..|trace| - 1]), p)
  }

  lemma {:induction false} RecencyMembers(trace: seq<nat>)
    ensures Distinct(Recency(trace))
    ensures forall q :: q in Recency(trace) <==> q in trace
  {
    if trace != [] {
      var before, p := trace[..|trace| - 1], trace[|trace| - 1];
      RecencyMembers(before);
      WithoutMembers(Recency(before), p);
      assert trace == before + [p];
    }
  }

  lemma BehindFront(rec: seq<nat>, p: nat, j: nat) returns (j': nat)
    requires Distinct(rec) && 0 < j <= |Without(rec, p)|
    ensures j' < |rec| && ([p] + Without(rec, p))[j] == rec[j'] != p
    ensures j' == if p in rec && j - 1 >= IndexOf(rec, p) then j else j - 1
  {
    WithoutMembers(rec, p);
    assert Without(rec, p)[j - 1] in Without(rec, p);
    j' := WithoutAt(rec, p, j - 1);
  }

  /** Behind the page used last, the list is the earlier one, with that page left out. */
  lemma RecencyBehind(trace: seq<nat>, j: nat) returns (j': nat)
    requires 0 < j < |Recency(trace)|
    ensures var before, p := trace[..|trace| - 1], trace[|trace| - 1];
            && j' < |Recency(before)| && Recency(trace)[j] == Recency(before)[j'] != p
            && j' == if p in Recency(before) && j - 1 >= IndexOf(Recency(before), p) then j else j - 1
  {
    var before, p := trace[..|trace| - 1], trace[|trace| - 1];
    assert Recency(trace) == [p] + Without(Recency(before), p);
    RecencyMembers(before);
    j' := BehindFront(Recency(before), p, j);
  }

  /** What `Recency` means: each used page once, by strictly decreasing time of last use. */
  lemma {:induction false} RecencyByLastUse(trace: seq<nat>, i: nat, j: nat)
    requires i < j < |Recency(trace)|
    ensures LastUse(trace, Recency(trace)[i]) > LastUse(trace, Recency(trace)[j])
  {
    var before, p := trace[..|trace| - 1], trace[|trace| - 1];
    var j' := RecencyBehind(trace, j);
    if i > 0 {
      var i' := RecencyBehind(trace, i);
      RecencyByLastUse(before, i', j');
    }
  }

  lemma WithoutPrefix(s: seq<nat>, p: nat, k: nat)
    requires Distinct(s) && k <= |s|
    ensures p in s[..k] ==> Without(s[..k], p) == Without(s, p)[..k - 1]
    ensures p !in s[..k] ==> k <= |Without(s, p)| && s[..k] == Without(s, p)[..k]
  {
    if p in s[..k] {
      var i := IndexOf(s[..k], p);
      assert s[i] == p && i == IndexOf(s, p);
      assert s[..k][..i] == s[..i];
    } else if p in s {
      var i := IndexOf(s, p);
      assert forall j :: 0 <= j < k ==> s[j] in s[..k];
    }
  }

  /** One LRU step commutes with cutting the list to the number of frames. */
  lemma NextOfPrefix(n: nat, rec: seq<nat>, p: nat)
    requires n >= 1 && Distinct(rec)
    ensures var k := Min(n, |rec|);
            var r := [p] + Without(rec, p);
            Next(Lru, n, rec[..k], p) == r[..Min(n, |r|)]
  {
    var k := Min(n, |rec|);
    var w := Without(rec, p);
    assert |w| == if p in rec then |rec| - 1 else |rec|;
    WithoutPrefix(rec, p, k);
    if p in rec[..k] {
      assert p in rec;
      assert ([p] + w)[..k] == [p] + w[..k - 1];
    } else if k < n {
      assert rec[..k] == rec;
    } else {
      WithoutPrefix(rec, p, n - 1);
      assert rec[..n][..n - 1] == rec[..n - 1];
      assert p !in rec[..n - 1] by {
        assert forall i :: 0 <= i < n - 1 ==> rec[..n - 1][i] == rec[..n][i];
      }
      assert ([p] + w)[..n] == [p] + w[..n - 1];
    }
  }

  /** Under LRU the `n` frames hold the `n` most recently used distinct pages, in that order. */
  lemma {:induction false} LruKeepsMostRecent(n: nat, trace: seq<nat>)
    requires n >= 1
    ensures Resident(Lru, n, trace) == Recency(trace)[..Min(n, |Recency(trace)|)]
  {
    if trace != [] {
      var before, p := trace[..|trace| - 1], trace[|trace| - 1];
      LruKeepsMostRecent(n, before);
      RecencyMembers(before);
      NextOfPrefix(n, Recency(before), p);
    }
  }

  /** Inclusion: what `m` frames hold, more frames hold too, in the same order. */
  lemma LruInclusion(m: nat, n: nat, trace: seq<nat>)
    requires 1 <= m <= n
    ensures Resident(Lru, m, trace) <= Resident(Lru, n, trace)
  {
    LruKeepsMostRecent(m, trace);
    LruKeepsMostRecent(n, trace);
  }

  /** So adding frames never adds a page fault under LRU. */
  lemma {:induction false} LruFaultsMonotone(m: nat, n: nat, trace: seq<nat>)
    requires 1 <= m <= n
    ensures Faults(Lru, n, trace) <= Faults(Lru, m, trace)
  {
    if trace != [] {
      var before := trace[..|trace| - 1];
      LruFaultsMonotone(m, n, before);
      LruInclusion(m, n, before);
    }
  }

  // ----- FIFO keeps the most recently loaded pages

  /** Every load of the trace, the last one first; a page evicted and asked for again is loaded again. */
  function Loads(n: nat, trace: seq<nat>): seq<nat> {
    if trace == [] then []
    else
      var before, p := trace[..|trace| - 1], trace[|trace| - 1];
      (if p in Resident(Fifo, n, before) then [] else [p]) + Loads(n, before)
  }

  /** Under FIFO the `n` frames hold the last `n` loads, so the page that leaves is the one loaded longest ago. */
  lemma {:induction false} FifoKeepsLastLoads(n: nat, trace: seq<nat>)
    requires n >= 1
    ensures Resident(Fifo, n, trace) == Loads(n, trace)[..Min(n, |Loads(n, trace)|)]
    ensures Faults(Fifo, n, trace) == |Loads(n, trace)|
  {
    if trace != [] {
      var before, p := trace[..|trace| - 1], trace[|trace| - 1];
      FifoKeepsLastLoads(n, before);
      var loads := Loads(n, before);
      if p !in Resident(Fifo, n, before) && |loads| >= n {
        assert loads[..n][..n - 1] == loads[..n - 1];
        assert ([p] + loads)[..n] == [p] + loads[..n - 1];
      }
    }
  }
}
