/**
  When does a translation cache that forgets nothing stay right?

  As shipped, `Tlb::invalidate` clears a copy of the entry it finds, so the table keeps it.
  Then the table always holds the last `t` pages filled into it, whatever was evicted since.
  A history is the resident list together with all pages ever filled, newest first.  It is
  coherent while every page in the table is resident; the lemmas below say exactly for which
  sizes every trace keeps it coherent.
 */
module TlbHistory {
  import opened Sequences
  import opened Replacement

  datatype History = History(order: seq<nat>, fills: seq<nat>)

  const START := History([], [])

  /** The pages in a table of `t` slots filled in rotation. */
  function Cached(t: nat, fills: seq<nat>): seq<nat> {
    fills[..Min(t, |fills|)]
  }

  function Fill(t: nat, fills: seq<nat>, p: nat): seq<nat> {
    if p in Cached(t, fills) then fills else [p] + fills
  }

  /** One access to page `p`: a page in the table is used, resident or not, any other is looked up or loaded. */
  function Step(strategy: Strategy, n: nat, t: nat, h: History, p: nat): History {
    History(if p in Cached(t, h.fills) then Touch(strategy, h.order, p) else Next(strategy, n, h.order, p),
            Fill(t, h.fills, p))
  }

  /** While the history is coherent, the list steps as the replacement strategy does. */
  lemma CoherentStep(strategy: Strategy, n: nat, t: nat, h: History, p: nat)
    requires Coherent(t, h)
    ensures Step(strategy, n, t, h, p).order == Next(strategy, n, h.order, p)
  {
  }

  function After(strategy: Strategy, n: nat, t: nat, trace: seq<nat>): History {
    if trace == [] then START
    else Step(strategy, n, t, After(strategy, n, t, trace[..|trace| - 1]), trace[|trace| - 1])
  }

  ghost predicate Coherent(t: nat, h: History) {
    forall q :: q in Cached(t, h.fills) ==> q in h.order
  }

  /** Coherent after every access of the trace. */
  ghost predicate CoherentThroughout(strategy: Strategy, n: nat, t: nat, trace: seq<nat>)
  {
    if trace == [] then true
    else
      && CoherentThroughout(strategy, n, t, trace[..|trace| - 1])
      && Coherent(t, After(strategy, n, t, trace))
  }

  /** The whole trace of accesses stays among the first `pages` pages. */
  ghost predicate Within(pages: nat, trace: seq<nat>) {
    forall i :: 0 <= i < |trace| ==> trace[i] < pages
  }

  // ----- What the counters should show

  /** Accesses found in the table, accesses to resident pages that are not in it, and loads. */
  datatype Tally = Tally(tlbHits: nat, pageHits: nat, faults: nat)

  function TallyOf(strategy: Strategy, n: nat, t: nat, trace: seq<nat>): Tally {
    if trace == [] then Tally(0, 0, 0)
    else
      var before, p := trace[..|trace| - 1], trace[|trace| - 1];
      var h, y := After(strategy, n, t, before), TallyOf(strategy, n, t, before);
      if p in Cached(t, h.fills) then y.(tlbHits := y.tlbHits + 1)
      else if p in h.order then y.(pageHits := y.pageHits + 1)
      else y.(faults := y.faults + 1)
  }

  // ----- LRU: 2t - 1 frames are enough

  /** The pages filled since, or present when, the entry of age `a` was made. */
  function Window(t: nat, fills: seq<nat>, a: nat): seq<nat> {
    fills[..Min(a + t, |fills|)]
  }

  /**
    Everything used more recently than a cached page was in the table when that page was
    filled, or has been filled since: hits only touch pages in the table.
   */
  ghost predicate HitsStayInWindow(t: nat, h: History) {
    forall a, i, j :: 0 <= a < Min(t, |h.fills|) && 0 <= j <= i < |h.order| && h.order[i] == h.fills[a]
      ==> h.order[j] in Window(t, h.fills, a)
  }

  ghost predicate LruInvariant(n: nat, t: nat, h: History) {
    && Distinct(h.order) && |h.order| <= n
    && Coherent(t, h)
    && HitsStayInWindow(t, h)
  }

  /** The page LRU would evict can only be cached in the slot that is refilled next. */
  lemma VictimIsOldestEntry(n: nat, t: nat, h: History, a: nat)
    requires t >= 1 && n >= 2 * t - 1
    requires LruInvariant(n, t, h) && |h.order| == n
    requires a < Min(t, |h.fills|) && h.fills[a] == h.order[n - 1]
    ensures a == t - 1
  {
    var w := Window(t, h.fills, a);
    forall q | q in h.order
      ensures q in w
    {
      var j :| 0 <= j < n && h.order[j] == q;
      assert h.order[n - 1] == h.fills[a];
    }
    DistinctFits(h.order, w);
  }

  lemma WithoutKeepsOrder(s: seq<nat>, p: nat, i: nat, j: nat) returns (i': nat, j': nat)
    requires j <= i < |Without(s, p)|
    ensures j' <= i' < |s| && s[i'] == Without(s, p)[i] && s[j'] == Without(s, p)[j]
  {
    i' := WithoutAt(s, p, i);
    j' := WithoutAt(s, p, j);
  }

  lemma TouchStaysInWindow(t: nat, h: History, p: nat)
    requires t >= 1 && Distinct(h.order) && p in h.order
    requires HitsStayInWindow(t, h)
    requires p in Cached(t, h.fills)
    ensures HitsStayInWindow(t, History(Touch(Lru, h.order, p), h.fills))
  {
    var w := Without(h.order, p);
    WithoutMembers(h.order, p);
    forall a, i, j | 0 <= a < Min(t, |h.fills|) && 0 <= j <= i < |[p] + w| && ([p] + w)[i] == h.fills[a]
      ensures ([p] + w)[j] in Window(t, h.fills, a)
    {
      assert p in Window(t, h.fills, a) by {
        var b :| 0 <= b < Min(t, |h.fills|) && h.fills[b] == p;
        assert Window(t, h.fills, a)[b] == p;
      }
      if j > 0 {
        var i', j' := WithoutKeepsOrder(h.order, p, i - 1, j - 1);
      }
    }
  }

  lemma WindowAfterFill(t: nat, fills: seq<nat>, p: nat, a: nat, q: nat)
    requires t >= 1 && 1 <= a
    requires q == p || q in Window(t, fills, a - 1)
    ensures q in Window(t, [p] + fills, a)
  {
    if q == p {
      assert Window(t, [p] + fills, a)[0] == p;
    } else {
      var b :| 0 <= b < Min(a - 1 + t, |fills|) && fills[b] == q;
      assert Window(t, [p] + fills, a)[b + 1] == q;
    }
  }

  lemma BehindStaysInWindow(t: nat, h: History, p: nat, m: nat, a: nat, i: nat, j: nat)
    requires t >= 1 && m <= |h.order| && 1 <= a < Min(t, |h.fills| + 1)
    requires HitsStayInWindow(t, h)
    requires j <= i < |Without(h.order[..m], p)| && Without(h.order[..m], p)[i] == h.fills[a - 1]
    ensures Without(h.order[..m], p)[j] in Window(t, [p] + h.fills, a)
  {
    var i', j' := WithoutKeepsOrder(h.order[..m], p, i, j);
    assert h.order[i'] == h.fills[a - 1];
    WindowAfterFill(t, h.fills, p, a, h.order[j']);
  }

  /** A fill puts `p` in front of (part of) the list and of the fills. */
  lemma FillStaysInWindow(t: nat, h: History, p: nat, m: nat)
    requires t >= 1 && m <= |h.order| && p !in Without(h.order[..m], p)
    requires HitsStayInWindow(t, h)
    ensures HitsStayInWindow(t, History([p] + Without(h.order[..m], p), [p] + h.fills))
  {
    var w := Without(h.order[..m], p);
    var r, f := [p] + w, [p] + h.fills;
    forall a, i, j | 0 <= a < Min(t, |f|) && 0 <= j <= i < |r| && r[i] == f[a]
      ensures r[j] in Window(t, f, a)
    {
      if j == 0 {
        assert Window(t, f, a)[0] == p;
      } else {
        assert r[i] == w[i - 1] && w[i - 1] in w;
        BehindStaysInWindow(t, h, p, m, a, i - 1, j - 1);
      }
    }
  }

  /** Filling keeps the table coherent when the page that leaves is not among the next `t - 1` entries. */
  lemma FillKeepsCoherent(strategy: Strategy, n: nat, t: nat, h: History, p: nat)
    requires n >= 1 && t >= 1 && Distinct(h.order) && |h.order| <= n && Coherent(t, h)
    requires p in h.order || |h.order| < n ||
             forall a :: 0 <= a < Min(t, |h.fills|) && h.fills[a] == h.order[n - 1] ==> a == t - 1
    ensures Coherent(t, Step(strategy, n, t, h, p))
  {
    NextMembers(strategy, n, h.order, p);
    var h' := Step(strategy, n, t, h, p);
    forall q | q in Cached(t, h'.fills)
      ensures q in h'.order
    {
      if p !in Cached(t, h.fills) && q != p {
        var b :| 0 <= b < Min(t, |h'.fills|) && h'.fills[b] == q;
        assert Cached(t, h.fills)[b - 1] == q;
      }
    }
  }

  lemma LruStepStaysInWindow(n: nat, t: nat, h: History, p: nat)
    requires t >= 1 && n >= 1 && LruInvariant(n, t, h)
    ensures HitsStayInWindow(t, Step(Lru, n, t, h, p))
  {
    WithoutMembers(h.order, p);
    if p in Cached(t, h.fills) {
      TouchStaysInWindow(t, h, p);
    } else if p in h.order || |h.order| < n {
      assert h.order[..|h.order|] == h.order;
      FillStaysInWindow(t, h, p, |h.order|);
    } else {
      assert p !in h.order[..n - 1];
      FillStaysInWindow(t, h, p, n - 1);
    }
  }

  lemma LruStepKeepsInvariant(n: nat, t: nat, h: History, p: nat)
    requires t >= 1 && n >= 2 * t - 1 && LruInvariant(n, t, h)
    ensures LruInvariant(n, t, Step(Lru, n, t, h, p))
  {
    LruStepStaysInWindow(n, t, h, p);
    NextMembers(Lru, n, h.order, p);
    if |h.order| == n {
      forall a | 0 <= a < Min(t, |h.fills|) && h.fills[a] == h.order[n - 1]
        ensures a == t - 1
      {
        VictimIsOldestEntry(n, t, h, a);
      }
    }
    FillKeepsCoherent(Lru, n, t, h, p);
  }

  lemma {:induction false} LruEnoughFrames(n: nat, t: nat, trace: seq<nat>)
    requires t >= 1 && n >= 2 * t - 1
    ensures CoherentThroughout(Lru, n, t, trace)
    ensures LruInvariant(n, t, After(Lru, n, t, trace))
  {
    if trace != [] {
      var before := trace[..|trace| - 1];
      LruEnoughFrames(n, t, before);
      LruStepKeepsInvariant(n, t, After(Lru, n, t, before), trace[|trace| - 1]);
    }
  }

  // ----- No eviction: as many frames as pages

  lemma {:induction false} NoEvictionEnoughFrames(strategy: Strategy, n: nat, t: nat, trace: seq<nat>)
    requires n >= 1 && t >= 1 && Within(n, trace)
    ensures CoherentThroughout(strategy, n, t, trace)
    ensures var h := After(strategy, n, t, trace);
            Distinct(h.order) && |h.order| <= n && (forall q :: q in h.order ==> q < n)
  {
    if trace != [] {
      var before, p := trace[..|trace| - 1], trace[|trace| - 1];
      NoEvictionEnoughFrames(strategy, n, t, before);
      var h := After(strategy, n, t, before);
      if p !in h.order {
        var all := seq(n, i => i);
        forall q | q in [p] + h.order
          ensures q in all
        {
          assert all[q] == q;
        }
        DistinctFits([p] + h.order, all);
      }
      NextMembers(strategy, n, h.order, p);
      FillKeepsCoherent(strategy, n, t, h, p);
    }
  }

  // ----- FIFO: a one-slot table, or as many slots as frames

  /** With a slot per frame, eviction and slot reuse go round in step. */
  lemma {:induction false} FifoInLockstep(n: nat, trace: seq<nat>)
    requires n >= 1
    ensures var h := After(Fifo, n, n, trace); h.order == Cached(n, h.fills)
    ensures CoherentThroughout(Fifo, n, n, trace)
  {
    if trace != [] {
      var before, p := trace[..|trace| - 1], trace[|trace| - 1];
      FifoInLockstep(n, before);
      var h := After(Fifo, n, n, before);
      if p !in h.order && |h.order| == n {
        assert Cached(n, [p] + h.fills) == [p] + h.fills[..n][..n - 1];
      }
    }
  }

  lemma {:induction false} OneSlotIsCoherent(strategy: Strategy, n: nat, trace: seq<nat>)
    requires n >= 1
    ensures CoherentThroughout(strategy, n, 1, trace)
    ensures Distinct(After(strategy, n, 1, trace).order) && |After(strategy, n, 1, trace).order| <= n
  {
    if trace != [] {
      var before, p := trace[..|trace| - 1], trace[|trace| - 1];
      OneSlotIsCoherent(strategy, n, before);
      var h := After(strategy, n, 1, before);
      NextMembers(strategy, n, h.order, p);
      FillKeepsCoherent(strategy, n, 1, h, p);
    }
  }

  // ----- The bad traces

  function Up(lo: nat, hi: nat): (r: seq<nat>)
    requires lo <= hi
    ensures |r| == hi - lo && forall i :: 0 <= i < |r| ==> r[i] == lo + i
  {
    if lo == hi then [] else Up(lo, hi - 1) + [hi - 1]
  }

  function Down(hi: nat, lo: nat): (r: seq<nat>)
    requires lo <= hi
    ensures |r| == hi - lo && forall i :: 0 <= i < |r| ==> r[i] == hi - 1 - i
  {
    if lo == hi then [] else [hi - 1] + Down(hi - 1, lo)
  }

  /** Some page stays in the table although the access to `p` evicts it. */
  ghost predicate GoesStale(strategy: Strategy, n: nat, t: nat, trace: seq<nat>, p: nat, v: nat) {
    var h := After(strategy, n, t, trace + [p]);
    && CoherentThroughout(strategy, n, t, trace)
    && v in Cached(t, h.fills) && v !in h.order
  }

  lemma AfterAppend(strategy: Strategy, n: nat, t: nat, trace: seq<nat>, p: nat)
    ensures After(strategy, n, t, trace + [p]) == Step(strategy, n, t, After(strategy, n, t, trace), p)
  {
    assert (trace + [p])[..|trace|] == trace;
  }

  lemma StepLoads(strategy: Strategy, n: nat, t: nat, h: History, p: nat)
    requires p !in h.order && p !in h.fills && |h.order| < n
    ensures Step(strategy, n, t, h, p) == History([p] + h.order, [p] + h.fills)
  {
  }

  lemma {:induction false} IndexOfSplit(a: seq<nat>, p: nat, b: seq<nat>)
    requires p !in a
    ensures p in a + [p] + b && IndexOf(a + [p] + b, p) == |a|
    decreases |a|
  {
    var s := a + [p] + b;
    assert s[|a|] == p;
    if a != [] {
      assert s[1..] == a[1..] + [p] + b;
      IndexOfSplit(a[1..], p, b);
    }
  }

  lemma StepTouches(n: nat, t: nat, h: History, p: nat, a: seq<nat>, b: seq<nat>)
    requires p in Cached(t, h.fills) && h.order == a + [p] + b && p !in a
    ensures Step(Lru, n, t, h, p) == History([p] + a + b, h.fills)
  {
    IndexOfSplit(a, p, b);
    assert h.order[..|a|] == a;
    assert h.order[|a| + 1..] == b;
  }

  lemma {:induction false} FillInOrder(strategy: Strategy, n: nat, t: nat, i: nat)
    requires 1 <= n && i <= n
    ensures After(strategy, n, t, Up(0, i)) == History(Down(i, 0), Down(i, 0))
  {
    if i > 0 {
      FillInOrder(strategy, n, t, i - 1);
      AfterAppend(strategy, n, t, Up(0, i - 1), i - 1);
      StepLoads(strategy, n, t, History(Down(i - 1, 0), Down(i - 1, 0)), i - 1);
    }
  }

  lemma {:induction false} DownSplit(hi: nat, mid: nat, lo: nat)
    requires lo <= mid <= hi
    ensures Down(hi, lo) == Down(hi, mid) + Down(mid, lo)
  {
    if mid < hi {
      DownSplit(hi - 1, mid, lo);
    }
  }

  /** The list when the first `j` of `k` loaded pages have been touched again. */
  function TouchedOrder(k: nat, j: nat): seq<nat>
    requires j <= k
  {
    Down(j, 0) + Down(k, j)
  }

  lemma TouchedOrderNext(k: nat, p: nat)
    requires p < k
    ensures TouchedOrder(k, p) == (Down(p, 0) + Down(k, p + 1)) + [p] + []
    ensures [p] + (Down(p, 0) + Down(k, p + 1)) + [] == TouchedOrder(k, p + 1)
  {
    DownSplit(k, p + 1, p);
    assert Down(p + 1, p) == [p] + Down(p, p);
    assert Down(p + 1, 0) == [p] + Down(p, 0);
  }

  /** Touch all but the last of the first `k` pages: the last becomes the least recently used. */
  lemma {:induction false} TouchInOrder(n: nat, t: nat, k: nat, j: nat)
    requires 1 <= k <= n && k <= t && j <= k - 1
    ensures After(Lru, n, t, Up(0, k) + Up(0, j)) == History(TouchedOrder(k, j), Down(k, 0))
  {
    if j == 0 {
      FillInOrder(Lru, n, t, k);
      assert Up(0, k) + Up(0, 0) == Up(0, k);
    } else {
      var p := j - 1;
      TouchInOrder(n, t, k, p);
      AppendUp(Up(0, k), 0, j);
      AfterAppend(Lru, n, t, Up(0, k) + Up(0, p), p);
      TouchedOrderNext(k, p);
      assert Cached(t, Down(k, 0))[k - 1 - p] == p;
      StepTouches(n, t, History(TouchedOrder(k, p), Down(k, 0)), p, Down(p, 0) + Down(k, j), []);
    }
  }

  lemma AppendUp(s: seq<nat>, lo: nat, hi: nat)
    requires lo < hi
    ensures s + Up(lo, hi) == (s + Up(lo, hi - 1)) + [hi - 1]
  {
  }

  /** The list when pages `k` to `i - 1` have been loaded after that. */
  function LoadedOrder(k: nat, i: nat): seq<nat>
    requires 1 <= k <= i
  {
    Down(i, k) + TouchedOrder(k, k - 1)
  }

  lemma LoadedOrderBelow(k: nat, i: nat)
    requires 1 <= k <= i
    ensures |LoadedOrder(k, i)| == i && i !in LoadedOrder(k, i) && i !in Down(i, 0)
    ensures LoadedOrder(k, i + 1) == [i] + LoadedOrder(k, i)
    ensures LoadedOrder(k, i)[i - 1] == k - 1
  {
    assert Down(i + 1, k) == [i] + Down(i, k);
    assert Down(k, k - 1) == [k - 1] + Down(k - 1, k - 1);
  }

  lemma {:induction false} LoadInOrder(n: nat, t: nat, k: nat, i: nat)
    requires 1 <= k <= i <= n && k <= t
    ensures After(Lru, n, t, Up(0, k) + Up(0, k - 1) + Up(k, i)) == History(LoadedOrder(k, i), Down(i, 0))
  {
    var start := Up(0, k) + Up(0, k - 1);
    if i == k {
      TouchInOrder(n, t, k, k - 1);
      assert start + Up(k, k) == start;
      assert LoadedOrder(k, k) == TouchedOrder(k, k - 1);
    } else {
      var p := i - 1;
      LoadInOrder(n, t, k, p);
      AppendUp(start, k, i);
      AfterAppend(Lru, n, t, start + Up(k, p), p);
      LoadedOrderBelow(k, p);
      StepLoads(Lru, n, t, History(LoadedOrder(k, p), Down(p, 0)), p);
    }
  }

  /** A full list drops its last page for a new one; if that page is young in the table, it survives there. */
  lemma DropsYoungEntry(strategy: Strategy, n: nat, t: nat, h: History, p: nat, a: nat)
    requires n >= 1 && Distinct(h.order) && |h.order| == n
    requires p !in h.order && p !in h.fills
    requires a < |h.fills| && a < t - 1 && h.fills[a] == h.order[n - 1]
    ensures var h' := Step(strategy, n, t, h, p);
            h.order[n - 1] in Cached(t, h'.fills) && h.order[n - 1] !in h'.order
  {
    NextMembers(strategy, n, h.order, p);
    assert Cached(t, [p] + h.fills)[a + 1] == h.order[n - 1];
  }

  lemma TraceGoesStale(strategy: Strategy, n: nat, t: nat, trace: seq<nat>, a: nat)
    requires n >= 1 && t >= 1 && Within(n, trace)
    requires var h := After(strategy, n, t, trace);
             && |h.order| == n && n !in h.fills
             && a < |h.fills| && a < t - 1 && h.fills[a] == h.order[n - 1]
    ensures GoesStale(strategy, n, t, trace, n, After(strategy, n, t, trace).order[n - 1])
  {
    NoEvictionEnoughFrames(strategy, n, t, trace);
    AfterAppend(strategy, n, t, trace, n);
    DropsYoungEntry(strategy, n, t, After(strategy, n, t, trace), n, a);
  }

  /** Fill `k` frames, touch all but the last page filled, fill the rest. */
  function BadTrace(n: nat, k: nat): (trace: seq<nat>)
    requires 1 <= k <= n
    ensures Within(n, trace)
  {
    Up(0, k) + Up(0, k - 1) + Up(k, n)
  }

  /** After that the least recently used page was the `k`-th filled, `n - k` fills ago. */
  lemma LeastUsedIsYoung(n: nat, t: nat, k: nat)
    requires 1 <= k <= n && k <= t
    ensures var h := After(Lru, n, t, BadTrace(n, k));
            && |h.order| == n && n !in h.fills && |h.fills| == n
            && h.order[n - 1] == k - 1 && h.fills[n - k] == k - 1
  {
    LoadInOrder(n, t, k, n);
    LoadedOrderBelow(k, n);
  }

  /** `2t - 2` frames are too few for LRU, and so is every smaller number. */
  lemma LruTooFewFrames(n: nat, t: nat) returns (trace: seq<nat>, v: nat)
    requires 1 <= n <= 2 * t - 2
    ensures Within(n, trace) && GoesStale(Lru, n, t, trace, n, v)
  {
    var k := Min(n, t);
    trace, v := BadTrace(n, k), k - 1;
    LeastUsedIsYoung(n, t, k);
    TraceGoesStale(Lru, n, t, trace, n - k);
  }

  lemma LoadThenReuse(n: nat, t: nat)
    requires 1 <= n && 2 <= t && n != t
    ensures After(Fifo, n, t, Up(0, n) + [0])
         == History(Down(n, 0), if n < t then Down(n, 0) else [0] + Down(n, 0))
  {
    FillInOrder(Fifo, n, t, n);
    AfterAppend(Fifo, n, t, Up(0, n), 0);
    var d := Down(n, 0);
    assert d[n - 1] == 0 && 0 in d;
    if n < t {
      assert Cached(t, d)[n - 1] == 0;
    } else {
      assert 0 !in Cached(t, d);
    }
  }

  /** FIFO goes stale whenever there is eviction and the two rings differ in size. */
  lemma FifoOutOfStep(n: nat, t: nat) returns (trace: seq<nat>, v: nat)
    requires 1 <= n && 2 <= t && n != t
    ensures Within(n, trace) && GoesStale(Fifo, n, t, trace, n, v)
  {
    trace, v := Up(0, n) + [0], 0;
    assert Within(n, trace);
    LoadThenReuse(n, t);
    var d := Down(n, 0);
    assert d[n - 1] == 0;
    if n < t {
      assert n !in d;
      TraceGoesStale(Fifo, n, t, trace, n - 1);
    } else {
      assert n !in [0] + d;
      assert ([0] + d)[0] == 0;
      TraceGoesStale(Fifo, n, t, trace, 0);
    }
  }
}
