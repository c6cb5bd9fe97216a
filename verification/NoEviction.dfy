/**
  The earlier virtual memory manager: no eviction, no free list, frames taken round robin.
  It reads right for every trace exactly when there is a frame for every page.
 */
module NoEviction {
  import opened Sequences
  import opened TlbHistory
  import opened Machine
  import opened Transparency

  /** `frameno` is the last frame handed out, an unsigned byte that starts as -1. */
  datatype Simple = Simple(
    frameOf: map<nat, nat>, frameno: nat, memory: seq<Page>, tlb: seq<TlbEntry>, robin: int, stats: Stats)

  predicate SmallEnough(c: Config) {
    Sensible(c) && c.frames <= PHYSICAL_PAGES
  }

  function Initially(c: Config, memory: seq<Page>): Simple {
    Simple(map[], 255, memory, seq(c.slots, _ => TlbEntry(false, 0, 0)), -1, NO_STATS)
  }

  ghost predicate SimpleOk(c: Config, s: Simple) {
    && |s.memory| == PHYSICAL_PAGES && |s.tlb| == c.slots && -1 <= s.robin < c.slots
    && (forall p :: p in s.frameOf ==> p < c.pages && s.frameOf[p] < c.frames)
    && (forall i :: 0 <= i < |s.tlb| && s.tlb[i].valid ==> s.tlb[i].page < c.pages && s.tlb[i].frame < PHYSICAL_PAGES)
  }

  /** `translate` for a page of the table. */
  function SimpleAccess(c: Config, store: seq<Page>, s: Simple, p: nat): (Simple, nat)
    requires SmallEnough(c) && SimpleOk(c, s) && p < c.pages == |store|
  {
    var i := Find(s.tlb, p);
    if i < |s.tlb| then
      (s.(stats := s.stats.(tlbHits := s.stats.tlbHits + 1)), s.tlb[i].frame)
    else
      var frame := if p in s.frameOf then s.frameOf[p] else (s.frameno + 1) % c.frames;
      var loaded := if p in s.frameOf then
                      s.(stats := s.stats.(pageHits := s.stats.pageHits + 1))
                    else
                      s.(frameOf := s.frameOf[p := frame], frameno := frame, memory := s.memory[frame := store[p]],
                         stats := s.stats.(faults := s.stats.faults + 1));
      var slot := NextSlot(c, s.robin);
      (loaded.(tlb := s.tlb[slot := TlbEntry(true, p, frame)], robin := slot), frame)
  }

  lemma SimpleAccessKeepsOk(c: Config, store: seq<Page>, s: Simple, p: nat)
    requires SmallEnough(c) && SimpleOk(c, s) && p < c.pages == |store|
    ensures SimpleOk(c, SimpleAccess(c, store, s, p).0) && SimpleAccess(c, store, s, p).1 < PHYSICAL_PAGES
  {
    var (s', frame) := SimpleAccess(c, store, s, p);
    assert |s'.memory| == |s.memory|;
  }

  function SimpleRead(c: Config, store: seq<Page>, s: Simple, a: Address): (Simple, Outcome)
    requires SmallEnough(c) && SimpleOk(c, s) && c.pages == |store|
  {
    var counted := s.(stats := s.stats.(lookups := s.stats.lookups + 1));
    if PageOf(a) >= c.pages then
      (counted, Failure)
    else
      var (s', frame) := SimpleAccess(c, store, counted, PageOf(a));
      SimpleAccessKeepsOk(c, store, counted, PageOf(a));
      var physical := Physical(frame, OffsetOf(a));
      (s', Success(physical, s'.memory[PageOf(physical)][OffsetOf(physical)]))
  }

  // ----- While there are frames left

  /** The pages loaded so far, in order: the first went to the first frame handed out, and so on round and round. */
  ghost predicate Numbered(c: Config, s: Simple, loaded: seq<nat>)
    requires SmallEnough(c)
  {
    && SimpleOk(c, s) && Distinct(loaded)
    && (forall p :: p in loaded <==> p in s.frameOf)
    && (forall i :: 0 <= i < |loaded| ==> s.frameOf[loaded[i]] == (256 + i) % c.frames)
    && s.frameno == (if loaded == [] then 255 else (255 + |loaded|) % c.frames)
    && s.stats.faults == |loaded|
    && (forall i :: 0 <= i < |s.tlb| && s.tlb[i].valid
          ==> s.tlb[i].page in s.frameOf && s.tlb[i].frame == s.frameOf[s.tlb[i].page])
  }

  /** While there are frames left, each of them also has its page. */
  ghost predicate InOrder(c: Config, store: seq<Page>, s: Simple, loaded: seq<nat>)
    requires SmallEnough(c)
  {
    && Numbered(c, s, loaded) && |loaded| <= c.frames
    && (forall p :: p in s.frameOf && p < |store| ==> s.memory[s.frameOf[p]] == store[p])
  }

  lemma NoMultipleBetween(n: nat, d: int)
    ensures !(0 < n * d < n)
  {
    if d >= 1 {
      assert n * d == n + n * (d - 1);
    }
  }

  lemma ModDiffers(a: nat, i: nat, j: nat, n: nat)
    requires i < j < i + n
    ensures (a + i) % n != (a + j) % n
  {
    var x, y := a + i, a + j;
    assert x == n * (x / n) + x % n && y == n * (y / n) + y % n;
    var d := y / n - x / n;
    assert n * d == n * (y / n) - n * (x / n);
    NoMultipleBetween(n, d);
  }

  lemma ModIs(x: nat, n: nat, q: nat, r: nat)
    requires x == n * q + r && r < n
    ensures x % n == r
  {
    var d := x / n - q;
    assert x == n * (x / n) + x % n;
    assert n * d == n * (x / n) - n * q && n * -d == -(n * d);
    NoMultipleBetween(n, d);
    NoMultipleBetween(n, -d);
  }

  lemma ModNext(a: nat, n: nat)
    requires n >= 1
    ensures (a % n + 1) % n == (a + 1) % n
  {
    var q, r := a / n, a % n;
    assert a == n * q + r;
    if r + 1 < n {
      ModIs(a + 1, n, q, r + 1);
      ModIs(r + 1, n, 0, r + 1);
    } else {
      assert n * (q + 1) == n * q + n;
      ModIs(a + 1, n, q + 1, 0);
      ModIs(r + 1, n, 1, 0);
    }
  }

  lemma NextFrame(c: Config, s: Simple, loaded: seq<nat>)
    requires SmallEnough(c) && Numbered(c, s, loaded)
    ensures (s.frameno + 1) % c.frames == (256 + |loaded|) % c.frames
    ensures |loaded| < c.frames ==> forall p :: p in s.frameOf ==> s.frameOf[p] != (256 + |loaded|) % c.frames
  {
    if loaded != [] {
      ModNext(255 + |loaded|, c.frames);
    }
    if |loaded| < c.frames {
      forall p | p in s.frameOf
        ensures s.frameOf[p] != (256 + |loaded|) % c.frames
      {
        assert p in loaded;
        var i :| 0 <= i < |loaded| && loaded[i] == p;
        ModDiffers(256, i, |loaded|, c.frames);
      }
    }
  }

  lemma HitInOrder(c: Config, store: seq<Page>, s: Simple, loaded: seq<nat>, p: nat)
    requires SmallEnough(c) && InOrder(c, store, s, loaded) && p < c.pages == |store| && p in loaded
    ensures var (s', frame) := SimpleAccess(c, store, s, p);
            InOrder(c, store, s', loaded) && frame < PHYSICAL_PAGES && s'.memory[frame] == store[p]
  {
    HitNumbers(c, store, s, loaded, p);
  }

  /** A fault on a new page takes the next frame, which no loaded page has while frames are left. */
  lemma FaultInOrder(c: Config, store: seq<Page>, s: Simple, loaded: seq<nat>, p: nat)
    requires SmallEnough(c) && InOrder(c, store, s, loaded) && p < c.pages == |store|
    requires p !in loaded && |loaded| < c.frames
    ensures var (s', frame) := SimpleAccess(c, store, s, p);
            && InOrder(c, store, s', loaded + [p]) && frame == (256 + |loaded|) % c.frames
            && s'.memory[frame] == store[p]
  {
    NextFrame(c, s, loaded);
    FaultNumbers(c, store, s, loaded, p);
  }

  lemma HitNumbers(c: Config, store: seq<Page>, s: Simple, loaded: seq<nat>, p: nat)
    requires SmallEnough(c) && Numbered(c, s, loaded) && p < c.pages == |store| && p in loaded
    ensures Numbered(c, SimpleAccess(c, store, s, p).0, loaded)
    ensures SimpleAccess(c, store, s, p).1 == s.frameOf[p]
  {
    SimpleAccessKeepsOk(c, store, s, p);
  }

  lemma FaultNumbers(c: Config, store: seq<Page>, s: Simple, loaded: seq<nat>, p: nat)
    requires SmallEnough(c) && Numbered(c, s, loaded) && p < c.pages == |store| && p !in loaded
    ensures Numbered(c, SimpleAccess(c, store, s, p).0, loaded + [p])
    ensures SimpleAccess(c, store, s, p).1 == (256 + |loaded|) % c.frames
  {
    NextFrame(c, s, loaded);
    SimpleAccessKeepsOk(c, store, s, p);
    var s' := SimpleAccess(c, store, s, p).0;
    assert forall q :: q in s'.frameOf <==> q == p || q in s.frameOf;
  }

  /** The numbering goes on for ever, whether or not a frame is overwritten. */
  lemma AccessNumbers(c: Config, store: seq<Page>, s: Simple, loaded: seq<nat>, p: nat)
    requires SmallEnough(c) && Numbered(c, s, loaded) && p < c.pages == |store|
    ensures var (s', frame), loaded' := SimpleAccess(c, store, s, p), Requested(c, loaded, p);
            Numbered(c, s', loaded') && p in loaded' && frame == (256 + IndexOf(loaded', p)) % c.frames
  {
    if p in loaded {
      HitNumbers(c, store, s, loaded, p);
    } else {
      FaultNumbers(c, store, s, loaded, p);
      IndexOfSplit(loaded, p, []);
      assert loaded + [p] + [] == loaded + [p];
    }
  }

  lemma LookupKeepsNumbers(c: Config, s: Simple, loaded: seq<nat>)
    requires SmallEnough(c) && Numbered(c, s, loaded)
    ensures Numbered(c, s.(stats := s.stats.(lookups := s.stats.lookups + 1)), loaded)
  {
  }

  /** The answer is the offset in the frame of the access, and the byte there afterwards. */
  lemma SimpleReadAnswers(c: Config, store: seq<Page>, s: Simple, a: Address)
    requires SmallEnough(c) && SimpleOk(c, s) && c.pages == |store| && PageOf(a) < c.pages
    ensures var counted := s.(stats := s.stats.(lookups := s.stats.lookups + 1));
            var (s', frame), (r, outcome) := SimpleAccess(c, store, counted, PageOf(a)), SimpleRead(c, store, s, a);
            && r == s' && frame < |s'.memory| && outcome.Success?
            && PageOf(outcome.physical) == frame && OffsetOf(outcome.physical) == OffsetOf(a)
            && outcome.value == s'.memory[frame][OffsetOf(a)]
  {
    var counted := s.(stats := s.stats.(lookups := s.stats.lookups + 1));
    SimpleAccessKeepsOk(c, store, counted, PageOf(a));
    PhysicalSplits(SimpleAccess(c, store, counted, PageOf(a)).1, OffsetOf(a));
  }

  lemma ReadNumbers(c: Config, store: seq<Page>, s: Simple, loaded: seq<nat>, a: Address)
    requires SmallEnough(c) && Numbered(c, s, loaded) && c.pages == |store|
    ensures var (s', outcome), loaded' := SimpleRead(c, store, s, a), Requested(c, loaded, PageOf(a));
            && Numbered(c, s', loaded')
            && (outcome == Failure <==> PageOf(a) >= c.pages)
            && (outcome.Success? ==>
                  && PageOf(a) in loaded'
                  && PageOf(outcome.physical) == (256 + IndexOf(loaded', PageOf(a))) % c.frames
                  && OffsetOf(outcome.physical) == OffsetOf(a))
  {
    var counted := s.(stats := s.stats.(lookups := s.stats.lookups + 1));
    LookupKeepsNumbers(c, s, loaded);
    if PageOf(a) < c.pages {
      AccessNumbers(c, store, counted, loaded, PageOf(a));
      SimpleReadAnswers(c, store, s, a);
    }
  }

  /** The loaded pages of a trace: each requested page once, in order of its first request. */
  function FirstRequests(c: Config, trace: seq<Address>): seq<nat> {
    if trace == [] then []
    else
      Requested(c, FirstRequests(c, trace[..|trace| - 1]), PageOf(trace[|trace| - 1]))
  }

  function SimpleAfter(c: Config, store: seq<Page>, memory: seq<Page>, trace: seq<Address>): (s: Simple)
    requires SmallEnough(c) && c.pages == |store| && |memory| == PHYSICAL_PAGES
    ensures SimpleOk(c, s)
  {
    if trace == [] then Initially(c, memory)
    else
      var s, a := SimpleAfter(c, store, memory, trace[..|trace| - 1]), trace[|trace| - 1];
      SimpleReadKeepsOk(c, store, s, a);
      SimpleRead(c, store, s, a).0
  }

  lemma SimpleReadKeepsOk(c: Config, store: seq<Page>, s: Simple, a: Address)
    requires SmallEnough(c) && SimpleOk(c, s) && c.pages == |store|
    ensures SimpleOk(c, SimpleRead(c, store, s, a).0)
  {
    if PageOf(a) < c.pages {
      SimpleAccessKeepsOk(c, store, s.(stats := s.stats.(lookups := s.stats.lookups + 1)), PageOf(a));
    }
  }

  /** The list of loaded pages after a request for `p`. */
  function Requested(c: Config, loaded: seq<nat>, p: nat): seq<nat> {
    if p < c.pages && p !in loaded then loaded + [p] else loaded
  }

  lemma AccessInOrder(c: Config, store: seq<Page>, s: Simple, loaded: seq<nat>, p: nat)
    requires SmallEnough(c) && InOrder(c, store, s, loaded) && p < c.pages == |store|
    requires p !in loaded ==> |loaded| < c.frames
    ensures var (s', frame) := SimpleAccess(c, store, s, p);
            InOrder(c, store, s', Requested(c, loaded, p)) && frame < PHYSICAL_PAGES && s'.memory[frame] == store[p]
  {
    if p in loaded {
      HitInOrder(c, store, s, loaded, p);
    } else {
      FaultInOrder(c, store, s, loaded, p);
    }
  }

  lemma ReadInOrder(c: Config, store: seq<Page>, s: Simple, loaded: seq<nat>, a: Address)
    requires SmallEnough(c) && InOrder(c, store, s, loaded) && c.pages == |store|
    requires PageOf(a) < c.pages && PageOf(a) !in loaded ==> |loaded| < c.frames
    ensures var (s', outcome) := SimpleRead(c, store, s, a);
            Right(c, store, a, outcome) && InOrder(c, store, s', Requested(c, loaded, PageOf(a)))
  {
    var counted := s.(stats := s.stats.(lookups := s.stats.lookups + 1));
    assert InOrder(c, store, counted, loaded);
    if PageOf(a) < c.pages {
      AccessInOrder(c, store, counted, loaded, PageOf(a));
      PhysicalSplits(SimpleAccess(c, store, counted, PageOf(a)).1, OffsetOf(a));
    }
  }

  lemma {:induction false} FirstRequestsFit(c: Config, trace: seq<Address>)
    ensures Distinct(FirstRequests(c, trace)) && |FirstRequests(c, trace)| <= c.pages
    ensures forall p :: p in FirstRequests(c, trace) ==> p < c.pages
  {
    if trace != [] {
      FirstRequestsFit(c, trace[..|trace| - 1]);
    }
    OrderFits(c, FirstRequests(c, trace));
  }

  /** The k-th fault loads the k-th requested page into the k-th frame in turn; each page faults once. */
  lemma {:induction false} RunInOrder(c: Config, store: seq<Page>, memory: seq<Page>, trace: seq<Address>)
    requires SmallEnough(c) && c.pages == |store| && |memory| == PHYSICAL_PAGES
    requires |FirstRequests(c, trace)| <= c.frames
    ensures InOrder(c, store, SimpleAfter(c, store, memory, trace), FirstRequests(c, trace))
  {
    if trace != [] {
      var before, a := trace[..|trace| - 1], trace[|trace| - 1];
      RunInOrder(c, store, memory, before);
      ReadInOrder(c, store, SimpleAfter(c, store, memory, before), FirstRequests(c, before), a);
    }
  }

  lemma {:induction false} RunNumbers(c: Config, store: seq<Page>, memory: seq<Page>, trace: seq<Address>)
    requires SmallEnough(c) && c.pages == |store| && |memory| == PHYSICAL_PAGES
    ensures Numbered(c, SimpleAfter(c, store, memory, trace), FirstRequests(c, trace))
  {
    if trace != [] {
      var before, a := trace[..|trace| - 1], trace[|trace| - 1];
      RunNumbers(c, store, memory, before);
      ReadNumbers(c, store, SimpleAfter(c, store, memory, before), FirstRequests(c, before), a);
    }
  }

  /**
    For every trace and size, right or wrong, the answer to the next read lies in the frame whose
    number in turn is that of the page's first request, at the offset asked for.
   */
  lemma AnswerInTurn(c: Config, store: seq<Page>, memory: seq<Page>, trace: seq<Address>, a: Address)
    requires SmallEnough(c) && c.pages == |store| && |memory| == PHYSICAL_PAGES
    ensures var outcome := SimpleRead(c, store, SimpleAfter(c, store, memory, trace), a).1;
            var requests := FirstRequests(c, trace + [a]);
            && (outcome == Failure <==> PageOf(a) >= c.pages)
            && (outcome.Success? ==>
                  && PageOf(a) in requests
                  && PageOf(outcome.physical) == (256 + IndexOf(requests, PageOf(a))) % c.frames
                  && OffsetOf(outcome.physical) == OffsetOf(a))
  {
    assert (trace + [a])[..|trace|] == trace;
    RunNumbers(c, store, memory, trace);
    ReadNumbers(c, store, SimpleAfter(c, store, memory, trace), FirstRequests(c, trace), a);
  }

  ghost predicate SimpleAlwaysRight(c: Config)
    requires SmallEnough(c)
  {
    forall store: seq<Page>, memory: seq<Page>, trace: seq<Address>, a: Address
      | |store| == c.pages && |memory| == PHYSICAL_PAGES
      :: Right(c, store, a, SimpleRead(c, store, SimpleAfter(c, store, memory, trace), a).1)
  }

  /** Requests for pages 0 up to `i - 1`. */
  function UpTo(i: nat): (r: seq<Address>)
    requires i <= PHYSICAL_PAGES
  {
    if i == 0 then [] else UpTo(i - 1) + [(i - 1) * PAGE_SIZE]
  }

  lemma {:induction false} UpToRequests(c: Config, i: nat)
    requires i <= c.pages <= PHYSICAL_PAGES
    ensures FirstRequests(c, UpTo(i)) == Up(0, i)
  {
    if i > 0 {
      UpToRequests(c, i - 1);
      assert UpTo(i)[..|UpTo(i)| - 1] == UpTo(i - 1);
    }
  }

  /** Page 0 is mapped to a frame that holds the bytes of page `n`. */
  ghost predicate FirstOverwritten(c: Config, s: Simple, n: nat)
    requires SmallEnough(c) && n < c.pages
  {
    && SimpleOk(c, s) && 0 in s.frameOf && s.frameOf[0] < PHYSICAL_PAGES && s.memory[s.frameOf[0]] == Marked(c)[n]
    && forall i :: 0 <= i < |s.tlb| && s.tlb[i].valid && s.tlb[i].page == 0 ==> s.tlb[i].frame == s.frameOf[0]
  }

  /** One page too many comes round to the first frame while the table still maps page 0 there. */
  lemma WrapsOntoFirst(c: Config, s: Simple)
    requires SmallEnough(c) && c.frames < c.pages && InOrder(c, Marked(c), s, Up(0, c.frames))
    ensures FirstOverwritten(c, SimpleAccess(c, Marked(c), s, c.frames).0, c.frames)
  {
    var n := c.frames;
    assert Up(0, n)[0] == 0 && 0 in Up(0, n) && n !in Up(0, n);
    NextFrame(c, s, Up(0, n));
    ModDrops(256, n);
    assert s.frameOf[0] == 256 % n == (s.frameno + 1) % n;
    LoadsOver(c, Marked(c), s, n);
    SimpleAccessKeepsOk(c, Marked(c), s, n);
  }

  /** A fault writes the page into the next frame, whoever is mapped there, and makes one TLB entry, its own. */
  lemma LoadsOver(c: Config, store: seq<Page>, s: Simple, p: nat)
    requires SmallEnough(c) && SimpleOk(c, s) && p < c.pages == |store| && p !in s.frameOf
    requires forall i :: 0 <= i < |s.tlb| && s.tlb[i].valid ==> s.tlb[i].page in s.frameOf
    ensures var s', f := SimpleAccess(c, store, s, p).0, (s.frameno + 1) % c.frames;
            && s'.frameOf == s.frameOf[p := f] && s'.memory == s.memory[f := store[p]]
            && forall i :: 0 <= i < |s'.tlb| && s'.tlb[i].valid && s'.tlb[i].page != p ==> s'.tlb[i] == s.tlb[i]
  {
  }

  lemma OverwrittenReadsWrong(c: Config, s: Simple, n: nat)
    requires SmallEnough(c) && 0 < n < c.pages && FirstOverwritten(c, s, n)
    ensures !Right(c, Marked(c), 0, SimpleRead(c, Marked(c), s, 0).1)
  {
    var counted := s.(stats := s.stats.(lookups := s.stats.lookups + 1));
    assert PageOf(0) == 0 && OffsetOf(0) == 0;
    SimpleAccessKeepsOk(c, Marked(c), counted, 0);
    assert SimpleAccess(c, Marked(c), counted, 0).1 == s.frameOf[0];
    PhysicalSplits(s.frameOf[0], 0);
  }

  lemma WrongAfterWrap(c: Config, memory: seq<Page>) returns (trace: seq<Address>)
    requires SmallEnough(c) && c.frames < c.pages && |memory| == PHYSICAL_PAGES
    ensures !Right(c, Marked(c), 0, SimpleRead(c, Marked(c), SimpleAfter(c, Marked(c), memory, trace), 0).1)
  {
    var before := UpTo(c.frames);
    UpToRequests(c, c.frames);
    RunInOrder(c, Marked(c), memory, before);
    trace := before + [c.frames * PAGE_SIZE];
    assert trace[..|trace| - 1] == before;
    ReadWraps(c, SimpleAfter(c, Marked(c), memory, before), c.frames * PAGE_SIZE);
    OverwrittenReadsWrong(c, SimpleAfter(c, Marked(c), memory, trace), c.frames);
  }

  lemma ReadWraps(c: Config, s: Simple, a: Address)
    requires SmallEnough(c) && c.frames < c.pages && InOrder(c, Marked(c), s, Up(0, c.frames))
    requires PageOf(a) == c.frames
    ensures FirstOverwritten(c, SimpleRead(c, Marked(c), s, a).0, c.frames)
  {
    var counted := s.(stats := s.stats.(lookups := s.stats.lookups + 1));
    LookupKeepsInOrder(c, Marked(c), s, Up(0, c.frames));
    WrapsOntoFirst(c, counted);
    SimpleReadAnswers(c, Marked(c), s, a);
  }

  lemma LookupKeepsInOrder(c: Config, store: seq<Page>, s: Simple, loaded: seq<nat>)
    requires SmallEnough(c) && InOrder(c, store, s, loaded)
    ensures InOrder(c, store, s.(stats := s.stats.(lookups := s.stats.lookups + 1)), loaded)
  {
  }

  lemma ModDrops(a: nat, n: nat)
    requires n >= 1
    ensures (a + n) % n == a % n
  {
    assert n * (a / n + 1) == n * (a / n) + n;
    ModIs(a + n, n, a / n + 1, a % n);
  }

  /** Without eviction reading is always right if and only if there are as many frames as pages. */
  lemma SimpleAlwaysRightExactly(c: Config)
    requires SmallEnough(c)
    ensures SimpleAlwaysRight(c) <==> c.frames >= c.pages
  {
    if c.frames >= c.pages {
      forall store: seq<Page>, memory: seq<Page>, trace: seq<Address>, a: Address
        | |store| == c.pages && |memory| == PHYSICAL_PAGES
        ensures Right(c, store, a, SimpleRead(c, store, SimpleAfter(c, store, memory, trace), a).1)
      {
        FirstRequestsFit(c, trace);
        FirstRequestsFit(c, trace + [a]);
        assert (trace + [a])[..|trace|] == trace;
        RunInOrder(c, store, memory, trace);
        ReadInOrder(c, store, SimpleAfter(c, store, memory, trace), FirstRequests(c, trace), a);
      }
    } else {
      var trace := WrongAfterWrap(c, seq(PHYSICAL_PAGES, _ => Filled(0)));
    }
  }
}
