/**
  What the counters and the TLB of the earlier manager show after any trace: its page table never
  loses a page, so they are those of the later manager with a frame for every page.
 */
module SimpleCounters {
  import opened Sequences
  import opened Replacement
  import opened TlbHistory
  import opened Machine
  import opened Transparency
  import opened NoEviction

  /** Every read counts one lookup, and one of TLB hit, page hit and fault unless it fails. */
  lemma SimpleReadCounts(c: Config, store: seq<Page>, s: Simple, a: Address)
    requires SmallEnough(c) && SimpleOk(c, s) && c.pages == |store|
    ensures var (s', outcome), p, counted := SimpleRead(c, store, s, a), PageOf(a), s.stats.lookups + 1;
            && (outcome == Failure <==> p >= c.pages)
            && s'.stats ==
                 if p >= c.pages then
                   Stats(counted, s.stats.tlbHits, s.stats.pageHits, s.stats.faults)
                 else if exists i :: 0 <= i < |s.tlb| && s.tlb[i].valid && s.tlb[i].page == p then
                   Stats(counted, s.stats.tlbHits + 1, s.stats.pageHits, s.stats.faults)
                 else if p in s.frameOf then
                   Stats(counted, s.stats.tlbHits, s.stats.pageHits + 1, s.stats.faults)
                 else
                   Stats(counted, s.stats.tlbHits, s.stats.pageHits, s.stats.faults + 1)
  {
  }

  /** The table holds the last pages filled, in rotation, and the page table every page asked for. */
  ghost predicate SimpleTracks(s: Simple, h: History) {
    Holds(s.tlb, s.robin, h.fills) && forall p :: p in s.frameOf <==> p in h.order
  }

  /** The history of a manager that has a frame for every page. */
  function RoomyHistory(c: Config, pages: seq<nat>): History {
    After(Fifo, c.pages, c.slots, pages)
  }

  lemma SimpleReadTracks(c: Config, store: seq<Page>, s: Simple, a: Address, h: History)
    requires SmallEnough(c) && SimpleOk(c, s) && c.pages == |store| && PageOf(a) < c.pages
    requires SimpleTracks(s, h) && Distinct(h.order) && |h.order| <= c.pages
    requires Coherent(c.slots, h) && forall p :: p in h.order ==> p < c.pages
    ensures SimpleTracks(SimpleRead(c, store, s, a).0, Step(Fifo, c.pages, c.slots, h, PageOf(a)))
  {
    var p := PageOf(a);
    FindIsCached(s.tlb, s.robin, h.fills, p);
    CoherentStep(Fifo, c.pages, c.slots, h, p);
    RoomForOne(c, h.order, p);
    NextMembers(Fifo, c.pages, h.order, p);
    if Find(s.tlb, p) == |s.tlb| {
      var frame := if p in s.frameOf then s.frameOf[p] else (s.frameno + 1) % c.frames;
      FillHolds(c, s.tlb, s.robin, h.fills, p, frame);
    }
  }

  lemma RoomForOne(c: Config, order: seq<nat>, p: nat)
    requires Distinct(order) && p < c.pages && forall q :: q in order ==> q < c.pages
    ensures p !in order ==> |order| < c.pages
  {
    if p !in order {
      OrderFits(c, order + [p]);
    }
  }

  /** After every trace, for every number of frames, the TLB and the page table are those of that history. */
  lemma {:induction false} SimpleFollowsHistory(c: Config, store: seq<Page>, memory: seq<Page>, trace: seq<Address>)
    requires SmallEnough(c) && c.pages == |store| && |memory| == PHYSICAL_PAGES
    ensures SimpleTracks(SimpleAfter(c, store, memory, trace), RoomyHistory(c, PageTrace(c, trace)))
  {
    if trace != [] {
      var before, a := trace[..|trace| - 1], trace[|trace| - 1];
      var pages := PageTrace(c, before);
      SimpleFollowsHistory(c, store, memory, before);
      RoomyPageTrace(c, trace);
      if PageOf(a) < c.pages {
        PageTraceWithin(c, before);
        RoomyIsCoherent(c, pages);
        SimpleReadTracks(c, store, SimpleAfter(c, store, memory, before), a, RoomyHistory(c, pages));
      }
    }
  }

  lemma RoomyPageTrace(c: Config, trace: seq<Address>)
    requires trace != []
    ensures var before, p, pages := PageTrace(c, trace[..|trace| - 1]), PageOf(trace[|trace| - 1]), PageTrace(c, trace);
            if p < c.pages then
              && pages == before + [p] && pages[..|pages| - 1] == before
              && RoomyHistory(c, pages) == Step(Fifo, c.pages, c.slots, RoomyHistory(c, before), p)
            else
              pages == before
  {
    PageTraceLast(c.(strategy := Fifo, frames := c.pages), trace);
    SamePageTrace(c, c.(strategy := Fifo, frames := c.pages), trace);
    SamePageTrace(c, c.(strategy := Fifo, frames := c.pages), trace[..|trace| - 1]);
  }

  lemma RoomyIsCoherent(c: Config, pages: seq<nat>)
    requires Sensible(c) && Within(c.pages, pages)
    ensures var h := RoomyHistory(c, pages);
            && Distinct(h.order) && |h.order| <= c.pages && (forall p :: p in h.order ==> p < c.pages)
            && Coherent(c.slots, h)
  {
    NoEvictionEnoughFrames(Fifo, c.pages, c.slots, pages);
  }

  lemma SimpleReadTally(c: Config, store: seq<Page>, s: Simple, a: Address, h: History)
    requires SmallEnough(c) && SimpleOk(c, s) && c.pages == |store| && SimpleTracks(s, h)
    ensures var stats, p := SimpleRead(c, store, s, a).0.stats, PageOf(a);
            stats ==
              if p >= c.pages then
                Stats(s.stats.lookups + 1, s.stats.tlbHits, s.stats.pageHits, s.stats.faults)
              else if p in Cached(c.slots, h.fills) then
                Stats(s.stats.lookups + 1, s.stats.tlbHits + 1, s.stats.pageHits, s.stats.faults)
              else if p in h.order then
                Stats(s.stats.lookups + 1, s.stats.tlbHits, s.stats.pageHits + 1, s.stats.faults)
              else
                Stats(s.stats.lookups + 1, s.stats.tlbHits, s.stats.pageHits, s.stats.faults + 1)
  {
    SimpleReadCounts(c, store, s, a);
    FindIsCached(s.tlb, s.robin, h.fills, PageOf(a));
  }

  /** After every trace, for every number of frames, no lookup is left uncounted, and each counter is that history's. */
  lemma {:induction false} SimpleCounts(c: Config, store: seq<Page>, memory: seq<Page>, trace: seq<Address>)
    requires SmallEnough(c) && c.pages == |store| && |memory| == PHYSICAL_PAGES
    ensures var y := TallyOf(Fifo, c.pages, c.slots, PageTrace(c, trace));
            SimpleAfter(c, store, memory, trace).stats == Stats(|trace|, y.tlbHits, y.pageHits, y.faults)
  {
    if trace != [] {
      var before, a := trace[..|trace| - 1], trace[|trace| - 1];
      SimpleCounts(c, store, memory, before);
      SimpleFollowsHistory(c, store, memory, before);
      RoomyPageTrace(c, trace);
      SimpleReadTally(c, store, SimpleAfter(c, store, memory, before), a, RoomyHistory(c, PageTrace(c, before)));
    }
  }
}
