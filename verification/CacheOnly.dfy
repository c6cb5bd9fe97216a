/**
  The TLB is only a cache: whenever its sizes fit, runs with it and runs on the page table
  alone agree on the page table, the free stack, memory, every physical address, every byte
  and the number of page faults.
 */
module CacheOnly {
  import opened Sequences
  import opened Replacement
  import opened Machine
  import opened Transparency

  /** `readByte` on the page table alone. */
  function BareRead(c: Config, store: seq<Page>, k: Core, a: Address): (Core, Outcome)
    requires Sensible(c) && CoreOk(c, k) && c.pages == |store|
  {
    if PageOf(a) >= c.pages then
      (k, Failure)
    else
      var k' := CoreAccess(c, store, k, PageOf(a));
      CoreAccessKeeps(c, store, k, PageOf(a));
      OrderFits(c, k'.order);
      var physical := Physical(k'.frameOf[PageOf(a)], OffsetOf(a));
      (k', Success(physical, k'.memory[PageOf(physical)][OffsetOf(physical)]))
  }

  function BareAfter(c: Config, store: seq<Page>, memory: seq<Page>, trace: seq<Address>): (k: Core)
    requires Sensible(c) && c.pages == |store| && |memory| == PHYSICAL_PAGES
    ensures CoreOk(c, k)
  {
    if trace == [] then Initial(c, memory).core
    else
      var k, a := BareAfter(c, store, memory, trace[..|trace| - 1]), trace[|trace| - 1];
      BareReadKeepsOk(c, store, k, a);
      BareRead(c, store, k, a).0
  }

  lemma BareReadKeepsOk(c: Config, store: seq<Page>, k: Core, a: Address)
    requires Sensible(c) && CoreOk(c, k) && c.pages == |store|
    ensures CoreOk(c, BareRead(c, store, k, a).0)
  {
    if PageOf(a) < c.pages {
      CoreAccessKeeps(c, store, k, PageOf(a));
    }
  }

  /** One read from an agreeing TLB is one read of the page table, and raises the counter for where the page was. */
  lemma ReadIsBareRead(c: Config, store: seq<Page>, vm: Vm, a: Address)
    requires Sensible(c) && Good(c, store, vm) && c.pages == |store|
    ensures var (vm', outcome), bare := ReadByte(c, store, vm, a), BareRead(c, store, vm.core, a);
            && vm'.core == bare.0 && outcome == bare.1
            && vm'.stats.lookups == vm.stats.lookups + 1
            && (if PageOf(a) >= c.pages then
                  vm'.stats == vm.stats.(lookups := vm.stats.lookups + 1)
                else if Find(vm.tlb, PageOf(a)) < |vm.tlb| then
                  vm'.stats == vm.stats.(lookups := vm.stats.lookups + 1, tlbHits := vm.stats.tlbHits + 1)
                else if PageOf(a) in vm.core.order then
                  vm'.stats == vm.stats.(lookups := vm.stats.lookups + 1, pageHits := vm.stats.pageHits + 1)
                else
                  vm'.stats == vm.stats.(lookups := vm.stats.lookups + 1, faults := vm.stats.faults + 1))
            && (PageOf(a) < c.pages && Find(vm.tlb, PageOf(a)) < |vm.tlb| ==> PageOf(a) in vm.core.order)
  {
    if PageOf(a) < c.pages {
      var counted := vm.(stats := vm.stats.(lookups := vm.stats.lookups + 1));
      AccessFromGood(c, store, counted, PageOf(a));
    }
  }

  lemma ResidentAppend(c: Config, pages: seq<nat>, p: nat)
    ensures Resident(c.strategy, c.frames, pages + [p])
         == Next(c.strategy, c.frames, Resident(c.strategy, c.frames, pages), p)
    ensures Faults(c.strategy, c.frames, pages + [p])
         == Faults(c.strategy, c.frames, pages)
            + (if p in Resident(c.strategy, c.frames, pages) then 0 else 1)
  {
    assert (pages + [p])[..|pages|] == pages;
  }

  /** The resident pages are those of the replacement strategy run on the requested pages. */
  lemma {:induction false} BareOrder(c: Config, store: seq<Page>, memory: seq<Page>, trace: seq<Address>)
    requires Sensible(c) && c.pages == |store| && |memory| == PHYSICAL_PAGES
    ensures BareAfter(c, store, memory, trace).order == Resident(c.strategy, c.frames, PageTrace(c, trace))
  {
    if trace != [] {
      var before, p := trace[..|trace| - 1], PageOf(trace[|trace| - 1]);
      BareOrder(c, store, memory, before);
      if p < c.pages {
        ResidentAppend(c, PageTrace(c, before), p);
        CoreAccessKeeps(c, store, BareAfter(c, store, memory, before), p);
      } else {
        assert PageTrace(c, trace) == PageTrace(c, before);
      }
    }
  }

  /** Over a whole trace: same state, and counters that say what the replacement strategy did. */
  lemma {:induction false} RunIsBareRun(c: Config, store: seq<Page>, memory: seq<Page>, trace: seq<Address>)
    requires Sensible(c) && Fits(c) && c.pages == |store| && |memory| == PHYSICAL_PAGES
    ensures var vm := StateAfter(c, store, memory, trace);
            && vm.core == BareAfter(c, store, memory, trace)
            && vm.stats.lookups == |trace|
            && vm.stats.faults == Faults(c.strategy, c.frames, PageTrace(c, trace))
            && vm.stats.tlbHits + vm.stats.pageHits + vm.stats.faults == |PageTrace(c, trace)|
  {
    if trace != [] {
      var before, a := trace[..|trace| - 1], trace[|trace| - 1];
      RunIsBareRun(c, store, memory, before);
      FitsIsEnough(c, store, memory, before);
      ReadIsBareRead(c, store, StateAfter(c, store, memory, before), a);
      BareOrder(c, store, memory, before);
      if PageOf(a) < c.pages {
        ResidentAppend(c, PageTrace(c, before), PageOf(a));
      } else {
        assert PageTrace(c, trace) == PageTrace(c, before);
      }
    }
  }

  /** Two TLBs of any fitting sizes, clearing or not, give the same next read after the same trace. */
  lemma TlbSizeIsInvisible(c: Config, d: Config, store: seq<Page>, memory: seq<Page>, trace: seq<Address>, a: Address)
    requires Sensible(c) && Fits(c) && Sensible(d) && Fits(d)
    requires d == c.(slots := d.slots, clearing := d.clearing)
    requires c.pages == |store| && |memory| == PHYSICAL_PAGES
    ensures ReadByte(c, store, StateAfter(c, store, memory, trace), a).1
         == ReadByte(d, store, StateAfter(d, store, memory, trace), a).1
  {
    RunIsBareRun(c, store, memory, trace);
    RunIsBareRun(d, store, memory, trace);
    BareIgnoresTlb(c, d, store, memory, trace);
    FitsIsEnough(c, store, memory, trace);
    FitsIsEnough(d, store, memory, trace);
    ReadIsBareRead(c, store, StateAfter(c, store, memory, trace), a);
    ReadIsBareRead(d, store, StateAfter(d, store, memory, trace), a);
  }

  lemma {:induction false} BareIgnoresTlb(
    c: Config, d: Config, store: seq<Page>, memory: seq<Page>, trace: seq<Address>)
    requires Sensible(c) && Sensible(d) && d == c.(slots := d.slots, clearing := d.clearing)
    requires c.pages == |store| && |memory| == PHYSICAL_PAGES
    ensures BareAfter(c, store, memory, trace) == BareAfter(d, store, memory, trace)
  {
    if trace != [] {
      BareIgnoresTlb(c, d, store, memory, trace[..|trace| - 1]);
    }
  }

  /** Under LRU the whole machine never faults more with more frames. */
  lemma MoreFramesFewerFaults(c: Config, d: Config, store: seq<Page>, memory: seq<Page>, trace: seq<Address>)
    requires Sensible(c) && Fits(c) && Sensible(d) && Fits(d)
    requires c.strategy == d.strategy == Lru && c.pages == d.pages == |store| && c.frames <= d.frames
    requires |memory| == PHYSICAL_PAGES
    ensures StateAfter(d, store, memory, trace).stats.faults <= StateAfter(c, store, memory, trace).stats.faults
  {
    RunIsBareRun(c, store, memory, trace);
    RunIsBareRun(d, store, memory, trace);
    SamePageTrace(c, d, trace);
    LruFaultsMonotone(c.frames, d.frames, PageTrace(c, trace));
  }
}
