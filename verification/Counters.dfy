/**
  What one read answers and counts, from any state the machine can be in, and what the counters
  show after any trace.  Nothing here assumes that the TLB agrees with the page table.
 */
module Counters {
  import opened Sequences
  import opened Replacement
  import opened TlbHistory
  import opened Machine
  import opened Transparency

  /** Every read counts one lookup, and one of TLB hit, page hit and fault unless it fails. */
  lemma ReadCounts(c: Config, store: seq<Page>, vm: Vm, a: Address)
    requires Sensible(c) && VmOk(c, vm) && c.pages == |store|
    ensures var (vm', outcome), p, counted := ReadByte(c, store, vm, a), PageOf(a), vm.stats.lookups + 1;
            && (outcome == Failure <==> p >= c.pages)
            && vm'.stats ==
                 if p >= c.pages then
                   Stats(counted, vm.stats.tlbHits, vm.stats.pageHits, vm.stats.faults)
                 else if exists i :: 0 <= i < |vm.tlb| && vm.tlb[i].valid && vm.tlb[i].page == p then
                   Stats(counted, vm.stats.tlbHits + 1, vm.stats.pageHits, vm.stats.faults)
                 else if p in vm.core.order then
                   Stats(counted, vm.stats.tlbHits, vm.stats.pageHits + 1, vm.stats.faults)
                 else
                   Stats(counted, vm.stats.tlbHits, vm.stats.pageHits, vm.stats.faults + 1)
  {
  }

  /** The answer is the offset in the frame that the TLB gives, if it has the page, or the page table, and its byte. */
  lemma ReadAnswers(c: Config, store: seq<Page>, vm: Vm, a: Address)
    requires Sensible(c) && VmOk(c, vm) && c.pages == |store| && PageOf(a) < c.pages
    ensures var (vm', outcome), i := ReadByte(c, store, vm, a), Find(vm.tlb, PageOf(a));
            && outcome.Success?
            && OffsetOf(outcome.physical) == OffsetOf(a)
            && (i < |vm.tlb| ==> PageOf(outcome.physical) == vm.tlb[i].frame)
            && (i == |vm.tlb| ==> PageOf(a) in vm'.core.frameOf
                                  && PageOf(outcome.physical) == vm'.core.frameOf[PageOf(a)])
            && PageOf(outcome.physical) < |vm'.core.memory|
            && outcome.value == vm'.core.memory[PageOf(outcome.physical)][OffsetOf(a)]
  {
    var counted := vm.(stats := vm.stats.(lookups := vm.stats.lookups + 1));
    AccessKeepsOk(c, store, counted, PageOf(a));
    PhysicalSplits(Access(c, store, counted, PageOf(a)).1, OffsetOf(a));
  }

  /** A miss fills the slot after the one filled last, going round, with the page and the frame of the answer. */
  lemma ReadFills(c: Config, store: seq<Page>, vm: Vm, a: Address)
    requires Sensible(c) && VmOk(c, vm) && c.pages == |store| && PageOf(a) < c.pages
    ensures var (vm', outcome) := ReadByte(c, store, vm, a);
            if Find(vm.tlb, PageOf(a)) < |vm.tlb| then
              vm'.tlb == vm.tlb && vm'.robin == vm.robin
            else
              && vm'.robin == (if vm.robin == c.slots - 1 then 0 else vm.robin + 1)
              && outcome.Success? && vm'.tlb[vm'.robin] == TlbEntry(true, PageOf(a), PageOf(outcome.physical))
  {
    NextSlotGoesRound(c, vm.robin);
    AccessFills(c, store, vm.(stats := vm.stats.(lookups := vm.stats.lookups + 1)), PageOf(a));
    ReadAnswers(c, store, vm, a);
  }

  lemma AccessFills(c: Config, store: seq<Page>, vm: Vm, p: nat)
    requires Sensible(c) && VmOk(c, vm) && c.pages == |store| && p < c.pages
    ensures var (vm', frame) := Access(c, store, vm, p);
            if Find(vm.tlb, p) < |vm.tlb| then
              vm'.tlb == vm.tlb && vm'.robin == vm.robin
            else
              && vm'.robin == NextSlot(c, vm.robin) && vm'.tlb[vm'.robin] == TlbEntry(true, p, frame)
              && p in vm'.core.frameOf && frame == vm'.core.frameOf[p]
  {
    if Find(vm.tlb, p) == |vm.tlb| {
      CoreAccessKeeps(c, store, vm.core, p);
    }
  }

  lemma NextSlotGoesRound(c: Config, robin: int)
    requires c.slots >= 1 && -1 <= robin < c.slots
    ensures NextSlot(c, robin) == if robin == c.slots - 1 then 0 else robin + 1
  {
    if robin == c.slots - 1 {
      assert c.slots % c.slots == 0;
    } else {
      assert (robin + 1) % c.slots == robin + 1;
    }
  }

  /** Only the TLB ever goes wrong: after every trace, the frame of every resident page holds that page. */
  lemma {:induction false} MemoryStaysRight(c: Config, store: seq<Page>, memory: seq<Page>, trace: seq<Address>)
    requires Sensible(c) && c.pages == |store| && |memory| == PHYSICAL_PAGES
    ensures Loaded(store, StateAfter(c, store, memory, trace).core)
  {
    if trace != [] {
      var before, p := trace[..|trace| - 1], PageOf(trace[|trace| - 1]);
      MemoryStaysRight(c, store, memory, before);
      if p < c.pages {
        CoreAccessKeeps(c, store, StateAfter(c, store, memory, before).core, p);
      }
    }
  }

  /** From an agreeing TLB, it is in either case the frame the page table has for the page. */
  lemma AnswerInPagesFrame(c: Config, store: seq<Page>, vm: Vm, a: Address)
    requires Sensible(c) && Good(c, store, vm) && c.pages == |store| && PageOf(a) < c.pages
    ensures var (vm', outcome) := ReadByte(c, store, vm, a);
            && outcome.Success? && OffsetOf(outcome.physical) == OffsetOf(a)
            && PageOf(a) in vm'.core.frameOf && PageOf(outcome.physical) == vm'.core.frameOf[PageOf(a)]
  {
    ReadAnswers(c, store, vm, a);
    AccessFromGood(c, store, vm.(stats := vm.stats.(lookups := vm.stats.lookups + 1)), PageOf(a));
  }

  /** After every trace, for every size and either invalidation, no lookup is left uncounted. */
  lemma {:induction false} CountersAddUp(c: Config, store: seq<Page>, memory: seq<Page>, trace: seq<Address>)
    requires Sensible(c) && c.pages == |store| && |memory| == PHYSICAL_PAGES
    ensures var stats := StateAfter(c, store, memory, trace).stats;
            && stats.lookups == |trace|
            && stats.tlbHits + stats.pageHits + stats.faults == |PageTrace(c, trace)|
  {
    if trace != [] {
      var before, a := trace[..|trace| - 1], trace[|trace| - 1];
      CountersAddUp(c, store, memory, before);
      ReadCounts(c, store, StateAfter(c, store, memory, before), a);
    }
  }

  lemma ShippedReadCounts(c: Config, store: seq<Page>, vm: Vm, a: Address, h: History)
    requires Sensible(c) && VmOk(c, vm) && c.pages == |store| && PageOf(a) < c.pages && Tracks(vm, h)
    ensures var stats, p := ReadByte(c, store, vm, a).0.stats, PageOf(a);
            stats ==
              if p in Cached(c.slots, h.fills) then
                Stats(vm.stats.lookups + 1, vm.stats.tlbHits + 1, vm.stats.pageHits, vm.stats.faults)
              else if p in h.order then
                Stats(vm.stats.lookups + 1, vm.stats.tlbHits, vm.stats.pageHits + 1, vm.stats.faults)
              else
                Stats(vm.stats.lookups + 1, vm.stats.tlbHits, vm.stats.pageHits, vm.stats.faults + 1)
  {
    ReadCounts(c, store, vm, a);
    FindIsCached(vm.tlb, vm.robin, h.fills, PageOf(a));
  }

  /** As shipped, the counters after every trace, read right or wrong, are those of its history. */
  lemma {:induction false} ShippedCounters(c: Config, store: seq<Page>, memory: seq<Page>, trace: seq<Address>)
    requires Sensible(c) && c.pages == |store| && |memory| == PHYSICAL_PAGES && !c.clearing
    ensures var y := TallyOf(c.strategy, c.frames, c.slots, PageTrace(c, trace));
            StateAfter(c, store, memory, trace).stats == Stats(|trace|, y.tlbHits, y.pageHits, y.faults)
  {
    if trace != [] {
      var before, a := trace[..|trace| - 1], trace[|trace| - 1];
      ShippedCounters(c, store, memory, before);
      ShippedFollowsHistory(c, store, memory, before);
      PageTraceLast(c, trace);
      if PageOf(a) < c.pages {
        ShippedReadCounts(c, store, StateAfter(c, store, memory, before), a,
                          After(c.strategy, c.frames, c.slots, PageTrace(c, before)));
      }
    }
  }
}
