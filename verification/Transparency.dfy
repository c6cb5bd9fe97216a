/**
  Reading through the virtual memory manager is reading the backing store.  With an
  `invalidate` that reaches the table this holds for every size; as shipped, exactly for the
  sizes named in `AlwaysRightExactly`.
 */
module Transparency {
  import opened Sequences
  import opened Replacement
  import opened TlbHistory
  import opened Machine

  function StateAfter(c: Config, store: seq<Page>, memory: seq<Page>, trace: seq<Address>): (vm: Vm)
    requires Sensible(c) && c.pages == |store| && |memory| == PHYSICAL_PAGES
    ensures VmOk(c, vm)
  {
    if trace == [] then Initial(c, memory)
    else
      var vm := StateAfter(c, store, memory, trace[..|trace| - 1]);
      var a := trace[|trace| - 1];
      ReadKeepsOk(c, store, vm, a);
      ReadByte(c, store, vm, a).0
  }

  lemma ReadKeepsOk(c: Config, store: seq<Page>, vm: Vm, a: Address)
    requires Sensible(c) && VmOk(c, vm) && c.pages == |store|
    ensures VmOk(c, ReadByte(c, store, vm, a).0)
  {
    if PageOf(a) < c.pages {
      AccessKeepsOk(c, store, vm.(stats := vm.stats.(lookups := vm.stats.lookups + 1)), PageOf(a));
    }
  }

  /** The answer direct indexing into the backing store gives. */
  predicate Right(c: Config, store: seq<Page>, a: Address, outcome: Outcome)
    requires c.pages == |store|
  {
    match outcome
    case Failure => PageOf(a) >= c.pages
    case Success(_, value) => PageOf(a) < c.pages && value == store[PageOf(a)][OffsetOf(a)]
  }

  /** Every read of the trace, from a fresh machine, gives the right answer. */
  ghost predicate AllRight(c: Config, store: seq<Page>, memory: seq<Page>, trace: seq<Address>)
    requires Sensible(c) && c.pages == |store| && |memory| == PHYSICAL_PAGES
  {
    trace == [] ||
    (var before, a := trace[..|trace| - 1], trace[|trace| - 1];
     && AllRight(c, store, memory, before)
     && Right(c, store, a, ReadByte(c, store, StateAfter(c, store, memory, before), a).1))
  }

  /** Every trace over every backing store is read right. */
  ghost predicate AlwaysRight(c: Config)
    requires Sensible(c)
  {
    forall store: seq<Page>, memory: seq<Page>, trace: seq<Address>
      | |store| == c.pages && |memory| == PHYSICAL_PAGES :: AllRight(c, store, memory, trace)
  }

  /** The answers to every read of the trace. */
  function Answers(c: Config, store: seq<Page>, memory: seq<Page>, trace: seq<Address>): (r: seq<Outcome>)
    requires Sensible(c) && c.pages == |store| && |memory| == PHYSICAL_PAGES
    ensures |r| == |trace|
  {
    if trace == [] then []
    else
      var before, a := trace[..|trace| - 1], trace[|trace| - 1];
      Answers(c, store, memory, before) + [ReadByte(c, store, StateAfter(c, store, memory, before), a).1]
  }

  lemma {:induction false} AnswerIsRight(c: Config, store: seq<Page>, memory: seq<Page>, trace: seq<Address>, i: nat)
    requires Sensible(c) && c.pages == |store| && |memory| == PHYSICAL_PAGES
    requires i < |trace| && AllRight(c, store, memory, trace)
    ensures Right(c, store, trace[i], Answers(c, store, memory, trace)[i])
  {
    if i < |trace| - 1 {
      AnswerIsRight(c, store, memory, trace[..|trace| - 1], i);
    }
  }

  lemma AnswersAreRight(c: Config, store: seq<Page>, memory: seq<Page>, trace: seq<Address>)
    requires Sensible(c) && c.pages == |store| && |memory| == PHYSICAL_PAGES
    requires AllRight(c, store, memory, trace)
    ensures forall i :: 0 <= i < |trace| ==> Right(c, store, trace[i], Answers(c, store, memory, trace)[i])
  {
    forall i | 0 <= i < |trace|
      ensures Right(c, store, trace[i], Answers(c, store, memory, trace)[i])
    {
      AnswerIsRight(c, store, memory, trace, i);
    }
  }

  // ----- Coherence

  /** Every valid TLB entry agrees with the page table. */
  ghost predicate TlbAgrees(tlb: seq<TlbEntry>, k: Core) {
    forall i :: 0 <= i < |tlb| && tlb[i].valid
      ==> tlb[i].page in k.frameOf && k.frameOf[tlb[i].page] == tlb[i].frame
  }

  ghost predicate TlbUnique(tlb: seq<TlbEntry>) {
    forall i, j :: 0 <= i < j < |tlb| && tlb[i].valid && tlb[j].valid ==> tlb[i].page != tlb[j].page
  }

  ghost predicate Good(c: Config, store: seq<Page>, vm: Vm)
    requires Sensible(c)
  {
    VmOk(c, vm) && Loaded(store, vm.core) && TlbAgrees(vm.tlb, vm.core) && TlbUnique(vm.tlb)
  }

  lemma TlbHitFromGood(c: Config, store: seq<Page>, vm: Vm, p: nat)
    requires Sensible(c) && Good(c, store, vm) && p < c.pages == |store| && Find(vm.tlb, p) < |vm.tlb|
    ensures var (vm', frame) := Access(c, store, vm, p);
            && p in vm.core.frameOf && vm.core.frameOf[p] == frame
            && vm'.core == CoreAccess(c, store, vm.core, p)
            && vm'.tlb == vm.tlb
  {
  }

  lemma TlbMissFromGood(c: Config, store: seq<Page>, vm: Vm, p: nat)
    requires Sensible(c) && Good(c, store, vm) && p < c.pages == |store| && Find(vm.tlb, p) == |vm.tlb|
    ensures TlbUnique(Access(c, store, vm, p).0.tlb)
  {
  }

  /** From an agreeing TLB, the access yields the page's frame and steps the resident list, hit or miss. */
  lemma AccessFromGood(c: Config, store: seq<Page>, vm: Vm, p: nat)
    requires Sensible(c) && Good(c, store, vm) && p < c.pages == |store|
    ensures var (vm', frame) := Access(c, store, vm, p);
            && VmOk(c, vm') && Loaded(store, vm'.core)
            && p in vm'.core.frameOf && vm'.core.frameOf[p] == frame
            && vm'.core == CoreAccess(c, store, vm.core, p)
            && frame < PHYSICAL_PAGES && vm'.core.memory[frame] == store[p]
            && TlbUnique(vm'.tlb)
  {
    AccessKeepsOk(c, store, vm, p);
    CoreAccessKeeps(c, store, vm.core, p);
    if Find(vm.tlb, p) < |vm.tlb| {
      TlbHitFromGood(c, store, vm, p);
    } else {
      TlbMissFromGood(c, store, vm, p);
    }
  }

  lemma ReadFromGood(c: Config, store: seq<Page>, vm: Vm, a: Address)
    requires Sensible(c) && Good(c, store, vm) && c.pages == |store|
    ensures Right(c, store, a, ReadByte(c, store, vm, a).1)
  {
    if PageOf(a) < c.pages {
      var counted := vm.(stats := vm.stats.(lookups := vm.stats.lookups + 1));
      AccessFromGood(c, store, counted, PageOf(a));
      AccessKeepsOk(c, store, counted, PageOf(a));
      PhysicalSplits(Access(c, store, counted, PageOf(a)).1, OffsetOf(a));
    }
  }

  // ----- With an invalidate that clears the entry

  /** Stopping at the first match is enough: no two entries share the victim's frame. */
  lemma ClearedDropsVictim(c: Config, store: seq<Page>, vm: Vm, p: nat, i: nat)
    requires Sensible(c) && Good(c, store, vm) && c.clearing
    requires p !in vm.core.frameOf && vm.core.free == []
    requires i < |vm.tlb| && Cleared(c, vm, p)[i].valid
    ensures vm.tlb[i].valid && Cleared(c, vm, p)[i] == vm.tlb[i] && vm.tlb[i].page != Victim(vm.core)
  {
    var f := vm.core.frameOf[Victim(vm.core)];
    var j := FindFrame(vm.tlb, f);
  }

  /** And nothing else is touched: outside the slot filled, only the victim's entry changes, and only its flag. */
  lemma ClearingKeepsOthers(c: Config, store: seq<Page>, vm: Vm, p: nat, i: nat)
    requires Sensible(c) && Good(c, store, vm) && p < c.pages == |store| && c.clearing
    requires i < |vm.tlb| && i != Access(c, store, vm, p).0.robin
    ensures var k, entry := vm.core, Access(c, store, vm, p).0.tlb[i];
            if Find(vm.tlb, p) == |vm.tlb| && p !in k.frameOf && k.free == []
               && vm.tlb[i].valid && vm.tlb[i].page == Victim(k)
            then entry == vm.tlb[i].(valid := false)
            else entry == vm.tlb[i]
  {
    if Find(vm.tlb, p) == |vm.tlb| && p !in vm.core.frameOf && vm.core.free == [] {
      ClearsOnlyFrame(vm.tlb, vm.core.frameOf[Victim(vm.core)], i);
    }
  }

  lemma ClearingAccess(c: Config, store: seq<Page>, vm: Vm, p: nat)
    requires Sensible(c) && Good(c, store, vm) && p < c.pages == |store| && c.clearing
    ensures Good(c, store, Access(c, store, vm, p).0)
  {
    AccessFromGood(c, store, vm, p);
    CoreAccessKeeps(c, store, vm.core, p);
    var vm' := Access(c, store, vm, p).0;
    if Find(vm.tlb, p) == |vm.tlb| {
      var tlb := Cleared(c, vm, p);
      forall i | 0 <= i < |tlb| && i != vm'.robin && tlb[i].valid
        ensures vm'.tlb[i] == vm.tlb[i] && vm.tlb[i].valid && tlb[i].page in vm'.core.frameOf
      {
        if p !in vm.core.frameOf && vm.core.free == [] {
          ClearedDropsVictim(c, store, vm, p, i);
        }
      }
    }
  }

  lemma {:induction false} ClearingStaysGood(c: Config, store: seq<Page>, memory: seq<Page>, trace: seq<Address>)
    requires Sensible(c) && c.pages == |store| && |memory| == PHYSICAL_PAGES && c.clearing
    ensures Good(c, store, StateAfter(c, store, memory, trace))
    ensures AllRight(c, store, memory, trace)
  {
    if trace != [] {
      var before, a := trace[..|trace| - 1], trace[|trace| - 1];
      ClearingStaysGood(c, store, memory, before);
      var vm := StateAfter(c, store, memory, before);
      ReadFromGood(c, store, vm, a);
      if PageOf(a) < c.pages {
        ClearingAccess(c, store, vm.(stats := vm.stats.(lookups := vm.stats.lookups + 1)), PageOf(a));
      }
    }
  }

  // ----- With the invalidate that is shipped

  /** How many fills ago slot `i` was filled, when `robin` was filled last. */
  function Age(slots: nat, robin: int, i: nat): int {
    if i <= robin then robin - i else robin - i + slots
  }

  /** Without clearing, the table holds the last fills, each in the slot its age says. */
  ghost predicate Holds(tlb: seq<TlbEntry>, robin: int, fills: seq<nat>) {
    && -1 <= robin < |tlb|
    && forall i :: 0 <= i < |tlb| ==>
         && (tlb[i].valid <==> Age(|tlb|, robin, i) < |fills|)
         && (tlb[i].valid ==> tlb[i].page == fills[Age(|tlb|, robin, i)])
  }

  ghost predicate Tracks(vm: Vm, h: History) {
    vm.core.order == h.order && Holds(vm.tlb, vm.robin, h.fills)
  }

  lemma FindIsCached(tlb: seq<TlbEntry>, robin: int, fills: seq<nat>, p: nat)
    requires Holds(tlb, robin, fills)
    ensures Find(tlb, p) < |tlb| <==> p in Cached(|tlb|, fills)
  {
    var i := Find(tlb, p);
    if i < |tlb| {
      assert Cached(|tlb|, fills)[Age(|tlb|, robin, i)] == p;
    }
    if p in Cached(|tlb|, fills) {
      var a :| 0 <= a < Min(|tlb|, |fills|) && fills[a] == p;
      var s := if a <= robin then robin - a else robin - a + |tlb|;
      assert Age(|tlb|, robin, s) == a;
    }
  }

  lemma NextSlotAges(c: Config, robin: int, i: nat)
    requires c.slots >= 1 && -1 <= robin < c.slots && i < c.slots
    ensures 0 <= Age(c.slots, robin, i) < c.slots
    ensures Age(c.slots, NextSlot(c, robin), i) == if i == NextSlot(c, robin) then 0 else Age(c.slots, robin, i) + 1
  {
    if robin + 1 < c.slots {
      assert (robin + 1) % c.slots == robin + 1;
    } else {
      assert c.slots % c.slots == 0;
    }
  }

  /** Filling the next slot in rotation makes the page the youngest entry. */
  lemma FillHolds(c: Config, tlb: seq<TlbEntry>, robin: int, fills: seq<nat>, p: nat, frame: nat)
    requires |tlb| == c.slots >= 1 && Holds(tlb, robin, fills)
    ensures Holds(tlb[NextSlot(c, robin) := TlbEntry(true, p, frame)], NextSlot(c, robin), [p] + fills)
  {
    var slot := NextSlot(c, robin);
    var tlb' := tlb[slot := TlbEntry(true, p, frame)];
    forall i | 0 <= i < |tlb'|
      ensures var a := Age(|tlb'|, slot, i);
              && (tlb'[i].valid <==> a < |[p] + fills|)
              && (tlb'[i].valid && a >= 0 ==> tlb'[i].page == ([p] + fills)[a])
    {
      NextSlotAges(c, robin, i);
    }
  }

  /** As shipped, every access of every trace takes machine and history forward together, stale or not. */
  lemma ShippedAccess(c: Config, store: seq<Page>, vm: Vm, p: nat, h: History)
    requires Sensible(c) && VmOk(c, vm) && p < c.pages == |store| && !c.clearing && Tracks(vm, h)
    ensures Tracks(Access(c, store, vm, p).0, Step(c.strategy, c.frames, c.slots, h, p))
    ensures Find(vm.tlb, p) < |vm.tlb| <==> p in Cached(c.slots, h.fills)
  {
    FindIsCached(vm.tlb, vm.robin, h.fills, p);
    if Find(vm.tlb, p) == |vm.tlb| {
      CoreAccessKeeps(c, store, vm.core, p);
      FillHolds(c, vm.tlb, vm.robin, h.fills, p, CoreAccess(c, store, vm.core, p).frameOf[p]);
    }
  }

  /** And as long as the history is coherent, the TLB agrees with the page table. */
  lemma CoherentStaysGood(c: Config, store: seq<Page>, vm: Vm, p: nat, h: History)
    requires Sensible(c) && Good(c, store, vm) && p < c.pages == |store| && !c.clearing && Tracks(vm, h)
    requires Coherent(c.slots, Step(c.strategy, c.frames, c.slots, h, p))
    ensures Good(c, store, Access(c, store, vm, p).0)
  {
    var vm', h' := Access(c, store, vm, p).0, Step(c.strategy, c.frames, c.slots, h, p);
    AccessFromGood(c, store, vm, p);
    CoreAccessKeeps(c, store, vm.core, p);
    ShippedAccess(c, store, vm, p, h);
    if Find(vm.tlb, p) == |vm.tlb| {
      forall i | 0 <= i < |vm.tlb| && i != vm'.robin && vm.tlb[i].valid
        ensures vm.tlb[i].page in vm'.core.frameOf
      {
        NextSlotAges(c, vm.robin, i);
        assert Cached(c.slots, h'.fills)[Age(c.slots, vm'.robin, i)] == vm.tlb[i].page;
      }
    }
  }

  /** The pages a trace asks for, leaving out addresses beyond the page table. */
  function PageTrace(c: Config, trace: seq<Address>): seq<nat> {
    if trace == [] then []
    else
      var a := trace[|trace| - 1];
      PageTrace(c, trace[..|trace| - 1]) + if PageOf(a) < c.pages then [PageOf(a)] else []
  }

  lemma {:induction false} PageTraceWithin(c: Config, trace: seq<Address>)
    ensures Within(c.pages, PageTrace(c, trace))
  {
    if trace != [] {
      PageTraceWithin(c, trace[..|trace| - 1]);
    }
  }

  lemma {:induction false} SamePageTrace(c: Config, d: Config, trace: seq<Address>)
    requires c.pages == d.pages
    ensures PageTrace(c, trace) == PageTrace(d, trace)
  {
    if trace != [] {
      SamePageTrace(c, d, trace[..|trace| - 1]);
    }
  }

  /** The history of a trace by its last address. */
  lemma PageTraceLast(c: Config, trace: seq<Address>)
    requires trace != []
    ensures var before, p := PageTrace(c, trace[..|trace| - 1]), PageOf(trace[|trace| - 1]);
            var pages, h := PageTrace(c, trace), After(c.strategy, c.frames, c.slots, before);
            if p < c.pages then
              && pages == before + [p] && pages[..|pages| - 1] == before
              && After(c.strategy, c.frames, c.slots, pages) == Step(c.strategy, c.frames, c.slots, h, p)
            else
              pages == before
  {
    var before, p := PageTrace(c, trace[..|trace| - 1]), PageOf(trace[|trace| - 1]);
    if p < c.pages {
      assert PageTrace(c, trace) == before + [p];
      assert (before + [p])[..|before|] == before;
    } else {
      assert PageTrace(c, trace) == before;
    }
  }

  /** As shipped, the machine follows the history of every trace, right or wrong. */
  lemma {:induction false} ShippedFollowsHistory(c: Config, store: seq<Page>, memory: seq<Page>, trace: seq<Address>)
    requires Sensible(c) && c.pages == |store| && |memory| == PHYSICAL_PAGES && !c.clearing
    ensures Tracks(StateAfter(c, store, memory, trace),
                   After(c.strategy, c.frames, c.slots, PageTrace(c, trace)))
  {
    if trace != [] {
      var before, a := trace[..|trace| - 1], trace[|trace| - 1];
      ShippedFollowsHistory(c, store, memory, before);
      PageTraceLast(c, trace);
      if PageOf(a) < c.pages {
        var vm := StateAfter(c, store, memory, before);
        ShippedAccess(c, store, vm.(stats := vm.stats.(lookups := vm.stats.lookups + 1)), PageOf(a),
                      After(c.strategy, c.frames, c.slots, PageTrace(c, before)));
      }
    }
  }

  lemma ReadStaysGood(c: Config, store: seq<Page>, vm: Vm, a: Address, h: History)
    requires Sensible(c) && Good(c, store, vm) && c.pages == |store| && !c.clearing && Tracks(vm, h)
    requires PageOf(a) < c.pages ==> Coherent(c.slots, Step(c.strategy, c.frames, c.slots, h, PageOf(a)))
    ensures Right(c, store, a, ReadByte(c, store, vm, a).1)
    ensures Good(c, store, ReadByte(c, store, vm, a).0)
  {
    ReadFromGood(c, store, vm, a);
    if PageOf(a) < c.pages {
      CoherentStaysGood(c, store, vm.(stats := vm.stats.(lookups := vm.stats.lookups + 1)), PageOf(a), h);
    }
  }

  /** And while the history is coherent, every read is right. */
  lemma {:induction false} ShippedRun(c: Config, store: seq<Page>, memory: seq<Page>, trace: seq<Address>)
    requires Sensible(c) && c.pages == |store| && |memory| == PHYSICAL_PAGES && !c.clearing
    requires CoherentThroughout(c.strategy, c.frames, c.slots, PageTrace(c, trace))
    ensures Good(c, store, StateAfter(c, store, memory, trace))
    ensures AllRight(c, store, memory, trace)
  {
    if trace != [] {
      var before, a := trace[..|trace| - 1], trace[|trace| - 1];
      PageTraceLast(c, trace);
      ShippedRun(c, store, memory, before);
      ShippedFollowsHistory(c, store, memory, before);
      ReadStaysGood(c, store, StateAfter(c, store, memory, before), a,
                    After(c.strategy, c.frames, c.slots, PageTrace(c, before)));
    }
  }

  // ----- A stale entry is read

  function Filled(b: Byte): (page: Page)
    ensures forall o :: 0 <= o < PAGE_SIZE ==> page[o] == b
  {
    seq(PAGE_SIZE, _ => b)
  }

  /** A backing store whose page `p` holds the byte `p` throughout, so pages can be told apart. */
  function Marked(c: Config): (store: seq<Page>)
    requires Sensible(c)
    ensures |store| == c.pages && forall p, o :: 0 <= p < c.pages && 0 <= o < PAGE_SIZE ==> store[p][o] == p
  {
    seq(c.pages, p requires 0 <= p < c.pages => Filled(p))
  }

  function Addresses(pages: seq<nat>): (r: seq<Address>)
    requires Within(PHYSICAL_PAGES, pages)
  {
    if pages == [] then []
    else Addresses(pages[..|pages| - 1]) + [pages[|pages| - 1] * PAGE_SIZE]
  }

  lemma {:induction false} PageTraceOfAddresses(c: Config, pages: seq<nat>)
    requires Sensible(c) && Within(c.pages, pages)
    ensures PageTrace(c, Addresses(pages)) == pages
  {
    if pages != [] {
      var before := pages[..|pages| - 1];
      PageTraceOfAddresses(c, before);
      var trace := Addresses(pages);
      assert trace[..|trace| - 1] == Addresses(before);
      assert pages == before + [pages[|pages| - 1]];
    }
  }

  /** A cached page that has just lost its frame to `p` is read from that frame: the bytes of `p`. */
  lemma StaleHit(c: Config, store: seq<Page>, vm: Vm, p: nat, v: nat, h: History)
    requires Sensible(c) && Good(c, store, vm) && p < c.pages == |store| && !c.clearing && Tracks(vm, h)
    requires var h' := Step(c.strategy, c.frames, c.slots, h, p);
             v in Cached(c.slots, h'.fills) && v !in h'.order
    ensures var vm' := Access(c, store, vm, p).0;
            && v < c.pages && p != v
            && VmOk(c, vm') && Access(c, store, vm', v).0.core.memory == vm'.core.memory
            && Access(c, store, vm', v).1 < PHYSICAL_PAGES
            && vm'.core.memory[Access(c, store, vm', v).1] == store[p]
  {
    var vm', h' := Access(c, store, vm, p).0, Step(c.strategy, c.frames, c.slots, h, p);
    ShippedAccess(c, store, vm, p, h);
    AccessFromGood(c, store, vm, p);
    AccessKeepsOk(c, store, vm, p);
    CoreAccessKeeps(c, store, vm.core, p);
    FindIsCached(vm'.tlb, vm'.robin, h'.fills, v);
    var i := Find(vm'.tlb, v);
    assert vm.tlb[i] == vm'.tlb[i];
    assert v in vm.core.frameOf && v == Victim(vm.core);
  }

  /** Reading at `a` now makes the next read, at `b`, wrong. */
  ghost predicate WrongNext(c: Config, store: seq<Page>, vm: Vm, a: Address, b: Address)
    requires Sensible(c) && VmOk(c, vm) && c.pages == |store|
  {
    var vm' := ReadByte(c, store, vm, a).0;
    VmOk(c, vm') && !Right(c, store, b, ReadByte(c, store, vm', b).1)
  }

  lemma StaleReadIsWrong(c: Config, vm: Vm, p: nat, v: nat, h: History)
    requires Sensible(c) && p < c.pages && !c.clearing
    requires Good(c, Marked(c), vm) && Tracks(vm, h)
    requires var h' := Step(c.strategy, c.frames, c.slots, h, p);
             v in Cached(c.slots, h'.fills) && v !in h'.order
    ensures v < c.pages && WrongNext(c, Marked(c), vm, p * PAGE_SIZE, v * PAGE_SIZE)
  {
    var store := Marked(c);
    var counted := vm.(stats := vm.stats.(lookups := vm.stats.lookups + 1));
    StaleHit(c, store, counted, p, v, h);
    assert PageOf(p * PAGE_SIZE) == p && PageOf(v * PAGE_SIZE) == v && OffsetOf(v * PAGE_SIZE) == 0;
    var vm' := Access(c, store, counted, p).0;
    var counted' := vm'.(stats := vm'.stats.(lookups := vm'.stats.lookups + 1));
    PhysicalSplits(Access(c, store, counted', v).1, 0);
  }

  lemma ReadLast(c: Config, store: seq<Page>, memory: seq<Page>, before: seq<Address>, a: Address)
    requires Sensible(c) && c.pages == |store| && |memory| == PHYSICAL_PAGES
    ensures StateAfter(c, store, memory, before + [a])
         == ReadByte(c, store, StateAfter(c, store, memory, before), a).0
    ensures AllRight(c, store, memory, before + [a])
        ==> Right(c, store, a, ReadByte(c, store, StateAfter(c, store, memory, before), a).1)
    ensures Answers(c, store, memory, before + [a])
         == Answers(c, store, memory, before)
            + [ReadByte(c, store, StateAfter(c, store, memory, before), a).1]
  {
    assert (before + [a])[..|before|] == before;
  }

  /** A history that goes stale is a trace after which the access to `p` makes the read of `v` wrong. */
  lemma ReachesStale(c: Config, memory: seq<Page>, pages: seq<nat>, p: nat, v: nat) returns (trace: seq<Address>)
    requires Sensible(c) && |memory| == PHYSICAL_PAGES && !c.clearing
    requires Within(c.pages, pages) && p < c.pages
    requires GoesStale(c.strategy, c.frames, c.slots, pages, p, v)
    ensures v < c.pages
    ensures WrongNext(c, Marked(c), StateAfter(c, Marked(c), memory, trace), p * PAGE_SIZE, v * PAGE_SIZE)
  {
    trace := Addresses(pages);
    AfterAppend(c.strategy, c.frames, c.slots, pages, p);
    PageTraceOfAddresses(c, pages);
    ShippedRun(c, Marked(c), memory, trace);
    ShippedFollowsHistory(c, Marked(c), memory, trace);
    var vm := StateAfter(c, Marked(c), memory, trace);
    StaleReadIsWrong(c, vm, p, v, After(c.strategy, c.frames, c.slots, pages));
  }

  lemma WrongRun(c: Config, store: seq<Page>, memory: seq<Page>, before: seq<Address>, a: Address, b: Address)
    requires Sensible(c) && c.pages == |store| && |memory| == PHYSICAL_PAGES
    requires WrongNext(c, store, StateAfter(c, store, memory, before), a, b)
    ensures !AllRight(c, store, memory, before + [a] + [b])
  {
    ReadLast(c, store, memory, before, a);
    ReadLast(c, store, memory, before + [a], b);
  }

  // ----- Exactly when reading is transparent

  predicate Fits(c: Config) {
    || c.clearing
    || c.frames >= c.pages
    || (match c.strategy
        case Lru => c.frames >= 2 * c.slots - 1
        case Fifo => c.slots == 1 || c.slots == c.frames)
  }

  lemma FitsIsEnough(c: Config, store: seq<Page>, memory: seq<Page>, trace: seq<Address>)
    requires Sensible(c) && Fits(c) && |store| == c.pages && |memory| == PHYSICAL_PAGES
    ensures AllRight(c, store, memory, trace)
    ensures Good(c, store, StateAfter(c, store, memory, trace))
  {
    if c.clearing {
      ClearingStaysGood(c, store, memory, trace);
    } else {
      var pages := PageTrace(c, trace);
      PageTraceWithin(c, trace);
      if c.frames >= c.pages {
        NoEvictionEnoughFrames(c.strategy, c.frames, c.slots, pages);
      } else if c.strategy == Lru {
        LruEnoughFrames(c.frames, c.slots, pages);
      } else if c.slots == 1 {
        OneSlotIsCoherent(c.strategy, c.frames, pages);
      } else {
        FifoInLockstep(c.frames, pages);
      }
      ShippedRun(c, store, memory, trace);
    }
  }

  lemma SomeHistoryGoesStale(c: Config) returns (pages: seq<nat>, v: nat)
    requires Sensible(c) && !Fits(c)
    ensures Within(c.pages, pages) && GoesStale(c.strategy, c.frames, c.slots, pages, c.frames, v)
  {
    if c.strategy == Lru {
      pages, v := LruTooFewFrames(c.frames, c.slots);
    } else {
      pages, v := FifoOutOfStep(c.frames, c.slots);
    }
  }

  lemma SomeRunIsWrong(c: Config, memory: seq<Page>) returns (trace: seq<Address>)
    requires Sensible(c) && !Fits(c) && |memory| == PHYSICAL_PAGES
    ensures !AllRight(c, Marked(c), memory, trace)
  {
    var pages, v := SomeHistoryGoesStale(c);
    var before := ReachesStale(c, memory, pages, c.frames, v);
    trace := before + [c.frames * PAGE_SIZE] + [v * PAGE_SIZE];
    WrongRun(c, Marked(c), memory, before, c.frames * PAGE_SIZE, v * PAGE_SIZE);
  }

  /**
    The exact condition.  With a clearing `invalidate` reading is always right.  As shipped it is
    right for every trace if and only if nothing is ever evicted, or LRU has at least `2t - 1`
    frames for `t` TLB slots, or FIFO has as many frames as slots or a single slot.
   */
  lemma AlwaysRightExactly(c: Config)
    requires Sensible(c)
    ensures AlwaysRight(c) <==> Fits(c)
  {
    if Fits(c) {
      forall store: seq<Page>, memory: seq<Page>, trace: seq<Address>
        | |store| == c.pages && |memory| == PHYSICAL_PAGES
        ensures AllRight(c, store, memory, trace)
      {
        FitsIsEnough(c, store, memory, trace);
      }
    } else {
      var trace := SomeRunIsWrong(c, seq(PHYSICAL_PAGES, _ => Filled(0)));
    }
  }

  /** The sizes the program is built with: 256 pages and 16 TLB entries. */
  lemma ShippedSizes(n: nat)
    requires n >= 1
    ensures AlwaysRight(Config(Lru, 256, n, 16, false)) <==> n >= 31
    ensures AlwaysRight(Config(Fifo, 256, n, 16, false)) <==> n == 16 || n >= 256
  {
    AlwaysRightExactly(Config(Lru, 256, n, 16, false));
    AlwaysRightExactly(Config(Fifo, 256, n, 16, false));
  }
}
