/**
  The virtual memory manager with eviction as a state machine on values: what one read does
  to the page table, the free-frame stack, physical memory, the TLB and the counters.  The
  classes in `VirtualMemory` are proved to take exactly these steps.
 */
module Machine {
  import opened Sequences
  import opened Replacement

  const PAGE_SIZE := 256
  const PHYSICAL_PAGES := 256

  type Address = a: int | 0 <= a < 0x1_0000
  type Byte = b: int | 0 <= b < 0x100
  type Page = s: seq<Byte> | |s| == PAGE_SIZE witness seq(PAGE_SIZE, _ => 0)

  function PageOf(a: Address): nat { a / PAGE_SIZE }

  function OffsetOf(a: Address): nat { a % PAGE_SIZE }

  /** Frame and offset joined in sixteen bits. */
  function Physical(frame: nat, offset: nat): Address {
    (frame * PAGE_SIZE + offset) % 0x1_0000
  }

  /** `clearing` tells whether `Tlb::invalidate` reaches the table; as shipped it does not. */
  datatype Config = Config(strategy: Strategy, pages: nat, frames: nat, slots: nat, clearing: bool)

  predicate Sensible(c: Config) {
    1 <= c.pages <= PHYSICAL_PAGES && c.frames >= 1 && c.slots >= 1
  }

  /** Page table, free stack and memory.  `order` lists the resident pages, newest first. */
  datatype Core = Core(order: seq<nat>, frameOf: map<nat, nat>, free: seq<nat>, memory: seq<Page>)

  datatype TlbEntry = TlbEntry(valid: bool, page: nat, frame: nat)

  datatype Stats = Stats(lookups: nat, tlbHits: nat, pageHits: nat, faults: nat)

  datatype Vm = Vm(core: Core, tlb: seq<TlbEntry>, robin: int, stats: Stats)

  datatype Outcome = Failure | Success(physical: Address, value: Byte)

  // ----- Page table, free stack, memory

  ghost predicate CoreOk(c: Config, k: Core) {
    && Distinct(k.order)
    && (forall p :: p in k.order <==> p in k.frameOf)
    && (forall p :: p in k.order ==> p < c.pages)
    && |k.order| + |k.free| == c.frames
    && (forall i :: 0 <= i < |k.free| ==> k.free[i] == c.frames - 1 - i)
    && (forall p :: p in k.frameOf ==> k.frameOf[p] < |k.order|)
    && (forall p, q :: p in k.frameOf && q in k.frameOf && p != q ==> k.frameOf[p] != k.frameOf[q])
    && |k.memory| == PHYSICAL_PAGES
  }

  /** The page at the back gives up its frame. */
  function Victim(k: Core): nat
    requires k.order != []
  {
    k.order[|k.order| - 1]
  }

  lemma OrderFits(c: Config, order: seq<nat>)
    requires Distinct(order) && forall p :: p in order ==> p < c.pages
    ensures |order| <= c.pages
  {
    var all := seq(c.pages, i requires 0 <= i => i);
    forall q | q in order
      ensures q in all
    {
      assert all[q] == q;
    }
    DistinctFits(order, all);
  }

  /** The page-table path of `translate`: a page hit, or a fault that loads `p`. */
  function CoreAccess(c: Config, store: seq<Page>, k: Core, p: nat): Core
    requires CoreOk(c, k) && c.frames >= 1 && c.pages <= PHYSICAL_PAGES && p < c.pages == |store|
  {
    if p in k.frameOf then
      k.(order := Touch(c.strategy, k.order, p))
    else if k.free != [] then
      var f := k.free[|k.free| - 1];
      OrderFits(c, k.order + [p]);
      Core([p] + k.order, k.frameOf[p := f], k.free[..|k.free| - 1], k.memory[f := store[p]])
    else
      var v := Victim(k);
      var f := k.frameOf[v];
      OrderFits(c, k.order);
      Core([p] + k.order[..|k.order| - 1], (k.frameOf - {v})[p := f], [], k.memory[f := store[p]])
  }

  /** Every resident page is in memory, in its frame. */
  ghost predicate Loaded(store: seq<Page>, k: Core)
    requires |k.memory| == PHYSICAL_PAGES
  {
    forall p :: p in k.frameOf && p < |store| && k.frameOf[p] < PHYSICAL_PAGES ==> k.memory[k.frameOf[p]] == store[p]
  }

  lemma CoreHitKeeps(c: Config, store: seq<Page>, k: Core, p: nat)
    requires Sensible(c) && CoreOk(c, k) && p < c.pages == |store| && p in k.frameOf
    ensures CoreOk(c, CoreAccess(c, store, k, p))
    ensures CoreAccess(c, store, k, p).order == Next(c.strategy, c.frames, k.order, p)
  {
    NextMembers(c.strategy, c.frames, k.order, p);
  }

  lemma CoreLoadKeeps(c: Config, store: seq<Page>, k: Core, p: nat)
    requires Sensible(c) && CoreOk(c, k) && p < c.pages == |store| && p !in k.frameOf && k.free != []
    ensures CoreOk(c, CoreAccess(c, store, k, p))
    ensures CoreAccess(c, store, k, p).order == Next(c.strategy, c.frames, k.order, p)
  {
    var k' := CoreAccess(c, store, k, p);
    OrderFits(c, k.order + [p]);
    NextMembers(c.strategy, c.frames, k.order, p);
    assert |k'.memory| == |k.memory|;
  }

  lemma AllButLast(s: seq<nat>)
    requires s != [] && Distinct(s)
    ensures forall q :: q in s[..|s| - 1] <==> q in s && q != s[|s| - 1]
  {
    forall q | q in s && q != s[|s| - 1]
      ensures q in s[..|s| - 1]
    {
      var i :| 0 <= i < |s| && s[i] == q;
      assert s[..|s| - 1][i] == q;
    }
  }

  lemma LastReplaced(order: seq<nat>, p: nat)
    requires order != [] && Distinct(order) && p !in order
    ensures var r := [p] + order[..|order| - 1];
            && Distinct(r) && |r| == |order|
            && forall q :: q in r <==> q == p || (q in order && q != order[|order| - 1])
  {
    AllButLast(order);
  }

  /** The new page has the victim's frame, and the others keep theirs. */
  lemma FrameHandedOver(c: Config, k: Core, p: nat)
    requires CoreOk(c, k) && p !in k.frameOf && k.order != []
    ensures var v, m := Victim(k), (k.frameOf - {Victim(k)})[p := k.frameOf[Victim(k)]];
            && m.Keys == k.frameOf.Keys - {v} + {p}
            && (forall q :: q in m ==> m[q] < |k.order|)
            && (forall q, r :: q in m && r in m && q != r ==> m[q] != m[r])
  {
    assert Victim(k) in k.order;
  }

  lemma EvictedOk(c: Config, k: Core, p: nat, memory: seq<Page>)
    requires CoreOk(c, k) && p < c.pages && p !in k.frameOf && k.free == [] && k.order != []
    requires |memory| == PHYSICAL_PAGES
    ensures var v := Victim(k);
            var k' := Core([p] + k.order[..|k.order| - 1], (k.frameOf - {v})[p := k.frameOf[v]], [], memory);
            CoreOk(c, k') && v !in k'.frameOf
  {
    LastReplaced(k.order, p);
    FrameHandedOver(c, k, p);
    assert Victim(k) in k.order;
  }

  lemma CoreEvictKeeps(c: Config, store: seq<Page>, k: Core, p: nat)
    requires Sensible(c) && CoreOk(c, k) && p < c.pages == |store| && p !in k.frameOf && k.free == []
    ensures CoreOk(c, CoreAccess(c, store, k, p))
    ensures CoreAccess(c, store, k, p).order == Next(c.strategy, c.frames, k.order, p)
    ensures Victim(k) !in CoreAccess(c, store, k, p).frameOf
  {
    OrderFits(c, k.order);
    var f := k.frameOf[Victim(k)];
    EvictedOk(c, k, p, k.memory[f := store[p]]);
  }

  /** One access keeps the page table, the free stack and memory in step, whichever path it takes. */
  lemma CoreAccessKeeps(c: Config, store: seq<Page>, k: Core, p: nat)
    requires Sensible(c) && CoreOk(c, k) && p < c.pages == |store|
    ensures var k' := CoreAccess(c, store, k, p);
            && CoreOk(c, k')
            && k'.order == Next(c.strategy, c.frames, k.order, p)
            && p in k'.frameOf
            && (forall q :: q in k'.frameOf && q != p ==> q in k.frameOf && k.frameOf[q] == k'.frameOf[q])
            && (forall q :: q in k.frameOf && (p in k.frameOf || k.free != [] || q != Victim(k)) ==> q in k'.frameOf)
            && (Loaded(store, k) ==> Loaded(store, k'))
  {
    if p in k.frameOf {
      CoreHitKeeps(c, store, k, p);
    } else if k.free != [] {
      CoreLoadKeeps(c, store, k, p);
    } else {
      CoreEvictKeeps(c, store, k, p);
    }
  }

  /** The free stack and the frames of the resident pages together are the frames, each once. */
  lemma FramesPartitioned(c: Config, k: Core, f: nat)
    requires CoreOk(c, k) && f < c.frames
    ensures (f in k.free) != (exists p :: p in k.frameOf && k.frameOf[p] == f)
  {
    if f < |k.order| {
      assert f !in k.free;
      if !exists p :: p in k.frameOf && k.frameOf[p] == f {
        var used := seq(|k.order|, i requires 0 <= i < |k.order| => k.frameOf[k.order[i]]);
        var all := seq(|k.order|, i requires 0 <= i => i);
        forall q | q in used + [f]
          ensures q in all
        {
          assert all[q] == q;
        }
        DistinctFits(used + [f], all);
      }
    } else {
      assert k.free[c.frames - 1 - f] == f;
    }
  }

  // ----- TLB

  /** Slot of the first valid entry for `page`, or the table size. */
  function Find(tlb: seq<TlbEntry>, page: nat): (i: nat)
    ensures i <= |tlb|
    ensures i < |tlb| ==> tlb[i].valid && tlb[i].page == page
    ensures forall j :: 0 <= j < i ==> !(tlb[j].valid && tlb[j].page == page)
  {
    if tlb == [] || (tlb[0].valid && tlb[0].page == page) then 0 else 1 + Find(tlb[1..], page)
  }

  /** Slot of the first valid entry for `frame`, or the table size. */
  function FindFrame(tlb: seq<TlbEntry>, frame: nat): (i: nat)
    ensures i <= |tlb|
    ensures i < |tlb| ==> tlb[i].valid && tlb[i].frame == frame
    ensures forall j :: 0 <= j < i ==> !(tlb[j].valid && tlb[j].frame == frame)
  {
    if tlb == [] || (tlb[0].valid && tlb[0].frame == frame) then 0 else 1 + FindFrame(tlb[1..], frame)
  }

  /** The first valid entry for `frame`, and no other, loses its flag, and nothing else in any entry changes. */
  lemma ClearsOnlyFrame(tlb: seq<TlbEntry>, frame: nat, i: nat)
    requires i < |tlb|
    ensures var r := Clear(tlb, frame);
            && r[i].page == tlb[i].page && r[i].frame == tlb[i].frame
            && (r[i].valid ==> tlb[i].valid)
            && (tlb[i].valid && !r[i].valid ==>
                  tlb[i].frame == frame && forall j :: 0 <= j < i ==> !(tlb[j].valid && tlb[j].frame == frame))
            && (tlb[i].valid && tlb[i].frame == frame && r[i].valid ==>
                  exists j :: 0 <= j < i && tlb[j].valid && tlb[j].frame == frame)
  {
    var k := FindFrame(tlb, frame);
  }

  /** What `Tlb::invalidate` is meant to do: the first entry for `frame` becomes invalid. */
  function Clear(tlb: seq<TlbEntry>, frame: nat): (r: seq<TlbEntry>)
    ensures |r| == |tlb|
  {
    var i := FindFrame(tlb, frame);
    if i < |tlb| then tlb[i := tlb[i].(valid := false)] else tlb
  }

  ghost predicate VmOk(c: Config, vm: Vm) {
    && CoreOk(c, vm.core)
    && |vm.tlb| == c.slots
    && -1 <= vm.robin < c.slots
    && forall i :: 0 <= i < |vm.tlb| && vm.tlb[i].valid
         ==> vm.tlb[i].page < c.pages && vm.tlb[i].frame < PHYSICAL_PAGES
  }

  /** The table that a fault or page hit on `p` leaves for the new entry. */
  function Cleared(c: Config, vm: Vm, p: nat): (r: seq<TlbEntry>)
    requires CoreOk(c, vm.core)
    ensures |r| == |vm.tlb|
  {
    var k := vm.core;
    if c.clearing && p !in k.frameOf && k.free == [] && k.order != [] then
      Clear(vm.tlb, k.frameOf[Victim(k)])
    else
      vm.tlb
  }

  function NextSlot(c: Config, robin: int): (slot: nat)
    requires c.slots >= 1 && -1 <= robin < c.slots
    ensures slot < c.slots
  {
    (robin + 1) % c.slots
  }

  /** `translate` for a page of the table: the new state and the frame. */
  function Access(c: Config, store: seq<Page>, vm: Vm, p: nat): (Vm, nat)
    requires Sensible(c) && VmOk(c, vm) && p < c.pages == |store|
  {
    var i := Find(vm.tlb, p);
    if i < |vm.tlb| then
      (Vm(vm.core.(order := Touch(c.strategy, vm.core.order, p)), vm.tlb, vm.robin,
          vm.stats.(tlbHits := vm.stats.tlbHits + 1)),
       vm.tlb[i].frame)
    else
      var k := CoreAccess(c, store, vm.core, p);
      CoreAccessKeeps(c, store, vm.core, p);
      var frame := k.frameOf[p];
      var slot := NextSlot(c, vm.robin);
      var stats := if p in vm.core.frameOf then vm.stats.(pageHits := vm.stats.pageHits + 1)
                   else vm.stats.(faults := vm.stats.faults + 1);
      (Vm(k, Cleared(c, vm, p)[slot := TlbEntry(true, p, frame)], slot, stats), frame)
  }

  lemma AccessKeepsOk(c: Config, store: seq<Page>, vm: Vm, p: nat)
    requires Sensible(c) && VmOk(c, vm) && p < c.pages == |store|
    ensures VmOk(c, Access(c, store, vm, p).0)
    ensures Access(c, store, vm, p).1 < PHYSICAL_PAGES
  {
    CoreAccessKeeps(c, store, vm.core, p);
    if Find(vm.tlb, p) < |vm.tlb| {
      if p in vm.core.frameOf {
        CoreHitKeeps(c, store, vm.core, p);
      }
    } else {
      OrderFits(c, CoreAccess(c, store, vm.core, p).order);
    }
  }

  /** `readByte`: translate, then fetch from physical memory at the physical address. */
  function ReadByte(c: Config, store: seq<Page>, vm: Vm, a: Address): (Vm, Outcome)
    requires Sensible(c) && VmOk(c, vm) && c.pages == |store|
  {
    var counted := vm.(stats := vm.stats.(lookups := vm.stats.lookups + 1));
    if PageOf(a) >= c.pages then
      (counted, Failure)
    else
      var (vm', frame) := Access(c, store, counted, PageOf(a));
      AccessKeepsOk(c, store, counted, PageOf(a));
      var physical := Physical(frame, OffsetOf(a));
      (vm', Success(physical, vm'.core.memory[PageOf(physical)][OffsetOf(physical)]))
  }

  lemma PhysicalSplits(frame: nat, offset: nat)
    requires frame < PHYSICAL_PAGES && offset < PAGE_SIZE
    ensures PageOf(Physical(frame, offset)) == frame && OffsetOf(Physical(frame, offset)) == offset
  {
  }

  const NO_STATS := Stats(0, 0, 0, 0)

  function Initial(c: Config, memory: seq<Page>): Vm {
    Vm(Core([], map[], seq(c.frames, i requires 0 <= i => c.frames - 1 - i), memory),
       seq(c.slots, _ => TlbEntry(false, 0, 0)), -1, NO_STATS)
  }
}
