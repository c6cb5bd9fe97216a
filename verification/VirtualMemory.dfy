/**
  The virtual memory manager with eviction in the program's own form: objects whose fields
  are updated in place.  The page table finds its victims by stamps; the ghost list `order`
  says what the stamps mean.  Every method is proved to take the step that `Machine` defines.
 */
module VirtualMemory {
  import opened Sequences
  import opened Replacement
  import opened Machine
  import opened Transparency

  datatype PageEntry = PageEntry(isValid: bool, isModified: bool, accessno: nat, fifono: nat, frameNumber: nat)

  function Stamp(strategy: Strategy, e: PageEntry): nat {
    if strategy == Lru then e.accessno else e.fifono
  }

  ghost predicate Members(table: seq<PageEntry>, order: seq<nat>) {
    && (forall i :: 0 <= i < |order| ==> order[i] < |table|)
    && (forall p :: p in order ==> p < |table| && table[p].isValid)
    && (forall p :: 0 <= p < |table| && table[p].isValid ==> p in order)
  }

  ghost predicate Sorted(table: seq<PageEntry>, strategy: Strategy, order: seq<nat>)
    requires forall i :: 0 <= i < |order| ==> order[i] < |table|
  {
    forall i, j :: 0 <= i < j < |order| ==> Stamp(strategy, table[order[i]]) > Stamp(strategy, table[order[j]])
  }

  lemma SortedIsDistinct(table: seq<PageEntry>, strategy: Strategy, order: seq<nat>)
    requires forall i :: 0 <= i < |order| ==> order[i] < |table|
    requires Sorted(table, strategy, order)
    ensures Distinct(order)
  {
  }

  lemma WithoutSorted(table: seq<PageEntry>, strategy: Strategy, order: seq<nat>, p: nat)
    requires forall i :: 0 <= i < |order| ==> order[i] < |table|
    requires Sorted(table, strategy, order)
    ensures forall i :: 0 <= i < |Without(order, p)| ==> Without(order, p)[i] < |table|
    ensures Sorted(table, strategy, Without(order, p))
  {
    var r := Without(order, p);
    forall i | 0 <= i < |r|
      ensures r[i] < |table|
    {
      var i' := WithoutAt(order, p, i);
    }
    forall i, j | 0 <= i < j < |r|
      ensures Stamp(strategy, table[r[i]]) > Stamp(strategy, table[r[j]])
    {
      var i' := WithoutAt(order, p, i);
      var j' := WithoutAt(order, p, j);
    }
  }

  lemma SortedElsewhere(table: seq<PageEntry>, strategy: Strategy, order: seq<nat>, p: nat, e: PageEntry)
    requires forall i :: 0 <= i < |order| ==> order[i] < |table| && order[i] != p
    requires Sorted(table, strategy, order) && p < |table|
    ensures Sorted(table[p := e], strategy, order)
  {
  }

  ghost function MappingOf(table: seq<PageEntry>): map<nat, nat> {
    map p: nat | p < |table| && table[p].isValid :: table[p].frameNumber
  }

  ghost predicate TableOk(table: seq<PageEntry>, accessno: nat, fifono: nat, strategy: Strategy, order: seq<nat>) {
    && Members(table, order)
    && Sorted(table, strategy, order)
    && (forall p :: p in order ==> table[p].accessno < accessno && table[p].fifono < fifono)
  }

  /** Where a page goes when its entry is written: to the front, or off the list. */
  function Rewritten(order: seq<nat>, p: nat, valid: bool): seq<nat> {
    (if valid then [p] else []) + Without(order, p)
  }

  lemma WriteMembers(table: seq<PageEntry>, order: seq<nat>, p: nat, e: PageEntry)
    requires Members(table, order) && Distinct(order) && p < |table|
    ensures Members(table[p := e], Rewritten(order, p, e.isValid))
  {
    WithoutMembers(order, p);
    var rest := Without(order, p);
    assert forall i :: 0 <= i < |rest| ==> rest[i] in rest;
  }

  lemma WriteSorted(table: seq<PageEntry>, strategy: Strategy, order: seq<nat>, p: nat, e: PageEntry)
    requires Members(table, order) && Sorted(table, strategy, order) && p < |table|
    requires e.isValid ==> forall q :: q in order ==> Stamp(strategy, table[q]) < Stamp(strategy, e)
    ensures Members(table[p := e], Rewritten(order, p, e.isValid))
    ensures Sorted(table[p := e], strategy, Rewritten(order, p, e.isValid))
  {
    SortedIsDistinct(table, strategy, order);
    WriteMembers(table, order, p, e);
    WithoutMembers(order, p);
    WithoutSorted(table, strategy, order, p);
    var rest := Without(order, p);
    assert forall i :: 0 <= i < |rest| ==> rest[i] in rest;
    SortedElsewhere(table, strategy, rest, p, e);
    if e.isValid {
      SortedPrepend(table[p := e], strategy, p, rest);
    } else {
      assert Rewritten(order, p, false) == rest;
    }
  }

  lemma SortedPrepend(table: seq<PageEntry>, strategy: Strategy, p: nat, rest: seq<nat>)
    requires p < |table| && forall i :: 0 <= i < |rest| ==> rest[i] < |table|
    requires Sorted(table, strategy, rest)
    requires forall i :: 0 <= i < |rest| ==> Stamp(strategy, table[rest[i]]) < Stamp(strategy, table[p])
    ensures Sorted(table, strategy, [p] + rest)
  {
  }

  lemma WriteMapping(table: seq<PageEntry>, p: nat, e: PageEntry)
    requires p < |table|
    ensures MappingOf(table[p := e])
         == if e.isValid then MappingOf(table)[p := e.frameNumber] else MappingOf(table) - {p}
  {
  }

  /** Writing a valid entry with the largest stamp makes the page the newest; an invalid one removes it. */
  lemma WriteOk(
    table: seq<PageEntry>, a: nat, f: nat, a': nat, f': nat, strategy: Strategy, order: seq<nat>, p: nat, e: PageEntry)
    requires TableOk(table, a, f, strategy, order) && p < |table| && a <= a' && f <= f'
    requires e.isValid ==> e.accessno < a' && e.fifono < f' && Stamp(strategy, e) >= if strategy == Lru then a else f
    ensures TableOk(table[p := e], a', f', strategy, Rewritten(order, p, e.isValid))
  {
    WriteSorted(table, strategy, order, p, e);
    SortedIsDistinct(table, strategy, order);
    WithoutMembers(order, p);
  }

  /** A use under LRU rewrites the entry; one of a page that is not valid leaves the list alone. */
  lemma StampOk(table: seq<PageEntry>, a: nat, f: nat, order: seq<nat>, p: nat)
    requires TableOk(table, a, f, Lru, order) && p < |table|
    ensures TableOk(table[p := table[p].(accessno := a)], a + 1, f, Lru, Touch(Lru, order, p))
  {
    var e := table[p].(accessno := a);
    WriteOk(table, a, f, a + 1, f, Lru, order, p, e);
    assert Touch(Lru, order, p) == Rewritten(order, p, e.isValid);
  }

  class PageTable {
    var table: seq<PageEntry>
    var accessno: nat
    var fifono: nat
    var strategy: Strategy
    ghost var order: seq<nat>

    ghost predicate Valid()
      reads this
    {
      TableOk(table, accessno, fifono, strategy, order)
    }

    /** The page at the back of the list. */
    ghost function Oldest(): (p: nat)
      requires Valid() && order != []
      reads this
      ensures p in order && p < |table| && table[p].isValid
    {
      order[|order| - 1]
    }

    ghost function Mapping(): map<nat, nat>
      reads this
    {
      MappingOf(table)
    }

    constructor (pages: nat, strategy: Strategy)
      ensures Valid() && order == [] && Mapping() == map[]
      ensures |table| == pages && this.strategy == strategy && accessno == fifono == 0
      ensures forall p :: 0 <= p < pages ==> table[p] == PageEntry(false, false, 0, 0, p)
    {
      var t: seq<PageEntry> := [];
      for i := 0 to pages
        invariant |t| == i
        invariant forall p :: 0 <= p < i ==> t[p] == PageEntry(false, false, 0, 0, p)
      {
        t := t + [PageEntry(false, false, 0, 0, i)];
      }
      table := t;
      accessno, fifono := 0, 0;
      this.strategy := strategy;
      order := [];
    }

    method AccessPageLru(p: nat)
      requires Valid() && p < |table| && strategy == Lru
      modifies this
      ensures Valid()
      ensures order == Touch(Lru, old(order), p)
      ensures table == old(table)[p := old(table[p]).(accessno := old(accessno))]
      ensures accessno == old(accessno) + 1 && fifono == old(fifono) && strategy == old(strategy)
    {
      var stamped := table[p].(accessno := accessno);
      StampOk(table, accessno, fifono, order, p);
      table := table[p := stamped];
      accessno := accessno + 1;
      order := Touch(Lru, order, p);
    }

    /** Book-keeping for a hit: only LRU stamps the page. */
    method AccessPage(p: nat)
      requires Valid() && p < |table|
      modifies this
      ensures Valid()
      ensures order == Touch(strategy, old(order), p)
      ensures Mapping() == old(Mapping()) && |table| == old(|table|) && strategy == old(strategy)
      ensures table == if strategy == Lru then old(table)[p := old(table[p]).(accessno := old(accessno))]
                       else old(table)
    {
      match strategy {
        case Fifo =>
        case Lru => AccessPageLru(p);
      }
    }

    method Lookup(p: nat) returns (ok: bool, entry: PageEntry)
      requires Valid()
      modifies this
      ensures Valid()
      ensures Mapping() == old(Mapping()) && |table| == old(|table|) && strategy == old(strategy)
      ensures ok == (p < |table|)
      ensures ok ==> entry == old(table)[p] && entry.isValid == (p in Mapping())
      ensures ok && entry.isValid ==> entry.frameNumber == Mapping()[p]
      ensures order == if ok then Touch(strategy, old(order), p) else old(order)
    {
      ok := false;
      entry := PageEntry(false, false, 0, 0, 0);
      if p < |table| {
        entry := table[p];
        AccessPage(p);
        ok := true;
      }
    }

    /** The last valid entry for `frame`. */
    method Rlookup(frame: nat) returns (ok: bool, page: nat, entry: PageEntry)
      ensures ok <==> exists p :: 0 <= p < |table| && table[p].isValid && table[p].frameNumber == frame
      ensures ok ==> page < |table| && entry == table[page] && entry.isValid && entry.frameNumber == frame
      ensures ok ==> forall p :: page < p < |table| ==> !(table[p].isValid && table[p].frameNumber == frame)
    {
      ok, page, entry := false, 0, PageEntry(false, false, 0, 0, 0);
      var i := 0;
      while i < |table|
        invariant 0 <= i <= |table|
        invariant ok <==> exists p :: 0 <= p < i && table[p].isValid && table[p].frameNumber == frame
        invariant ok ==> page < i && entry == table[page] && entry.isValid && entry.frameNumber == frame
        invariant ok ==> forall p :: page < p < i ==> !(table[p].isValid && table[p].frameNumber == frame)
      {
        var pe := table[i];
        if pe.frameNumber == frame && pe.isValid {
          ok, page, entry := true, i, pe;
        }
        i := i + 1;
      }
    }

    /** Overwrites an entry; a page made or kept valid becomes the newest, a page made invalid leaves. */
    method UpdatePageEntry(entry: PageEntry, p: nat)
      requires Valid() && p < |table|
      modifies this
      ensures Valid()
      ensures order == Rewritten(old(order), p, entry.isValid)
      ensures Mapping() == if entry.isValid then old(Mapping())[p := entry.frameNumber] else old(Mapping()) - {p}
      ensures table == old(table)[p := entry.(accessno := old(accessno), fifono := old(fifono))]
      ensures accessno == old(accessno) + 1 && fifono == old(fifono) + 1 && strategy == old(strategy)
    {
      var stamped := entry.(accessno := accessno, fifono := fifono);
      ghost var before, a, f, list := table, accessno, fifono, order;
      table := table[p := stamped];
      accessno := accessno + 1;
      fifono := fifono + 1;
      order := Rewritten(order, p, stamped.isValid);
      assert Valid() by {
        WriteOk(before, a, f, accessno, fifono, strategy, list, p, stamped);
      }
      WriteMapping(before, p, stamped);
    }

    /** The frame of the page at the back of the list. */
    method FindVictimByLru() returns (victim: nat)
      requires Valid() && strategy == Lru
      ensures victim == if order == [] then 0 else table[Oldest()].frameNumber
    {
      var min, frameno, pageno, i := accessno + 1, 0, -1, 0;
      while i < |table|
        invariant 0 <= i <= |table|
        invariant pageno == -1 ==> min == accessno + 1 && frameno == 0
        invariant pageno != -1 ==>
                    && 0 <= pageno < i && table[pageno].isValid
                    && min == table[pageno].accessno && frameno == table[pageno].frameNumber
        invariant forall p :: 0 <= p < i && table[p].isValid ==> min <= table[p].accessno
      {
        if table[i].isValid {
          if table[i].accessno < min {
            min, frameno, pageno := table[i].accessno, table[i].frameNumber, i;
          }
        }
        i := i + 1;
      }
      victim := frameno;
      if order != [] {
        assert table[Oldest()].isValid;
        LeastIsLast(pageno);
      }
    }

    method FindVictimByFifo() returns (victim: nat)
      requires Valid() && strategy == Fifo
      ensures victim == if order == [] then 0 else table[Oldest()].frameNumber
    {
      var min, frameno, pageno, i := fifono + 1, 0, -1, 0;
      while i < |table|
        invariant 0 <= i <= |table|
        invariant pageno == -1 ==> min == fifono + 1 && frameno == 0
        invariant pageno != -1 ==>
                    && 0 <= pageno < i && table[pageno].isValid
                    && min == table[pageno].fifono && frameno == table[pageno].frameNumber
        invariant forall p :: 0 <= p < i && table[p].isValid ==> min <= table[p].fifono
      {
        if table[i].isValid {
          if table[i].fifono < min {
            min, frameno, pageno := table[i].fifono, table[i].frameNumber, i;
          }
        }
        i := i + 1;
      }
      victim := frameno;
      if order != [] {
        assert table[Oldest()].isValid;
        LeastIsLast(pageno);
      }
    }

    /** The smallest stamp is the last in the list. */
    lemma LeastIsLast(p: int)
      requires Valid() && order != []
      requires 0 <= p < |table| && table[p].isValid
      requires forall q :: 0 <= q < |table| && table[q].isValid
                 ==> Stamp(strategy, table[p]) <= Stamp(strategy, table[q])
      ensures Oldest() == p
    {
      assert p in order;
    }

    method FindVictim() returns (victim: nat)
      requires Valid()
      ensures victim == if order == [] then 0 else table[Oldest()].frameNumber
    {
      match strategy {
        case Fifo => victim := FindVictimByFifo();
        case Lru => victim := FindVictimByLru();
      }
    }
  }

  class Tlb {
    var table: seq<TlbEntry>
    var robin: int

    constructor (slots: nat)
      ensures |table| == slots && robin == -1
      ensures forall i :: 0 <= i < slots ==> table[i] == TlbEntry(false, 0, 0)
    {
      table := seq(slots, _ => TlbEntry(false, 0, 0));
      robin := -1;
    }

    method Lookup(page: nat) returns (hit: bool, frame: nat)
      ensures hit <==> Find(table, page) < |table|
      ensures hit ==> frame == table[Find(table, page)].frame
    {
      hit, frame := false, 0;
      var i := 0;
      while i < |table|
        invariant 0 <= i <= |table|
        invariant forall j :: 0 <= j < i ==> !(table[j].valid && table[j].page == page)
        invariant !hit
      {
        var entry := table[i];
        if entry.valid {
          if entry.page == page {
            hit, frame := true, entry.frame;
            break;
          }
        }
        i := i + 1;
      }
    }

    /** As shipped: the entry found is cleared in a local copy, so the table stays as it is. */
    method Invalidate(frame: nat)
      ensures table == old(table) && robin == old(robin)
    {
      var i := 0;
      while i < |table| {
        var entry := table[i];
        if entry.valid {
          if entry.frame == frame {
            entry := entry.(valid := false);
            break;
          }
        }
        i := i + 1;
      }
    }

    /** The same search, writing the cleared entry back. */
    method InvalidateInTable(frame: nat)
      modifies this
      ensures table == Clear(old(table), frame) && robin == old(robin)
    {
      var i := 0;
      while i < |table|
        invariant 0 <= i <= |table|
        invariant table == old(table) && robin == old(robin)
        invariant forall j :: 0 <= j < i ==> !(table[j].valid && table[j].frame == frame)
      {
        var entry := table[i];
        if entry.valid {
          if entry.frame == frame {
            table := table[i := entry.(valid := false)];
            break;
          }
        }
        i := i + 1;
      }
    }

    method GetVictim() returns (victim: nat)
      requires |table| >= 1 && -1 <= robin < |table|
      modifies this
      ensures robin == victim == (old(robin) + 1) % |old(table)|
      ensures victim < |old(table)| && table == old(table)
    {
      robin := (robin + 1) % |table|;
      victim := robin;
    }

    method AddEntry(entry: TlbEntry)
      requires |table| >= 1 && -1 <= robin < |table|
      modifies this
      ensures robin == (old(robin) + 1) % |old(table)| && 0 <= robin < |old(table)|
      ensures table == old(table)[robin := entry]
    {
      var victim := GetVictim();
      table := table[victim := entry];
    }
  }

  /** The free frames, as a stack whose top is its last element. */
  class WorkingSet {
    var stack: seq<nat>

    constructor (frames: nat)
      ensures stack == seq(frames, i requires 0 <= i => frames - 1 - i)
    {
      var s: seq<nat> := [];
      var j := frames - 1;
      while j >= 0
        invariant -1 <= j < frames
        invariant |s| == frames - 1 - j
        invariant forall i :: 0 <= i < |s| ==> s[i] == frames - 1 - i
      {
        s := s + [j];
        j := j - 1;
      }
      stack := s;
    }

    method IsFreeFrame() returns (free: bool)
      ensures free <==> stack != []
    {
      free := stack != [];
    }

    method GetFreeFrame() returns (top: int)
      modifies this
      ensures old(stack) == [] ==> top == -1 && stack == []
      ensures old(stack) != [] ==> old(stack) == stack + [top]
    {
      top := -1;
      if |stack| > 0 {
        top := stack[|stack| - 1];
        stack := stack[..|stack| - 1];
      }
    }
  }

  class PhysicalMemory {
    var frames: seq<Page>
    const numberOfFrames: nat

    /** The first contents of memory are whatever they are. */
    constructor (numberOfFrames: nat, contents: seq<Page>)
      requires |contents| == PHYSICAL_PAGES
      ensures frames == contents && this.numberOfFrames == numberOfFrames
    {
      frames := contents;
      this.numberOfFrames := numberOfFrames;
    }

    method LoadFrame(frame: nat, page: Page) returns (ok: bool)
      requires |frames| == PHYSICAL_PAGES
      requires frame < numberOfFrames ==> frame < PHYSICAL_PAGES
      modifies this
      ensures ok == (frame < numberOfFrames)
      ensures frames == if ok then old(frames)[frame := page] else old(frames)
    {
      if frame >= numberOfFrames {
        ok := false;
      } else {
        frames := frames[frame := page];
        ok := true;
      }
    }

    method ReadByte(address: Address) returns (value: Byte)
      requires |frames| == PHYSICAL_PAGES
      ensures value == frames[PageOf(address)][OffsetOf(address)]
    {
      value := frames[PageOf(address)][OffsetOf(address)];
    }
  }

  class VirtualMemoryManager {
    const physicalMemory: PhysicalMemory
    const backingStore: seq<Page>
    const pageTable: PageTable
    const workingSet: WorkingSet
    const tlb: Tlb
    /** Whether the invalidation reaches the table; the shipped one does not. */
    const clearing: bool
    var pageHits: nat
    var pageFaults: nat
    var tlbHits: nat
    var pageLookups: nat

    ghost function Sizes(): Config
      reads pageTable, tlb
    {
      Config(pageTable.strategy, |pageTable.table|, physicalMemory.numberOfFrames, |tlb.table|, clearing)
    }

    ghost function MemoryState(): Core
      reads pageTable, workingSet, physicalMemory
    {
      Core(pageTable.order, pageTable.Mapping(), workingSet.stack, physicalMemory.frames)
    }

    ghost function Model(): Vm
      reads this, pageTable, workingSet, physicalMemory, tlb
    {
      Vm(MemoryState(), tlb.table, tlb.robin, Stats(pageLookups, tlbHits, pageHits, pageFaults))
    }

    ghost predicate Valid()
      reads this, pageTable, workingSet, physicalMemory, tlb
    {
      && pageTable.Valid()
      && Sensible(Sizes())
      && |backingStore| == Sizes().pages
      && VmOk(Sizes(), Model())
    }

    constructor (c: Config, store: seq<Page>, contents: seq<Page>)
      requires Sensible(c) && |store| == c.pages && |contents| == PHYSICAL_PAGES
      ensures Valid() && Sizes() == c && backingStore == store
      ensures Model() == Initial(c, contents)
      ensures fresh(pageTable) && fresh(workingSet) && fresh(physicalMemory) && fresh(tlb)
    {
      backingStore := store;
      clearing := c.clearing;
      pageTable := new PageTable(c.pages, c.strategy);
      workingSet := new WorkingSet(c.frames);
      physicalMemory := new PhysicalMemory(c.frames, contents);
      tlb := new Tlb(c.slots);
      pageHits, pageFaults, tlbHits, pageLookups := 0, 0, 0, 0;
    }

    /** Takes its frame from the page at the back, which leaves the page table and, if cleared, the TLB. */
    method EvictVictim() returns (frame: nat)
      requires Valid() && pageTable.order != []
      modifies pageTable, tlb
      ensures pageTable.Valid() && Sizes() == old(Sizes())
      ensures var k := old(MemoryState());
              && Victim(k) in k.frameOf && frame == k.frameOf[Victim(k)]
              && pageTable.order == k.order[..|k.order| - 1]
              && pageTable.Mapping() == k.frameOf - {Victim(k)}
      ensures tlb.table == if clearing then Clear(old(tlb.table), frame) else old(tlb.table)
      ensures tlb.robin == old(tlb.robin)
    {
      ghost var k := MemoryState();
      frame := pageTable.FindVictim();
      var found, page, entry := pageTable.Rlookup(frame);
      assert found && page == Victim(k) by {
        assert pageTable.table[pageTable.Oldest()].frameNumber == frame;
        assert k.frameOf[pageTable.Oldest()] == frame && k.frameOf[page] == frame;
      }
      WithoutLast(k.order);
      if entry.isValid {
        pageTable.UpdatePageEntry(entry.(isValid := false), page);
        if clearing {
          tlb.InvalidateInTable(entry.frameNumber);
        } else {
          tlb.Invalidate(entry.frameNumber);
        }
      }
    }

    /** A free frame if there is one, otherwise the victim's. */
    method TakeFrame(ghost p: nat) returns (frame: nat)
      requires Valid() && p !in pageTable.Mapping() && p < |pageTable.table|
      modifies pageTable, workingSet, tlb
      ensures pageTable.Valid() && Sizes() == old(Sizes())
      ensures frame < PHYSICAL_PAGES && frame < physicalMemory.numberOfFrames
      ensures var k := old(MemoryState());
              if k.free != [] then
                && frame == k.free[|k.free| - 1]
                && workingSet.stack == k.free[..|k.free| - 1]
                && pageTable.order == k.order && pageTable.Mapping() == k.frameOf
              else
                && k.order != [] && Victim(k) in k.frameOf && frame == k.frameOf[Victim(k)]
                && workingSet.stack == []
                && pageTable.order == k.order[..|k.order| - 1]
                && pageTable.Mapping() == k.frameOf - {Victim(k)}
      ensures tlb.table == Cleared(Sizes(), old(Model()), p) && tlb.robin == old(tlb.robin)
    {
      ghost var k := MemoryState();
      OrderWithRoom(Sizes(), k, p);
      var free := workingSet.IsFreeFrame();
      if free {
        var top := workingSet.GetFreeFrame();
        assert top == k.free[|k.free| - 1] == |k.order|;
        frame := top % 256;
      } else {
        frame := EvictVictim();
        assert k.frameOf[Victim(k)] < |k.order|;
      }
    }

    /** Counts the fault, loads page `p` into a frame and records it in the page table. */
    method PageFault(p: nat) returns (ok: bool, frame: nat)
      requires Valid() && p !in pageTable.Mapping() && p < |pageTable.table|
      modifies this`pageFaults, pageTable, workingSet, physicalMemory, tlb
      ensures pageTable.Valid() && Sizes() == old(Sizes())
      ensures ok && pageFaults == old(pageFaults) + 1
      ensures MemoryState() == CoreAccess(Sizes(), backingStore, old(MemoryState()), p)
      ensures p in MemoryState().frameOf && frame == MemoryState().frameOf[p]
      ensures tlb.table == Cleared(Sizes(), old(Model()), p) && tlb.robin == old(tlb.robin)
    {
      ghost var k := MemoryState();
      pageFaults := pageFaults + 1;
      var page := backingStore[p];
      frame := TakeFrame(p);
      ok := physicalMemory.LoadFrame(frame, page);
      if ok {
        ghost var list := pageTable.order;
        pageTable.UpdatePageEntry(PageEntry(true, false, 0, 0, frame), p);
        assert Rewritten(list, p, true) == [p] + list;
      }
    }

    /** The page-table part of `translate`: a page hit, or a fault that loads the page. */
    method LookupOrLoad(p: nat) returns (ok: bool, frame: nat)
      requires Valid()
      modifies this, pageTable, workingSet, physicalMemory, tlb
      ensures pageTable.Valid() && Sizes() == old(Sizes())
      ensures ok == (p < |backingStore|)
      ensures !ok ==> Model() == old(Model())
      ensures ok ==>
                && MemoryState() == CoreAccess(Sizes(), backingStore, old(MemoryState()), p)
                && p in MemoryState().frameOf && frame == MemoryState().frameOf[p]
                && tlb.table == Cleared(Sizes(), old(Model()), p) && tlb.robin == old(tlb.robin)
                && pageHits == old(pageHits) + (if p in old(pageTable.Mapping()) then 1 else 0)
                && pageFaults == old(pageFaults) + (if p in old(pageTable.Mapping()) then 0 else 1)
                && tlbHits == old(tlbHits) && pageLookups == old(pageLookups)
    {
      var entry;
      frame := 0;
      ghost var k := MemoryState();
      ok, entry := pageTable.Lookup(p);
      if ok {
        if entry.isValid {
          frame := entry.frameNumber;
          pageHits := pageHits + 1;
          assert MemoryState() == k.(order := Touch(pageTable.strategy, k.order, p));
        } else {
          assert p !in k.order;
          assert Model() == old(Model());
          ok, frame := PageFault(p);
        }
      }
    }

    /** The part of `translate` below a TLB miss. */
    method TlbMiss(p: nat) returns (ok: bool, frame: nat)
      requires Valid() && Find(tlb.table, p) == |tlb.table|
      modifies this, pageTable, workingSet, physicalMemory, tlb
      ensures pageTable.Valid() && Sizes() == old(Sizes())
      ensures ok == (p < |backingStore|)
      ensures !ok ==> Model() == old(Model())
      ensures ok ==> Model() == Access(Sizes(), backingStore, old(Model()), p).0
      ensures ok ==> frame == Access(Sizes(), backingStore, old(Model()), p).1
    {
      ok, frame := LookupOrLoad(p);
      if ok {
        tlb.AddEntry(TlbEntry(true, p, frame));
      }
    }

    /** The part of `translate` after a TLB hit: the page table is only told of the use. */
    method TlbHit(p: nat)
      requires Valid() && p < |backingStore| && Find(tlb.table, p) < |tlb.table|
      modifies this, pageTable
      ensures pageTable.Valid() && Sizes() == old(Sizes())
      ensures Model() == Access(Sizes(), backingStore, old(Model()), p).0
    {
      var _, _ := pageTable.Lookup(p);
      tlbHits := tlbHits + 1;
    }

    /** Address translation; it fails exactly for addresses beyond the page table. */
    method Translate(address: Address) returns (ok: bool, physical: Address)
      requires Valid()
      modifies this, pageTable, workingSet, physicalMemory, tlb
      ensures Valid() && Sizes() == old(Sizes())
      ensures ok == (PageOf(address) < |backingStore|)
      ensures !ok ==> Model() == old(Model())
      ensures ok ==>
                var (model, frame) := Access(Sizes(), backingStore, old(Model()), PageOf(address));
                Model() == model && physical == Physical(frame, OffsetOf(address))
    {
      var p, offset := PageOf(address), OffsetOf(address);
      ghost var c, before := Sizes(), Model();
      var hit, frame := tlb.Lookup(p);
      ok, physical := true, 0;
      if hit {
        TlbHit(p);
      } else {
        ok, frame := TlbMiss(p);
      }
      if ok {
        physical := Physical(frame, offset);
        AccessKeepsOk(c, backingStore, before, p);
      }
    }

    method ReadByte(address: Address) returns (outcome: Outcome)
      requires Valid()
      modifies this, pageTable, workingSet, physicalMemory, tlb
      ensures Valid() && Sizes() == old(Sizes())
      ensures (Model(), outcome) == Machine.ReadByte(Sizes(), backingStore, old(Model()), address)
    {
      pageLookups := pageLookups + 1;
      var ok, physical := Translate(address);
      if !ok {
        return Failure;
      }
      var value := physicalMemory.ReadByte(physical);
      return Success(physical, value);
    }
  }

  /** A page outside the table leaves room for one more frame number. */
  lemma OrderWithRoom(c: Config, k: Core, p: nat)
    requires CoreOk(c, k) && p < c.pages && p !in k.frameOf
    ensures |k.order| < c.pages
  {
    OrderFits(c, k.order + [p]);
  }

  lemma WithoutLast(order: seq<nat>)
    requires order != [] && Distinct(order)
    ensures Without(order, order[|order| - 1]) == order[..|order| - 1]
  {
  }

  /** One turn of the main loop. */
  method ReadNext(vmm: VirtualMemoryManager, ghost contents: seq<Page>, trace: seq<Address>, i: nat)
    returns (outcome: Outcome)
    requires vmm.Valid() && |contents| == PHYSICAL_PAGES && i < |trace|
    requires vmm.Model() == StateAfter(vmm.Sizes(), vmm.backingStore, contents, trace[..i])
    modifies vmm, vmm.pageTable, vmm.workingSet, vmm.physicalMemory, vmm.tlb
    ensures vmm.Valid() && vmm.Sizes() == old(vmm.Sizes())
    ensures vmm.Model() == StateAfter(vmm.Sizes(), vmm.backingStore, contents, trace[..i + 1])
    ensures Answers(vmm.Sizes(), vmm.backingStore, contents, trace[..i + 1])
         == Answers(vmm.Sizes(), vmm.backingStore, contents, trace[..i]) + [outcome]
  {
    assert trace[..i + 1] == trace[..i] + [trace[i]];
    ReadLast(vmm.Sizes(), vmm.backingStore, contents, trace[..i], trace[i]);
    outcome := vmm.ReadByte(trace[i]);
  }

  /** The main loop: one read per address, on a new manager.  Whenever the sizes fit, every answer is right. */
  method Run(c: Config, store: seq<Page>, contents: seq<Page>, trace: seq<Address>) returns (outcomes: seq<Outcome>)
    requires Sensible(c) && |store| == c.pages && |contents| == PHYSICAL_PAGES
    ensures outcomes == Answers(c, store, contents, trace)
    ensures Fits(c) ==> forall i :: 0 <= i < |trace| ==> Right(c, store, trace[i], outcomes[i])
  {
    var vmm := new VirtualMemoryManager(c, store, contents);
    outcomes := [];
    var i := 0;
    while i < |trace|
      invariant 0 <= i <= |trace|
      invariant vmm.Valid() && vmm.Sizes() == c && vmm.backingStore == store
      invariant fresh(vmm) && fresh(vmm.pageTable) && fresh(vmm.workingSet)
      invariant fresh(vmm.physicalMemory) && fresh(vmm.tlb)
      invariant vmm.Model() == StateAfter(c, store, contents, trace[..i])
      invariant outcomes == Answers(c, store, contents, trace[..i])
    {
      var outcome := ReadNext(vmm, contents, trace, i);
      outcomes := outcomes + [outcome];
      i := i + 1;
    }
    assert trace[..i] == trace;
    if Fits(c) {
      FitsIsEnough(c, store, contents, trace);
      AnswersAreRight(c, store, contents, trace);
    }
  }
}
