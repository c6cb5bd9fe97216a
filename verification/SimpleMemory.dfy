/** The earlier manager in its own form, taking the steps of `NoEviction`. */
module SimpleMemory {
  import opened Machine
  import opened NoEviction
  import opened VirtualMemory

  class RoundRobinMemory {
    var frames: seq<Page>
    var frameno: nat
    const numberOfFrames: nat

    constructor (numberOfFrames: nat, contents: seq<Page>)
      requires |contents| == PHYSICAL_PAGES
      ensures frames == contents && frameno == 255 && this.numberOfFrames == numberOfFrames
    {
      frames := contents;
      frameno := 255;
      this.numberOfFrames := numberOfFrames;
    }

    /** The next frame in turn. */
    method FindVictim() returns (victim: nat)
      requires numberOfFrames >= 1
      modifies this`frameno
      ensures victim == frameno == (old(frameno) + 1) % numberOfFrames
    {
      frameno := (frameno + 1) % numberOfFrames;
      victim := frameno;
    }

    method AddPage(page: Page) returns (ok: bool, frame: nat)
      requires 1 <= numberOfFrames <= PHYSICAL_PAGES && |frames| == PHYSICAL_PAGES
      modifies this
      ensures ok && frame == frameno == (old(frameno) + 1) % numberOfFrames
      ensures frames == old(frames)[frame := page]
    {
      frame := FindVictim();
      ok := frame < numberOfFrames;
      if ok {
        frames := frames[frame := page];
      }
    }
  }

  class SimpleManager {
    const physicalMemory: RoundRobinMemory
    const backingStore: seq<Page>
    const tlb: Tlb
    const c: Config
    var table: seq<PageEntry>
    var pageHits: nat
    var pageFaults: nat
    var tlbHits: nat
    var pageLookups: nat

    ghost function Model(): Simple
      reads this, physicalMemory, tlb
    {
      Simple(MappingOf(table), physicalMemory.frameno, physicalMemory.frames, tlb.table, tlb.robin,
             Stats(pageLookups, tlbHits, pageHits, pageFaults))
    }

    ghost predicate Valid()
      reads this, physicalMemory, tlb
    {
      && SmallEnough(c) && |backingStore| == |table| == c.pages
      && physicalMemory.numberOfFrames == c.frames && SimpleOk(c, Model())
    }

    constructor (c: Config, store: seq<Page>, contents: seq<Page>)
      requires SmallEnough(c) && |store| == c.pages && |contents| == PHYSICAL_PAGES
      ensures Valid() && this.c == c && backingStore == store && Model() == Initially(c, contents)
      ensures fresh(physicalMemory) && fresh(tlb)
    {
      this.c := c;
      backingStore := store;
      physicalMemory := new RoundRobinMemory(c.frames, contents);
      tlb := new Tlb(c.slots);
      table := seq(c.pages, _ => PageEntry(false, false, 0, 0, 0));
      pageHits, pageFaults, tlbHits, pageLookups := 0, 0, 0, 0;
    }

    /** The lookup of a page, before frame and offset are joined. */
    method FrameOf(p: nat) returns (ok: bool, frame: nat)
      requires Valid()
      modifies this, physicalMemory, tlb
      ensures Valid()
      ensures ok == (p < c.pages)
      ensures !ok ==> Model() == old(Model())
      ensures ok ==> (Model(), frame) == SimpleAccess(c, backingStore, old(Model()), p)
    {
      ghost var before := Model();
      var hit;
      hit, frame := tlb.Lookup(p);
      ok := true;
      if hit {
        tlbHits := tlbHits + 1;
      } else if p >= |table| {
        ok := false;
      } else {
        if table[p].isValid {
          frame := table[p].frameNumber;
          pageHits := pageHits + 1;
        } else {
          pageFaults := pageFaults + 1;
          ok, frame := physicalMemory.AddPage(backingStore[p]);
          WriteMapping(table, p, PageEntry(true, false, 0, 0, frame));
          table := table[p := PageEntry(true, false, 0, 0, frame)];
        }
        tlb.AddEntry(TlbEntry(true, p, frame));
        SimpleAccessKeepsOk(c, backingStore, before, p);
      }
    }

    method Translate(address: Address) returns (ok: bool, physical: Address)
      requires Valid()
      modifies this, physicalMemory, tlb
      ensures Valid()
      ensures ok == (PageOf(address) < c.pages)
      ensures !ok ==> Model() == old(Model())
      ensures ok ==>
                var (model, frame) := SimpleAccess(c, backingStore, old(Model()), PageOf(address));
                Model() == model && physical == Physical(frame, OffsetOf(address))
    {
      var frame;
      ok, frame := FrameOf(PageOf(address));
      physical := if ok then Physical(frame, OffsetOf(address)) else 0;
    }

    method ReadByte(address: Address) returns (outcome: Outcome)
      requires Valid()
      modifies this, physicalMemory, tlb
      ensures Valid() && (Model(), outcome) == SimpleRead(c, backingStore, old(Model()), address)
    {
      pageLookups := pageLookups + 1;
      var ok, physical := Translate(address);
      if !ok {
        return Failure;
      }
      return Success(physical, physicalMemory.frames[PageOf(physical)][OffsetOf(physical)]);
    }
  }
}
