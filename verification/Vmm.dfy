/** The virtual memory manager over physical memory, a page walk and a translation cache. */
module Vmm {
  import opened ByteWords
  import opened Tables
  import opened AddressSpaces
  import opened Frames
  import opened PageMapping

  class Machine {
    const kernel: Kernel
    const pmm: FrameAllocator
    /** Whether the processor caches translations that no access asked for. */
    const speculative: bool
    /** Pages whose translations such a processor caches as soon as it can, and keeps until they are flushed. */
    const eager: set<Page>
    var phys: Phys
    var tlb: Tlb
    /** Pages without translation that may be cached all the same. */
    ghost var stale: set<Page>
    ghost const boot: BootState
    ghost var spaces: set<nat>
    ghost var owner: Owners

    ghost predicate Allocator()
      reads this, pmm, pmm.frameBitmap, pmm.frameBitmap.storage
    {
      pmm.Valid() && |phys| == pmm.totalFrames && 0 in pmm.Used() && Claimed(boot, owner, pmm.Used()) &&
      forall f: nat :: f < pmm.totalFrames && pmm.InBitmap(f) ==> f in boot.reserved
    }

    /** What holds between any two memory accesses. */
    ghost predicate Ready(but: set<Page>)
      reads this, pmm, pmm.frameBitmap, pmm.frameBitmap.storage
    {
      Allocator() && IdentityMapped(phys, kernel) && TablesOwned(phys, kernel, spaces, owner) &&
      Agrees(phys, kernel, Cache(tlb, stale, eager), but) && Blank(boot, phys, kernel, pmm.Used())
    }

    /** What holds between operations. */
    ghost predicate Valid()
      reads this, pmm, pmm.frameBitmap, pmm.frameBitmap.storage
    {
      Ready({}) && PagesOwned(phys, kernel, spaces, owner)
    }

    /**
      paging_init: with the kernel alone, the first 8 MB map to themselves, page 0 apart, and the
      kernel's text and constants are read-only.  Needs three free frames that lie in the direct map.
      The memory may hold anything; `clean` records that frame 0 and the free frames translate nothing.
      The frames of the allocator's bitmap must be reserved, since the tables are built in the others.
     */
    constructor (pmm: FrameAllocator, phys: Phys, sections: Sections, speculative: bool, eager: set<Page>,
                 ghost clean: bool)
      requires pmm.Valid() && |phys| == pmm.totalFrames && 0 in pmm.Used()
      requires exists k :: Boots(pmm.Used(), pmm.totalFrames, k)
      requires pmm.BitmapReserved()
      requires clean ==> forall f: nat :: f < |phys| && (f == 0 || f !in pmm.Used()) ==> Clean(phys, f)
      modifies pmm.frameBitmap.storage
      ensures Valid() && this.pmm == pmm && spaces == {kernel.dir}
      ensures this.speculative == speculative && this.eager == eager
      ensures boot == BootState(clean, old(pmm.Used()), phys)
      ensures tlb == map[] && stale == {}
      ensures Boots(old(pmm.Used()), pmm.totalFrames, kernel)
      ensures pmm.Used() == old(pmm.Used()) + {kernel.dir, kernel.pt0, kernel.pt1}
      ensures owner.Keys == {kernel.dir, kernel.pt0, kernel.pt1}
      ensures forall n :: 0 < n < 2048 ==>
                Walk(this.phys, kernel.dir, PageNo(n)) ==
                Present(n, n >= 1024 || !ReadOnly(n * PAGE_SIZE, sections), false)
      ensures Walk(this.phys, kernel.dir, PageNo(0)) == NotPresent
      ensures sections.text <= sections.rodata <= sections.data ==> ReadsDirectly(this.phys, kernel.dir, sections)
      ensures forall d: nat :: 2 <= d < ENTRIES ==> EntryAt(this.phys, kernel.dir, d) == NO_ENTRY
      ensures forall p :: Legal(p) && p.d >= 2 ==> Walk(this.phys, kernel.dir, p) == NotPresent
      ensures |this.phys| == |phys|
      ensures forall f :: 0 <= f < |phys| && f !in {kernel.dir, kernel.pt0, kernel.pt1} ==> this.phys[f] == phys[f]
    {
      hide Built, Boots, DirectMapped, Identity, LinksKernel, TablesOwned, IdentityMapped, PagesOwned, Owned, Walk,
           FrameAllocator.Used, Legal, Clean, Blank, EntryAt, ReadsDirectly;
      ghost var reserved := pmm.Used();
      var k := AllocateKernel(pmm);
      var m := BuildTables(phys, k, sections);
      BuiltFacts(m, k, sections);
      if sections.text <= sections.rodata <= sections.data {
        BuiltReads(m, k, sections);
      }
      this.pmm, this.phys, kernel, tlb := pmm, m, k, map[];
      this.speculative, this.eager, boot := speculative, eager, BootState(clean, reserved, phys);
      spaces, stale := {k.dir}, {};
      owner := map[k.dir := Directory, k.pt0 := SharedTable, k.pt1 := SharedTable];
      new;
      OwnedSplit(m, k, spaces, owner);
      BootBlank(boot, phys, m, k, reserved, sections);
    }

    static method AllocateKernel(pmm: FrameAllocator) returns (k: Kernel)
      requires pmm.Valid() && 0 in pmm.Used() && exists k :: Boots(pmm.Used(), pmm.totalFrames, k)
      modifies pmm.frameBitmap.storage
      ensures pmm.Valid() && Boots(old(pmm.Used()), pmm.totalFrames, k)
      ensures pmm.Used() == old(pmm.Used()) + {k.dir, k.pt0, k.pt1}
      ensures k.dir !in old(pmm.Used()) && k.pt0 !in old(pmm.Used()) && k.pt1 !in old(pmm.Used())
      ensures k.dir < pmm.totalFrames && k.pt0 < pmm.totalFrames && k.pt1 < pmm.totalFrames <= FRAMES
      ensures k.dir != k.pt0 && k.dir != k.pt1 && k.pt0 != k.pt1
      ensures DirectMapped(k.dir) && DirectMapped(k.pt0) && DirectMapped(k.pt1)
      ensures 0 < k.dir < 2047 && 0 < k.pt0 < 2047 && 0 < k.pt1 < 2047
    {
      hide FrameAllocator.Used, Boots, Allocate;
      ghost var k0 :| Boots(pmm.Used(), pmm.totalFrames, k0);
      BootsFacts(pmm.Used(), pmm.totalFrames, k0);
      var dirAddr := pmm.AllocateFrame();
      var pt0Addr := pmm.AllocateFrame();
      var pt1Addr := pmm.AllocateFrame();
      k := Kernel(dirAddr / PAGE_SIZE, pt0Addr / PAGE_SIZE, pt1Addr / PAGE_SIZE);
    }

    /** The table construction of paging_init, in physical memory. */
    static method BuildTables(phys: Phys, k: Kernel, sections: Sections) returns (m: Phys)
      requires k.dir < |phys| && k.pt0 < |phys| && k.pt1 < |phys|
      requires k.dir != k.pt0 && k.dir != k.pt1 && k.pt0 != k.pt1
      requires k.pt0 < FRAMES && k.pt1 < FRAMES
      ensures |m| == |phys| && Built(m, k, sections)
      ensures forall j: nat :: j < 1024 ==>
                && EntryAt(m, k.pt0, j) ==
                   Entry(j > 0, !(sections.text <= j * 4096 < sections.rodata
                                  || sections.rodata <= j * 4096 < sections.data), false, 0, j)
                && EntryAt(m, k.pt1, j) == Entry(true, true, false, 0, 1024 + j)
      ensures forall f :: 0 <= f < |m| && f !in {k.dir, k.pt0, k.pt1} ==> m[f] == phys[f]
    {
      hide EntryOf, SetEntry;
      m := phys[k.dir := ZeroFrame()][k.pt0 := ZeroFrame()][k.pt1 := ZeroFrame()];
      forall i: nat | i < ENTRIES { ZeroFrameEntries(i); }
      hide ZeroFrame;
      m := FillLow(m, k.pt0, sections);
      m := FillHigh(m, k.pt1);
      StoreKeeps(m, k.dir, 0, Entry(true, true, false, 0, k.pt0));
      m := Store(m, k.dir, 0, EntryAt(m, k.dir, 0).(present := true, rw := true, user := false, frame := k.pt0));
      StoreKeeps(m, k.dir, 1, Entry(true, true, false, 0, k.pt1));
      m := Store(m, k.dir, 1, EntryAt(m, k.dir, 1).(present := true, rw := true, user := false, frame := k.pt1));
    }

    /** Maps the first 4 MB to themselves, text read-only, and then unmaps page 0. */
    static method FillLow(phys: Phys, f: nat, sections: Sections) returns (m: Phys)
      requires f < |phys| && forall j: nat :: j < ENTRIES ==> EntryAt(phys, f, j) == NO_ENTRY
      ensures |m| == |phys| && forall g :: 0 <= g < |m| && g != f ==> m[g] == phys[g]
      ensures forall j: nat :: j < ENTRIES ==> EntryAt(m, f, j) == LowEntry(j, sections).(present := j > 0)
    {
      hide EntryOf, SetEntry;
      m := phys;
      for i := 0 to ENTRIES
        invariant |m| == |phys| && forall g :: 0 <= g < |m| && g != f ==> m[g] == phys[g]
        invariant forall j: nat :: j < ENTRIES ==>
                    EntryAt(m, f, j) == if j < i then LowEntry(j, sections) else NO_ENTRY
      {
        var e := EntryAt(m, f, i);
        var writeable := !ReadOnly(i * PAGE_SIZE, sections);
        StoreKeeps(m, f, i, e.(present := true, user := false, rw := writeable, frame := i));
        m := Store(m, f, i, e.(present := true, user := false, rw := writeable, frame := i));
      }
      StoreKeeps(m, f, 0, EntryAt(m, f, 0).(present := false));
      m := Store(m, f, 0, EntryAt(m, f, 0).(present := false));
    }

    /** Maps the next 4 MB to themselves. */
    static method FillHigh(phys: Phys, f: nat) returns (m: Phys)
      requires f < |phys| && forall j: nat :: j < ENTRIES ==> EntryAt(phys, f, j) == NO_ENTRY
      ensures |m| == |phys| && forall g :: 0 <= g < |m| && g != f ==> m[g] == phys[g]
      ensures forall j: nat :: j < ENTRIES ==> EntryAt(m, f, j) == HighEntry(j)
    {
      hide EntryOf, SetEntry;
      m := phys;
      for i := 0 to ENTRIES
        invariant |m| == |phys| && forall g :: 0 <= g < |m| && g != f ==> m[g] == phys[g]
        invariant forall j: nat :: j < ENTRIES ==> EntryAt(m, f, j) == if j < i then HighEntry(j) else NO_ENTRY
      {
        var e := EntryAt(m, f, i);
        StoreKeeps(m, f, i, e.(present := true, rw := true, user := false, frame := ENTRIES + i));
        m := Store(m, f, i, e.(present := true, rw := true, user := false, frame := ENTRIES + i));
      }
    }

    // ----- Memory accesses -----

    /** The processor drops cached translations and, when it speculates, caches any that exist. */
    method Speculate()
      requires kernel.dir < |phys|
      modifies this`tlb
      ensures forall p :: p in tlb ==>
                (p in old(tlb) && tlb[p] == old(tlb)[p]) ||
                (speculative && Legal(p) && Walk(phys, kernel.dir, p).Present? &&
                 tlb[p] == Walk(phys, kernel.dir, p).frame)
      ensures Held(eager, old(tlb), tlb, {}) && (speculative ==> Fetched(phys, kernel, eager, tlb, {}))
    {
      var kept: set<Page>, walked: set<Page> := *, *;
      tlb := map p | p in tlb && (p in kept || p in eager) :: tlb[p];
      if speculative {
        var fetched := map p | p in walked + eager && Legal(p) && Walk(phys, kernel.dir, p).Present? ::
          Walk(phys, kernel.dir, p).frame;
        tlb := tlb + fetched;
      }
    }

    /** Address translation: a cached translation is used as it is, and the walk may be cached. */
    method Mmu(v: Page, ghost f: nat, ghost but: set<Page>) returns (frame: nat)
      requires Names(phys, kernel, v, f) && Agrees(phys, kernel, Cache(tlb, stale, eager), but) && v !in but
      modifies this`tlb
      ensures frame == f && Agrees(phys, kernel, Cache(tlb, stale, eager), but)
      ensures Fills(phys, kernel, speculative, old(tlb), tlb, v) && Held(eager, old(tlb), tlb, {})
      ensures speculative ==> Fetched(phys, kernel, eager, tlb, {})
    {
      hide Walk;
      Speculate();
      if v in tlb {
        frame := tlb[v];
      } else {
        frame := Walk(phys, kernel.dir, v).frame;
        if * {
          tlb := tlb[v := frame];
        }
      }
    }

    /** invlpg */
    method Invlpg(v: Page)
      modifies this`tlb
      ensures tlb == old(tlb) - {v}
    {
      tlb := tlb - {v};
    }

    method LoadEntry(v: Page, i: nat, ghost f: nat, ghost but: set<Page>) returns (e: Entry)
      requires i < ENTRIES && Names(phys, kernel, v, f) && v !in but
      requires Agrees(phys, kernel, Cache(tlb, stale, eager), but)
      modifies this`tlb
      ensures kernel.dir < |phys| && f < |phys| && e == EntryAt(phys, f, i)
      ensures Agrees(phys, kernel, Cache(tlb, stale, eager), but)
      ensures Fills(phys, kernel, speculative, old(tlb), tlb, v) && Held(eager, old(tlb), tlb, {})
      ensures speculative ==> Fetched(phys, kernel, eager, tlb, {})
    {
      hide Walk, Fills, Agrees, EntryOf, Held, Fetched;
      var frame := Mmu(v, f, but);
      e := EntryAt(phys, frame, i);
    }

    /**
      A sequence of assignments to bit fields of one entry, each a read and a write of its word.  Under
      directory entry d nothing outside `lit` is cached when nothing else shows meanwhile; what shows
      after the first assignment is cached as far as the processor is eager.
     */
    method UpdateEntry(v: Page, i: nat, fields: seq<Field>, ghost f: nat, ghost but: set<Page>, ghost d: nat,
                       ghost lit: set<Page>)
      requires i < ENTRIES && Names(phys, kernel, v, f) && v !in but
      requires Agrees(phys, kernel, Cache(tlb, stale, eager), but)
      requires f < |phys| && Steady(phys, kernel, but, f, i)
      requires fields != [] && forall x :: x in fields ==> FieldOk(x)
      modifies this`tlb, this`phys
      ensures kernel.dir < |old(phys)| && f < |old(phys)|
      ensures phys == Store(old(phys), f, i, AssignAll(EntryAt(old(phys), f, i), fields))
      ensures Agrees(phys, kernel, Cache(tlb, stale, eager), but) && Names(phys, kernel, v, f)
      ensures Held(eager, old(tlb), tlb, {})
      ensures speculative && |fields| >= 2 ==>
                (forall x :: x in fields[..1] ==> FieldOk(x)) &&
                Fetched(Store(old(phys), f, i, AssignAll(EntryAt(old(phys), f, i), fields[..1])), kernel, eager, tlb,
                        {})
      ensures Within(old(tlb), d, lit) && v.d != d ==>
                (speculative ==> LitStores(old(phys), kernel, f, i, fields, d, lit)) ==>
                  Within(tlb, d, lit)
    {
      hide Walk, SetEntry, EntryOf, Store, Steady, SameFor, Agrees, Names, Lit, Within, Fills, Held, Fetched;
      ghost var m := phys;
      NamesFrames(m, kernel, v, f);
      ghost var quiet := Within(tlb, d, lit) && v.d != d &&
        (speculative ==> LitStores(m, kernel, f, i, fields, d, lit));
      SameForSelf(m, kernel, but);
      HeldSelf(eager, tlb);
      for j := 0 to |fields|
        invariant |phys| == |m| && Names(phys, kernel, v, f) && Agrees(phys, kernel, Cache(tlb, stale, eager), but)
        invariant SameFor(m, phys, kernel, but) && Held(eager, old(tlb), tlb, {})
        invariant forall x :: x in fields[..j] ==> FieldOk(x)
        invariant phys == if j == 0 then m else Store(m, f, i, AssignAll(EntryAt(m, f, i), fields[..j]))
        invariant quiet ==> Within(tlb, d, lit)
        invariant speculative && j >= 2 ==>
                    (forall x :: x in fields[..1] ==> FieldOk(x)) &&
                    Fetched(Store(m, f, i, AssignAll(EntryAt(m, f, i), fields[..1])), kernel, eager, tlb, {})
      {
        assert fields[..j + 1][..j] == fields[..j];
        ghost var before := AssignAll(EntryAt(m, f, i), fields[..j]);
        ghost var after := AssignAll(EntryAt(m, f, i), fields[..j + 1]);
        if j > 0 {
          StoreAt(m, f, i, before, f, i);
          StoreTwice(m, f, i, before, after);
        }
        ghost var m1, t1 := phys, tlb;
        var e := LoadEntry(v, i, f, but);
        ghost var t2 := tlb;
        var frame := Mmu(v, f, but);
        TwoAccesses(speculative, m1, kernel, eager, old(tlb), t1, t2, tlb, v, d, lit);
        if speculative && j >= 2 {
          FetchedTwice(Store(m, f, i, AssignAll(EntryAt(m, f, i), fields[..1])), kernel, eager, t1, t2, tlb);
        }
        phys := Store(phys, frame, i, Assign(e, fields[j]));
        SteadyAt(m, kernel, but, f, i, after);
        Moved(m, m1, phys, kernel, Cache(tlb, stale, eager), but, v, f);
      }
      assert fields[..|fields|] == fields;
    }

    // ----- The temporary window -----

    /** Assignments to the window's entry, followed by a flush of its translation. */
    method SetWindow(fields: seq<Field>, ghost but: set<Page>, ghost d: nat, ghost lit: set<Page>)
      requires Ready(but) && Upper(but) && fields != [] && forall x :: x in fields ==> FieldOk(x)
      modifies this`tlb, this`phys
      ensures Ready(but) && WINDOW !in tlb
      ensures |phys| == |old(phys)| && kernel.pt1 < |phys| && kernel.dir < |phys|
      ensures SameWalks(old(phys), phys, spaces, {}) && DataKept(old(phys), phys, owner, {})
      ensures phys == Store(old(phys), kernel.pt1, 1023, AssignAll(EntryAt(old(phys), kernel.pt1, 1023), fields))
      ensures Walk(phys, kernel.dir, WINDOW) ==
              Through(SharedEntry(kernel.pt1), Leaf(EntryAt(phys, kernel.pt1, 1023)))
      ensures EntryAt(phys, kernel.pt1, 1023) == AssignAll(EntryAt(old(phys), kernel.pt1, 1023), fields)
      ensures Held(eager, old(tlb), tlb, {WINDOW})
      ensures speculative ==> Fetched(old(phys), kernel, eager, tlb, {WINDOW})
      ensures 2 <= d && Within(old(tlb), d, lit) && (speculative ==> Lit(old(phys), kernel, d, lit)) ==>
                Within(tlb, d, lit)
    {
      hide Walk, Store, Steady, AssignAll, EntryOf, TablesOwned, Upper, Agrees, Names, Fills, Within, Lit, Blank,
           LitStores, FrameAllocator.Used, Held, Fetched;
      ghost var m, t0 := phys, tlb;
      DirectPage(phys, kernel, but, kernel.dir);
      var directory := PageNo(kernel.dir);
      var link := LoadEntry(directory, 1, kernel.dir, but);
      ghost var t1 := tlb;
      FillsLit(m, kernel, speculative, t0, tlb, directory, d, lit);
      DirectPage(phys, kernel, but, kernel.pt1);
      var table := PageNo(link.frame);
      AgreesMore(m, kernel, Cache(tlb, stale, eager), but, but + {WINDOW});
      SteadyWindow(m, kernel, spaces, owner, but);
      if speculative && 2 <= d && Lit(m, kernel, d, lit) {
        LitWindow(m, kernel, spaces, owner, fields, d, lit);
      }
      ghost var e := AssignAll(EntryAt(m, kernel.pt1, 1023), fields);
      UpdateEntry(table, 1023, fields, kernel.pt1, but + {WINDOW}, d, lit);
      HeldTwice(eager, t0, t1, tlb, {});
      if speculative {
        FetchedHeld(m, kernel, eager, t1, tlb, {});
      }
      WindowStep(boot, m, kernel, spaces, owner, pmm.Used(), e);
      FlushAgrees(phys, kernel, Cache(tlb, stale, eager), but + {WINDOW}, but, WINDOW);
      FlushWithin(tlb, d, lit, WINDOW);
      FlushHeld(m, kernel, eager, t0, tlb, WINDOW);
      Invlpg(WINDOW);
    }

    /** vmm_map_to_temp_window, and the window of vmm_get_physical_address */
    method MapWindow(frame: nat, rw: bool, ghost but: set<Page>, ghost d: nat, ghost lit: set<Page>)
      requires Ready(but) && Upper(but) && frame < |phys| && frame < FRAMES
      modifies this`tlb, this`phys
      ensures Ready(but) && Names(phys, kernel, WINDOW, frame) && WINDOW !in tlb
      ensures |phys| == |old(phys)| && kernel.pt1 < |phys| && kernel.dir < |phys|
      ensures EntryAt(phys, kernel.pt1, 1023) ==
              EntryAt(old(phys), kernel.pt1, 1023).(present := true, rw := rw, frame := frame)
      ensures SameWalks(old(phys), phys, spaces, {}) && DataKept(old(phys), phys, owner, {})
      ensures phys == Store(old(phys), kernel.pt1, 1023, EntryAt(phys, kernel.pt1, 1023))
      ensures Held(eager, old(tlb), tlb, {WINDOW})
      ensures speculative ==> Fetched(old(phys), kernel, eager, tlb, {WINDOW})
      ensures 2 <= d && Within(old(tlb), d, lit) && (speculative ==> Lit(old(phys), kernel, d, lit)) ==>
                Within(tlb, d, lit)
    {
      hide Walk, Store, TablesOwned, DataKept, EntryAt, Agrees, Blank, Within, Lit, FrameAllocator.Used, Held, Fetched;
      WindowFields(EntryAt(phys, kernel.pt1, 1023), frame, rw);
      SetWindow([SetPresent(true), SetRw(rw), SetFrame(frame)], but, d, lit);
    }

    /** vmm_unmap_temp_window */
    method UnmapWindow(ghost but: set<Page>, ghost d: nat, ghost lit: set<Page>)
      requires Ready(but) && Upper(but)
      modifies this`tlb, this`phys
      ensures Ready(but) && WINDOW !in tlb && kernel.dir < |phys| && Walk(phys, kernel.dir, WINDOW) == NotPresent
      ensures |phys| == |old(phys)| && kernel.pt1 < |phys|
      ensures EntryAt(phys, kernel.pt1, 1023) == EntryAt(old(phys), kernel.pt1, 1023).(present := false)
      ensures SameWalks(old(phys), phys, spaces, {}) && DataKept(old(phys), phys, owner, {})
      ensures phys == Store(old(phys), kernel.pt1, 1023, EntryAt(phys, kernel.pt1, 1023))
      ensures Held(eager, old(tlb), tlb, {WINDOW})
      ensures 2 <= d && Within(old(tlb), d, lit) && (speculative ==> Lit(old(phys), kernel, d, lit)) ==>
                Within(tlb, d, lit)
    {
      hide Walk, Store, TablesOwned, DataKept, EntryAt, Agrees, Blank, Within, Lit, FrameAllocator.Used, Held, Fetched;
      UnmapFields(EntryAt(phys, kernel.pt1, 1023));
      SetWindow([SetPresent(false)], but, d, lit);
    }

    // ----- kmemset and kmemcpy -----

    /** kmemset over the first bytes of a page */
    method Memset(v: Page, val: Byte, count: nat, ghost f: nat, ghost but: set<Page>, ghost d: nat,
                  ghost lit: set<Page>)
      requires Names(phys, kernel, v, f) && Agrees(phys, kernel, Cache(tlb, stale, eager), but) && v !in but
      requires f < |phys| && SteadyData(phys, kernel, but, f) && count <= PAGE_SIZE
      modifies this`tlb, this`phys
      ensures kernel.dir < |old(phys)| && f < |old(phys)|
      ensures phys == Replaced(old(phys), f, Filled(old(phys)[f], Repeated(val, count)))
      ensures Agrees(phys, kernel, Cache(tlb, stale, eager), but) && Names(phys, kernel, v, f)
      ensures Held(eager, old(tlb), tlb, {})
      ensures Within(old(tlb), d, lit) && v.d != d ==>
                (speculative ==> LitFills(old(phys), kernel, f, Repeated(val, count), d, lit)) ==>
                  Within(tlb, d, lit)
    {
      hide Walk, SteadyData, SameFor, Agrees, Names, Lit, Within, Fills, Held, Fetched;
      ghost var m, src := phys, Repeated(val, count);
      NamesFrames(m, kernel, v, f);
      ghost var quiet := Within(tlb, d, lit) && v.d != d && (speculative ==> LitFills(m, kernel, f, src, d, lit));
      SameForSelf(m, kernel, but);
      HeldSelf(eager, tlb);
      assert Filled(m[f], src[..0]) == m[f];
      for i := 0 to count
        invariant |phys| == |m| && Names(phys, kernel, v, f) && Agrees(phys, kernel, Cache(tlb, stale, eager), but)
        invariant SameFor(m, phys, kernel, but) && Held(eager, old(tlb), tlb, {})
        invariant phys == Replaced(m, f, Filled(m[f], src[..i]))
        invariant quiet ==> Within(tlb, d, lit)
      {
        ghost var m1, t1 := phys, tlb;
        var frame := Mmu(v, f, but);
        HeldTwice(eager, old(tlb), t1, tlb, {});
        FillsLit(m1, kernel, speculative, t1, tlb, v, d, lit);
        FilledNext(m[f], src, i);
        phys := Replaced(phys, frame, phys[frame][i := val]);
        assert phys == Replaced(m, f, Filled(m[f], src[..i + 1]));
        SteadyDataAt(m, kernel, but, f, Filled(m[f], src[..i + 1]));
        Moved(m, m1, phys, kernel, Cache(tlb, stale, eager), but, v, f);
      }
      assert src[..count] == src;
    }

    /** kmemcpy of a buffer to the start of a page, one byte at a time */
    method Memcpy(src: seq<Byte>, v: Page, ghost f: nat, ghost but: set<Page>)
      requires Names(phys, kernel, v, f) && Agrees(phys, kernel, Cache(tlb, stale, eager), but) && v !in but
      requires f < |phys| && SteadyData(phys, kernel, but, f) && |src| <= PAGE_SIZE
      modifies this`tlb, this`phys
      ensures kernel.dir < |old(phys)| && f < |old(phys)|
      ensures phys == Replaced(old(phys), f, Filled(old(phys)[f], src))
      ensures Agrees(phys, kernel, Cache(tlb, stale, eager), but) && Names(phys, kernel, v, f)
    {
      hide Walk, SteadyData, SameFor, Agrees, Names, Fills, Held, Fetched;
      ghost var m := phys;
      NamesFrames(m, kernel, v, f);
      SameForSelf(m, kernel, but);
      assert Filled(m[f], src[..0]) == m[f];
      for i := 0 to |src|
        invariant |phys| == |m| && Names(phys, kernel, v, f) && Agrees(phys, kernel, Cache(tlb, stale, eager), but)
        invariant SameFor(m, phys, kernel, but)
        invariant phys == Replaced(m, f, Filled(m[f], src[..i]))
      {
        ghost var m1 := phys;
        var frame := Mmu(v, f, but);
        FilledNext(m[f], src, i);
        phys := Replaced(phys, frame, phys[frame][i := src[i]]);
        assert phys == Replaced(m, f, Filled(m[f], src[..i + 1]));
        SteadyDataAt(m, kernel, but, f, Filled(m[f], src[..i + 1]));
        Moved(m, m1, phys, kernel, Cache(tlb, stale, eager), but, v, f);
      }
      assert src[..|src|] == src;
    }

    // ----- Page tables through the window -----

    /** Writes entry p.t of the table that directory s has at p.d, through the window. */
    method WriteThroughWindow(table: nat, rw: bool, user: bool, frame: nat, p: Page, ghost s: nat)
      requires Ready({}) && s in spaces && Legal(p) && p.d >= 2 && frame < FRAMES && s < |phys|
      requires EntryAt(phys, s, p.d).present && EntryAt(phys, s, p.d).frame == table
      modifies this`tlb, this`phys
      ensures Ready({p}) && |phys| == |old(phys)|
      ensures SameWalks(old(phys), phys, spaces, {(s, p)}) && DataKept(old(phys), phys, owner, {})
      ensures Walk(phys, s, p) == Through(EntryAt(old(phys), s, p.d), Present(frame, rw, user))
    {
      hide Walk, Store, EntryAt, DataKept, TablesOwned, IdentityMapped, AssignAll, Mapping, Steady, Upper, Agrees,
           Names, Blank, Within, Lit, Held, Fetched, FrameAllocator.Used;
      ghost var m0 := phys;
      TableAt(phys, kernel, spaces, owner, s, p);
      NoneUpper();
      OneUpper(p);
      MapWindow(table, true, {}, ENTRIES, {});
      ghost var m1 := phys;
      MapStep(m0, m1, kernel, spaces, owner, s, p);
      MapFields(EntryAt(m1, table, p.t), rw, user, frame);
      MappingOk(rw, user, frame);
      AgreesMore(m1, kernel, Cache(tlb, stale, eager), {}, {p});
      UpdateEntry(WINDOW, p.t, Mapping(rw, user, frame), table, {p}, ENTRIES, {});
      ghost var m2, e := phys, Entry(true, rw, user, EntryAt(m1, table, p.t).reserved, frame);
      EntryStep(m1, kernel, spaces, owner, s, p, e);
      TableBlank(boot, m1, kernel, spaces, owner, pmm.Used(), table, p.t, e);
      UnmapWindow({p}, ENTRIES, {});
      ChainWrites(m0, m1, m2, phys, spaces, owner, s, p);
    }

    /** pmm_allocate_frame: a frame number, or 0 when memory is exhausted */
    method TakeFrame() returns (f: nat)
      requires Allocator()
      modifies pmm.frameBitmap.storage
      ensures Allocator() && Grows(old(pmm.Used()), pmm.Used(), 1)
      ensures f == 0 <==> |Free(phys, old(pmm.Used()))| == 0
      ensures f == 0 ==> pmm.Used() == old(pmm.Used()) && NoFrames(phys, pmm.Used())
      ensures f != 0 ==> f < |phys| && f < FRAMES && f !in old(pmm.Used()) && pmm.Used() == old(pmm.Used()) + {f}
      ensures f != 0 ==> f !in boot.reserved && forall g: nat :: g < f ==> g in pmm.Used()
      ensures f != 0 ==> |Free(phys, pmm.Used())| == |Free(phys, old(pmm.Used()))| - 1
    {
      hide FrameAllocator.Used, Allocate;
      AllocateExact(pmm.Used(), pmm.totalFrames);
      var addr := pmm.AllocateFrame();
      f := addr / PAGE_SIZE;
      FreeLess(phys, old(pmm.Used()), f);
      GrowsSelf(old(pmm.Used()), 1);
      GrowsOne(old(pmm.Used()), f);
    }

    /**
      The part of vmm_get_new_page that provides a table for directory entry d of the directory behind
      page sv: a fresh frame is linked and cleared, which translates nothing yet.  It fails exactly when
      there is no table and no frame.  What shows meanwhile may stay cached.
     */
    method EnsureTable(sv: Page, d: nat, rw: bool, user: bool, ghost s: nat) returns (ok: bool)
      requires Ready({}) && s in spaces && 2 <= d < ENTRIES
      requires Names(phys, kernel, sv, s) && sv != WINDOW && (s == kernel.dir ==> sv.d != d)
      modifies this`tlb, this`phys, this`owner, this`stale, pmm.frameBitmap.storage
      ensures Ready({}) && |phys| == |old(phys)| && SameWalks(old(phys), phys, spaces, {})
      ensures DataKept(old(phys), phys, old(owner), {s}) && s < |phys|
      ensures ok <==> EntryAt(old(phys), s, d).present || |Free(old(phys), old(pmm.Used()))| > 0
      ensures ok ==> EntryAt(phys, s, d).present && EntryAt(phys, s, d).frame < |phys|
      ensures ok ==>
                |Free(phys, pmm.Used())| ==
                |Free(old(phys), old(pmm.Used()))| - if EntryAt(old(phys), s, d).present then 0 else 1
      ensures ok ==> Linked(old(phys), phys, s, d, rw, user)
      ensures ok && !EntryAt(old(phys), s, d).present ==> EntryAt(phys, s, d).frame !in old(pmm.Used())
      ensures ok ==> stale == old(stale) + Exposes(speculative, old(phys), kernel, s, d, EntryAt(phys, s, d).frame)
      ensures !ok ==> phys == old(phys) && owner == old(owner) && pmm.Used() == old(pmm.Used()) && stale == old(stale)
      ensures !ok ==> NoFrames(phys, pmm.Used())
      ensures GrownBy(old(owner), owner, old(pmm.Used())) && Grows(old(pmm.Used()), pmm.Used(), 1)
    {
      hide Walk, Store, EntryAt, DataKept, TablesOwned, IdentityMapped, AssignAll, Mapping, Steady, Upper, Replaced,
           FrameAllocator.Used, SameWalks, Agrees, Names, Blank, Fills, Lit, Within, Held, Fetched, Shown, Under,
           Grows, Free, Linked;
      ghost var m0, used := phys, pmm.Used();
      NamesFrames(m0, kernel, sv, s);
      var e := LoadEntry(sv, d, s, {});
      SameSelf(m0, spaces, owner, {s});
      GrowsSelf(used, 1);
      if e.present {
        TableAt(m0, kernel, spaces, owner, s, Page(d, 0));
        LinkedAlready(m0, phys, s, d, rw, user);
        return true;
      }
      var table := TakeFrame();
      if table == 0 {
        return false;
      }
      ok := true;
      BlankMore(boot, m0, kernel, used, pmm.Used());
      FreshTable(sv, d, rw, user, table, s);
      FreeSame(m0, phys, pmm.Used());
    }

    /** A frame that was just taken becomes the cleared table of directory entry d. */
    method FreshTable(sv: Page, d: nat, rw: bool, user: bool, table: nat, ghost s: nat)
      requires Ready({}) && s in spaces && 2 <= d < ENTRIES && s < |phys| && !EntryAt(phys, s, d).present
      requires Names(phys, kernel, sv, s) && (s == kernel.dir ==> sv.d != d)
      requires table < |phys| && 0 < table < FRAMES && table !in owner && table in pmm.Used()
      requires table !in boot.reserved && (table >= 2047 ==> Low(pmm.Used()))
      modifies this`tlb, this`phys, this`owner, this`stale
      ensures Ready({}) && |phys| == |old(phys)| && SameWalks(old(phys), phys, spaces, {})
      ensures DataKept(old(phys), phys, old(owner), {s}) && owner == old(owner)[table := TableOf(s, d)]
      ensures EntryAt(phys, s, d).present && EntryAt(phys, s, d).frame == table
      ensures Linked(old(phys), phys, s, d, rw, user)
      ensures stale == old(stale) + Exposes(speculative, old(phys), kernel, s, d, table)
    {
      hide Walk, Store, EntryAt, DataKept, TablesOwned, IdentityMapped, AssignAll, Mapping, Steady, Upper, Replaced,
           FrameAllocator.Used, SameWalks, SameWalksOutside, Agrees, Names, Blank, Fills, Lit, Within, Held, Fetched,
           Shown, Under, Claimed, Linked, Exposed, Exposes;
      ghost var m0 := phys;
      LinkTable(sv, d, rw, user, table, s);
      ghost var m1 := phys;
      ClearTable(table, s, d, m0, old(owner));
      LinkedOnwards(m0, m1, phys, s, d, rw, user);
    }

    /** Links a fresh frame as the table of directory entry d; its old contents show until it is cleared. */
    method LinkTable(sv: Page, d: nat, rw: bool, user: bool, table: nat, ghost s: nat)
      requires Ready({}) && s in spaces && 2 <= d < ENTRIES && s < |phys| && !EntryAt(phys, s, d).present
      requires Names(phys, kernel, sv, s) && (s == kernel.dir ==> sv.d != d)
      requires table < |phys| && 0 < table < FRAMES && Unclaimed(owner, table) && table in pmm.Used()
      requires table !in boot.reserved && (table >= 2047 ==> Low(pmm.Used()))
      modifies this`tlb, this`phys, this`owner
      ensures Ready(if s == kernel.dir then Under(d) else {})
      ensures owner == old(owner)[table := TableOf(s, d)] && |phys| == |old(phys)|
      ensures SameWalksOutside(old(phys), phys, spaces, s, d) && DataKept(old(phys), phys, old(owner), {s})
      ensures EntryAt(phys, s, d).present && EntryAt(phys, s, d).frame == table && phys[table] == old(phys)[table]
      ensures Linked(old(phys), phys, s, d, rw, user)
      ensures s == kernel.dir ==>
                && Within(tlb, d, stale + Exposed(speculative, old(phys), d, table))
                && (speculative ==> forall p :: p in Shown(old(phys), 0, d) && p in eager ==> p in tlb)
    {
      hide Walk, Store, EntryAt, DataKept, TablesOwned, IdentityMapped, AssignAll, Mapping, Steady, Agrees,
           FrameAllocator.Used, SameWalksOutside, Within, Names, Blank, LitStores, Lit, Under, Held, Fetched, Shown,
           Linked;
      ghost var m := phys;
      ghost var e := Entry(true, rw, user, EntryAt(m, s, d).reserved, table);
      ghost var but := if s == kernel.dir then Under(d) else {};
      ghost var lit := stale + Exposed(speculative, m, d, table);
      SteadyDirectory(m, kernel, spaces, owner, s, d, but);
      NotUnder(sv, d);
      KernelFrames(m, kernel);
      MapFields(EntryAt(m, s, d), rw, user, table);
      MappingOk(rw, user, table);
      AgreesMore(m, kernel, Cache(tlb, stale, eager), {}, but);
      if s == kernel.dir {
        LinkStart(speculative, boot, m, kernel, spaces, owner, pmm.Used(), Cache(tlb, stale, eager), d, rw, user,
                  table);
      }
      UpdateEntry(sv, d, Mapping(rw, user, table), s, but, d, lit);
      if s == kernel.dir && speculative {
        LinkFetched(m, kernel, spaces, owner, boot, pmm.Used(), d, rw, user, table, eager, tlb);
      }
      owner := owner[table := TableOf(s, d)];
      LinkStep(m, kernel, spaces, old(owner), s, d, e);
      LinkBlank(boot, m, kernel, spaces, old(owner), pmm.Used(), s, d, e);
      SpaceHolds(m, kernel, spaces, old(owner), s);
      OtherFrames(m, s, d, e, table);
      LinkedStore(m, s, d, rw, user, table);
    }

    /** Clears a table that was just linked; what showed before may stay cached. */
    method ClearTable(table: nat, ghost s: nat, ghost d: nat, ghost m0: Phys, ghost owner0: Owners)
      requires Ready(if s == kernel.dir then Under(d) else {}) && s in spaces && 2 <= d < ENTRIES && s < |phys| == |m0|
      requires owner == owner0[table := TableOf(s, d)] && table !in owner0 && table < |phys| && table < FRAMES
      requires EntryAt(phys, s, d).present && EntryAt(phys, s, d).frame == table && !EntryAt(m0, s, d).present
      requires SameWalksOutside(m0, phys, spaces, s, d) && DataKept(m0, phys, owner0, {s}) && phys[table] == m0[table]
      requires s == kernel.dir ==>
                 && Within(tlb, d, stale + Exposed(speculative, m0, d, table))
                 && (speculative ==> forall p :: p in Shown(m0, 0, d) && p in eager ==> p in tlb)
      modifies this`tlb, this`phys, this`stale
      ensures Ready({}) && |phys| == |m0| && SameWalks(m0, phys, spaces, {}) && DataKept(m0, phys, owner0, {s})
      ensures EntryAt(phys, s, d).present && EntryAt(phys, s, d).frame == table && phys[s] == old(phys)[s]
      ensures stale == old(stale) + Exposes(speculative, m0, kernel, s, d, table)
    {
      hide Walk, Store, EntryAt, DataKept, TablesOwned, IdentityMapped, AssignAll, Agrees, Replaced, SteadyData,
           FrameAllocator.Used, SameWalksOutside, SameWalks, ZeroFrame, Names, Blank, Lit, Within,
           LitFills, Claimed, Under, Held, Fetched, Shown, Upper;
      ghost var m1, t1 := phys, tlb;
      ghost var but := if s == kernel.dir then Under(d) else {};
      ghost var more := Exposed(speculative, m0, d, table);
      ghost var lit := stale + more;
      NoneUpper();
      UnderUpper(d);
      if s == kernel.dir {
        LinkedShows(speculative, m0, m1, kernel, d, table, lit);
      }
      MapWindow(table, true, but, d, lit);
      ghost var m2, t2 := phys, tlb;
      MapKeepsLink(m1, m2, kernel, spaces, owner, s, d);
      SteadyTable(m2, kernel, spaces, owner, s, d, but);
      NotUnder(WINDOW, d);
      if s == kernel.dir && speculative {
        StillShows(m0, m1, m2, kernel, spaces, owner, d, table, lit);
      }
      Memset(WINDOW, 0, PAGE_SIZE, table, but, d, lit);
      FilledZero(m2[table]);
      ghost var m3, t3 := phys, tlb;
      ClearStep(m2, kernel, spaces, owner, s, d);
      ClearedBlank(boot, m2, kernel, spaces, owner, pmm.Used(), table, ZeroFrame());
      TableCleared(m2, table);
      KernelFrames(m3, kernel);
      if s == kernel.dir {
        ClearedDark(m3, kernel, d, table, lit);
      }
      UnmapWindow(but, d, lit);
      ClearChain(m0, m1, m2, m3, phys, kernel, spaces, owner0, owner, s, d);
      if s == kernel.dir {
        ExposedHeld(speculative, m0, m1, kernel, eager, t1, t2, t3, tlb, d, table);
        ClearedDark(phys, kernel, d, table, {});
        ExposedUnder(speculative, m0, d, table);
        AgreesStale(phys, kernel, Cache(tlb, stale, eager), d, more);
        stale := stale + more;
      }
    }

    // ----- vmm_get_new_page -----

    /**
      The search for a page without translation: the first one, directory entries 768 and 769 skipped.
      It stops exactly when it meets a table outside the direct map before such a page.
     */
    method FindSlot(sv: Page, ghost s: nat) returns (slot: Slot)
      requires Ready({}) && s in spaces && Names(phys, kernel, sv, s)
      modifies this`tlb
      ensures Ready({}) && s < |phys|
      ensures slot.Vacant? ==> Chosen(phys, s, Anywhere, slot.page)
      ensures slot.Full? ==> NoVacancy(phys, s) && forall e: nat :: SearchedEntry(e) ==> !WildTable(phys, s, e)
      ensures slot.Wild? <==> Stops(phys, s)
    {
      hide Walk, EntryAt, TablesOwned, IdentityMapped, Names, Agrees, Blank, FrameAllocator.Used, FirstVacant, StopsAt;
      SpaceHolds(phys, kernel, spaces, owner, s);
      for d := 2 to ENTRIES
        invariant Ready({})
        invariant forall q :: Searched(q) && q.d < d ==> Walk(phys, s, q).Present?
        invariant forall e: nat :: SearchedEntry(e) && e < d ==> !WildTable(phys, s, e)
      {
        if d != 768 && d != 769 {
          var e := ReadNamed(sv, d, s);
          AbsentWalk(phys, kernel, spaces, owner, s, d);
          if !e.present {
            VacantAt(phys, s, Page(d, 0));
            return Vacant(Page(d, 0));
          }
          if !DirectMapped(e.frame) {
            StopAt(phys, s, d);
            return Wild;
          }
          var t, vacant := ScanTable(e.frame, d, s);
          if vacant {
            VacantAt(phys, s, Page(d, t));
            return Vacant(Page(d, t));
          }
        }
      }
      NoStop(phys, s);
      slot := Full;
    }

    /** A load through a page that names frame f. */
    method ReadNamed(v: Page, i: nat, ghost f: nat) returns (e: Entry)
      requires Ready({}) && Names(phys, kernel, v, f) && i < ENTRIES
      modifies this`tlb
      ensures Ready({}) && f < |phys| && e == EntryAt(phys, f, i)
    {
      hide Walk, EntryAt, TablesOwned, IdentityMapped, FrameAllocator.Used;
      e := LoadEntry(v, i, f, {});
    }

    /** The scan of one table by its physical address. */
    method ScanTable(table: nat, d: nat, ghost s: nat) returns (t: nat, vacant: bool)
      requires Ready({}) && s in spaces && 2 <= d < ENTRIES && s < |phys| && DirectMapped(table)
      requires EntryAt(phys, s, d).present && EntryAt(phys, s, d).frame == table
      modifies this`tlb
      ensures Ready({})
      ensures vacant ==> t < ENTRIES && Walk(phys, s, Page(d, t)) == NotPresent
      ensures forall i: nat :: i < ENTRIES && (vacant ==> i < t) ==> Walk(phys, s, Page(d, i)).Present?
    {
      hide EntryAt, TablesOwned, IdentityMapped, Names, Agrees, FrameAllocator.Used;
      TableAt(phys, kernel, spaces, owner, s, Page(d, 0));
      t, vacant := 0, false;
      while t < ENTRIES
        invariant Ready({}) && t <= ENTRIES
        invariant forall i: nat :: i < t ==> Walk(phys, s, Page(d, i)).Present?
      {
        DirectNames(phys, kernel, table);
        var e := ReadNamed(PageNo(table), t, table);
        if !e.present {
          vacant := true;
          return;
        }
        t := t + 1;
      }
    }

    /**
      vmm_get_new_page on the directory named by page sv.  It succeeds exactly when a page is decided
      on and frames enough are left.  Then a frame that was free is mapped at the page, every other
      page of every address space translates as before, and what the new table showed may be cached
      without translation, the page itself apart.  On failure no translation changes; a frame leaks
      exactly when it was the last one and a table was needed too.
     */
    method GetNewPage(sv: Page, rw: bool, user: bool, explicit: Choice, ghost s: nat)
      returns (r: NewPage, ghost f: nat)
      requires Valid() && s in spaces && Names(phys, kernel, sv, s) && sv != WINDOW && (s == kernel.dir ==> sv.d < 2)
      requires explicit.Exactly? ==> Legal(explicit.page) && explicit.page.d >= 2
      modifies this`tlb, this`phys, this`owner, this`stale, pmm.frameBitmap.storage
      ensures Valid() && |phys| == |old(phys)| && DataKept(old(phys), phys, old(owner), {s}) && s < |phys|
      ensures r.Got? <==> Succeeds(old(phys), s, explicit, old(pmm.Used()))
      ensures r.WildAccess? <==> explicit.Anywhere? && Stops(old(phys), s)
      ensures r.WildAccess? ==> phys == old(phys)
      ensures !r.Got? ==> SameWalks(old(phys), phys, spaces, {}) && stale == old(stale) && owner == old(owner)
      ensures !r.Got? ==> AtMostOneMore(old(pmm.Used()), pmm.Used())
      ensures !r.Got? ==> (pmm.Used() != old(pmm.Used()) <==> Leaks(old(phys), s, explicit, old(pmm.Used())))
      ensures r.NoMemory? ==> NoFrames(phys, pmm.Used()) || (explicit.Anywhere? && NoVacancy(phys, s))
      ensures GrownBy(old(owner), owner, old(pmm.Used())) && Grows(old(pmm.Used()), pmm.Used(), 2)
      ensures r.Got? ==>
                && Legal(r.page) && r.page.d >= 2 && Gets(old(phys), s, explicit, old(pmm.Used()), r.page)
                && Linked(old(phys), phys, s, r.page.d, rw, user)
                && NewlyMapped(old(phys), phys, kernel, spaces, owner, old(pmm.Used()), pmm.Used(), s, r.page, f,
                               Through(EntryAt(phys, s, r.page.d), Present(f, rw, user)))
                && |Free(phys, pmm.Used())| == |Free(old(phys), old(pmm.Used()))| - Need(old(phys), s, r.page.d)
                && EntryAt(phys, s, r.page.d).frame < |phys|
                && (!EntryAt(old(phys), s, r.page.d).present ==> EntryAt(phys, s, r.page.d).frame !in old(pmm.Used()))
                && stale == old(stale)
                     + Exposes(speculative, old(phys), kernel, s, r.page.d, EntryAt(phys, s, r.page.d).frame)
                     - {r.page}
      ensures r.Got? && explicit.Anywhere? ==>
                LowestAt(old(phys), s, r.page, (r.page.d * 1024 + r.page.t) * 0x1000)
      ensures boot.clean && explicit.Anywhere? ==> stale <= old(stale)
    {
      hide Walk, EntryAt, TablesOwned, PagesOwned, IdentityMapped, Names, Agrees, FrameAllocator.Used, Blank, SameWalks,
           DataKept, LowestAt, FirstVacant, StopsAt, Stops, Exposes, Linked, Through;
      SameSelf(phys, spaces, owner, {s});
      SpaceHolds(phys, kernel, spaces, owner, s);
      ghost var m0, used := phys, pmm.Used();
      GrowsSelf(used, 2);
      f := 0;
      var slot := Vacant(if explicit.Exactly? then explicit.page else WINDOW);
      if explicit.Anywhere? {
        slot := FindSlot(sv, s);
        VacantLegal(phys, s, slot);
      }
      if !slot.Vacant? {
        NoChoice(m0, s, slot, used);
        r := if slot.Full? then NoMemory else WildAccess;
        return;
      }
      OneChoice(m0, s, explicit, slot.page, used);
      if explicit.Anywhere? {
        ChosenLowest(m0, s, slot.page);
      }
      var ok;
      ok, f := MapNewFrame(sv, slot.page, rw, user, s);
      r := if ok then Got(slot.page) else NoMemory;
      if ok && boot.clean && explicit.Anywhere? {
        StaleShrinks(speculative, boot, m0, kernel, used, s, slot.page, EntryAt(phys, s, slot.page.d).frame);
      }
    }

    /** The part of vmm_get_new_page after the choice of the page. */
    method MapNewFrame(sv: Page, target: Page, rw: bool, user: bool, ghost s: nat) returns (ok: bool, ghost f: nat)
      requires Valid() && s in spaces && Names(phys, kernel, sv, s) && sv != WINDOW && (s == kernel.dir ==> sv.d < 2)
      requires Legal(target) && target.d >= 2
      modifies this`tlb, this`phys, this`owner, this`stale, pmm.frameBitmap.storage
      ensures Valid() && |phys| == |old(phys)| && DataKept(old(phys), phys, old(owner), {s}) && s < |phys|
      ensures ok <==> Need(old(phys), s, target.d) <= |Free(old(phys), old(pmm.Used()))|
      ensures !ok ==> SameWalks(old(phys), phys, spaces, {}) && AtMostOneMore(old(pmm.Used()), pmm.Used())
      ensures !ok ==> (pmm.Used() == old(pmm.Used()) <==> |Free(old(phys), old(pmm.Used()))| == 0)
      ensures !ok ==> NoFrames(phys, pmm.Used()) && stale == old(stale) && owner == old(owner)
      ensures GrownBy(old(owner), owner, old(pmm.Used())) && Grows(old(pmm.Used()), pmm.Used(), 2)
      ensures ok ==> Linked(old(phys), phys, s, target.d, rw, user)
      ensures ok ==> NewlyMapped(old(phys), phys, kernel, spaces, owner, old(pmm.Used()), pmm.Used(), s, target, f,
                                 Through(EntryAt(phys, s, target.d), Present(f, rw, user)))
      ensures ok ==>
                && |Free(phys, pmm.Used())| == |Free(old(phys), old(pmm.Used()))| - Need(old(phys), s, target.d)
                && EntryAt(phys, s, target.d).frame < |phys|
                && (!EntryAt(old(phys), s, target.d).present ==> EntryAt(phys, s, target.d).frame !in old(pmm.Used()))
                && stale == old(stale)
                     + Exposes(speculative, old(phys), kernel, s, target.d, EntryAt(phys, s, target.d).frame)
                     - {target}
    {
      hide Walk, EntryAt, TablesOwned, PagesOwned, IdentityMapped, Names, Agrees, FrameAllocator.Used, Blank, SameWalks,
           DataKept, Exposes, Free, Grows, Claimed, Linked, Through;
      ghost var m0, used := phys, pmm.Used();
      f := 0;
      var frame;
      ok, frame := FrameAndTable(sv, target.d, rw, user, s);
      if !ok {
        return;
      }
      f := frame;
      ghost var m1, o1 := phys, owner;
      MapFresh(sv, target, rw, user, frame, s);
      LinkedOnwards(m0, m1, phys, s, target.d, rw, user);
      DataChain(m0, m1, phys, spaces, old(owner), o1, {(s, target)}, {s});
      FrameGrown(old(owner), o1, owner, used, frame);
    }

    /** A frame for the page, and then a table for directory entry d. */
    method FrameAndTable(sv: Page, d: nat, rw: bool, user: bool, ghost s: nat) returns (ok: bool, frame: nat)
      requires Valid() && s in spaces && Names(phys, kernel, sv, s) && sv != WINDOW && (s == kernel.dir ==> sv.d < 2)
      requires 2 <= d < ENTRIES
      modifies this`tlb, this`phys, this`owner, this`stale, pmm.frameBitmap.storage
      ensures Valid() && |phys| == |old(phys)| && DataKept(old(phys), phys, old(owner), {s}) && s < |phys|
      ensures SameWalks(old(phys), phys, spaces, {}) && GrownBy(old(owner), owner, old(pmm.Used()))
      ensures Grows(old(pmm.Used()), pmm.Used(), 2) && old(pmm.Used()) <= pmm.Used()
      ensures ok <==> Need(old(phys), s, d) <= |Free(old(phys), old(pmm.Used()))|
      ensures !ok ==> AtMostOneMore(old(pmm.Used()), pmm.Used()) && stale == old(stale) && owner == old(owner)
      ensures !ok ==> (pmm.Used() == old(pmm.Used()) <==> |Free(old(phys), old(pmm.Used()))| == 0)
      ensures !ok ==> NoFrames(phys, pmm.Used())
      ensures ok ==>
                && Names(phys, kernel, sv, s) && EntryAt(phys, s, d).present && EntryAt(phys, s, d).frame < |phys|
                && Linked(old(phys), phys, s, d, rw, user)
                && (!EntryAt(old(phys), s, d).present ==> EntryAt(phys, s, d).frame !in old(pmm.Used()))
                && stale == old(stale) + Exposes(speculative, old(phys), kernel, s, d, EntryAt(phys, s, d).frame)
                && |Free(phys, pmm.Used())| == |Free(old(phys), old(pmm.Used()))| - Need(old(phys), s, d)
                && frame < |phys| && 0 < frame < FRAMES && frame !in old(pmm.Used()) && frame in pmm.Used()
                && frame !in owner && frame !in boot.reserved && (frame >= 2047 ==> Low(pmm.Used()))
    {
      hide Walk, EntryAt, TablesOwned, PagesOwned, IdentityMapped, Names, Agrees, FrameAllocator.Used, Blank, SameWalks,
           DataKept, Exposes, Free, Grows, Linked;
      ghost var m0, used := phys, pmm.Used();
      SameSelf(phys, spaces, owner, {s});
      SpaceHolds(phys, kernel, spaces, owner, s);
      frame := TakeFrame();
      BlankMore(boot, m0, kernel, used, pmm.Used());
      ok := false;
      if frame == 0 {
        GrowsSelf(used, 2);
        return;
      }
      ghost var used1 := pmm.Used();
      ok := EnsureTable(sv, d, rw, user, s);
      GrowsTwice(used, used1, pmm.Used(), 1, 1);
      GrowsSubset(used1, pmm.Used(), 1);
      PagesKept(m0, phys, kernel, spaces, old(owner), owner);
      if !ok {
        assert pmm.Used() == used + {frame};
        return;
      }
      NamesKept(m0, phys, kernel, spaces, owner, sv, s);
    }

    /** Maps a page to a frame that was just taken. */
    method MapFresh(sv: Page, target: Page, rw: bool, user: bool, frame: nat, ghost s: nat)
      requires Valid() && s in spaces && Names(phys, kernel, sv, s) && Legal(target) && target.d >= 2
      requires s < |phys| && EntryAt(phys, s, target.d).present
      requires frame < |phys| && 0 < frame < FRAMES && frame in pmm.Used() && Unclaimed(owner, frame)
      requires frame !in boot.reserved && (frame >= 2047 ==> Low(pmm.Used()))
      modifies this`tlb, this`phys, this`owner, this`stale
      ensures Valid() && |phys| == |old(phys)| && DataKept(old(phys), phys, old(owner), {})
      ensures owner == old(owner)[frame := if s == kernel.dir then Spare else PageOf(s, target)]
      ensures Walk(phys, s, target) == Through(EntryAt(phys, s, target.d), Present(frame, rw, user))
      ensures SameWalks(old(phys), phys, spaces, {(s, target)}) && stale == old(stale) - {target}
      ensures EntryAt(phys, s, target.d) == EntryAt(old(phys), s, target.d) && phys[s] == old(phys)[s]
      ensures Free(phys, pmm.Used()) == Free(old(phys), pmm.Used())
    {
      hide Walk, EntryAt, TablesOwned, PagesOwned, IdentityMapped, Names, Agrees, FrameAllocator.Used, Blank, SameWalks,
           DataKept, Free;
      ghost var m1, o1 := phys, owner;
      var e := ReadNamed(sv, target.d, s);
      WriteThroughWindow(e.frame, rw, user, frame, target, s);
      KernelFrames(phys, kernel);
      FlushAgrees(phys, kernel, Cache(tlb, stale, eager), {target}, {}, target);
      Invlpg(target);
      stale := stale - {target};
      owner := owner[frame := if s == kernel.dir then Spare else PageOf(s, target)];
      SameDirectory(m1, phys, kernel, spaces, o1, s, target.d);
      FreeSame(m1, phys, pmm.Used());
      ClaimPage(m1, phys, kernel, spaces, o1, s, target, frame);
    }

    // ----- Tables through any page -----

    /** Assigns fields of entry p.t of the table that directory s has at p.d, through a page that names it. */
    method WriteVia(via: Page, table: nat, fields: seq<Field>, p: Page, ghost s: nat, ghost e: Entry)
      requires Ready({}) && s in spaces && Legal(p) && p.d >= 2 && s < |phys|
      requires EntryAt(phys, s, p.d).present && EntryAt(phys, s, p.d).frame == table < |phys|
      requires Names(phys, kernel, via, table) && via != WINDOW && (via.d < 2 || s != kernel.dir)
      requires fields != [] && (forall x :: x in fields ==> FieldOk(x))
      requires e == AssignAll(EntryAt(phys, table, p.t), fields)
      modifies this`tlb, this`phys
      ensures Ready({p}) && |phys| == |old(phys)|
      ensures SameWalks(old(phys), phys, spaces, {(s, p)}) && DataKept(old(phys), phys, owner, {})
      ensures Walk(phys, s, p) == Through(EntryAt(old(phys), s, p.d), Leaf(e))
      ensures EntryAt(phys, s, p.d) == EntryAt(old(phys), s, p.d) && phys == Store(old(phys), table, p.t, e)
    {
      hide Walk, Store, EntryAt, DataKept, TablesOwned, IdentityMapped, AssignAll, Steady, Agrees, Names, Blank,
           FrameAllocator.Used;
      ghost var m := phys;
      ghost var but := if s == kernel.dir then {p} else {};
      KernelFrames(m, kernel);
      TableAt(m, kernel, spaces, owner, s, p);
      SteadyVia(phys, kernel, spaces, owner, s, p, table, but);
      AgreesMore(m, kernel, Cache(tlb, stale, eager), {}, but);
      UpdateEntry(via, p.t, fields, table, but, ENTRIES, {});
      AgreesMore(phys, kernel, Cache(tlb, stale, eager), but, {p});
      EntryStep(m, kernel, spaces, owner, s, p, e);
      TableBlank(boot, m, kernel, spaces, owner, pmm.Used(), table, p.t, e);
    }

    /** vmm_free_page; false exactly where it would follow a table outside the direct map */
    method FreePage(sv: Page, v: Page, ghost s: nat) returns (ok: bool)
      requires Valid() && s in spaces && Names(phys, kernel, sv, s) && Legal(v) && v.d >= 2
      modifies this`tlb, this`phys, this`stale
      ensures Valid() && |phys| == |old(phys)| && DataKept(old(phys), phys, owner, {}) && s < |phys|
      ensures SameWalks(old(phys), phys, spaces, {(s, v)}) && stale <= old(stale)
      ensures ok <==> !WildTable(old(phys), s, v.d)
      ensures ok ==> Walk(phys, s, v) == NotPresent
      ensures ok && EntryAt(old(phys), s, v.d).present ==>
                var t := EntryAt(old(phys), s, v.d).frame;
                t < |old(phys)| &&
                phys == Store(old(phys), t, v.t, EntryAt(old(phys), t, v.t).(present := false, frame := 0))
      ensures !ok || !EntryAt(old(phys), s, v.d).present ==> phys == old(phys)
    {
      hide Walk, DataKept, TablesOwned, IdentityMapped, AssignAll, Agrees, Names, PagesOwned, FrameAllocator.Used,
           Blank, SameWalks, EntryOf;
      SameSelf(phys, spaces, owner, {});
      SameMore(phys, phys, spaces, {(s, v)});
      var e := ReadNamed(sv, v.d, s);
      AbsentWalk(phys, kernel, spaces, owner, s, v.d);
      if !e.present {
        assert Walk(phys, s, Page(v.d, v.t)) == NotPresent;
        return true;
      }
      if !DirectMapped(e.frame) {
        assert WildTable(phys, s, v.d);
        return false;
      }
      ok := true;
      TableAt(phys, kernel, spaces, owner, s, v);
      FreeFields(EntryAt(phys, e.frame, v.t));
      ghost var m := phys;
      DirectNames(phys, kernel, e.frame);
      WriteVia(PageNo(e.frame), e.frame, [SetPresent(false), SetFrame(0)], v, s,
               EntryAt(phys, e.frame, v.t).(present := false, frame := 0));
      KernelFrames(phys, kernel);
      FlushAgrees(phys, kernel, Cache(tlb, stale, eager), {v}, {}, v);
      Invlpg(v);
      stale := stale - {v};
      DropPage(m, phys, kernel, spaces, owner, s, v);
    }

    /**
      vmm_get_physical_address, as a frame number: 0 without a table, otherwise whatever the entry of
      the page holds, present or not.
     */
    method GetPhysicalAddress(sv: Page, v: Page, ghost s: nat) returns (frame: nat)
      requires Valid() && s in spaces && Names(phys, kernel, sv, s) && Legal(v) && sv != WINDOW
      modifies this`tlb, this`phys
      ensures Valid() && |phys| == |old(phys)| && s < |phys|
      ensures SameWalks(old(phys), phys, spaces, {}) && DataKept(old(phys), phys, owner, {})
      ensures Walk(phys, s, v).Present? ==> frame == Walk(phys, s, v).frame
      ensures !EntryAt(old(phys), s, v.d).present ==> frame == 0 && phys == old(phys)
      ensures EntryAt(old(phys), s, v.d).present ==>
                && EntryAt(old(phys), s, v.d).frame < |phys| && kernel.pt1 < |phys|
                && frame == EntryAt(phys, EntryAt(old(phys), s, v.d).frame, v.t).frame
                && EntryAt(phys, kernel.pt1, 1023) ==
                   EntryAt(old(phys), kernel.pt1, 1023).(present := false, rw := false,
                                                         frame := EntryAt(old(phys), s, v.d).frame)
    {
      hide Walk, DataKept, TablesOwned, IdentityMapped, Agrees, Names, PagesOwned, FrameAllocator.Used, Blank,
           SameWalks, EntryAt, Store, Upper, Blank;
      ghost var m := phys;
      SameSelf(phys, spaces, owner, {});
      var e := ReadNamed(sv, v.d, s);
      AbsentWalk(phys, kernel, spaces, owner, s, v.d);
      SpaceHolds(phys, kernel, spaces, owner, s);
      if !e.present {
        assert Walk(phys, s, Page(v.d, v.t)) == NotPresent;
        return 0;
      }
      TableAt(phys, kernel, spaces, owner, s, v);
      NoneUpper();
      MapWindow(e.frame, false, {}, ENTRIES, {});
      MapKeepsLink(m, phys, kernel, spaces, owner, s, v.d);
      var leaf := ReadNamed(WINDOW, v.t, e.frame);
      frame := leaf.frame;
      KernelFrames(phys, kernel);
      LeafWalk(phys, s, v);
      ghost var m1 := phys;
      UnmapWindow({}, ENTRIES, {});
      WindowFrames(m1, phys, kernel, e.frame, v.t);
      DataChain(m, m1, phys, spaces, owner, owner, {}, {});
      PagesKept(m, phys, kernel, spaces, owner, owner);
      WalkKept(m1, phys, spaces, s, v);
      WindowShared(phys, kernel, spaces, owner, s);
    }

    // ----- Data pages -----

    /** kmemset of a whole page of data to 0 */
    method ClearPage(v: Page, ghost f: nat)
      requires Valid() && Names(phys, kernel, v, f) && v != WINDOW && f in owner && !HoldsEntries(owner, f)
      modifies this`tlb, this`phys
      ensures Valid() && SameWalks(old(phys), phys, spaces, {}) && Names(phys, kernel, v, f)
      ensures phys == Replaced(old(phys), f, ZeroFrame())
    {
      hide Walk, TablesOwned, IdentityMapped, Agrees, PagesOwned, FrameAllocator.Used, Blank, SameWalks, EntryAt,
           SteadyData, Replaced, ZeroFrame, Names, Blank;
      ghost var m := phys;
      NamesFrames(m, kernel, v, f);
      SteadyPage(phys, kernel, spaces, owner, f);
      Memset(v, 0, PAGE_SIZE, f, {}, ENTRIES, {});
      FilledZero(m[f]);
      DataStep(m, kernel, spaces, owner, f, ZeroFrame());
      BlankReplaced(boot, m, kernel, owner, pmm.Used(), f, ZeroFrame());
    }

    /** kmemcpy of a buffer to the start of a page of data */
    method CopyToPage(src: seq<Byte>, v: Page, ghost f: nat)
      requires Valid() && Names(phys, kernel, v, f) && v != WINDOW && f in owner
      requires !HoldsEntries(owner, f) && |src| <= PAGE_SIZE
      modifies this`tlb, this`phys
      ensures Valid() && SameWalks(old(phys), phys, spaces, {}) && Names(phys, kernel, v, f)
      ensures phys == Replaced(old(phys), f, Filled(old(phys)[f], src))
    {
      hide Walk, TablesOwned, IdentityMapped, Agrees, PagesOwned, FrameAllocator.Used, Blank, SameWalks, EntryAt,
           SteadyData, Replaced, Names, Blank;
      ghost var m := phys;
      NamesFrames(m, kernel, v, f);
      SteadyPage(phys, kernel, spaces, owner, f);
      Memcpy(src, v, f, {});
      DataStep(m, kernel, spaces, owner, f, Filled(m[f], src));
      BlankReplaced(boot, m, kernel, owner, pmm.Used(), f, Filled(m[f], src));
    }

    /** A store of a 32-bit word to a page of data */
    method StoreWord(v: Page, a: nat, val: nat, ghost f: nat)
      requires Valid() && Names(phys, kernel, v, f) && v != WINDOW && f in owner && !HoldsEntries(owner, f)
      requires a + 4 <= PAGE_SIZE && val < U32
      modifies this`tlb, this`phys
      ensures Valid() && SameWalks(old(phys), phys, spaces, {}) && Names(phys, kernel, v, f)
      ensures phys == Replaced(old(phys), f, SetWord(old(phys)[f], a, val))
    {
      hide Walk, TablesOwned, IdentityMapped, Agrees, PagesOwned, FrameAllocator.Used, Blank, SameWalks, EntryAt,
           SetWord;
      ghost var m := phys;
      NamesFrames(m, kernel, v, f);
      SteadyPage(phys, kernel, spaces, owner, f);
      var frame := Mmu(v, f, {});
      phys := Replaced(phys, frame, SetWord(phys[frame], a, val));
      SteadyDataAt(m, kernel, {}, f, SetWord(m[f], a, val));
      SameForSelf(m, kernel, {});
      Moved(m, m, phys, kernel, Cache(tlb, stale, eager), {}, v, f);
      DataStep(m, kernel, spaces, owner, f, SetWord(m[f], a, val));
      BlankReplaced(boot, m, kernel, owner, pmm.Used(), f, SetWord(m[f], a, val));
    }

    // ----- vmm_map_frame -----

    /** A vacant page of the kernel's on a fresh frame, cleared; the frame is read back from the tables. */
    method ClearedPage(sv: Page, ghost s: nat) returns (r: NewPage, table: nat)
      requires Valid() && s in spaces && s != kernel.dir && s < |phys| && Names(phys, kernel, sv, s) && sv != WINDOW
      modifies this`tlb, this`phys, this`owner, this`stale, pmm.frameBitmap.storage
      ensures Valid() && |phys| == |old(phys)| && DataKept(old(phys), phys, old(owner), {kernel.dir})
      ensures kernel.dir < |phys| && GrownBy(old(owner), owner, old(pmm.Used()))
      ensures Grows(old(pmm.Used()), pmm.Used(), 2)
      ensures !r.Got? ==> SameWalks(old(phys), phys, spaces, {})
      ensures r.NoMemory? ==> NoFrames(phys, pmm.Used()) || NoVacancy(phys, kernel.dir)
      ensures r.Got? <==> Succeeds(old(phys), kernel.dir, Anywhere, old(pmm.Used()))
      ensures r.WildAccess? <==> Stops(old(phys), kernel.dir)
      ensures r.WildAccess? ==> phys == old(phys)
      ensures boot.clean ==> stale <= old(stale)
      ensures r.Got? ==>
                && KernelWindows(old(phys), kernel, {(kernel.dir, r.page)}) && r.page != WINDOW
                && SameWalks(old(phys), phys, spaces, {(kernel.dir, r.page)})
                && Names(phys, kernel, r.page, table) && Names(phys, kernel, sv, s)
                && table < |phys| && 0 < table < FRAMES && table in owner && owner[table] == Spare
                && phys[table] == ZeroFrame() && table !in old(owner)
                && Linked(old(phys), phys, kernel.dir, r.page.d, true, false)
                && Walk(phys, kernel.dir, r.page) ==
                   Through(EntryAt(phys, kernel.dir, r.page.d), Present(table, true, false))
      ensures phys[s] == old(phys)[s]
    {
      hide Walk, DataKept, TablesOwned, IdentityMapped, Agrees, Names, PagesOwned, FrameAllocator.Used, Blank,
           SameWalks, EntryAt, KernelWindows, Stops, Succeeds, Leaks, Exposes, ZeroFrame, NoFrames, NoVacancy, Linked,
           LowestAt;
      table := 0;
      ghost var m0 := phys;
      KernelNames(phys, kernel, spaces, owner);
      ghost var f;
      r, f := GetNewPage(PageNo(kernel.dir), true, false, Anywhere, kernel.dir);
      DirectoryKept(m0, phys, kernel, spaces, old(owner), s, {kernel.dir});
      if !r.Got? {
        return;
      }
      ghost var m1 := phys;
      OneWindow(m0, kernel, r.page);
      NewNames(m0, phys, kernel, spaces, owner, old(pmm.Used()), pmm.Used(), sv, s, r.page, f,
               Walk(phys, kernel.dir, r.page));
      ClearPage(r.page, f);
      ghost var m2 := phys;
      KernelNames(phys, kernel, spaces, owner);
      table := GetPhysicalAddress(PageNo(kernel.dir), r.page, kernel.dir);
      StillMapped(m0, m1, m2, phys, kernel, spaces, owner, r.page, f);
      FilledWindow(m0, m1, m2, phys, kernel, spaces, old(owner), owner, sv, s, r.page, f, ZeroFrame());
      assert f in owner.Keys && f !in old(owner).Keys;
    }

    /**
      The part of vmm_map_frame that builds a table for directory entry d of a process: a page of the
      kernel's is mapped to a fresh frame, cleared, and the frame linked.  The kernel keeps the page.
     */
    method NewTableWindow(sv: Page, d: nat, user: bool, ghost s: nat)
      returns (r: Status, via: Page, table: nat, ghost but: set<(nat, Page)>)
      requires Valid() && s in spaces && s != kernel.dir && Names(phys, kernel, sv, s) && sv != WINDOW
      requires 2 <= d < ENTRIES && s < |phys| && !EntryAt(phys, s, d).present
      modifies this`tlb, this`phys, this`owner, this`stale, pmm.frameBitmap.storage
      ensures Valid() && |phys| == |old(phys)| && DataKept(old(phys), phys, old(owner), {kernel.dir, s})
      ensures KernelWindows(old(phys), kernel, but) && SameWalks(old(phys), phys, spaces, but)
      ensures Kept(old(owner), owner) && SparesKept(old(owner), owner) && Grows(old(pmm.Used()), pmm.Used(), 2)
      ensures |but| <= 1
      ensures WindowsHold(phys, kernel, owner, but)
      ensures r.Failed? ==> NoFrames(phys, pmm.Used()) || NoVacancy(phys, kernel.dir)
      ensures r.Done? <==> Succeeds(old(phys), kernel.dir, Anywhere, old(pmm.Used()))
      ensures !r.Done? ==> phys[s] == old(phys)[s]
      ensures r.Astray? <==> Stops(old(phys), kernel.dir)
      ensures r.Astray? ==> phys == old(phys)
      ensures boot.clean ==> stale <= old(stale)
      ensures r.Done? ==>
                && EntryAt(phys, s, d).present && EntryAt(phys, s, d).frame == table < |phys|
                && Linked(old(phys), phys, s, d, true, user)
                && Names(phys, kernel, via, table) && via != WINDOW
    {
      hide Walk, DataKept, TablesOwned, IdentityMapped, Agrees, Names, PagesOwned, FrameAllocator.Used, Blank,
           SameWalks, EntryAt, KernelWindows, WindowsHold, Stops, Succeeds, NoFrames, NoVacancy, ZeroFrame, GrownBy,
           Kept, SparesKept, Linked;
      but, via := {}, sv;
      ghost var m0, o0 := phys, owner;
      KernelFrames(phys, kernel);
      NoWindows(m0, kernel);
      var page;
      page, table := ClearedPage(sv, s);
      GrownKept(o0, owner, old(pmm.Used()));
      if !page.Got? {
        DataMore(m0, phys, o0, {kernel.dir}, {kernel.dir, s});
        NoneHold(phys, kernel, owner);
        return if page.NoMemory? then Failed else Astray, via, table, but;
      }
      via := page.page;
      but := {(kernel.dir, via)};
      ghost var m3, o1 := phys, owner;
      SameBytes(m0, m3, s, d);
      LinkTable(sv, d, true, user, table, s);
      LinkedLater(m0, m3, phys, s, d, true, user);
      LinkedKept(o0, o1, table, s, d);
      LinkedEmpty(m3, phys, kernel, spaces, o1, owner, s, d, via, table);
      GrownSame(o0, o1, old(pmm.Used()));
      ChainKernel(m0, m3, phys, kernel, spaces, o0, o1, via, s);
      WindowHolds(phys, kernel, spaces, owner, via, table);
      r := Done;
    }

    /**
      The part of vmm_map_frame that finds the table for directory entry d, by its physical address, or
      builds one.
     */
    method TableFor(sv: Page, d: nat, user: bool, ghost s: nat)
      returns (r: Status, via: Page, table: nat, ghost but: set<(nat, Page)>)
      requires Valid() && s in spaces && Names(phys, kernel, sv, s) && sv != WINDOW && s < |phys| && 2 <= d < ENTRIES
      requires s == kernel.dir ==> EntryAt(phys, s, d).present
      modifies this`tlb, this`phys, this`owner, this`stale, pmm.frameBitmap.storage
      ensures Valid() && |phys| == |old(phys)| && DataKept(old(phys), phys, old(owner), {kernel.dir, s})
      ensures KernelWindows(old(phys), kernel, but) && SameWalks(old(phys), phys, spaces, but)
      ensures Kept(old(owner), owner) && SparesKept(old(owner), owner) && Grows(old(pmm.Used()), pmm.Used(), 2)
      ensures |but| <= 1
      ensures WindowsHold(phys, kernel, owner, but) && (s == kernel.dir ==> but == {})
      ensures r.Failed? ==> NoFrames(phys, pmm.Used()) || NoVacancy(phys, kernel.dir)
      ensures r.Done? <==> Mappable(old(phys), kernel, old(pmm.Used()), s, d)
      ensures !r.Done? ==> phys[s] == old(phys)[s]
      ensures r.Astray? <==>
                if EntryAt(old(phys), s, d).present then WildTable(old(phys), s, d) else Stops(old(phys), kernel.dir)
      ensures r.Astray? ==> phys == old(phys)
      ensures boot.clean ==> stale <= old(stale)
      ensures r.Done? ==>
                && EntryAt(phys, s, d).present && EntryAt(phys, s, d).frame == table < |phys|
                && Linked(old(phys), phys, s, d, true, user)
                && Names(phys, kernel, via, table) && via != WINDOW && (s == kernel.dir ==> via.d < 2)
    {
      hide Walk, DataKept, TablesOwned, IdentityMapped, Agrees, Names, PagesOwned, FrameAllocator.Used, Blank,
           SameWalks, EntryAt, KernelWindows, WindowsHold, Stops, Succeeds, Linked;
      but, r := {}, Done;
      GrowsSelf(pmm.Used(), 2);
      SameSelf(phys, spaces, owner, {kernel.dir, s});
      KernelFrames(phys, kernel);
      NoWindows(phys, kernel);
      NoneHold(phys, kernel, owner);
      var e := ReadNamed(sv, d, s);
      via, table := sv, e.frame;
      if !e.present {
        r, via, table, but := NewTableWindow(sv, d, user, s);
      } else if !DirectMapped(e.frame) {
        r := Astray;
      } else {
        TableAt(phys, kernel, spaces, owner, s, Page(d, 0));
        DirectNames(phys, kernel, e.frame);
        LinkedAlready(phys, phys, s, d, true, user);
        via := PageNo(e.frame);
      }
    }

    /**
      vmm_map_frame on the directory named by page sv.  On success page v translates to the frame and,
      apart from the kernel page through which a new table is reached, every other page of every address
      space translates as before; the frame then belongs to page v.
     */
    method MapFrame(sv: Page, v: Page, frame: nat, rw: bool, user: bool, ghost s: nat)
      returns (r: Status, ghost but: set<(nat, Page)>)
      requires Valid() && s in spaces && Names(phys, kernel, sv, s) && sv != WINDOW && s < |phys|
      requires s == kernel.dir ==> v.d < ENTRIES && EntryAt(phys, s, v.d).present
      requires Legal(v) && v.d >= 2 && frame < FRAMES && frame < |phys| && frame in owner && owner[frame] == Spare
      modifies this`tlb, this`phys, this`owner, this`stale, pmm.frameBitmap.storage
      ensures Valid() && |phys| == |old(phys)| && DataKept(old(phys), phys, old(owner), {kernel.dir, s})
      ensures KernelWindows(old(phys), kernel, but) && Grows(old(pmm.Used()), pmm.Used(), 2)
      ensures SameWalks(old(phys), phys, spaces, {(s, v)} + but) && Kept(old(owner), owner)
      ensures |but| <= 1
      ensures WindowsHold(phys, kernel, owner, but)
      ensures r.Failed? ==> NoFrames(phys, pmm.Used()) || NoVacancy(phys, kernel.dir)
      ensures r.Done? <==> Mappable(old(phys), kernel, old(pmm.Used()), s, v.d)
      ensures r.Astray? <==>
                if EntryAt(old(phys), s, v.d).present then WildTable(old(phys), s, v.d)
                else Stops(old(phys), kernel.dir)
      ensures r.Astray? ==> phys == old(phys)
      ensures boot.clean ==> stale <= old(stale)
      ensures r.Done? ==> Linked(old(phys), phys, s, v.d, true, user)
      ensures r.Done? ==> Walk(phys, s, v) == Through(EntryAt(phys, s, v.d), Present(frame, rw, user))
      ensures r.Done? ==> owner[frame] == if s == kernel.dir then Spare else PageOf(s, v)
      ensures !r.Done? ==> SameWalks(old(phys), phys, spaces, but) && owner[frame] == Spare && phys[s] == old(phys)[s]
    {
      hide Walk, DataKept, TablesOwned, IdentityMapped, Agrees, Names, PagesOwned, FrameAllocator.Used, Blank,
           SameWalks, EntryAt, KernelWindows, WindowsHold, Stops, Succeeds, Mappable, WildTable, NoFrames, NoVacancy,
           Linked, Through;
      ghost var m0 := phys;
      var via, table;
      r, via, table, but := TableFor(sv, v.d, user, s);
      if !r.Done? {
        SameBeyond(m0, phys, spaces, but, {(s, v)});
        return;
      }
      ghost var m1, o1 := phys, owner;
      KernelNames(m1, kernel, spaces, o1);
      PutLeaf(via, table, v, frame, rw, user, s);
      LinkedOnwards(m0, m1, phys, s, v.d, true, user);
      WindowsUpper(m0, kernel, but);
      if s == kernel.dir {
        NoneHold(phys, kernel, owner);
      } else {
        WindowsHoldKept(m1, phys, kernel, spaces, o1, owner, but, s, v, frame);
      }
      ChainFrame(m0, m1, phys, spaces, old(owner), o1, owner, but, s, v, kernel.dir, frame);
    }

    /** Writes the entry of a page and records the frame's owner. */
    method PutLeaf(via: Page, table: nat, v: Page, frame: nat, rw: bool, user: bool, ghost s: nat)
      requires Valid() && s in spaces && Legal(v) && v.d >= 2 && s < |phys| && (s == kernel.dir ==> via.d < 2)
      requires EntryAt(phys, s, v.d).present && EntryAt(phys, s, v.d).frame == table < |phys|
      requires Names(phys, kernel, via, table) && via != WINDOW
      requires frame < FRAMES && frame < |phys| && frame in owner && owner[frame] == Spare
      modifies this`tlb, this`phys, this`owner, this`stale
      ensures stale <= old(stale)
      ensures Valid() && |phys| == |old(phys)| && DataKept(old(phys), phys, old(owner), {})
      ensures SameWalks(old(phys), phys, spaces, {(s, v)})
      ensures owner == old(owner)[frame := if s == kernel.dir then Spare else PageOf(s, v)]
      ensures Walk(phys, s, v) == Through(EntryAt(phys, s, v.d), Present(frame, rw, user)) && phys[s] == old(phys)[s]
    {
      hide Walk, DataKept, TablesOwned, IdentityMapped, Agrees, Names, PagesOwned, FrameAllocator.Used, Blank,
           SameWalks, EntryAt, AssignAll, Mapping;
      ghost var m, o := phys, owner;
      ghost var e := Entry(true, rw, user, EntryAt(m, table, v.t).reserved, frame);
      MapFields(EntryAt(m, table, v.t), rw, user, frame);
      MappingOk(rw, user, frame);
      WriteVia(via, table, Mapping(rw, user, frame), v, s, e);
      KernelFrames(phys, kernel);
      FlushAgrees(phys, kernel, Cache(tlb, stale, eager), {v}, {}, v);
      Invlpg(v);
      stale := stale - {v};
      owner := owner[frame := if s == kernel.dir then Spare else PageOf(s, v)];
      SameDirectory(m, phys, kernel, spaces, o, s, v.d);
      ClaimPage(m, phys, kernel, spaces, o, s, v, frame);
    }
  }
}
