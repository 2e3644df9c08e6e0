/**
  Small machines on which the memory manager leaks a frame, leaves a stale translation, or goes astray.
  They are states of the memory manager after paging_init, with the bitmap at the end of the reserved
  frames; kernel_main, which puts the bitmap at 4 MB, does not reach them.
 */
module Witnesses {
  import opened ByteWords
  import opened Tables
  import opened AddressSpaces
  import opened Bitmaps
  import opened Frames
  import opened PageMapping
  import opened Vmm
  import opened BootLayout
  import opened Startup

  /** A machine after paging_init: the first frames reserved, three taken, all memory with the same contents before. */
  method Booted(reserved: nat, total: nat, contents: Frame, speculative: bool, eager: set<Page>) returns (m: Machine)
    requires 0 < reserved && reserved + 3 <= 2047 && reserved + 3 <= total < 4096 && 4 * Words(total) <= reserved * 4096
    ensures fresh(m) && fresh(m.pmm) && fresh(m.pmm.frameBitmap) && fresh(m.pmm.frameBitmap.storage)
    ensures m.Valid() && m.pmm.Valid() && m.kernel == Kernel(reserved, reserved + 1, reserved + 2)
    ensures m.owner.Keys == {reserved, reserved + 1, reserved + 2}
    ensures m.spaces == {reserved} && m.stale == {} && m.speculative == speculative && m.eager == eager
    ensures m.pmm.Used() == Below(reserved + 3)
    ensures |m.phys| == total && forall d: nat :: 2 <= d < ENTRIES ==> EntryAt(m.phys, reserved, d) == NO_ENTRY
    ensures forall f :: 0 <= f < total && !(reserved <= f < reserved + 3) ==> m.phys[f] == contents
  {
    hide Boots, Machine.Valid, Walk, Legal, FrameAllocator.Used, EntryAt, Words, Below;
    assert FramesIn(total * 4096) == total;
    var storage := new bv32[Words(total)];
    var bitmapStart := reserved * 4096 - 4 * Words(total);
    assert BitmapEnd(bitmapStart, total) == reserved * 4096 && FrameOf(reserved * 4096) == reserved;
    var pmm := ReservedPmm(total * 4096, storage, bitmapStart);
    BootsAt(reserved, total);
    m := new Machine(pmm, seq(total, _ => contents), Sections(0, 0, 0), speculative, eager, false);
    BootsOne(Below(reserved), total, m.kernel, Kernel(reserved, reserved + 1, reserved + 2));
    assert Below(reserved) + {reserved, reserved + 1, reserved + 2} == Below(reserved + 3);
  }

  /** On a freshly booted machine the search finds the first page under entry 2. */
  lemma FirstPage(m: Phys, dir: nat, used: set<nat>)
    requires dir < |m| && EntryAt(m, dir, 2) == NO_ENTRY
    ensures Chosen(m, dir, Anywhere, Page(2, 0)) && !Stops(m, dir)
    ensures forall q :: Chosen(m, dir, Anywhere, q) ==> q == Page(2, 0)
    ensures Succeeds(m, dir, Anywhere, used) <==> |Free(m, used)| >= 2
    ensures Leaks(m, dir, Anywhere, used) <==> |Free(m, used)| == 1
  {
    OneChoice(m, dir, Anywhere, Page(2, 0), used);
  }

  lemma Reachable(m: Machine)
    requires m.Valid()
    ensures m.kernel.dir in m.spaces && Names(m.phys, m.kernel, PageNo(m.kernel.dir), m.kernel.dir)
    ensures PageNo(m.kernel.dir) != WINDOW && PageNo(m.kernel.dir).d < 2
  {
    KernelNames(m.phys, m.kernel, m.spaces, m.owner);
  }

  /**
    With one frame left and no table for the page, vmm_get_new_page fails and the frame is gone: it
    is in use and belongs to nothing.
   */
  method LeakExample() returns (m: Machine, r: NewPage, ghost leaked: nat, ghost phys: Phys, ghost used: set<nat>)
    ensures m.Valid() && r == NoMemory && Leaks(phys, m.kernel.dir, Anywhere, used)
    ensures SameWalks(phys, m.phys, m.spaces, {}) && m.pmm.Used() == used + {leaked}
    ensures leaked < |m.phys| && leaked !in used && leaked !in m.owner
  {
    hide Machine.Valid, EntryAt, Walk, Leaks, Succeeds, Stops, Chosen, Free, FrameAllocator.Used, Names, NewlyMapped,
         SameWalks, DataKept, Gets;
    m := Booted(1, 5, ZeroFrame(), false, {});
    phys, used := m.phys, m.pmm.Used();
    FirstPage(phys, 1, used);
    FreeCount(phys, 4);
    Reachable(m);
    ghost var f;
    r, f := m.GetNewPage(PageNo(1), true, false, Anywhere, 1);
    leaked := 4;
    AllTaken(phys, m.phys, m.pmm.Used());
    assert 4 !in m.owner.Keys;
  }

  lemma AllTaken(m: Phys, r: Phys, used: set<nat>)
    requires |m| == 5 && EntryAt(m, 1, 2) == NO_ENTRY && SameWalks(m, r, {1}, {})
    requires NoFrames(r, used) || NoVacancy(r, 1)
    ensures 4 in used
  {
    assert Walk(m, 1, Page(2, 0)) == NotPresent;
    hide Walk;
    assert Searched(Page(2, 0)) && Walk(r, 1, Page(2, 0)) == NotPresent;
  }

  /**
    A processor that speculates keeps translations of pages that vmm_get_new_page never mapped, when
    the frames that serve as tables held present words before: here at index 1.
   */
  method StaleExample() returns (m: Machine, r: NewPage)
    ensures m.Valid() && r == Got(Page(2, 0))
    ensures m.kernel.dir < |m.phys| && Walk(m.phys, m.kernel.dir, Page(2, 1)) == NotPresent && Page(2, 1) in m.tlb
  {
    hide Machine.Valid, EntryAt, Walk, Leaks, Succeeds, Stops, Chosen, Free, FrameAllocator.Used, Names, NewlyMapped,
         SameWalks, DataKept, Agrees;
    var all := set d: nat, t: nat | d < ENTRIES && t < ENTRIES :: Page(d, t);
    m := Booted(1, 8, ZeroFrame()[4 := 1], true, all);
    ghost var m0 := m.phys;
    FirstPage(m0, 1, m.pmm.Used());
    FreeCount(m0, 4);
    Reachable(m);
    ghost var f;
    r, f := m.GetNewPage(PageNo(1), true, false, Anywhere, 1);
    OddShown(m0, 2);
    StaleCached(m, Page(2, 1));
  }

  lemma OddShown(m: Phys, d: nat)
    requires 0 < |m| && m[0] == ZeroFrame()[4 := 1]
    ensures Page(d, 1) in Shown(m, 0, d)
  {
    PresentBit(m[0], 1);
    assert EntryAt(m, 0, 1).present;
  }

  lemma StaleCached(m: Machine, p: Page)
    requires m.Valid() && p in m.stale && p in m.eager
    ensures m.kernel.dir < |m.phys| && Legal(p) && Walk(m.phys, m.kernel.dir, p) == NotPresent && p in m.tlb
  {
  }

  /**
    With the low frames gone a table lands outside the direct map, and vmm_free_page cannot reach it:
    the model stops.
   */
  method StopExample() returns (m: Machine, ok: bool)
    ensures m.Valid() && !ok && m.kernel.dir < |m.phys| && WildTable(m.phys, m.kernel.dir, 2)
    ensures Walk(m.phys, m.kernel.dir, Page(2, 0)).Present?
  {
    hide Machine.Valid, EntryAt, Walk, Leaks, Succeeds, Stops, Chosen, Free, FrameAllocator.Used, Names,
         SameWalks, DataKept, Exposes;
    m := Booted(2044, 2052, ZeroFrame(), false, {});
    ghost var m0 := m.phys;
    FirstPage(m0, 2044, m.pmm.Used());
    FreeCount(m0, 2047);
    Reachable(m);
    var r; ghost var f;
    r, f := m.GetNewPage(PageNo(2044), true, false, Anywhere, 2044);
    Reachable(m);
    TableLinked(m0, m.phys, 2044, f);
    ok := m.FreePage(PageNo(2044), Page(2, 0), 2044);
  }

  lemma TableLinked(m: Phys, r: Phys, dir: nat, f: nat)
    requires dir < |r| && Walk(r, dir, Page(2, 0)).Present? && Walk(r, dir, Page(2, 0)).frame == f
    requires EntryAt(r, dir, 2).frame >= 2047
    ensures WildTable(r, dir, 2)
  {
  }
}
