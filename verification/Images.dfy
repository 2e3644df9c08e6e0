/** Address spaces with process images: vmm_create_virtual_address_space. */
module Images {
  import opened ByteWords
  import opened Tables
  import opened AddressSpaces
  import opened Frames
  import opened PageMapping
  import opened Vmm

  const CODE_PAGE: nat := 0xC_0000
  const IMAGE_MAX: nat := 0x4000_0000

  function PagesFor(size: nat): nat { (size + PAGE_SIZE - 1) / PAGE_SIZE }

  /** The page at 0xC0000000 + 4096 p. */
  function CodePage(p: nat): (v: Page)
    requires p < IMAGE_MAX / PAGE_SIZE
    ensures Legal(v) && v.d >= 768
  {
    PageNo(CODE_PAGE + p)
  }

  /** Which page of the image belongs at page v. */
  function Offset(v: Page): int { v.d * ENTRIES + v.t - CODE_PAGE }

  /** The p-th page of an image, filled up with zeros. */
  function Chunk(image: seq<Byte>, p: nat): Frame
    requires p < PagesFor(|image|)
  {
    var rest := image[p * PAGE_SIZE..];
    Filled(ZeroFrame(), if |rest| < PAGE_SIZE then rest else rest[..PAGE_SIZE])
  }

  /** What a process finds at a page. */
  datatype Seen = Nothing | Bytes(rw: bool, user: bool, data: Frame)

  function View(m: Phys, s: nat, v: Page): Seen
    requires s < |m| && Legal(v)
  {
    var w := Walk(m, s, v);
    if w.Present? && w.frame < |m| then Bytes(w.rw, w.user, m[w.frame]) else Nothing
  }

  /** In directory s, page p of the image is in place. */
  ghost predicate PageLoaded(m: Phys, s: nat, image: seq<Byte>, user: bool, p: nat)
  {
    s < |m| && |image| <= IMAGE_MAX && p < PagesFor(|image|) &&
    View(m, s, CodePage(p)) == Bytes(true, user, Chunk(image, p))
  }

  /** Outside the shared tables, directory s translates only pages of the image below n. */
  ghost predicate OnlyImage(m: Phys, s: nat, image: seq<Byte>, user: bool, n: nat)
  {
    s < |m| &&
    forall q :: Legal(q) && q.d >= 2 && Walk(m, s, q).Present? ==>
      0 <= Offset(q) < n && PageLoaded(m, s, image, user, Offset(q))
  }

  ghost predicate AllLoaded(m: Phys, s: nat, image: seq<Byte>, user: bool, n: nat)
  {
    forall p: nat :: p < n ==> PageLoaded(m, s, image, user, p)
  }

  /** No frame is left, or the kernel has at most one page left to be found. */
  ghost predicate OutOfRoom(m: Phys, k: Kernel, used: set<nat>)
    requires k.dir < |m|
  {
    NoFrames(m, used) ||
    forall p, q ::
      Searched(p) && Searched(q) && Walk(m, k.dir, p) == NotPresent && Walk(m, k.dir, q) == NotPresent ==> p == q
  }

  /** The outcome of loading one page; Unmapped is an ignored failure of vmm_map_frame. */
  datatype Loading = Loaded | Unmapped | NoFrame | Lost

  lemma Offsets(v: Page, p: nat)
    requires Legal(v) && p < IMAGE_MAX / PAGE_SIZE
    ensures Offset(CodePage(p)) == p
    ensures Offset(v) == p ==> v == CodePage(p)
  {
  }

  lemma ChunkParts(image: seq<Byte>, p: nat, f: Frame)
    requires p < PagesFor(|image|)
    ensures p * PAGE_SIZE < |image|
    ensures p + 1 == PagesFor(|image|) ==>
              |image| <= (p + 1) * PAGE_SIZE &&
              Chunk(image, p) == Filled(ZeroFrame(), image[p * PAGE_SIZE..|image|])
    ensures p + 1 < PagesFor(|image|) ==>
              (p + 1) * PAGE_SIZE <= |image| && Chunk(image, p) == Filled(f, image[p * PAGE_SIZE..(p + 1) * PAGE_SIZE])
  {
    if p + 1 < PagesFor(|image|) {
      assert image[p * PAGE_SIZE..][..PAGE_SIZE] == image[p * PAGE_SIZE..(p + 1) * PAGE_SIZE];
    } else {
      assert image[p * PAGE_SIZE..] == image[p * PAGE_SIZE..|image|];
    }
  }

  lemma ReplacedTwice(m: Phys, f: nat, b: Frame, c: Frame)
    requires f < |m|
    ensures Replaced(m, f, b)[f] == b && Replaced(Replaced(m, f, b), f, c) == Replaced(m, f, c)
  {
  }

  lemma NamesFrame(m: Phys, k: Kernel, v: Page, f: nat)
    requires Names(m, k, v, f)
    ensures k.dir < |m| && Legal(v) && f < |m|
  {
  }

  // ----- The image, byte by byte -----

  /** What a process reads at an address: its image from 0xC0000000 on, and zeros up to the end of the last page. */
  function ImageByte(image: seq<Byte>, user: bool, a: nat): Reading
  {
    if a >= 0xC000_0000 && (a - 0xC000_0000) / 0x1000 * 0x1000 < |image| then
      Value(true, user, if a - 0xC000_0000 < |image| then image[a - 0xC000_0000] else 0)
    else
      Fault
  }

  /** Above 8 MB directory s shows the image and nothing else; pages are missing only where it is not complete. */
  ghost predicate ShowsImage(m: Phys, s: nat, image: seq<Byte>, user: bool, complete: bool)
  {
    s < |m| &&
    forall a: nat :: 0x80_0000 <= a < U32 ==>
      Read(m, s, a) == ImageByte(image, user, a) || (!complete && Read(m, s, a) == Fault)
  }

  lemma ChunkAt(image: seq<Byte>, p: nat, i: nat)
    requires p < PagesFor(|image|) && i < PAGE_SIZE
    ensures Chunk(image, p)[i] == if p * PAGE_SIZE + i < |image| then image[p * PAGE_SIZE + i] else 0
  {
  }

  lemma PagesExactly(size: nat, p: nat)
    ensures p < PagesFor(size) <==> p * 0x1000 < size
  {
  }

  /** The page of an address from 0xC0000000 on. */
  lemma ImagePage(a: nat)
    requires a < U32
    ensures a / 0x1000 < FRAMES && Offset(PageNo(a / 0x1000)) == a / 0x1000 - CODE_PAGE
    ensures a >= 0x80_0000 <==> PageNo(a / 0x1000).d >= 2
    ensures a >= 0xC000_0000 ==>
              a / 0x1000 - CODE_PAGE == (a - 0xC000_0000) / 0x1000 &&
              (a - 0xC000_0000) / 0x1000 * 0x1000 + a % 0x1000 == a - 0xC000_0000
    ensures a / 0x1000 - CODE_PAGE >= 0 ==> a >= 0xC000_0000
  {
  }

  /** What the pages of the image show at an address. */
  lemma ImageAt(m: Phys, s: nat, image: seq<Byte>, user: bool, a: nat)
    requires s < |m| && 0x80_0000 <= a < U32
    ensures a / 0x1000 < FRAMES
    ensures var q := PageNo(a / 0x1000);
            var e := if 0 <= Offset(q) < PagesFor(|image|) then Bytes(true, user, Chunk(image, Offset(q))) else Nothing;
            View(m, s, q) == e ==> Read(m, s, a) == ImageByte(image, user, a)
    ensures View(m, s, PageNo(a / 0x1000)) == Nothing ==> Read(m, s, a) == Fault
  {
    ReadWalk(m, s, a);
    ImagePage(a);
    var p := a / 0x1000 - CODE_PAGE;
    if p >= 0 {
      PagesExactly(|image|, p);
      if p < PagesFor(|image|) {
        ChunkAt(image, p, a % 0x1000);
      }
    }
    hide Walk, Read, Chunk, PageNo, PagesFor, Offset;
  }

  lemma ImageReads(m: Phys, s: nat, image: seq<Byte>, user: bool, complete: bool)
    requires |image| <= IMAGE_MAX && OnlyImage(m, s, image, user, PagesFor(|image|))
    requires complete ==> AllLoaded(m, s, image, user, PagesFor(|image|))
    ensures ShowsImage(m, s, image, user, complete)
  {
    hide Walk, Read, Chunk, ImageByte, PagesFor, Offset, CodePage, PageNo;
    forall a: nat | 0x80_0000 <= a < U32
      ensures Read(m, s, a) == ImageByte(image, user, a) || (!complete && Read(m, s, a) == Fault)
    {
      ImageAt(m, s, image, user, a);
      ImagePage(a);
      var q := PageNo(a / 0x1000);
      if Walk(m, s, q).Present? {
        assert PageLoaded(m, s, image, user, Offset(q));
        Offsets(q, Offset(q));
      } else if 0 <= Offset(q) < PagesFor(|image|) && complete {
        Offsets(q, Offset(q));
        assert PageLoaded(m, s, image, user, Offset(q));
      }
    }
  }

  // ----- Rights of the directory's entries -----

  /** The tables of directory s are writable, and open to users exactly when `user` says so. */
  ghost predicate Opens(m: Phys, s: nat, user: bool)
  {
    s < |m| && forall d: nat :: 2 <= d < ENTRIES && EntryAt(m, s, d).present ==>
                 EntryAt(m, s, d).rw && EntryAt(m, s, d).user == user
  }

  lemma OpensStill(m: Phys, r: Phys, s: nat, user: bool)
    requires Opens(m, s, user) && |r| == |m| && r[s] == m[s]
    ensures Opens(r, s, user)
  {
    forall d: nat | d < ENTRIES
      ensures EntryAt(r, s, d) == EntryAt(m, s, d)
    {
    }
    hide EntryAt;
  }

  lemma OpensLinked(m: Phys, r: Phys, s: nat, d: nat, user: bool, f: nat)
    requires Opens(m, s, user) && 2 <= d < ENTRIES && Linked(m, r, s, d, true, user)
    ensures Opens(r, s, user)
    ensures EntryAt(r, s, d).present ==> Through(EntryAt(r, s, d), Present(f, true, user)) == Present(f, true, user)
  {
    hide EntryAt;
  }

  lemma PresentLinked(m: Phys, s: nat, v: Page, w: Walked)
    requires s < |m| && Legal(v) && Walk(m, s, v) == Through(EntryAt(m, s, v.d), w) && w.Present?
    ensures EntryAt(m, s, v.d).present
  {
  }

  /** vmm_map_frame with write access, on a directory whose tables have the rights of the process. */
  method MapOpen(m: Machine, w: Page, v: Page, frame: nat, user: bool, ghost s: nat)
    returns (r: Status, ghost but: set<(nat, Page)>)
    requires m.Valid() && s in m.spaces && s != m.kernel.dir && Names(m.phys, m.kernel, w, s) && w != WINDOW
    requires Opens(m.phys, s, user) && Legal(v) && v.d >= 2
    requires frame < FRAMES && frame < |m.phys| && frame in m.owner && m.owner[frame] == Spare
    modifies m`tlb, m`phys, m`owner, m`stale, m.pmm.frameBitmap.storage
    ensures m.Valid() && |m.phys| == |old(m.phys)| && m.kernel.dir < |m.phys|
    ensures DataKept(old(m.phys), m.phys, old(m.owner), {m.kernel.dir, s}) && Kept(old(m.owner), m.owner)
    ensures KernelWindows(old(m.phys), m.kernel, but) && Grows(old(m.pmm.Used()), m.pmm.Used(), 2) && |but| <= 1
    ensures SameWalks(old(m.phys), m.phys, m.spaces, {(s, v)} + but) && WindowsHold(m.phys, m.kernel, m.owner, but)
    ensures m.boot.clean ==> m.stale <= old(m.stale)
    ensures r.Failed? ==> NoFrames(m.phys, m.pmm.Used()) || NoVacancy(m.phys, m.kernel.dir)
    ensures r.Astray? ==> Strayed(m.phys, m.spaces)
    ensures r.Done? ==> Walk(m.phys, s, v) == Present(frame, true, user)
    ensures !r.Done? ==> SameWalks(old(m.phys), m.phys, m.spaces, but)
    ensures Opens(m.phys, s, user)
  {
    hide Walk, DataKept, TablesOwned, IdentityMapped, Agrees, Names, PagesOwned, FrameAllocator.Used, Blank, SameWalks,
         EntryAt, KernelWindows, WindowsHold, NoFrames, NoVacancy, Strayed, Stops, WildTable, HoldsEntries, Linked,
         Opens, Mappable, Through, Kept;
    ghost var m0 := m.phys;
    SpacesHold(m0, m.kernel, m.spaces, m.owner, s);
    StopsStrays(m0, m.spaces, m.kernel.dir);
    WildStrays(m0, m.spaces, s, v.d);
    r, but := m.MapFrame(w, v, frame, true, user, s);
    if r.Done? {
      OpensLinked(m0, m.phys, s, v.d, user, frame);
      PresentLinked(m.phys, s, v, Present(frame, true, user));
    } else {
      OpensStill(m0, m.phys, s, user);
    }
  }

  // ----- One page of the image -----

  /** Copies page p of the image to a kernel page, the last one after clearing. */
  method FillPage(m: Machine, v: Page, image: seq<Byte>, p: nat, ghost f: nat)
    requires m.Valid() && Names(m.phys, m.kernel, v, f) && v != WINDOW && f in m.owner && !HoldsEntries(m.owner, f)
    requires p < PagesFor(|image|)
    modifies m`tlb, m`phys
    ensures m.Valid() && SameWalks(old(m.phys), m.phys, m.spaces, {}) && Names(m.phys, m.kernel, v, f)
    ensures m.phys == Replaced(old(m.phys), f, Chunk(image, p))
  {
    hide Machine.Valid, SameWalks, Chunk, HoldsEntries, ZeroFrame, Filled, Replaced, Names, PagesFor, Walk;
    ghost var m0 := m.phys;
    NamesFrame(m0, m.kernel, v, f);
    ChunkParts(image, p, m0[f]);
    SameSelf(m0, m.spaces, m.owner, {});
    var lo, hi := p * PAGE_SIZE, (p + 1) * PAGE_SIZE;
    if p == PagesFor(|image|) - 1 {
      hi := |image|;
      m.ClearPage(v, f);
      ReplacedTwice(m0, f, ZeroFrame(), Chunk(image, p));
    }
    ghost var m1 := m.phys;
    m.CopyToPage(image[lo..hi], v, f);
    SameWalksOnce(m0, m1, m.phys, m.spaces);
  }

  lemma Vacancy(m: Phys, s: nat, v: Page, used: set<nat>)
    requires Gets(m, s, Anywhere, used, v)
    ensures s < |m| && Legal(v) && v.d >= 2 && Walk(m, s, v) == NotPresent && v != WINDOW
  {
  }

  lemma Mapped(m: Phys, r: Phys, k: Kernel, spaces: set<nat>, owner: Owners, before: set<nat>, after: set<nat>,
               s: nat, p: Page, f: nat, w: Walked)
    requires NewlyMapped(m, r, k, spaces, owner, before, after, s, p, f, w)
    ensures SameWalks(m, r, spaces, {(s, p)}) && |r| == |m| && f < |m| && f < FRAMES && f !in before
    ensures Walk(r, s, p) == w
    ensures f in owner && owner[f] == if s == k.dir then Spare else PageOf(s, p)
  {
  }

  lemma NoneLeft(m: Phys, k: Kernel, used: set<nat>)
    requires k.dir < |m| && (NoFrames(m, used) || NoVacancy(m, k.dir))
    ensures OutOfRoom(m, k, used)
  {
    hide Walk;
  }

  /** Room does not come back. */
  lemma RoomGone(m: Phys, r: Phys, k: Kernel, spaces: set<nat>, but: set<(nat, Page)>, s: nat, v: Page,
                 used: set<nat>, used': set<nat>)
    requires k.dir < |m| && k.dir in spaces && s != k.dir && OutOfRoom(m, k, used) && used <= used'
    requires SameWalks(m, r, spaces, {(s, v)} + but) && KernelWindows(m, k, but)
    ensures OutOfRoom(r, k, used')
  {
    hide Walk;
    assert forall p :: (k.dir, p) in {(s, v)} + but ==> (k.dir, p) in but;
  }

  /** A kernel page on a fresh frame is unmapped again after the frame was mapped in a process. */
  lemma CodeWalks(m0: Phys, m3: Phys, m4: Phys, m5: Phys, k: Kernel, spaces: set<nat>, owner: Owners, owner': Owners,
                  w: Page, s: nat, v: Page, f: nat, q: Page, but: set<(nat, Page)>, used: set<nat>)
    requires TablesOwned(m5, k, spaces, owner') && s in spaces && s != k.dir < |m0| && s < |m0|
    requires Legal(v) && v.d >= 2 && Walk(m0, k.dir, v) == NotPresent && SameWalks(m0, m3, spaces, {(k.dir, v)})
    requires Names(m0, k, w, s) && Names(m3, k, w, s) && w != WINDOW && Names(m3, k, v, f) && Legal(q) && q.d >= 2
    requires KernelWindows(m3, k, but) && SameWalks(m3, m4, spaces, {(s, q)} + but) && WindowsHold(m4, k, owner, but)
    requires SameWalks(m4, m5, spaces, {(k.dir, v)}) && Walk(m5, k.dir, v) == NotPresent
    ensures KernelWindows(m0, k, but) && SameWalks(m0, m5, spaces, {(s, q)} + but) && Walk(m5, s, q) == Walk(m4, s, q)
    ensures WindowsHold(m5, k, owner, but) && Names(m5, k, w, s)
    ensures SameWalks(m3, m4, spaces, but) ==> SameWalks(m0, m5, spaces, but)
    ensures NoFrames(m4, used) || NoVacancy(m4, k.dir) ==> OutOfRoom(m5, k, used)
  {
    hide Walk, EntryAt, TablesOwned;
    assert k.dir in spaces by { KernelSpace(m5, k, spaces, owner'); }
    assert (k.dir, v) !in but && (k.dir, w) !in but;
    assert forall p :: (k.dir, p) in {(s, q)} + but ==> (k.dir, p) in but;
    assert Walk(m5, k.dir, w) == Walk(m0, k.dir, w);
  }

  lemma CodeBytes(m0: Phys, m3: Phys, m4: Phys, m5: Phys, k: Kernel, o0: Owners, o3: Owners, o4: Owners,
                  s: nat, f: nat)
    requires DataKept(m0, m3, o0, {k.dir}) && DataKept(m3, m4, o3, {k.dir, s}) && DataKept(m4, m5, o4, {})
    requires (forall g :: g in o0 ==> g in o3 && o3[g] == o0[g]) && Kept(o3, o4)
    requires f in o3 && o3[f] == Spare && HoldsEntries(o3, k.dir) && HoldsEntries(o3, s) && f < |m0|
    ensures DataKept(m0, m5, o0, {k.dir, s}) && Kept(o0, o4) && m5[f] == m3[f]
  {
  }

  /** A page of the kernel's that was vacant, on a fresh frame. */
  method TakeKernelPage(m: Machine) returns (r: NewPage, ghost f: nat)
    requires m.Valid()
    modifies m`tlb, m`phys, m`owner, m`stale, m.pmm.frameBitmap.storage
    ensures m.Valid() && |m.phys| == |old(m.phys)| && m.kernel.dir < |m.phys| && m.kernel.dir in m.spaces
    ensures DataKept(old(m.phys), m.phys, old(m.owner), {m.kernel.dir})
    ensures GrownBy(old(m.owner), m.owner, old(m.pmm.Used())) && Grows(old(m.pmm.Used()), m.pmm.Used(), 2)
    ensures m.boot.clean ==> m.stale <= old(m.stale)
    ensures !r.Got? ==> SameWalks(old(m.phys), m.phys, m.spaces, {})
    ensures r.NoMemory? ==> OutOfRoom(m.phys, m.kernel, m.pmm.Used())
    ensures r.WildAccess? ==> Strayed(m.phys, m.spaces)
    ensures r.Got? ==>
              && Legal(r.page) && r.page.d >= 2 && r.page != WINDOW
              && Walk(old(m.phys), m.kernel.dir, r.page) == NotPresent
              && SameWalks(old(m.phys), m.phys, m.spaces, {(m.kernel.dir, r.page)})
              && Names(m.phys, m.kernel, r.page, f) && f < |m.phys| && f < FRAMES && f != m.kernel.dir
              && f !in old(m.pmm.Used()) && f !in old(m.owner)
              && f in m.owner && m.owner[f] == Spare && !HoldsEntries(m.owner, f)
              && Linked(old(m.phys), m.phys, m.kernel.dir, r.page.d, true, false)
              && Walk(m.phys, m.kernel.dir, r.page) ==
                 Through(EntryAt(m.phys, m.kernel.dir, r.page.d), Present(f, true, false))
  {
    hide Walk, DataKept, TablesOwned, IdentityMapped, Agrees, Names, PagesOwned, FrameAllocator.Used, Blank, SameWalks,
         EntryAt, OutOfRoom, NoFrames, NoVacancy, Strayed, Stops, Succeeds, Leaks, Gets, Exposes, FirstVacant,
         NewlyMapped, Linked, LowestAt;
    ghost var m0, k := m.phys, m.kernel;
    KernelNames(m0, k, m.spaces, m.owner);
    KernelSpace(m0, k, m.spaces, m.owner);
    r, f := m.GetNewPage(PageNo(m.kernel.dir), true, false, Anywhere, m.kernel.dir);
    if !r.Got? {
      if r.NoMemory? {
        NoneLeft(m.phys, k, m.pmm.Used());
      }
      StopsStrays(m.phys, m.spaces, k.dir);
      return;
    }
    var v := r.page;
    Vacancy(m0, k.dir, v, old(m.pmm.Used()));
    Mapped(m0, m.phys, k, m.spaces, m.owner, old(m.pmm.Used()), m.pmm.Used(), k.dir, v, f,
           Through(EntryAt(m.phys, k.dir, v.d), Present(f, true, false)));
    NewNames(m0, m.phys, k, m.spaces, m.owner, old(m.pmm.Used()), m.pmm.Used(), PageNo(k.dir), k.dir, v, f,
             Walk(m.phys, k.dir, v));
    assert f !in old(m.owner).Keys;
  }

  /** A page of the kernel's keeps its name when another one comes. */
  lemma KeptName(m: Phys, r: Phys, k: Kernel, spaces: set<nat>, v: Page, w: Page, s: nat)
    requires k.dir in spaces && Names(m, k, w, s) && w != WINDOW && Legal(v) && Walk(m, k.dir, v) == NotPresent
    requires SameWalks(m, r, spaces, {(k.dir, v)})
    ensures Names(r, k, w, s) && w != v
  {
    hide Walk;
  }

  /** Copies page p of the image to a fresh frame, through a page of the kernel's. */
  method CopyChunk(m: Machine, w: Page, image: seq<Byte>, p: nat, ghost s: nat) returns (r: NewPage, frame: nat)
    requires m.Valid() && s in m.spaces && s != m.kernel.dir && Names(m.phys, m.kernel, w, s) && w != WINDOW
    requires p < PagesFor(|image|)
    modifies m`tlb, m`phys, m`owner, m`stale, m.pmm.frameBitmap.storage
    ensures m.Valid() && |m.phys| == |old(m.phys)| && m.kernel.dir < |m.phys|
    ensures DataKept(old(m.phys), m.phys, old(m.owner), {m.kernel.dir})
    ensures GrownBy(old(m.owner), m.owner, old(m.pmm.Used())) && Grows(old(m.pmm.Used()), m.pmm.Used(), 2)
    ensures !r.Got? ==> SameWalks(old(m.phys), m.phys, m.spaces, {})
    ensures m.boot.clean ==> m.stale <= old(m.stale)
    ensures r.NoMemory? ==> OutOfRoom(m.phys, m.kernel, m.pmm.Used())
    ensures r.WildAccess? ==> Strayed(m.phys, m.spaces)
    ensures r.Got? ==>
              && Legal(r.page) && r.page.d >= 2 && Walk(old(m.phys), m.kernel.dir, r.page) == NotPresent
              && SameWalks(old(m.phys), m.phys, m.spaces, {(m.kernel.dir, r.page)})
              && Names(m.phys, m.kernel, w, s) && Names(m.phys, m.kernel, r.page, frame)
              && frame < |m.phys| && frame < FRAMES && m.phys[frame] == Chunk(image, p)
              && frame in m.owner && m.owner[frame] == Spare
  {
    hide Walk, DataKept, TablesOwned, IdentityMapped, Agrees, Names, PagesOwned, FrameAllocator.Used, Blank, SameWalks,
         EntryAt, OutOfRoom, NoFrames, NoVacancy, Strayed, Chunk, Replaced, HoldsEntries;
    frame := 0;
    ghost var m0, o0, k := m.phys, m.owner, m.kernel;
    SpacesHold(m0, k, m.spaces, o0, s);
    ghost var f;
    r, f := TakeKernelPage(m);
    if !r.Got? {
      return;
    }
    ghost var m1 := m.phys;
    KeptName(m0, m1, k, m.spaces, r.page, w, s);
    FillPage(m, r.page, image, p, f);
    ghost var m2 := m.phys;
    KernelNames(m2, k, m.spaces, m.owner);
    frame := m.GetPhysicalAddress(PageNo(m.kernel.dir), r.page, m.kernel.dir);
    FilledWindow(m0, m1, m2, m.phys, k, m.spaces, o0, m.owner, w, s, r.page, f, Chunk(image, p));
  }

  lemma SpacesHold(m: Phys, k: Kernel, spaces: set<nat>, owner: Owners, s: nat)
    requires TablesOwned(m, k, spaces, owner) && s in spaces
    ensures k.dir < |m| && s < |m| && HoldsEntries(owner, k.dir) && HoldsEntries(owner, s) && k.dir in spaces
  {
  }

  lemma StillOpen(m: Phys, r: Phys, k: Kernel, spaces: set<nat>, owner: Owners, s: nat, ex: set<nat>, user: bool)
    requires TablesOwned(m, k, spaces, owner) && s in spaces && DataKept(m, r, owner, ex) && s !in ex
    requires Opens(m, s, user)
    ensures Opens(r, s, user)
  {
    DirectoryKept(m, r, k, spaces, owner, s, ex);
    OpensStill(m, r, s, user);
  }

  lemma NowLoaded(m: Phys, s: nat, image: seq<Byte>, user: bool, p: nat, f: nat)
    requires s < |m| && f < |m| && |image| <= IMAGE_MAX && p < PagesFor(|image|) && m[f] == Chunk(image, p)
    requires Walk(m, s, CodePage(p)) == Present(f, true, user)
    ensures PageLoaded(m, s, image, user, p)
  {
  }

  /** What is known when a round breaks off after the kernel page v was mapped. */
  lemma BrokenOff(m0: Phys, m3: Phys, m4: Phys, m5: Phys, k: Kernel, spaces: set<nat>, v: Page, s: nat, q: Page,
                  but: set<(nat, Page)>)
    requires k.dir < |m0| && k.dir in spaces && Legal(v) && v.d >= 2 && Walk(m0, k.dir, v) == NotPresent
    requires SameWalks(m0, m3, spaces, {(k.dir, v)}) && KernelWindows(m3, k, but)
    requires SameWalks(m3, m4, spaces, {(s, q)} + but) && (m5 == m4 || SameWalks(m4, m5, spaces, {(k.dir, v)}))
    ensures KernelWindows(m0, k, {(k.dir, v)} + but)
    ensures SameWalks(m0, m5, spaces, {(s, q)} + ({(k.dir, v)} + but))
  {
    hide Walk;
  }

  /** Maps the frame behind kernel page v in the process as well, and then frees v; m4 is the memory in between. */
  method MoveFrame(m: Machine, w: Page, v: Page, q: Page, frame: nat, user: bool, ghost s: nat)
    returns (r: Status, ghost but: set<(nat, Page)>, ghost m4: Phys)
    requires m.Valid() && s in m.spaces && s != m.kernel.dir && Names(m.phys, m.kernel, w, s) && w != WINDOW
    requires Opens(m.phys, s, user) && Legal(q) && q.d >= 2 && Legal(v) && v.d >= 2
    requires frame < FRAMES && frame < |m.phys| && frame in m.owner && m.owner[frame] == Spare
    modifies m`tlb, m`phys, m`owner, m`stale, m.pmm.frameBitmap.storage
    ensures m.Valid() && |m.phys| == |m4| == |old(m.phys)| && m.kernel.dir < |m.phys|
    ensures DataKept(old(m.phys), m4, old(m.owner), {m.kernel.dir, s}) && DataKept(m4, m.phys, m.owner, {})
    ensures KernelWindows(old(m.phys), m.kernel, but) && Grows(old(m.pmm.Used()), m.pmm.Used(), 2) && |but| <= 1
    ensures SameWalks(old(m.phys), m4, m.spaces, {(s, q)} + but) && WindowsHold(m4, m.kernel, m.owner, but)
    ensures m.phys == m4 || SameWalks(m4, m.phys, m.spaces, {(m.kernel.dir, v)})
    ensures Kept(old(m.owner), m.owner) && Opens(m.phys, s, user) && (m.boot.clean ==> m.stale <= old(m.stale))
    ensures r.Astray? ==> Strayed(m.phys, m.spaces)
    ensures !r.Astray? ==>
              Walk(m.phys, m.kernel.dir, v) == NotPresent && SameWalks(m4, m.phys, m.spaces, {(m.kernel.dir, v)})
    ensures r.Failed? ==> NoFrames(m4, m.pmm.Used()) || NoVacancy(m4, m.kernel.dir)
    ensures r.Failed? ==> SameWalks(old(m.phys), m4, m.spaces, but)
    ensures r.Done? ==> Walk(m4, s, q) == Present(frame, true, user)
  {
    hide Walk, DataKept, TablesOwned, IdentityMapped, Agrees, Names, PagesOwned, FrameAllocator.Used, Blank, SameWalks,
         EntryAt, KernelWindows, WindowsHold, NoFrames, NoVacancy, Strayed, Stops, Opens, WildTable, Kept;
    r, but := MapOpen(m, w, q, frame, user, s);
    m4 := m.phys;
    SameSelf(m4, m.spaces, m.owner, {});
    if r.Astray? {
      return;
    }
    KernelNames(m4, m.kernel, m.spaces, m.owner);
    WildStrays(m4, m.spaces, m.kernel.dir, v.d);
    var freed := m.FreePage(PageNo(m.kernel.dir), v, m.kernel.dir);
    StillOpen(m4, m.phys, m.kernel, m.spaces, m.owner, s, {}, user);
    if !freed {
      r := Astray;
    }
  }

  /**
    One round of the loop of vmm_create_virtual_address_space, for the directory named by page w.
    The kernel page through which the bytes were copied is gone afterwards.
   */
  method AddCodePage(m: Machine, w: Page, image: seq<Byte>, p: nat, user: bool, ghost s: nat)
    returns (r: Loading, ghost but: set<(nat, Page)>)
    requires m.Valid() && s in m.spaces && s != m.kernel.dir && Names(m.phys, m.kernel, w, s) && w != WINDOW
    requires |image| <= IMAGE_MAX && p < PagesFor(|image|) && Opens(m.phys, s, user)
    modifies m`tlb, m`phys, m`owner, m`stale, m.pmm.frameBitmap.storage
    ensures m.Valid() && |m.phys| == |old(m.phys)| && m.kernel.dir < |m.phys| && Opens(m.phys, s, user)
    ensures KernelWindows(old(m.phys), m.kernel, but)
    ensures SameWalks(old(m.phys), m.phys, m.spaces, {(s, CodePage(p))} + but)
    ensures DataKept(old(m.phys), m.phys, old(m.owner), {m.kernel.dir, s})
    ensures Kept(old(m.owner), m.owner) && Grows(old(m.pmm.Used()), m.pmm.Used(), 4)
    ensures r.Loaded? || r.Unmapped? ==> Names(m.phys, m.kernel, w, s) && WindowsHold(m.phys, m.kernel, m.owner, but)
    ensures |but| <= if r.Loaded? || r.Unmapped? then 1 else 2
    ensures r.Loaded? ==> PageLoaded(m.phys, s, image, user, p)
    ensures r.Unmapped? ==> SameWalks(old(m.phys), m.phys, m.spaces, but)
    ensures m.boot.clean ==> m.stale <= old(m.stale)
    ensures r.Unmapped? || r.NoFrame? ==> OutOfRoom(m.phys, m.kernel, m.pmm.Used())
    ensures r.Lost? ==> Strayed(m.phys, m.spaces)
  {
    hide Walk, DataKept, TablesOwned, IdentityMapped, Agrees, Names, PagesOwned, FrameAllocator.Used, Blank, SameWalks,
         EntryAt, KernelWindows, WindowsHold, OutOfRoom, NoFrames, NoVacancy, Strayed, Stops, PageLoaded, Chunk,
         HoldsEntries, CodePage, Opens, Kept, GrownBy;
    ghost var m0, o0, k := m.phys, m.owner, m.kernel;
    var q := CodePage(p);
    but := {};
    NoWindows(m0, k);
    var page, frame := CopyChunk(m, w, image, p, s);
    StillOpen(m0, m.phys, k, m.spaces, o0, s, {k.dir}, user);
    GrownKept(o0, m.owner, old(m.pmm.Used()));
    GrownSame(o0, m.owner, old(m.pmm.Used()));
    ghost var used0, used1 := old(m.pmm.Used()), m.pmm.Used();
    GrowsMore(used0, used1, 2, 4);
    if !page.Got? {
      DataMore(m0, m.phys, o0, {k.dir}, {k.dir, s});
      SameBeyond(m0, m.phys, m.spaces, {}, {(s, q)});
      return if page.NoMemory? then NoFrame else Lost, but;
    }
    var v := page.page;
    ghost var m3, o3 := m.phys, m.owner;
    SpacesHold(m3, k, m.spaces, o3, s);
    var status; ghost var m4;
    status, but, m4 := MoveFrame(m, w, v, q, frame, user, s);
    GrowsTwice(used0, used1, m.pmm.Used(), 2, 2);
    CodeBytes(m0, m3, m4, m.phys, k, o0, o3, m.owner, s, frame);
    if status.Astray? {
      BrokenOff(m0, m3, m4, m.phys, k, m.spaces, v, s, q, but);
      BothBounded({(k.dir, v)}, but);
      but := {(k.dir, v)} + but;
      return Lost, but;
    }
    CodeWalks(m0, m3, m4, m.phys, k, m.spaces, m.owner, m.owner, w, s, v, frame, q, but, m.pmm.Used());
    if status.Done? {
      NowLoaded(m.phys, s, image, user, p, frame);
      return Loaded, but;
    }
    r := Unmapped;
  }

  // ----- A new directory -----

  /** Directory c with its first n entries copied from directory d. */
  function Copied(c: Frame, d: Frame, n: nat): Frame
    requires n <= ENTRIES
  {
    if n == 0 then c else SetEntry(Copied(c, d, n - 1), n - 1, EntryOf(d, n - 1))
  }

  lemma {:induction false} CopiedAt(c: Frame, d: Frame, n: nat, j: nat)
    requires n <= ENTRIES && j < ENTRIES
    ensures EntryOf(Copied(c, d, n), j) == EntryOf(if j < n then d else c, j)
  {
    hide EntryOf, SetEntry;
    if n > 0 {
      SetEntryOf(Copied(c, d, n - 1), n - 1, EntryOf(d, n - 1), j);
      CopiedAt(c, d, n - 1, j);
    }
  }

  /** A directory that links the kernel's tables and nothing else is an address space of its own. */
  lemma NewSpace(m: Phys, k: Kernel, spaces: set<nat>, owner: Owners, s: nat)
    requires Owned(m, k, spaces, owner) && s in owner && owner[s] == Spare && k.dir < |m|
    requires s < |m| && m[s] == Copied(ZeroFrame(), m[k.dir], 2)
    ensures Owned(m, k, spaces + {s}, owner[s := Directory]) && s !in spaces
    ensures forall q :: Legal(q) && q.d >= 2 ==> Walk(m, s, q) == NotPresent
    ensures forall d: nat :: 2 <= d < ENTRIES ==> EntryAt(m, s, d) == NO_ENTRY
  {
    forall i: nat | i < ENTRIES
      ensures EntryAt(m, s, i) == if i < 2 then EntryAt(m, k.dir, i) else NO_ENTRY
    {
      CopiedAt(ZeroFrame(), m[k.dir], 2, i);
      ZeroFrameEntries(i);
    }
    hide EntryAt, Copied, ZeroFrame;
    assert LinksKernel(m, k, s);
  }

  /** Copies the kernel's first two directory entries to the page of a new directory. */
  method CopyEntries(m: Machine, w: Page, ghost f: nat)
    requires m.Valid() && Names(m.phys, m.kernel, w, f) && w != WINDOW && f in m.owner && !HoldsEntries(m.owner, f)
    modifies m`tlb, m`phys
    ensures m.Valid() && SameWalks(old(m.phys), m.phys, m.spaces, {}) && Names(m.phys, m.kernel, w, f)
    ensures m.kernel.dir < |old(m.phys)| && f < |old(m.phys)| && f != m.kernel.dir
    ensures m.phys == Replaced(old(m.phys), f, Copied(old(m.phys)[f], old(m.phys)[m.kernel.dir], 2))
  {
    hide Walk, TablesOwned, IdentityMapped, Agrees, Names, PagesOwned, FrameAllocator.Used, Blank, SameWalks, EntryOf,
         Replaced, SetEntry, Encode;
    ghost var m0, k := m.phys, m.kernel;
    KernelNames(m0, k, m.spaces, m.owner);
    KernelSpace(m0, k, m.spaces, m.owner);
    NamesFrame(m0, k, w, f);
    SameSelf(m0, m.spaces, m.owner, {});
    ReplacedSelf(m0, f);
    for i := 0 to 2
      invariant m.Valid() && SameWalks(m0, m.phys, m.spaces, {}) && Names(m.phys, k, w, f)
      invariant m.phys == Replaced(m0, f, Copied(m0[f], m0[k.dir], i))
    {
      ghost var m1 := m.phys;
      ReplacedAt(m0, f, Copied(m0[f], m0[k.dir], i), k.dir);
      KernelNames(m1, k, m.spaces, m.owner);
      var e := m.ReadNamed(PageNo(m.kernel.dir), i, m.kernel.dir);
      m.StoreWord(w, 4 * i, Encode(e), f);
      SameWalksOnce(m0, m1, m.phys, m.spaces);
      ReplacedTwice(m0, f, Copied(m0[f], m0[k.dir], i), Copied(m0[f], m0[k.dir], i + 1));
      EntryStored(m1, f, i, e);
    }
  }

  lemma ReplacedSelf(m: Phys, f: nat)
    requires f < |m|
    ensures Replaced(m, f, m[f]) == m
  {
  }

  lemma ReplacedAt(m: Phys, f: nat, c: Frame, g: nat)
    requires f < |m| && g < |m|
    ensures Replaced(m, f, c)[g] == if g == f then c else m[g]
  {
  }

  lemma EntryStored(m: Phys, f: nat, i: nat, e: Entry)
    requires f < |m| && i < ENTRIES && Proper(e)
    ensures SetWord(m[f], 4 * i, Encode(e)) == SetEntry(m[f], i, e)
  {
  }

  /** A fresh directory on a kernel page: it shares the kernel's tables and translates nothing else. */
  method NewDirectory(m: Machine) returns (r: NewPage, ghost s: nat)
    requires m.Valid()
    modifies m`tlb, m`phys, m`owner, m`stale, m`spaces, m.pmm.frameBitmap.storage
    ensures m.Valid() && |m.phys| == |old(m.phys)| && m.kernel.dir < |m.phys| && m.kernel.dir in old(m.spaces)
    ensures DataKept(old(m.phys), m.phys, old(m.owner), {m.kernel.dir})
    ensures GrownBy(old(m.owner), m.owner, old(m.pmm.Used())) && Grows(old(m.pmm.Used()), m.pmm.Used(), 2)
    ensures !r.Got? ==> m.spaces == old(m.spaces) && SameWalks(old(m.phys), m.phys, m.spaces, {})
    ensures m.boot.clean ==> m.stale <= old(m.stale)
    ensures r.NoMemory? ==> OutOfRoom(m.phys, m.kernel, m.pmm.Used())
    ensures r.WildAccess? ==> Strayed(m.phys, m.spaces)
    ensures r.Got? ==>
              && Legal(r.page) && r.page.d >= 2 && Walk(old(m.phys), m.kernel.dir, r.page) == NotPresent
              && SameWalks(old(m.phys), m.phys, old(m.spaces), {(m.kernel.dir, r.page)})
              && s !in old(m.owner) && s !in old(m.spaces) && m.spaces == old(m.spaces) + {s}
              && s in m.owner && m.owner[s] == Directory
              && s < |m.phys| && s != m.kernel.dir && Names(m.phys, m.kernel, r.page, s)
              && (forall q :: Legal(q) && q.d >= 2 ==> Walk(m.phys, s, q) == NotPresent)
              && forall d: nat :: 2 <= d < ENTRIES ==> EntryAt(m.phys, s, d) == NO_ENTRY
  {
    hide Walk, DataKept, TablesOwned, IdentityMapped, Agrees, Names, PagesOwned, FrameAllocator.Used, Blank, SameWalks,
         EntryAt, OutOfRoom, Strayed, Claimed, Replaced, HoldsEntries, ZeroFrame, Copied;
    ghost var m0, o0, k := m.phys, m.owner, m.kernel;
    r, s := TakeKernelPage(m);
    if !r.Got? {
      return;
    }
    ghost var m1 := m.phys;
    m.ClearPage(r.page, s);
    ghost var m2 := m.phys;
    CopyEntries(m, r.page, s);
    DirectoryBytes(m0, m1, m2, m.phys, k, o0, s);
    NewSpace(m.phys, k, m.spaces, m.owner, s);
    SameWalksOnce(m1, m2, m.phys, m.spaces);
    SameWalksTwo(m0, m1, m.phys, m.spaces, {(k.dir, r.page)});
    Adopt(m, s);
  }

  /** A frame with the contents of a new directory becomes one. */
  ghost method Adopt(m: Machine, s: nat)
    requires m.Valid() && s in m.owner && m.owner[s] == Spare && m.kernel.dir < |m.phys| && s < |m.phys|
    requires Owned(m.phys, m.kernel, m.spaces + {s}, m.owner[s := Directory])
    modifies m`owner, m`spaces
    ensures m.Valid() && m.spaces == old(m.spaces) + {s} && m.owner == old(m.owner)[s := Directory]
  {
    hide Walk, EntryAt, Agrees, IdentityMapped, FrameAllocator.Used, Blank, Claimed, TablesOwned, PagesOwned;
    ClaimedSame(m.boot, m.owner, m.owner[s := Directory], m.pmm.Used());
    m.spaces := m.spaces + {s};
    m.owner := m.owner[s := Directory];
    OwnedSplit(m.phys, m.kernel, m.spaces, m.owner);
  }

  lemma DirectoryBytes(m0: Phys, m1: Phys, m2: Phys, m3: Phys, k: Kernel, owner: Owners, s: nat)
    requires DataKept(m0, m1, owner, {k.dir}) && s < |m1| && s !in owner && k.dir < |m1| && s != k.dir
    requires m2 == Replaced(m1, s, ZeroFrame()) && m3 == Replaced(m2, s, Copied(m2[s], m2[k.dir], 2))
    ensures DataKept(m0, m3, owner, {k.dir}) && m3[s] == Copied(ZeroFrame(), m3[k.dir], 2)
  {
    hide Copied, ZeroFrame;
  }

  lemma SameWalksTwo(m: Phys, r: Phys, q: Phys, spaces: set<nat>, but: set<(nat, Page)>)
    requires SameWalks(m, r, spaces, but) && SameWalks(r, q, spaces, {})
    ensures SameWalks(m, q, spaces, but)
  {
    hide Walk;
  }

  // ----- vmm_create_virtual_address_space -----

  /**
    What making an address space leaves alone: every translation of the older ones, apart from pages
    that the kernel did not map before, and every frame of data and every other directory.
   */
  ghost predicate Undisturbed(m: Phys, r: Phys, k: Kernel, spaces: set<nat>, before: Owners, after: Owners,
                              but: set<(nat, Page)>)
    requires k.dir < |m|
  {
    KernelWindows(m, k, but) && SameWalks(m, r, spaces, but) && DataKept(m, r, before, {k.dir}) && Kept(before, after)
  }

  lemma FirstUndisturbed(m: Phys, r: Phys, k: Kernel, spaces: set<nat>, before: Owners, after: Owners, used: set<nat>,
                         w: Page)
    requires k.dir < |m| && Legal(w) && w.d >= 2 && Walk(m, k.dir, w) == NotPresent
    requires SameWalks(m, r, spaces, {(k.dir, w)}) && DataKept(m, r, before, {k.dir}) && GrownBy(before, after, used)
    ensures Undisturbed(m, r, k, spaces, before, after, {(k.dir, w)})
  {
    hide Walk;
  }

  lemma StillUndisturbed(m: Phys, r: Phys, k: Kernel, spaces: set<nat>, before: Owners, after: Owners, used: set<nat>)
    requires k.dir < |m| && SameWalks(m, r, spaces, {}) && DataKept(m, r, before, {k.dir})
    requires GrownBy(before, after, used)
    ensures Undisturbed(m, r, k, spaces, before, after, {})
  {
    hide Walk;
  }

  /** A step that changes page q of the new directory s, and vacant kernel pages. */
  lemma NextUndisturbed(m0: Phys, m1: Phys, m2: Phys, k: Kernel, spaces: set<nat>, all: set<nat>, s: nat, q: Page,
                        o0: Owners, o1: Owners, o2: Owners, but: set<(nat, Page)>, more: set<(nat, Page)>)
    requires k.dir < |m0| == |m1| && k.dir in spaces && Undisturbed(m0, m1, k, spaces, o0, o1, but)
    requires KernelWindows(m1, k, more) && SameWalks(m1, m2, all, {(s, q)} + more)
    requires DataKept(m1, m2, o1, {k.dir, s}) && Kept(o1, o2)
    requires all == spaces + {s} && s !in spaces && s !in o0
    ensures Undisturbed(m0, m2, k, spaces, o0, o2, but + more)
  {
    hide Walk;
    assert SameWalks(m1, m2, spaces, more);
  }

  lemma NextWindowsHold(m0: Phys, m1: Phys, m2: Phys, k: Kernel, all: set<nat>, s: nat, q: Page, o1: Owners, o2: Owners,
                        but: set<(nat, Page)>, more: set<(nat, Page)>)
    requires k.dir < |m0| == |m1| && k.dir in all && s != k.dir && KernelWindows(m0, k, but)
    requires WindowsHold(m1, k, o1, but) && SameWalks(m1, m2, all, {(s, q)} + more) && Kept(o1, o2)
    requires WindowsHold(m2, k, o2, more)
    ensures WindowsHold(m2, k, o2, but + more)
  {
    hide Walk;
    forall x | x in but + more && x.0 == k.dir && Legal(x.1) && Walk(m2, k.dir, x.1).Present?
      ensures HoldsEntries(o2, Walk(m2, k.dir, x.1).frame)
    {
      if x !in more {
        assert x.1 != WINDOW && x == (k.dir, x.1);
        assert Walk(m2, k.dir, x.1) == Walk(m1, k.dir, x.1);
      }
    }
  }

  /** A process sees the same at a page whose translation is kept, when the bytes of data are. */
  lemma ViewKept(m: Phys, r: Phys, k: Kernel, spaces: set<nat>, owner: Owners, s: nat, v: Page, ex: set<nat>)
    requires Owned(m, k, spaces, owner) && s in spaces && s != k.dir && s < |m| && Legal(v) && v.d >= 2
    requires |r| == |m| && Walk(r, s, v) == Walk(m, s, v) && DataKept(m, r, owner, ex)
    requires forall f :: f in ex ==> HoldsEntries(owner, f)
    ensures View(r, s, v) == View(m, s, v)
  {
    hide Walk;
  }

  lemma OtherWalk(m: Phys, r: Phys, k: Kernel, spaces: set<nat>, s: nat, v: Page, q: Page, but: set<(nat, Page)>)
    requires k.dir < |m| && s < |m| && s in spaces && s != k.dir && KernelWindows(m, k, but) && Legal(q) && q.d >= 2
    requires SameWalks(m, r, spaces, but) || (SameWalks(m, r, spaces, {(s, v)} + but) && q != v)
    ensures |r| == |m| && Walk(r, s, q) == Walk(m, s, q)
  {
    hide Walk;
  }

  lemma LoadedKept(m: Phys, r: Phys, k: Kernel, spaces: set<nat>, owner: Owners, s: nat, image: seq<Byte>, user: bool,
                   p: nat)
    requires Owned(m, k, spaces, owner) && s in spaces && s != k.dir && PageLoaded(m, s, image, user, p)
    requires |r| == |m| && Walk(r, s, CodePage(p)) == Walk(m, s, CodePage(p)) && DataKept(m, r, owner, {k.dir, s})
    ensures PageLoaded(r, s, image, user, p)
  {
    SpacesHold(m, k, spaces, owner, s);
    hide Walk, Chunk, HoldsEntries, View, CodePage, TablesOwned, PagesOwned, DataKept;
    ViewKept(m, r, k, spaces, owner, s, CodePage(p), {k.dir, s});
  }

  lemma NextPage(m: Phys, r: Phys, k: Kernel, spaces: set<nat>, owner: Owners, s: nat, image: seq<Byte>, user: bool,
                 p: nat, q: Page)
    requires Owned(m, k, spaces, owner) && s in spaces && s != k.dir && p < IMAGE_MAX / PAGE_SIZE && |r| == |m|
    requires OnlyImage(m, s, image, user, p) && DataKept(m, r, owner, {k.dir, s})
    requires Legal(q) && q.d >= 2 && Walk(r, s, q).Present? && Walk(r, s, q) == Walk(m, s, q)
    ensures 0 <= Offset(q) < p && PageLoaded(r, s, image, user, Offset(q))
  {
    hide Walk, PageLoaded, CodePage, TablesOwned, PagesOwned, DataKept;
    Offsets(q, Offset(q));
    LoadedKept(m, r, k, spaces, owner, s, image, user, Offset(q));
  }

  /** One more page of the image, loaded or not. */
  lemma NextImage(m: Phys, r: Phys, k: Kernel, spaces: set<nat>, owner: Owners, s: nat, image: seq<Byte>, user: bool,
                  p: nat, but: set<(nat, Page)>)
    requires Owned(m, k, spaces, owner) && s in spaces && s != k.dir < |m| && p < IMAGE_MAX / PAGE_SIZE && |r| == |m|
    requires OnlyImage(m, s, image, user, p) && DataKept(m, r, owner, {k.dir, s}) && KernelWindows(m, k, but)
    requires SameWalks(m, r, spaces, {(s, CodePage(p))} + but)
    requires PageLoaded(r, s, image, user, p) || SameWalks(m, r, spaces, but)
    ensures OnlyImage(r, s, image, user, p + 1)
  {
    assert s < |m|;
    hide Walk, PageLoaded, CodePage, TablesOwned, PagesOwned, DataKept, KernelWindows, SameWalks, Offset, IMAGE_MAX;
    forall q | Legal(q) && q.d >= 2 && Walk(r, s, q).Present?
      ensures 0 <= Offset(q) < p + 1 && PageLoaded(r, s, image, user, Offset(q))
    {
      Offsets(q, p);
      if q != CodePage(p) || !PageLoaded(r, s, image, user, p) {
        OtherWalk(m, r, k, spaces, s, CodePage(p), q, but);
        NextPage(m, r, k, spaces, owner, s, image, user, p, q);
      }
    }
  }

  lemma StillLoaded(m: Phys, r: Phys, k: Kernel, spaces: set<nat>, owner: Owners, s: nat, image: seq<Byte>, user: bool,
                    p: nat, but: set<(nat, Page)>, j: nat)
    requires Owned(m, k, spaces, owner) && s in spaces && s != k.dir < |m| && j < p < IMAGE_MAX / PAGE_SIZE
    requires |r| == |m|
    requires PageLoaded(m, s, image, user, j) && DataKept(m, r, owner, {k.dir, s}) && KernelWindows(m, k, but)
    requires SameWalks(m, r, spaces, {(s, CodePage(p))} + but)
    ensures PageLoaded(r, s, image, user, j)
  {
    assert s < |m|;
    hide Walk, PageLoaded, TablesOwned, PagesOwned, DataKept, KernelWindows, SameWalks;
    OtherWalk(m, r, k, spaces, s, CodePage(p), CodePage(j), but);
    LoadedKept(m, r, k, spaces, owner, s, image, user, j);
  }

  lemma NextLoaded(m: Phys, r: Phys, k: Kernel, spaces: set<nat>, owner: Owners, s: nat, image: seq<Byte>, user: bool,
                   p: nat, but: set<(nat, Page)>)
    requires Owned(m, k, spaces, owner) && s in spaces && s != k.dir < |m| && p < IMAGE_MAX / PAGE_SIZE && |r| == |m|
    requires AllLoaded(m, s, image, user, p) && DataKept(m, r, owner, {k.dir, s}) && KernelWindows(m, k, but)
    requires SameWalks(m, r, spaces, {(s, CodePage(p))} + but) && PageLoaded(r, s, image, user, p)
    ensures AllLoaded(r, s, image, user, p + 1)
  {
    hide Walk, PageLoaded, CodePage, TablesOwned, PagesOwned, DataKept, KernelWindows, SameWalks;
    forall j: nat | j < p
      ensures PageLoaded(r, s, image, user, j)
    {
      StillLoaded(m, r, k, spaces, owner, s, image, user, p, but, j);
    }
  }

  /**
    vmm_create_virtual_address_space.  The new directory translates, outside the shared tables, pages of
    the image only, each to a frame with its bytes; `complete` says that all of them are there, and if
    not, the machine ran out of room.  The kernel pages that remain mapped show directories and tables.
   */
  method CreateSpace(m: Machine, image: seq<Byte>, user: bool)
    returns (r: NewPage, ghost s: nat, ghost but: set<(nat, Page)>, ghost complete: bool)
    requires m.Valid() && |image| <= IMAGE_MAX
    modifies m`tlb, m`phys, m`owner, m`stale, m`spaces, m.pmm.frameBitmap.storage
    ensures m.Valid() && |m.phys| == |old(m.phys)| && m.kernel.dir < |m.phys|
    ensures Grows(old(m.pmm.Used()), m.pmm.Used(), 2 + 4 * PagesFor(|image|)) && |but| <= PagesFor(|image|) + 2
    ensures Undisturbed(old(m.phys), m.phys, m.kernel, old(m.spaces), old(m.owner), m.owner, but)
    ensures m.boot.clean ==> m.stale <= old(m.stale)
    ensures r.NoMemory? ==> OutOfRoom(m.phys, m.kernel, m.pmm.Used())
    ensures r.WildAccess? ==> Strayed(m.phys, m.spaces)
    ensures m.spaces == old(m.spaces) || m.spaces == old(m.spaces) + {s}
    ensures r.Got? ==>
              && s !in old(m.owner) && s !in old(m.spaces) && m.spaces == old(m.spaces) + {s}
              && Legal(r.page) && r.page.d >= 2 && Names(m.phys, m.kernel, r.page, s)
              && WindowsHold(m.phys, m.kernel, m.owner, but)
              && Opens(m.phys, s, user) && OnlyImage(m.phys, s, image, user, PagesFor(|image|))
              && ShowsImage(m.phys, s, image, user, complete)
              && (complete ==> AllLoaded(m.phys, s, image, user, PagesFor(|image|)))
              && (!complete ==> OutOfRoom(m.phys, m.kernel, m.pmm.Used()))
  {
    hide Walk, DataKept, TablesOwned, IdentityMapped, Agrees, Names, PagesOwned, FrameAllocator.Used, Blank, SameWalks,
         EntryAt, OutOfRoom, NoFrames, NoVacancy, Strayed, Stops, HoldsEntries, WindowsHold, KernelWindows, Undisturbed,
         PageLoaded, OnlyImage, AllLoaded, CodePage, Kept, GrownBy, Opens, ShowsImage;
    ghost var m0, o0, k, spaces, used := m.phys, m.owner, m.kernel, m.spaces, m.pmm.Used();
    but, complete := {}, true;
    r, s := NewDirectory(m);
    if !r.Got? {
      GrowsMore(used, m.pmm.Used(), 2, 2 + 4 * PagesFor(|image|));
      StillUndisturbed(m0, m.phys, k, spaces, o0, m.owner, used);
      return;
    }
    var w := r.page;
    but := {(k.dir, w)};
    FirstUndisturbed(m0, m.phys, k, spaces, o0, m.owner, used, w);
    EmptySpace(m.phys, k, m.owner, s, w, image, user);
    for p := 0 to PagesFor(|image|)
      invariant m.Valid() && |m.phys| == |m0| && m.spaces == spaces + {s} && k == m.kernel
      invariant Grows(used, m.pmm.Used(), 2 + 4 * p) && |but| <= 1 + p
      invariant Undisturbed(m0, m.phys, k, spaces, o0, m.owner, but) && WindowsHold(m.phys, k, m.owner, but)
      invariant Names(m.phys, k, w, s) && OnlyImage(m.phys, s, image, user, p) && Opens(m.phys, s, user)
      invariant complete ==> AllLoaded(m.phys, s, image, user, p)
      invariant !complete ==> OutOfRoom(m.phys, k, m.pmm.Used())
      invariant m.boot.clean ==> m.stale <= old(m.stale)
    {
      ghost var m1, o1, used1 := m.phys, m.owner, m.pmm.Used();
      var loading; ghost var more;
      loading, more := AddCodePage(m, w, image, p, user, s);
      GrowsTwice(used, used1, m.pmm.Used(), 2 + 4 * p, 4);
      BothBounded(but, more);
      NextUndisturbed(m0, m1, m.phys, k, spaces, m.spaces, s, CodePage(p), o0, o1, m.owner, but, more);
      if loading.NoFrame? || loading.Lost? {
        GrowsMore(used, m.pmm.Used(), 6 + 4 * p, 2 + 4 * PagesFor(|image|));
        but := but + more;
        r := if loading.NoFrame? then NoMemory else WildAccess;
        return;
      }
      WindowsOf(m0, m1, k, spaces, o0, o1, but);
      NextWindowsHold(m0, m1, m.phys, k, m.spaces, s, CodePage(p), o1, m.owner, but, more);
      NextImage(m1, m.phys, k, m.spaces, o1, s, image, user, p, more);
      if complete && loading.Loaded? {
        NextLoaded(m1, m.phys, k, m.spaces, o1, s, image, user, p, more);
      } else if !complete {
        RoomGone(m1, m.phys, k, m.spaces, more, s, CodePage(p), used1, m.pmm.Used());
      }
      but, complete := but + more, complete && loading.Loaded?;
    }
    ImageReads(m.phys, s, image, user, complete);
  }

  lemma WindowsOf(m: Phys, r: Phys, k: Kernel, spaces: set<nat>, before: Owners, after: Owners, but: set<(nat, Page)>)
    requires k.dir < |m| && Undisturbed(m, r, k, spaces, before, after, but)
    ensures KernelWindows(m, k, but)
  {
  }

  lemma EmptySpace(m: Phys, k: Kernel, owner: Owners, s: nat, w: Page, image: seq<Byte>, user: bool)
    requires Names(m, k, w, s) && s in owner && owner[s] == Directory && s < |m|
    requires forall q :: Legal(q) && q.d >= 2 ==> Walk(m, s, q) == NotPresent
    requires forall d: nat :: 2 <= d < ENTRIES ==> EntryAt(m, s, d) == NO_ENTRY
    ensures WindowsHold(m, k, owner, {(k.dir, w)}) && OnlyImage(m, s, image, user, 0) && AllLoaded(m, s, image, user, 0)
    ensures Opens(m, s, user)
  {
    hide Walk;
  }
}
