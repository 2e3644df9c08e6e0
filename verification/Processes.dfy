/** The memory of a new process: create_process_stack and the address-space part of create_pcb. */
module Processes {
  import opened ByteWords
  import opened Tables
  import opened AddressSpaces
  import opened Frames
  import opened PageMapping
  import opened Vmm
  import opened Images

  const ENTRY: nat := 0xC000_0000
  const STACK_PAGE: Page := Page(768, 1)
  const STACK_BASE: nat := 0xC000_1000
  const CONTEXT_SIZE: nat := 40

  // ----- The initial stack -----

  predicate Fits(w: (nat, nat)) { w.0 % 4 == 0 && w.0 + 4 <= PAGE_SIZE && w.1 < U32 }

  /** The frame after the stores in ws. */
  function Stored(c: Frame, ws: seq<(nat, nat)>): Frame
    requires forall w :: w in ws ==> Fits(w)
  {
    if ws == [] then c else
      var last := ws[|ws| - 1];
      assert Fits(last);
      SetWord(Stored(c, ws[..|ws| - 1]), last.0, last.1)
  }

  /** The assignments to the context record at the end of the page: flags, eight registers, entry point. */
  function ContextStores(entry: nat): (ws: seq<(nat, nat)>)
    requires entry < U32
    ensures forall w :: w in ws ==> Fits(w)
  {
    [(4056, 0x202), (4088, 0), (4084, 0), (4080, 0), (4076, 0), (4072, 0), (4068, 0), (4064, 0), (4060, 0),
     (4092, entry)]
  }

  function StackFrame(entry: nat): Frame
    requires entry < U32
  {
    Stored(ZeroFrame(), ContextStores(entry))
  }

  lemma StoredSame(c: Frame, w: (nat, nat), a: nat)
    requires Fits(w) && a % 4 == 0 && a != w.0
    ensures Same(c, SetWord(c, w.0, w.1), a, a + 4)
  {
    assert a + 4 <= w.0 || w.0 + 4 <= a;
  }

  lemma {:induction false} StoredAt(c: Frame, ws: seq<(nat, nat)>, a: nat, v: nat)
    requires (forall w :: w in ws ==> Fits(w)) && a % 4 == 0 && a + 4 <= PAGE_SIZE
    requires forall w :: w in ws && w.0 == a ==> w.1 == v
    ensures Word(Stored(c, ws), a) == if exists w :: w in ws && w.0 == a then v else Word(c, a)
  {
    hide Word;
    if ws != [] {
      var before, last := ws[..|ws| - 1], ws[|ws| - 1];
      assert ws == before + [last];
      StoredAt(c, before, a, v);
      if last.0 != a {
        StoredSame(Stored(c, before), last, a);
        WordKept(Stored(c, before), Stored(c, ws), a);
      }
    }
  }

  /** What context_switch pops from a new stack: the interrupt flag, zeros, and the entry point last. */
  lemma StackWords(entry: nat, a: nat)
    requires entry < U32 && a % 4 == 0 && a + 4 <= PAGE_SIZE
    ensures Word(StackFrame(entry), a) == if a == 4056 then 0x202 else if a == 4092 then entry else 0
  {
    var ws := ContextStores(entry);
    StoredAt(ZeroFrame(), ws, a, if a == 4056 then 0x202 else if a == 4092 then entry else 0);
    assert (4056, 0x202) in ws && (4092, entry) in ws;
  }

  method StoreWords(m: Machine, v: Page, ws: seq<(nat, nat)>, ghost f: nat)
    requires m.Valid() && Names(m.phys, m.kernel, v, f) && v != WINDOW && f in m.owner && !HoldsEntries(m.owner, f)
    requires forall w :: w in ws ==> Fits(w)
    modifies m`tlb, m`phys
    ensures m.Valid() && SameWalks(old(m.phys), m.phys, m.spaces, {}) && Names(m.phys, m.kernel, v, f)
    ensures f < |old(m.phys)| && m.phys == Replaced(old(m.phys), f, Stored(old(m.phys)[f], ws))
  {
    hide Machine.Valid, SameWalks, HoldsEntries, Replaced, Names, Walk, SetWord;
    ghost var m0 := m.phys;
    NamesFrame(m0, m.kernel, v, f);
    SameSelf(m0, m.spaces, m.owner, {});
    ReplacedSelf(m0, f);
    for i := 0 to |ws|
      invariant m.Valid() && SameWalks(m0, m.phys, m.spaces, {}) && Names(m.phys, m.kernel, v, f)
      invariant forall w :: w in ws[..i] ==> Fits(w)
      invariant m.phys == Replaced(m0, f, Stored(m0[f], ws[..i]))
    {
      ghost var m1 := m.phys;
      assert ws[..i + 1][..i] == ws[..i];
      assert Fits(ws[i]);
      m.StoreWord(v, ws[i].0, ws[i].1, f);
      ReplacedTwice(m0, f, Stored(m0[f], ws[..i]), Stored(m0[f], ws[..i + 1]));
      SameWalksOnce(m0, m1, m.phys, m.spaces);
    }
    assert ws[..|ws|] == ws;
  }

  /** The outcome of create_process_stack: the stack pointer and the frame that holds the stack. */
  datatype Stack = Ready(esp: nat, frame: nat) | NoStack | StackLost

  lemma PresentEntry(m: Phys, s: nat, v: Page)
    requires s < |m| && Legal(v) && Walk(m, s, v).Present?
    ensures EntryAt(m, s, v.d).present && EntryAt(m, s, v.d).frame < |m|
    ensures Walk(m, s, v) == Through(EntryAt(m, s, v.d), Leaf(EntryAt(m, EntryAt(m, s, v.d).frame, v.t)))
  {
  }

  /** A kernel page comes and goes; its frame keeps what was written. */
  lemma StackStep(m0: Phys, m1: Phys, m2: Phys, m3: Phys, k: Kernel, spaces: set<nat>, o0: Owners, o1: Owners,
                  v: Page, f: nat, c: Frame)
    requires k.dir < |m0| == |m1| && f < |m1| && f !in o0
    requires Legal(v) && v.d >= 2 && Walk(m0, k.dir, v) == NotPresent
    requires SameWalks(m0, m1, spaces, {(k.dir, v)}) && DataKept(m0, m1, o0, {k.dir})
    requires m2 == Replaced(m1, f, c) && SameWalks(m1, m2, spaces, {})
    requires (m3 == m2 || SameWalks(m2, m3, spaces, {(k.dir, v)})) && DataKept(m2, m3, o1, {})
    requires f in o1 && o1[f] == Spare && forall g :: g in o0 ==> g in o1 && o1[g] == o0[g]
    ensures |m3| == |m0| && m3[f] == c && DataKept(m0, m3, o0, {k.dir})
    ensures SameWalks(m0, m3, spaces, {(k.dir, v)}) && KernelWindows(m0, k, {(k.dir, v)})
    ensures Walk(m3, k.dir, v) == NotPresent ==> SameWalks(m0, m3, spaces, {})
  {
    hide Walk;
  }

  /**
    create_process_stack: a context record at the end of a fresh frame.  No translation has changed, and
    the stack pointer is right once the frame is mapped at STACK_BASE.
   */
  method CreateStack(m: Machine, entry: nat) returns (r: Stack, ghost but: set<(nat, Page)>)
    requires m.Valid() && entry < U32
    modifies m`tlb, m`phys, m`owner, m`stale, m.pmm.frameBitmap.storage
    ensures m.Valid() && |m.phys| == |old(m.phys)| && m.kernel.dir < |m.phys|
    ensures Grows(old(m.pmm.Used()), m.pmm.Used(), 2) && |but| <= 1
    ensures KernelWindows(old(m.phys), m.kernel, but) && SameWalks(old(m.phys), m.phys, m.spaces, but)
    ensures DataKept(old(m.phys), m.phys, old(m.owner), {m.kernel.dir})
    ensures GrownBy(old(m.owner), m.owner, old(m.pmm.Used()))
    ensures m.boot.clean ==> m.stale <= old(m.stale)
    ensures r.NoStack? ==> OutOfRoom(m.phys, m.kernel, m.pmm.Used())
    ensures r.StackLost? ==> Strayed(m.phys, m.spaces)
    ensures r.Ready? ==>
              && but == {} && r.esp == STACK_BASE + PAGE_SIZE - CONTEXT_SIZE
              && r.frame < |m.phys| && r.frame < FRAMES && r.frame !in old(m.pmm.Used())
              && r.frame in m.owner && m.owner[r.frame] == Spare && m.phys[r.frame] == StackFrame(entry)
  {
    hide Walk, DataKept, TablesOwned, IdentityMapped, Agrees, Names, PagesOwned, FrameAllocator.Used, Blank,
         SameWalks, EntryAt, OutOfRoom, NoFrames, NoVacancy, Strayed, Stops, Succeeds, Leaks, Gets, Exposes,
         FirstVacant, NewlyMapped, Replaced, HoldsEntries, ZeroFrame, StackFrame, KernelWindows, Stored,
         ContextStores;
    but := {};
    ghost var m0, o0, k := m.phys, m.owner, m.kernel;
    NoWindows(m0, k);
    var page; ghost var f;
    page, f := TakeKernelPage(m);
    if !page.Got? {
      return if page.NoMemory? then NoStack else StackLost, but;
    }
    var v := page.page;
    ghost var m1 := m.phys;
    WriteContext(m, v, entry, f);
    ghost var m2 := m.phys;
    var context := (v.d * ENTRIES + v.t) * PAGE_SIZE + PAGE_SIZE - CONTEXT_SIZE;
    var frame, direct := DirectLookup(m, v, f);
    KernelNames(m2, k, m.spaces, m.owner);
    WildStrays(m2, m.spaces, k.dir, v.d);
    if direct {
      direct := m.FreePage(PageNo(m.kernel.dir), v, m.kernel.dir);
    } else {
      SameSelf(m2, m.spaces, m.owner, {});
    }
    StackStep(m0, m1, m2, m.phys, k, m.spaces, o0, m.owner, v, f, StackFrame(entry));
    if !direct {
      but := {(k.dir, v)};
      return StackLost, but;
    }
    ContextOffset(v);
    r := Ready(STACK_BASE + context % PAGE_SIZE, frame);
  }

  lemma ContextOffset(v: Page)
    ensures ((v.d * ENTRIES + v.t) * PAGE_SIZE + PAGE_SIZE - CONTEXT_SIZE) % PAGE_SIZE == PAGE_SIZE - CONTEXT_SIZE
  {
  }

  /** Clears a kernel page and writes the context record at its end. */
  method WriteContext(m: Machine, v: Page, entry: nat, ghost f: nat)
    requires m.Valid() && Names(m.phys, m.kernel, v, f) && v != WINDOW && f in m.owner
    requires !HoldsEntries(m.owner, f) && entry < U32
    modifies m`tlb, m`phys
    ensures m.Valid() && SameWalks(old(m.phys), m.phys, m.spaces, {}) && Names(m.phys, m.kernel, v, f)
    ensures f < |old(m.phys)| && m.phys == Replaced(old(m.phys), f, StackFrame(entry))
  {
    hide Machine.Valid, SameWalks, HoldsEntries, Replaced, Names, Walk, ZeroFrame, Stored, ContextStores;
    ghost var m0 := m.phys;
    NamesFrame(m0, m.kernel, v, f);
    m.ClearPage(v, f);
    ghost var m1 := m.phys;
    StoreWords(m, v, ContextStores(entry), f);
    ReplacedTwice(m0, f, ZeroFrame(), StackFrame(entry));
    SameWalksOnce(m0, m1, m.phys, m.spaces);
  }

  /** The frame of a kernel page, read from its table by the table's physical address. */
  method DirectLookup(m: Machine, v: Page, ghost f: nat) returns (frame: nat, ok: bool)
    requires m.Valid() && Names(m.phys, m.kernel, v, f) && v.d >= 2
    modifies m`tlb
    ensures m.Valid() && m.kernel.dir < |m.phys| && v.d < ENTRIES
    ensures ok <==> !WildTable(m.phys, m.kernel.dir, v.d)
    ensures ok ==> frame == f
  {
    hide Walk, TablesOwned, IdentityMapped, Agrees, PagesOwned, FrameAllocator.Used, Blank, EntryAt;
    ghost var k := m.kernel;
    KernelNames(m.phys, k, m.spaces, m.owner);
    PresentEntry(m.phys, k.dir, v);
    var link := m.ReadNamed(PageNo(m.kernel.dir), v.d, m.kernel.dir);
    if !DirectMapped(link.frame) {
      return 0, false;
    }
    DirectNames(m.phys, k, link.frame);
    var leaf := m.ReadNamed(PageNo(link.frame), v.t, link.frame);
    frame, ok := leaf.frame, true;
  }

  // ----- What a new process reads -----

  /** The process reads the 32-bit word v at address a. */
  predicate ReadsWord(m: Phys, s: nat, a: nat, user: bool, v: nat)
    requires s < |m| && a + 4 <= U32
  {
    && Read(m, s, a) == Value(true, user, v % 0x100)
    && Read(m, s, a + 1) == Value(true, user, v / 0x100 % 0x100)
    && Read(m, s, a + 2) == Value(true, user, v / 0x1_0000 % 0x100)
    && Read(m, s, a + 3) == Value(true, user, v / 0x100_0000 % 0x100)
  }

  /**
    Everything that a process reads above 8 MB.  In the page at 0xC0001000, where its stack pointer
    points, stand the interrupt flag, eight zeros and the address 0xC0000000 in the ten words from the stack
    pointer to the end, and zeros below.  Everywhere else it reads its image, from 0xC0000000 on.
   */
  ghost predicate Legible(m: Phys, s: nat, esp: nat, image: seq<Byte>, user: bool)
  {
    && s < |m| && esp / 0x1000 == 0xC_0001 && esp % 0x1000 + 40 == 0x1000
    && (forall a: nat :: 0x80_0000 <= a < U32 && a / 0x1000 != 0xC_0001 ==> Read(m, s, a) == ImageByte(image, user, a))
    && (forall a: nat :: a / 0x1000 == 0xC_0001 && a % 4 == 0 ==>
          ReadsWord(m, s, a, user, if a == esp then 0x202 else if a == esp + 36 then 0xC000_0000 else 0))
  }

  lemma InPage(a: nat, i: nat)
    requires a % 4 == 0 && i < 4
    ensures a % 0x1000 + 4 <= 0x1000 && (a + i) / 0x1000 == a / 0x1000 && (a + i) % 0x1000 == a % 0x1000 + i
  {
  }

  lemma ByteInPage(m: Phys, s: nat, a: nat, i: nat, user: bool, f: Frame)
    requires s < |m| && a + 4 <= U32 && a % 4 == 0 && a / 0x1000 < FRAMES && i < 4
    requires View(m, s, PageNo(a / 0x1000)) == Bytes(true, user, f)
    ensures a % 0x1000 + 4 <= 0x1000 && Read(m, s, a + i) == Value(true, user, f[a % 0x1000 + i])
  {
    InPage(a, i);
    ReadWalk(m, s, a + i);
    hide Walk, Read, Word, PageNo;
  }

  /** A word of a page, read byte by byte. */
  lemma PageWord(m: Phys, s: nat, a: nat, user: bool, f: Frame)
    requires s < |m| && a + 4 <= U32 && a % 4 == 0 && a / 0x1000 < FRAMES
    requires View(m, s, PageNo(a / 0x1000)) == Bytes(true, user, f)
    ensures a % 0x1000 + 4 <= 0x1000 && ReadsWord(m, s, a, user, Word(f, a % 0x1000))
  {
    hide Walk, Read, Word, PageNo, View;
    ByteInPage(m, s, a, 0, user, f);
    ByteInPage(m, s, a, 1, user, f);
    ByteInPage(m, s, a, 2, user, f);
    ByteInPage(m, s, a, 3, user, f);
    WordBytes(f, a % 0x1000);
  }

  lemma StackWord(m: Phys, s: nat, a: nat, user: bool)
    requires s < |m| && a / 0x1000 == 0xC_0001 && a % 4 == 0 && a + 4 <= U32
    requires View(m, s, STACK_PAGE) == Bytes(true, user, StackFrame(ENTRY))
    ensures ReadsWord(m, s, a, user, if a == 0xC000_1FD8 then 0x202 else if a == 0xC000_1FFC then 0xC000_0000 else 0)
  {
    hide Read, Word, StackFrame;
    assert PageNo(a / 0x1000) == STACK_PAGE;
    PageWord(m, s, a, user, StackFrame(ENTRY));
    StackWords(ENTRY, a % 0x1000);
  }

  lemma WholeLegible(m: Phys, s: nat, image: seq<Byte>, user: bool)
    requires WholeProcess(m, s, image, user)
    ensures Legible(m, s, 0xC000_1FD8, image, user)
  {
    hide Read, Chunk, ImageByte, PagesFor, View, StackFrame, ReadsWord, Walk;
    forall a: nat | 0x80_0000 <= a < U32 && a / 0x1000 != 0xC_0001
      ensures Read(m, s, a) == ImageByte(image, user, a)
    {
      ImagePage(a);
      ImageAt(m, s, image, user, a);
      var q := PageNo(a / 0x1000);
      assert q != STACK_PAGE && Legal(q);
      assert View(m, s, q) == Expected(image, user, q);
    }
    assert View(m, s, STACK_PAGE) == Expected(image, user, STACK_PAGE);
    forall a: nat | a / 0x1000 == 0xC_0001 && a % 4 == 0
      ensures ReadsWord(m, s, a, user, if a == 0xC000_1FD8 then 0x202 else if a == 0xC000_1FFC then 0xC000_0000 else 0)
    {
      StackWord(m, s, a, user);
    }
  }

  // ----- The address space of a new process -----

  /** What a new process finds at page q, outside the shared tables: its stack, else its image. */
  function Expected(image: seq<Byte>, user: bool, q: Page): Seen
  {
    if q == STACK_PAGE then Bytes(true, user, StackFrame(ENTRY))
    else if 0 <= Offset(q) < PagesFor(|image|) then Bytes(true, user, Chunk(image, Offset(q)))
    else Nothing
  }

  ghost predicate WholeProcess(m: Phys, s: nat, image: seq<Byte>, user: bool)
  {
    s < |m| && forall q :: Legal(q) && q.d >= 2 ==> View(m, s, q) == Expected(image, user, q)
  }

  /** Pages may be missing, but none holds anything else; the image may still show at the stack's page. */
  ghost predicate PartProcess(m: Phys, s: nat, image: seq<Byte>, user: bool)
  {
    s < |m| &&
    forall q :: Legal(q) && q.d >= 2 ==>
      View(m, s, q) == Nothing || View(m, s, q) == Expected(image, user, q) ||
      (q == STACK_PAGE && |image| > PAGE_SIZE && View(m, s, q) == Bytes(true, user, Chunk(image, 1)))
  }

  /**
    The process sees its whole image exactly when the image does not reach the page of the stack, or
    happens to hold there what the stack holds.
   */
  lemma ImageVisible(m: Phys, s: nat, image: seq<Byte>, user: bool)
    requires WholeProcess(m, s, image, user) && |image| <= IMAGE_MAX
    ensures AllLoaded(m, s, image, user, PagesFor(|image|)) <==>
            |image| <= PAGE_SIZE || Chunk(image, 1) == StackFrame(ENTRY)
  {
    hide View, Chunk, StackFrame;
    forall p: nat | p < PagesFor(|image|)
      ensures View(m, s, CodePage(p)) == Bytes(true, user, if p == 1 then StackFrame(ENTRY) else Chunk(image, p))
    {
      Offsets(STACK_PAGE, p);
      Offsets(CodePage(p), 1);
    }
    if |image| > PAGE_SIZE {
      assert PageLoaded(m, s, image, user, 1) <==> Chunk(image, 1) == StackFrame(ENTRY);
    }
  }

  /** What the address space shows before the stack is mapped. */
  lemma ImageView(m: Phys, k: Kernel, spaces: set<nat>, owner: Owners, s: nat, image: seq<Byte>, user: bool, q: Page)
    requires Owned(m, k, spaces, owner) && s in spaces && s != k.dir && |image| <= IMAGE_MAX && Legal(q) && q.d >= 2
    requires OnlyImage(m, s, image, user, PagesFor(|image|))
    ensures s < |m|
    ensures var e := if 0 <= Offset(q) < PagesFor(|image|) then Bytes(true, user, Chunk(image, Offset(q))) else Nothing;
            (View(m, s, q) == Nothing || View(m, s, q) == e) &&
            (AllLoaded(m, s, image, user, PagesFor(|image|)) ==> View(m, s, q) == e)
  {
    hide Walk, Chunk, TablesOwned, PagesOwned, CodePage;
    Offsets(q, 0);
    if 0 <= Offset(q) < PagesFor(|image|) {
      Offsets(q, Offset(q));
      if AllLoaded(m, s, image, user, PagesFor(|image|)) {
        assert PageLoaded(m, s, image, user, Offset(q));
      }
    }
  }

  lemma OtherView(m: Phys, r: Phys, k: Kernel, spaces: set<nat>, owner: Owners, s: nat, v: Page, q: Page,
                  but: set<(nat, Page)>)
    requires Owned(m, k, spaces, owner) && s in spaces && s != k.dir < |m| && KernelWindows(m, k, but)
    requires Legal(q) && q.d >= 2 && DataKept(m, r, owner, {k.dir, s}) && |r| == |m|
    requires SameWalks(m, r, spaces, but) || (SameWalks(m, r, spaces, {(s, v)} + but) && q != v)
    ensures s < |m| && View(r, s, q) == View(m, s, q)
  {
    SpacesHold(m, k, spaces, owner, s);
    hide Walk, HoldsEntries, View, TablesOwned, PagesOwned, DataKept, KernelWindows, SameWalks;
    OtherWalk(m, r, k, spaces, s, v, q, but);
    ViewKept(m, r, k, spaces, owner, s, q, {k.dir, s});
  }

  /** Mapping the stack completes the process. */
  lemma StackAdded(m: Phys, r: Phys, k: Kernel, spaces: set<nat>, owner: Owners, s: nat, image: seq<Byte>, user: bool,
                   but: set<(nat, Page)>, mapped: bool)
    requires Owned(m, k, spaces, owner) && s in spaces && s != k.dir < |m| && KernelWindows(m, k, but)
    requires DataKept(m, r, owner, {k.dir, s}) && |image| <= IMAGE_MAX && |r| == |m|
    requires OnlyImage(m, s, image, user, PagesFor(|image|)) && SameWalks(m, r, spaces, {(s, STACK_PAGE)} + but)
    requires s < |m|
    requires if mapped then View(r, s, STACK_PAGE) == Bytes(true, user, StackFrame(ENTRY))
             else SameWalks(m, r, spaces, but)
    ensures PartProcess(r, s, image, user)
    ensures mapped && AllLoaded(m, s, image, user, PagesFor(|image|)) ==> WholeProcess(r, s, image, user)
  {
    hide Walk, View, TablesOwned, PagesOwned, DataKept, KernelWindows, SameWalks, Chunk, StackFrame, OnlyImage,
         AllLoaded;
    forall q | Legal(q) && q.d >= 2
      ensures View(r, s, q) == Nothing || View(r, s, q) == Expected(image, user, q) ||
              (q == STACK_PAGE && |image| > PAGE_SIZE && View(r, s, q) == Bytes(true, user, Chunk(image, 1)))
      ensures mapped && AllLoaded(m, s, image, user, PagesFor(|image|)) ==> View(r, s, q) == Expected(image, user, q)
    {
      if q != STACK_PAGE || !mapped {
        OtherView(m, r, k, spaces, owner, s, STACK_PAGE, q, but);
        ImageView(m, k, spaces, owner, s, image, user, q);
      }
    }
  }

  lemma StackSeen(m: Phys, s: nat, user: bool, f: nat)
    requires s < |m| && f < |m| && Walk(m, s, STACK_PAGE) == Present(f, true, user) && m[f] == StackFrame(ENTRY)
    ensures View(m, s, STACK_PAGE) == Bytes(true, user, StackFrame(ENTRY))
  {
  }

  /** The fields of a process control block that describe its memory. */
  datatype Process = Process(addressSpace: Page, dir: nat, esp: nat)

  /** More frames than a process with an image of so many bytes can take. */
  function FramesFor(size: nat): nat { 6 + 4 * PagesFor(size) }

  datatype Creation = Created(process: Process) | OutOfMemory | CreationLost

  /** From the image to the stack: the steps in between change no translation. */
  lemma StackChain(m1: Phys, m2: Phys, m3: Phys, m4: Phys, k: Kernel, spaces: set<nat>,
                   o1: Owners, o3: Owners, o4: Owners, used: set<nat>, s: nat, more: set<(nat, Page)>, f: nat)
    requires k.dir < |m1| && SameWalks(m1, m2, spaces, {}) && DataKept(m1, m2, o1, {}) && k.dir in spaces
    requires SameWalks(m2, m3, spaces, {}) && DataKept(m2, m3, o1, {k.dir}) && GrownBy(o1, o3, used)
    requires KernelWindows(m3, k, more) && SameWalks(m3, m4, spaces, {(s, STACK_PAGE)} + more)
    requires DataKept(m3, m4, o3, {k.dir, s}) && Kept(o3, o4)
    requires f < |m3| && f in o3 && o3[f] == Spare && HoldsEntries(o3, k.dir) && HoldsEntries(o3, s)
    ensures KernelWindows(m1, k, more) && SameWalks(m1, m4, spaces, {(s, STACK_PAGE)} + more)
    ensures SameWalks(m3, m4, spaces, more) ==> SameWalks(m1, m4, spaces, more)
    ensures DataKept(m1, m4, o1, {k.dir, s}) && Kept(o1, o4) && m4[f] == m3[f] && |m4| == |m1|
  {
    hide Walk;
  }

  /** The same where creation breaks off at the stack. */
  lemma StackFailed(m1: Phys, m2: Phys, m3: Phys, k: Kernel, spaces: set<nat>, o1: Owners, o3: Owners,
                    used: set<nat>, s: nat, more: set<(nat, Page)>)
    requires k.dir < |m1| && k.dir in spaces && SameWalks(m1, m2, spaces, {}) && DataKept(m1, m2, o1, {})
    requires KernelWindows(m2, k, more) && SameWalks(m2, m3, spaces, more) && DataKept(m2, m3, o1, {k.dir})
    requires GrownBy(o1, o3, used)
    ensures KernelWindows(m1, k, more) && SameWalks(m1, m3, spaces, {(s, STACK_PAGE)} + more)
    ensures DataKept(m1, m3, o1, {k.dir, s}) && Kept(o1, o3)
  {
    hide Walk;
  }

  lemma NamesWalk(m: Phys, k: Kernel, v: Page, f: nat)
    requires Names(m, k, v, f)
    ensures k.dir < |m| && Legal(v) && Walk(m, k.dir, v).Present? && Walk(m, k.dir, v).frame == f
  {
  }

  lemma NamesTwice(m1: Phys, m2: Phys, m3: Phys, k: Kernel, spaces: set<nat>, owner: Owners, v: Page, f: nat)
    requires TablesOwned(m3, k, spaces, owner) && SameWalks(m1, m2, spaces, {}) && SameWalks(m2, m3, spaces, {})
    requires Names(m1, k, v, f) && v != WINDOW
    ensures Names(m3, k, v, f)
  {
    hide Walk;
    SameWalksOnce(m1, m2, m3, spaces);
    NamesKept(m1, m3, k, spaces, owner, v, f);
  }

  /** A page of the kernel's is not among those that it maps later. */
  lemma StillNames(m: Phys, r: Phys, k: Kernel, spaces: set<nat>, owner: Owners, s: nat, q: Page,
                   but: set<(nat, Page)>, v: Page, f: nat)
    requires TablesOwned(r, k, spaces, owner) && Names(m, k, v, f) && v != WINDOW && s != k.dir
    requires KernelWindows(m, k, but) && SameWalks(m, r, spaces, {(s, q)} + but)
    ensures Names(r, k, v, f)
  {
    hide Walk, EntryAt;
    KernelSpace(r, k, spaces, owner);
  }

  /**
    The address-space part of create_pcb.  The process finds its image from ENTRY on, with its stack in
    place of the second page, and nothing else; `whole` says that nothing is missing, and if something
    is, the machine ran out of room.
   */
  method CreateProcess(m: Machine, image: seq<Byte>, user: bool)
    returns (r: Creation, ghost but: set<(nat, Page)>, ghost whole: bool)
    requires m.Valid() && |image| <= IMAGE_MAX
    modifies m`tlb, m`phys, m`owner, m`stale, m`spaces, m.pmm.frameBitmap.storage
    ensures m.Valid() && |m.phys| == |old(m.phys)| && m.kernel.dir < |m.phys|
    ensures Grows(old(m.pmm.Used()), m.pmm.Used(), FramesFor(|image|)) && |but| <= PagesFor(|image|) + 3
    ensures Undisturbed(old(m.phys), m.phys, m.kernel, old(m.spaces), old(m.owner), m.owner, but)
    ensures r.OutOfMemory? ==> OutOfRoom(m.phys, m.kernel, m.pmm.Used())
    ensures r.CreationLost? ==> Strayed(m.phys, m.spaces)
    ensures r.Created? ==>
              var s := r.process.dir;
              && s !in old(m.owner) && s !in old(m.spaces) && m.spaces == old(m.spaces) + {s}
              && Names(m.phys, m.kernel, r.process.addressSpace, s)
              && r.process.esp == 0xC000_1FD8
              && WindowsHold(m.phys, m.kernel, m.owner, but)
              && PartProcess(m.phys, s, image, user)
              && (whole ==> WholeProcess(m.phys, s, image, user))
              && (whole ==> Legible(m.phys, s, r.process.esp, image, user))
              && (!whole ==> OutOfRoom(m.phys, m.kernel, m.pmm.Used()))
    ensures m.spaces >= old(m.spaces) && (m.boot.clean ==> m.stale <= old(m.stale))
  {
    hide Walk, DataKept, TablesOwned, IdentityMapped, Agrees, Names, PagesOwned, FrameAllocator.Used, Blank,
         SameWalks, EntryAt, OutOfRoom, NoFrames, NoVacancy, Strayed, Stops, Succeeds, Leaks, Gets, Exposes,
         Mappable, HoldsEntries, WindowsHold, KernelWindows, Undisturbed, OnlyImage, AllLoaded, Kept, GrownBy,
         StackFrame, PartProcess, WholeProcess, Opens, ShowsImage, Legible, SparesKept;
    ghost var m0, o0, k, spaces, used := m.phys, m.owner, m.kernel, m.spaces, m.pmm.Used();
    KernelNames(m0, k, spaces, o0);
    whole := false;
    var space; ghost var s, complete;
    space, s, but, complete := CreateSpace(m, image, user);
    if !space.Got? {
      GrowsMore(used, m.pmm.Used(), 2 + 4 * PagesFor(|image|), FramesFor(|image|));
      return if space.NoMemory? then OutOfMemory else CreationLost, but, whole;
    }
    ghost var m1, o1, used1 := m.phys, m.owner, m.pmm.Used();
    KernelNames(m1, k, m.spaces, o1);
    var dir := m.GetPhysicalAddress(PageNo(m.kernel.dir), space.page, m.kernel.dir);
    ghost var m2 := m.phys;
    StillOpen(m1, m2, k, m.spaces, o1, s, {}, user);
    NamesKept(m1, m2, k, m.spaces, m.owner, space.page, s);
    NamesWalk(m2, k, space.page, s);
    var stack; ghost var more;
    stack, more := CreateStack(m, ENTRY);
    ghost var m3, o3, used3 := m.phys, m.owner, m.pmm.Used();
    StillOpen(m2, m3, k, m.spaces, o1, s, {k.dir}, user);
    GrowsTwice(used, used1, used3, 2 + 4 * PagesFor(|image|), 2);
    GrowsMore(used, used3, 4 + 4 * PagesFor(|image|), FramesFor(|image|));
    BothBounded(but, more);
    WindowsOf(m0, m1, k, spaces, o0, o1, but);
    if !stack.Ready? {
      StackFailed(m1, m2, m3, k, m.spaces, o1, o3, used1, s, more);
      NextUndisturbed(m0, m1, m3, k, spaces, m.spaces, s, STACK_PAGE, o0, o1, o3, but, more);
      but := but + more;
      return if stack.NoStack? then OutOfMemory else CreationLost, but, whole;
    }
    SpacesHold(m3, k, m.spaces, o3, s);
    NamesTwice(m1, m2, m3, k, m.spaces, o3, space.page, s);
    var status;
    status, more := MapOpen(m, space.page, STACK_PAGE, stack.frame, user, s);
    GrowsTwice(used, used3, m.pmm.Used(), 4 + 4 * PagesFor(|image|), 2);
    BothBounded(but, more);
    StackChain(m1, m2, m3, m.phys, k, m.spaces, o1, o3, m.owner, used1, s, more, stack.frame);
    NextUndisturbed(m0, m1, m.phys, k, spaces, m.spaces, s, STACK_PAGE, o0, o1, m.owner, but, more);
    if status.Astray? {
      but := but + more;
      return CreationLost, but, whole;
    }
    if status.Done? {
      StackSeen(m.phys, s, user, stack.frame);
    } else {
      NoneLeft(m.phys, k, m.pmm.Used());
    }
    NextWindowsHold(m0, m1, m.phys, k, m.spaces, s, STACK_PAGE, o1, m.owner, but, more);
    StackAdded(m1, m.phys, k, m.spaces, o1, s, image, user, more, status.Done?);
    whole := complete && status.Done?;
    if whole {
      WholeLegible(m.phys, s, image, user);
    }
    if !complete {
      RoomGone(m1, m.phys, k, m.spaces, more, s, STACK_PAGE, used1, m.pmm.Used());
    }
    StillNames(m1, m.phys, k, m.spaces, m.owner, s, STACK_PAGE, more, space.page, s);
    but := but + more;
    r := Created(Process(space.page, dir, stack.esp));
  }

  // ----- Runs of creations -----

  datatype Memory = Memory(phys: Phys, spaces: set<nat>, owner: Owners, used: set<nat>)

  /** A process: its directory, what it was made from, and whether nothing of it is missing. */
  datatype Program = Program(dir: nat, image: seq<Byte>, user: bool, whole: bool)

  /** What came of one call of create_pcb. */
  datatype Attempt = Failure | Started(p: Program)

  ghost predicate Sane(k: Kernel, a: Memory)
  {
    k.dir < |a.phys| && Owned(a.phys, k, a.spaces, a.owner) && a.owner.Keys <= a.used
  }

  ghost predicate Holds(m: Phys, p: Program)
  {
    PartProcess(m, p.dir, p.image, p.user) && (p.whole ==> WholeProcess(m, p.dir, p.image, p.user))
  }

  /** One call of create_pcb: it disturbs nothing and, when it starts a process, gives it its own directory. */
  ghost predicate Creates(k: Kernel, a: Memory, b: Memory, o: Attempt)
  {
    && Sane(k, a) && Sane(k, b) && a.used <= b.used && a.spaces <= b.spaces
    && (exists but :: Undisturbed(a.phys, b.phys, k, a.spaces, a.owner, b.owner, but))
    && (o.Started? ==> o.p.dir !in a.owner && o.p.dir in b.spaces && Holds(b.phys, o.p))
  }

  ghost predicate Run(k: Kernel, run: seq<Memory>, os: seq<Attempt>)
  {
    |run| == |os| + 1 && Sane(k, run[0]) && forall i: nat :: i < |os| ==> Creates(k, run[i], run[i + 1], os[i])
  }

  /** An older process keeps its memory. */
  lemma HoldsKept(k: Kernel, a: Memory, b: Memory, o: Attempt, elder: Program)
    requires Creates(k, a, b, o) && elder.dir in a.spaces && elder.dir != k.dir && Holds(a.phys, elder)
    ensures Holds(b.phys, elder) && elder.dir in b.spaces && (o.Started? ==> elder.dir != o.p.dir)
  {
    SpacesHold(a.phys, k, a.spaces, a.owner, elder.dir);
    var but :| Undisturbed(a.phys, b.phys, k, a.spaces, a.owner, b.owner, but);
    hide Walk, View, TablesOwned, PagesOwned, HoldsEntries, DataKept, Expected, Chunk;
    forall q | Legal(q) && q.d >= 2
      ensures elder.dir < |b.phys| && View(b.phys, elder.dir, q) == View(a.phys, elder.dir, q)
    {
      OtherWalk(a.phys, b.phys, k, a.spaces, elder.dir, q, q, but);
      ViewKept(a.phys, b.phys, k, a.spaces, a.owner, elder.dir, q, {k.dir});
    }
  }

  lemma NewStands(k: Kernel, a: Memory, b: Memory, o: Attempt)
    requires Creates(k, a, b, o)
    ensures Sane(k, b)
    ensures o.Started? ==> o.p.dir in b.spaces && o.p.dir != k.dir && o.p.dir !in a.spaces && Holds(b.phys, o.p)
  {
  }

  /** After any run of creations every process has its own directory and sees its own memory. */
  lemma {:induction false} RunKeepsProcesses(k: Kernel, run: seq<Memory>, os: seq<Attempt>)
    requires Run(k, run, os)
    ensures Sane(k, run[|os|])
    ensures forall o :: o in os && o.Started? ==>
              o.p.dir in run[|os|].spaces && o.p.dir != k.dir && Holds(run[|os|].phys, o.p)
    ensures forall i: nat, j: nat :: i < j < |os| && os[i].Started? && os[j].Started? ==> os[i].p.dir != os[j].p.dir
  {
    hide Holds, Owned, Creates, Sane;
    if os != [] {
      var n := |os| - 1;
      assert Creates(k, run[n], run[n + 1], os[n]);
      RunKeepsProcesses(k, run[..n + 1], os[..n]);
      assert os == os[..n] + [os[n]];
      NewStands(k, run[n], run[n + 1], os[n]);
      forall o | o in os[..n] && o.Started?
        ensures o.p.dir in run[n + 1].spaces && Holds(run[n + 1].phys, o.p)
        ensures os[n].Started? ==> o.p.dir != os[n].p.dir
      {
        HoldsKept(k, run[n], run[n + 1], os[n], o.p);
      }
    }
  }

  /**
    What a process maps outside the shared tables is in use, is neither a directory nor a table of
    any address space, and is mapped nowhere else; in the shared tables it agrees with the kernel.
   */
  ghost predicate Apart(k: Kernel, b: Memory, s: nat, q: Page, s': nat, q': Page)
  {
    && s < |b.phys| && s' < |b.phys| && k.dir < |b.phys| && Legal(q) && Legal(q')
    && s in b.used && (q.d < 2 ==> Walk(b.phys, s, q) == Walk(b.phys, k.dir, q))
    && (q.d >= 2 && Walk(b.phys, s, q).Present? ==>
          var f := Walk(b.phys, s, q).frame;
          && f in b.used && !Serves(b.phys, b.spaces, f)
          && (q'.d >= 2 && Walk(b.phys, s', q').Present? && (s, q) != (s', q') ==> f != Walk(b.phys, s', q').frame))
  }

  lemma SpacesApart(k: Kernel, b: Memory, s: nat, q: Page, s': nat, q': Page)
    requires Sane(k, b) && s in b.spaces && s' in b.spaces && s != k.dir && s' != k.dir && Legal(q) && Legal(q')
    ensures Apart(k, b, s, q, s', q')
  {
    SpacesHold(b.phys, k, b.spaces, b.owner, s);
    SpacesHold(b.phys, k, b.spaces, b.owner, s');
    assert s in b.owner.Keys;
    hide Walk, TablesOwned, PagesOwned, Serves;
    if q.d < 2 {
      SharedTables(b.phys, k, b.spaces, b.owner, s, q);
    } else {
      var other := if q == Page(2, 0) then Page(2, 1) else Page(2, 0);
      Isolation(b.phys, k, b.spaces, b.owner, s, q, s, other);
      if Walk(b.phys, s, q).Present? {
        assert Walk(b.phys, s, q).frame in b.owner.Keys;
      }
      if q'.d >= 2 && (s, q) != (s', q') {
        Isolation(b.phys, k, b.spaces, b.owner, s, q, s', q');
      }
    }
  }

  /** After any run of creations processes are apart from each other and from all directories and tables. */
  lemma RunIsolates(k: Kernel, run: seq<Memory>, os: seq<Attempt>, i: nat, q: Page, j: nat, q': Page)
    requires Run(k, run, os) && i < |os| && j < |os| && os[i].Started? && os[j].Started? && Legal(q) && Legal(q')
    ensures Apart(k, run[|os|], os[i].p.dir, q, os[j].p.dir, q')
    ensures i != j ==> os[i].p.dir != os[j].p.dir
  {
    hide Holds, Sane, Apart;
    RunKeepsProcesses(k, run, os);
    assert os[i] in os && os[j] in os;
    SpacesApart(k, run[|os|], os[i].p.dir, q, os[j].p.dir, q');
  }

  /**
    After any run of creations the directories and tables of all address spaces are frames in use, all
    of them different, the kernel's two tables apart, which all share.
   */
  lemma RunTablesApart(k: Kernel, run: seq<Memory>, os: seq<Attempt>, s: nat, d: nat, s': nat, d': nat, f: nat)
    requires Run(k, run, os) && s in run[|os|].spaces && s' in run[|os|].spaces && d < ENTRIES && d' < ENTRIES
    ensures var b := run[|os|];
            && s < |b.phys| && s' < |b.phys| && s in b.used
            && (NamesTable(b.phys, s, d, f) ==> f in b.used && f !in b.spaces)
            && (NamesTable(b.phys, s, d, f) && NamesTable(b.phys, s', d', f) ==>
                  (s, d) == (s', d') || (d == d' && d < 2))
  {
    hide Holds, Creates;
    RunKeepsProcesses(k, run, os);
    var b := run[|os|];
    TablesApart(b.phys, k, b.spaces, b.owner, s, d, s', d', f);
    assert forall g :: g in b.owner ==> g in b.owner.Keys;
  }

  /** Room does not come back in later creations. */
  lemma RoomStaysGone(k: Kernel, a: Memory, b: Memory, o: Attempt)
    requires Creates(k, a, b, o) && OutOfRoom(a.phys, k, a.used)
    ensures OutOfRoom(b.phys, k, b.used)
  {
    var but :| Undisturbed(a.phys, b.phys, k, a.spaces, a.owner, b.owner, but);
    KernelSpace(a.phys, k, a.spaces, a.owner);
    hide Walk, TablesOwned, PagesOwned, DataKept, OutOfRoom;
    SameBeyond(a.phys, b.phys, a.spaces, but, {(k.dir + 1, STACK_PAGE)});
    RoomGone(a.phys, b.phys, k, a.spaces, but, k.dir + 1, STACK_PAGE, a.used, b.used);
  }

  lemma Attempted(k: Kernel, a: Memory, b: Memory, o: Attempt, but: set<(nat, Page)>)
    requires Sane(k, a) && Sane(k, b) && a.used <= b.used && a.spaces <= b.spaces
    requires Undisturbed(a.phys, b.phys, k, a.spaces, a.owner, b.owner, but)
    requires o.Started? ==> o.p.dir !in a.owner && o.p.dir in b.spaces && Holds(b.phys, o.p)
    ensures Creates(k, a, b, o)
  {
  }

  lemma RunMore(k: Kernel, run: seq<Memory>, os: seq<Attempt>, b: Memory, o: Attempt)
    requires Run(k, run, os) && Creates(k, run[|os|], b, o)
    ensures Run(k, run + [b], os + [o])
  {
    hide Creates, Sane;
  }
}
