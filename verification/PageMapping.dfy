/** Steps on page tables, the translation cache, and what they change. */
module PageMapping {
  import opened ByteWords
  import opened Tables
  import opened AddressSpaces
  import opened Frames

  /** One assignment to a bit field of an entry. */
  datatype Field = SetPresent(b: bool) | SetRw(b: bool) | SetUser(b: bool) | SetFrame(frame: nat)

  predicate FieldOk(f: Field) { f.SetFrame? ==> f.frame < FRAMES }

  function Assign(e: Entry, f: Field): (r: Entry)
    requires Proper(e) && FieldOk(f)
    ensures Proper(r)
  {
    match f
    case SetPresent(b) => e.(present := b)
    case SetRw(b) => e.(rw := b)
    case SetUser(b) => e.(user := b)
    case SetFrame(n) => e.(frame := n)
  }

  function AssignAll(e: Entry, fs: seq<Field>): (r: Entry)
    requires Proper(e) && forall f :: f in fs ==> FieldOk(f)
    ensures Proper(r)
  {
    if fs == [] then e else Assign(AssignAll(e, fs[..|fs| - 1]), fs[|fs| - 1])
  }

  type Tlb = map<Page, nat>

  /**
    The translation cache, the pages without translation that it may hold all the same, and the pages
    whose translations the processor caches as soon as it can and keeps until they are flushed.
   */
  datatype Cache = Cache(tlb: Tlb, stale: set<Page>, eager: set<Page>)

  /** What an access to page v may add to the cache: v itself and, on a speculating machine, anything translated. */
  ghost predicate Fills(m: Phys, k: Kernel, speculative: bool, before: Tlb, after: Tlb, v: Page)
    requires k.dir < |m|
  {
    forall p :: p in after ==> p in before || p == v || (speculative && Legal(p) && Walk(m, k.dir, p).Present?)
  }

  /** What the processor caches eagerly stays cached, the pages of `but` apart. */
  ghost predicate Held(eager: set<Page>, before: Tlb, after: Tlb, but: set<Page>)
  {
    forall p :: p in before && p in eager && p !in but ==> p in after
  }

  /** What memory m translates is in the cache as far as the processor is eager. */
  ghost predicate Fetched(m: Phys, k: Kernel, eager: set<Page>, tlb: Tlb, but: set<Page>)
    requires k.dir < |m|
  {
    forall p :: p in eager && p !in but && Legal(p) && Walk(m, k.dir, p).Present? ==> p in tlb
  }

  /**
    Cached translations of the kernel's pages agree with the walk, those of `but` apart.  Only stale
    pages can be cached without translation, and eagerly cached ones are.
   */
  ghost predicate Agrees(m: Phys, k: Kernel, c: Cache, but: set<Page>)
    requires k.dir < |m|
  {
    && (forall p :: p in c.tlb && p !in but ==>
          Legal(p) && if Walk(m, k.dir, p).Present? then Walk(m, k.dir, p).frame == c.tlb[p] else p in c.stale)
    && (forall p :: p in c.stale ==>
          Legal(p) && p.d >= 2 && (p in c.eager ==> p in c.tlb) && (p !in but ==> Walk(m, k.dir, p) == NotPresent))
  }

  /** The kernel's directory translates every page alike, those of `but` apart. */
  ghost predicate SameFor(m: Phys, r: Phys, k: Kernel, but: set<Page>)
  {
    k.dir < |m| == |r| && forall p :: Legal(p) && p !in but ==> Walk(r, k.dir, p) == Walk(m, k.dir, p)
  }

  /** Writing entry i of frame f redirects no page, those of `but` apart. */
  ghost predicate Steady(m: Phys, k: Kernel, but: set<Page>, f: nat, i: nat)
    requires f < |m| && i < ENTRIES
  {
    forall e :: Proper(e) ==> SameFor(m, Store(m, f, i, e), k, but)
  }

  ghost predicate SteadyData(m: Phys, k: Kernel, but: set<Page>, f: nat)
    requires f < |m|
  {
    forall c: Frame :: SameFor(m, Replaced(m, f, c), k, but)
  }

  // ----- What a table shows -----

  /** The pages under directory entry d. */
  function Under(d: nat): set<Page> { set t: nat | t < ENTRIES :: Page(d, t) }

  /** What the kernel's directory translates under entry d lies within `lit`. */
  ghost predicate Lit(m: Phys, k: Kernel, d: nat, lit: set<Page>)
    requires k.dir < |m|
  {
    forall p :: Legal(p) && p.d == d && p !in lit ==> Walk(m, k.dir, p) == NotPresent
  }

  /** What is cached under directory entry d lies within `lit`. */
  ghost predicate Within(tlb: Tlb, d: nat, lit: set<Page>)
  {
    forall p :: p in tlb && p.d == d ==> p in lit
  }

  /** The pages that frame f translates as the table of directory entry d. */
  function Shown(m: Phys, f: nat, d: nat): set<Page>
    requires f < |m|
  {
    set t: nat | t < ENTRIES && EntryAt(m, f, t).present :: Page(d, t)
  }

  /**
    What a speculating processor sees under entry d while it is linked: the table at frame 0, which an
    absent entry names, and then the old contents of the fresh table.
   */
  function Exposed(speculative: bool, m: Phys, d: nat, table: nat): set<Page>
    requires table < |m|
  {
    if speculative then Shown(m, 0, d) + Shown(m, table, d) else {}
  }

  /** What vmm_get_new_page exposes when it needs directory entry d of directory s. */
  function Exposes(speculative: bool, m: Phys, k: Kernel, s: nat, d: nat, table: nat): set<Page>
    requires s < |m| && d < ENTRIES && table < |m|
  {
    if s == k.dir && !EntryAt(m, s, d).present then Exposed(speculative, m, d, table) else {}
  }

  /** As a table, frame f translates nothing, its first entry apart. */
  ghost predicate Clean(m: Phys, f: nat)
    requires f < |m|
  {
    forall i: nat :: 0 < i < ENTRIES ==> !EntryAt(m, f, i).present
  }

  /** How the machine booted: whether memory was clean, which frames were reserved, and what memory held. */
  datatype BootState = BootState(clean: bool, reserved: set<nat>, image: Phys)

  /** All frames that the direct map could reach are in use. */
  ghost predicate Low(used: set<nat>) { forall f: nat :: f < 2047 ==> f in used }

  /** Frames with an owner are in use, none was reserved at boot, and low ones were taken first. */
  ghost predicate Claimed(boot: BootState, owner: Owners, used: set<nat>)
  {
    && owner.Keys <= used && 0 in boot.reserved && boot.reserved <= used
    && forall f :: f in owner ==> f !in boot.reserved && (f >= 2047 ==> Low(used))
  }

  /**
    Reserved frames hold what they held at boot; absent entries of the kernel's directory name frame 0;
    where asked, frame 0 and the free frames are clean.
   */
  ghost predicate Blank(boot: BootState, m: Phys, k: Kernel, used: set<nat>)
  {
    && k.dir < |m|
    && (forall d: nat :: 2 <= d < ENTRIES && !EntryAt(m, k.dir, d).present ==> EntryAt(m, k.dir, d).frame == 0)
    && |boot.image| == |m| && (forall f: nat :: f in boot.reserved && f < |m| ==> m[f] == boot.image[f])
    && (boot.clean ==> forall f: nat :: f < |m| && (f == 0 || f !in used) ==> Clean(m, f))
  }

  /** What shows under entry d while the fields are assigned lies within `lit`. */
  ghost predicate LitStores(m: Phys, k: Kernel, f: nat, i: nat, fs: seq<Field>, d: nat, lit: set<Page>)
    requires k.dir < |m| && f < |m| && i < ENTRIES && forall x :: x in fs ==> FieldOk(x)
  {
    Lit(m, k, d, lit) &&
    forall j: nat :: j <= |fs| ==> Lit(Store(m, f, i, AssignAll(EntryAt(m, f, i), fs[..j])), k, d, lit)
  }

  /** What shows under entry d while the frame is filled lies within `lit`. */
  ghost predicate LitFills(m: Phys, k: Kernel, f: nat, src: seq<Byte>, d: nat, lit: set<Page>)
    requires k.dir < |m| && f < |m| && |src| <= PAGE_SIZE
  {
    forall j: nat :: j <= |src| ==> Lit(Replaced(m, f, Filled(m[f], src[..j])), k, d, lit)
  }

  function Replaced(m: Phys, f: nat, c: Frame): (r: Phys)
    requires f < |m|
    ensures |r| == |m|
  {
    m[f := c]
  }

  /** The page asked for: NULL leaves the choice open. */
  datatype Choice = Anywhere | Exactly(page: Page)

  /** The outcome of mapping a frame; Astray where it would follow a table outside the direct map. */
  datatype Status = Done | Failed | Astray

  /** The outcome of a search for a page. */
  datatype Slot = Vacant(page: Page) | Full | Wild

  /** The outcome of vmm_get_new_page; WildAccess where it would follow a table outside the direct map. */
  datatype NewPage = Got(page: Page) | NoMemory | WildAccess

  ghost predicate AtMostOneMore(before: set<nat>, after: set<nat>)
  {
    before <= after && forall f, g :: f in after && g in after && f !in before && g !in before ==> f == g
  }

  /** At most n more are in use. */
  ghost predicate Grows(before: set<nat>, after: set<nat>, n: nat)
  {
    before <= after && |after - before| <= n
  }

  lemma GrowsSelf(used: set<nat>, n: nat)
    ensures Grows(used, used, n)
  {
    assert used - used == {};
  }

  lemma GrowsSubset(before: set<nat>, after: set<nat>, n: nat)
    requires Grows(before, after, n)
    ensures before <= after
  {
  }

  lemma GrowsOne(used: set<nat>, f: nat)
    ensures Grows(used, used + {f}, 1)
  {
    assert used + {f} - used <= {f};
    CardinalityMore(used + {f} - used, {f});
  }

  lemma GrowsTwice(a: set<nat>, b: set<nat>, c: set<nat>, m: nat, n: nat)
    requires Grows(a, b, m) && Grows(b, c, n)
    ensures Grows(a, c, m + n)
  {
    assert c - a == (c - b) + (b - a);
  }

  lemma GrowsMore(before: set<nat>, after: set<nat>, m: nat, n: nat)
    requires Grows(before, after, m) && m <= n
    ensures Grows(before, after, n)
  {
  }

  lemma BothBounded<T>(a: set<T>, b: set<T>)
    ensures |a + b| <= |a| + |b|
  {
    assert a + b == a + (b - a);
    CardinalityMore(b - a, b);
  }

  lemma {:induction false} CardinalityMore<T>(a: set<T>, b: set<T>)
    requires a <= b
    ensures |a| <= |b|
  {
    assert b == a + (b - a);
  }

  /**
    Entry d of directory s is linked: an entry that was there stays as it is, a new one has the flags
    asked for, and no other entry of the directory changes.
   */
  ghost predicate Linked(m: Phys, r: Phys, s: nat, d: nat, rw: bool, user: bool)
  {
    && s < |m| == |r| && d < ENTRIES
    && (forall i: nat :: i < ENTRIES && i != d ==> EntryAt(r, s, i) == EntryAt(m, s, i))
    && var e, e' := EntryAt(m, s, d), EntryAt(r, s, d);
       e' == if e.present then e else Entry(true, rw, user, e.reserved, e'.frame)
  }

  lemma LinkedAlready(m: Phys, r: Phys, s: nat, d: nat, rw: bool, user: bool)
    requires s < |m| == |r| && d < ENTRIES && r[s] == m[s] && EntryAt(m, s, d).present
    ensures Linked(m, r, s, d, rw, user)
  {
  }

  lemma LinkedStore(m: Phys, s: nat, d: nat, rw: bool, user: bool, table: nat)
    requires s < |m| && d < ENTRIES && table < FRAMES && !EntryAt(m, s, d).present
    ensures Linked(m, Store(m, s, d, Entry(true, rw, user, EntryAt(m, s, d).reserved, table)), s, d, rw, user)
  {
    StoreKeeps(m, s, d, Entry(true, rw, user, EntryAt(m, s, d).reserved, table));
    hide Store, EntryAt;
  }

  lemma LinkedOnwards(m: Phys, r: Phys, q: Phys, s: nat, d: nat, rw: bool, user: bool)
    requires Linked(m, r, s, d, rw, user) && |q| == |r| && q[s] == r[s]
    ensures Linked(m, q, s, d, rw, user) && EntryAt(q, s, d) == EntryAt(r, s, d)
  {
  }

  lemma LinkedLater(m: Phys, r: Phys, q: Phys, s: nat, d: nat, rw: bool, user: bool)
    requires Linked(r, q, s, d, rw, user) && |m| == |r| && m[s] == r[s]
    ensures Linked(m, q, s, d, rw, user)
  {
  }

  /** A frame that was free is mapped at page p of s, and no other translation changed. */
  ghost predicate NewlyMapped(m: Phys, r: Phys, k: Kernel, spaces: set<nat>, owner: Owners,
                              before: set<nat>, after: set<nat>, s: nat, p: Page, f: nat, w: Walked)
  {
    && s < |r| == |m| && f < |r| && f < FRAMES && f !in before && f in after && Legal(p)
    && f in owner && owner[f] == (if s == k.dir then Spare else PageOf(s, p))
    && Walk(r, s, p) == w && SameWalks(m, r, spaces, {(s, p)})
  }

  /** Pages that the search looks at. */
  predicate Searched(p: Page) { Legal(p) && 2 <= p.d && p.d != 768 && p.d != 769 }

  predicate Before(q: Page, p: Page) { q.d < p.d || (q.d == p.d && q.t < p.t) }

  /** p is the first of the searched pages that directory s does not translate. */
  ghost predicate FirstVacant(m: Phys, s: nat, p: Page)
  {
    s < |m| && Searched(p) && Walk(m, s, p) == NotPresent &&
    forall q :: Searched(q) && Before(q, p) ==> Walk(m, s, q).Present?
  }

  /** A table that cannot be reached by its physical address. */
  predicate WildTable(m: Phys, s: nat, d: nat)
    requires s < |m| && d < ENTRIES
  {
    EntryAt(m, s, d).present && !DirectMapped(EntryAt(m, s, d).frame)
  }

  /** Directory entries that the search looks at. */
  predicate SearchedEntry(d: nat) { 2 <= d < ENTRIES && d != 768 && d != 769 }

  /** The search looks through all tables before entry d and cannot reach the table there. */
  ghost predicate StopsAt(m: Phys, s: nat, d: nat)
    requires s < |m|
  {
    && SearchedEntry(d) && WildTable(m, s, d)
    && (forall e: nat :: SearchedEntry(e) && e < d ==> !WildTable(m, s, e))
    && (forall q :: Searched(q) && q.d < d ==> Walk(m, s, q).Present?)
  }

  ghost predicate Stops(m: Phys, s: nat)
  {
    s < |m| && exists d: nat :: StopsAt(m, s, d)
  }

  /** The page that vmm_get_new_page decides on. */
  ghost predicate Chosen(m: Phys, s: nat, explicit: Choice, p: Page)
  {
    match explicit
    case Exactly(page) => p == page
    case Anywhere =>
      FirstVacant(m, s, p) && forall e: nat :: SearchedEntry(e) && e <= p.d ==> !WildTable(m, s, e)
  }

  /** Frames that can still be taken. */
  ghost function Free(m: Phys, used: set<nat>): set<nat> { set f: nat | f < |m| && f !in used }

  /** Frames that a new page under entry d takes: its own, and a table's where there is none. */
  function Need(m: Phys, s: nat, d: nat): nat
    requires s < |m| && d < ENTRIES
  {
    if EntryAt(m, s, d).present then 1 else 2
  }

  /** A page is decided on and there are frames enough for it. */
  ghost predicate Gets(m: Phys, s: nat, explicit: Choice, used: set<nat>, p: Page)
  {
    Chosen(m, s, explicit, p) && s < |m| && p.d < ENTRIES && Need(m, s, p.d) <= |Free(m, used)|
  }

  ghost predicate Succeeds(m: Phys, s: nat, explicit: Choice, used: set<nat>)
  {
    exists p :: Gets(m, s, explicit, used, p)
  }

  /** A page is decided on, its table is missing, and the one frame that is left is taken for the page. */
  ghost predicate Leaks(m: Phys, s: nat, explicit: Choice, used: set<nat>)
  {
    exists p :: Chosen(m, s, explicit, p) && s < |m| && p.d < ENTRIES && !EntryAt(m, s, p.d).present &&
                |Free(m, used)| == 1
  }

  /** vmm_map_frame finds or builds a table for entry d of directory s. */
  ghost predicate Mappable(m: Phys, k: Kernel, used: set<nat>, s: nat, d: nat)
    requires s < |m| && d < ENTRIES
  {
    if EntryAt(m, s, d).present then !WildTable(m, s, d) else Succeeds(m, k.dir, Anywhere, used)
  }

  /** Some directory has a table that cannot be reached by its physical address. */
  ghost predicate Strayed(m: Phys, spaces: set<nat>)
  {
    exists s, d: nat :: s in spaces && s < |m| && d < ENTRIES && WildTable(m, s, d)
  }

  /** While all tables lie in the direct map none is out of reach, as with at most 2047 frames. */
  lemma NeverAstray(m: Phys, k: Kernel, spaces: set<nat>, owner: Owners)
    requires TablesOwned(m, k, spaces, owner) && 0 !in owner
    requires |m| <= 2047 || forall f :: IsTable(owner, f) ==> DirectMapped(f)
    ensures !Strayed(m, spaces)
  {
    forall s, d: nat | s in spaces && s < |m| && d < ENTRIES
      ensures !WildTable(m, s, d)
    {
      TableOwner(m, k, spaces, owner, s, d);
    }
  }

  /** Every frame is in use. */
  ghost predicate NoFrames(m: Phys, used: set<nat>) { forall f: nat :: f < |m| ==> f in used }

  /** The search finds nothing in directory s. */
  ghost predicate NoVacancy(m: Phys, s: nat)
  {
    s < |m| && forall q :: Searched(q) ==> Walk(m, s, q).Present?
  }

  /** The kernel's directory translates page v to frame f. */
  ghost predicate Names(m: Phys, k: Kernel, v: Page, f: nat)
  {
    k.dir < |m| && Legal(v) && f < |m| && Walk(m, k.dir, v).Present? && Walk(m, k.dir, v).frame == f
  }

  lemma DirectNames(m: Phys, k: Kernel, n: nat)
    requires IdentityMapped(m, k) && DirectMapped(n) && n < |m|
    ensures Names(m, k, PageNo(n), n) && PageNo(n) != WINDOW && PageNo(n).d < 2
  {
    IdentityWalk(m, k, n);
  }

  lemma AbsentWalk(m: Phys, k: Kernel, spaces: set<nat>, owner: Owners, s: nat, d: nat)
    requires TablesOwned(m, k, spaces, owner) && s in spaces && d < ENTRIES
    ensures s < |m|
    ensures !EntryAt(m, s, d).present ==> forall t: nat :: t < ENTRIES ==> Walk(m, s, Page(d, t)) == NotPresent
  {
  }

  predicate IsTable(owner: Owners, f: nat) { f in owner && (owner[f].SharedTable? || owner[f].TableOf?) }

  /** Directories and frames of data keep their bytes, those of `but` apart. */
  ghost predicate DataKept(m: Phys, r: Phys, owner: Owners, but: set<nat>)
  {
    |r| == |m| && forall f :: f in owner && f < |m| && !IsTable(owner, f) && f !in but ==> r[f] == m[f]
  }

  /** Where the linker placed the kernel's text, constants and data. */
  datatype Sections = Sections(text: nat, rodata: nat, data: nat)

  predicate ReadOnly(a: nat, sections: Sections)
  {
    sections.text <= a < sections.rodata || sections.rodata <= a < sections.data
  }

  function LowEntry(i: nat, sections: Sections): Entry
  {
    Entry(true, !ReadOnly(i * PAGE_SIZE, sections), false, 0, i)
  }

  function HighEntry(i: nat): Entry { Entry(true, true, false, 0, ENTRIES + i) }

  /** The tables that paging_init builds. */
  ghost predicate Built(m: Phys, k: Kernel, sections: Sections)
  {
    && k.dir < |m| && k.pt0 < |m| && k.pt1 < |m|
    && (forall j: nat :: j < ENTRIES ==>
          EntryAt(m, k.pt0, j) == LowEntry(j, sections).(present := j > 0))
    && (forall j: nat :: j < ENTRIES ==> EntryAt(m, k.pt1, j) == HighEntry(j))
    && (forall j: nat :: j < ENTRIES ==>
          EntryAt(m, k.dir, j) == if j == 0 then Entry(true, true, false, 0, k.pt0)
                                  else if j == 1 then Entry(true, true, false, 0, k.pt1) else NO_ENTRY)
  }

  /** What the tables of paging_init translate. */
  lemma BuiltFacts(m: Phys, k: Kernel, sections: Sections)
    requires Built(m, k, sections)
    requires DirectMapped(k.dir) && DirectMapped(k.pt0) && DirectMapped(k.pt1)
    requires k.dir != k.pt0 && k.dir != k.pt1 && k.pt0 != k.pt1
    ensures IdentityMapped(m, k)
    ensures Owned(m, k, {k.dir}, map[k.dir := Directory, k.pt0 := SharedTable, k.pt1 := SharedTable])
    ensures forall n :: 0 < n < 2048 ==>
              Walk(m, k.dir, PageNo(n)) == Present(n, n >= 1024 || !ReadOnly(n * PAGE_SIZE, sections), false)
    ensures Walk(m, k.dir, PageNo(0)) == NotPresent
    ensures forall p :: Legal(p) && p.d >= 2 ==> Walk(m, k.dir, p) == NotPresent
    ensures k.dir < |m| && forall d: nat :: 2 <= d < ENTRIES ==> EntryAt(m, k.dir, d) == NO_ENTRY
  {
    hide EntryAt;
    forall n | 0 < n < 2047
      ensures Identity(m, k, n)
    {
      assert EntryAt(m, if n < 1024 then k.pt0 else k.pt1, n % 1024).present;
    }
    forall n | 0 < n < 2048
      ensures Walk(m, k.dir, PageNo(n)) ==
              Present(n, n >= 1024 || !ReadOnly(n * PAGE_SIZE, sections), false)
    {
      var p := PageNo(n);
      assert EntryAt(m, k.dir, p.d).present;
    }
  }

  /**
    What the kernel reads below 8 MB: the byte at that physical address, page 0 and addresses beyond
    memory apart, writable unless the page starts between the kernel's text and its data.
   */
  ghost predicate ReadsDirectly(m: Phys, dir: nat, sections: Sections)
  {
    dir < |m| &&
    forall a: nat :: a < 0x80_0000 ==>
      Read(m, dir, a) ==
      if a < 0x1000 || a / 0x1000 >= |m| then Fault
      else Value(a >= 0x40_0000 || !(sections.text <= a / 0x1000 * 0x1000 < sections.data), false,
                 m[a / 0x1000][a % 0x1000])
  }

  lemma BuiltReads(m: Phys, k: Kernel, sections: Sections)
    requires Built(m, k, sections) && sections.text <= sections.rodata <= sections.data
    requires DirectMapped(k.dir) && DirectMapped(k.pt0) && DirectMapped(k.pt1)
    requires k.dir != k.pt0 && k.dir != k.pt1 && k.pt0 != k.pt1
    ensures ReadsDirectly(m, k.dir, sections)
  {
    BuiltFacts(m, k, sections);
    hide Read, Walk, Built, Owned, IdentityMapped;
    forall a: nat | a < 0x80_0000
      ensures Read(m, k.dir, a) ==
              if a < 0x1000 || a / 0x1000 >= |m| then Fault
              else Value(a >= 0x40_0000 || !(sections.text <= a / 0x1000 * 0x1000 < sections.data), false,
                         m[a / 0x1000][a % 0x1000])
    {
      ReadWalk(m, k.dir, a);
      var n := a / 0x1000;
      assert n < 2048;
    }
  }

  lemma OwnedSplit(m: Phys, k: Kernel, spaces: set<nat>, owner: Owners)
    requires Owned(m, k, spaces, owner)
    ensures TablesOwned(m, k, spaces, owner) && PagesOwned(m, k, spaces, owner)
  {
  }

  /** k is made of the three least free frames, all of them in the direct map. */
  ghost predicate Boots(used: set<nat>, total: nat, k: Kernel)
  {
    var (u1, a) := Allocate(used, total);
    var (u2, b) := Allocate(u1, total);
    var (u3, c) := Allocate(u2, total);
    a != 0 && b != 0 && c != 0 && k == Kernel(a / PAGE_SIZE, b / PAGE_SIZE, c / PAGE_SIZE) &&
    DirectMapped(k.dir) && DirectMapped(k.pt0) && DirectMapped(k.pt1)
  }

  lemma BootsFacts(used: set<nat>, total: nat, k: Kernel)
    requires Boots(used, total, k) && total <= FRAMES && 0 in used
    ensures k.dir < total && k.pt0 < total && k.pt1 < total
    ensures k.dir != k.pt0 && k.dir != k.pt1 && k.pt0 != k.pt1
    ensures DirectMapped(k.dir) && DirectMapped(k.pt0) && DirectMapped(k.pt1)
    ensures var (u1, a) := Allocate(used, total);
            var (u2, b) := Allocate(u1, total);
            var (u3, c) := Allocate(u2, total);
            && k.dir !in used && k.pt0 !in used && k.pt1 !in used
            && u3 == used + {k.dir, k.pt0, k.pt1} && k == Kernel(a / PAGE_SIZE, b / PAGE_SIZE, c / PAGE_SIZE)
  {
    AllocateExact(used, total);
    var u1 := Allocate(used, total).0;
    AllocateExact(u1, total);
    AllocateExact(Allocate(u1, total).0, total);
  }

  lemma FillsLit(m: Phys, k: Kernel, speculative: bool, before: Tlb, after: Tlb, v: Page, d: nat, lit: set<Page>)
    requires k.dir < |m| && Fills(m, k, speculative, before, after, v)
    ensures Within(before, d, lit) && v.d != d && (speculative ==> Lit(m, k, d, lit)) ==> Within(after, d, lit)
  {
    hide Walk;
  }

  lemma AgreesMore(m: Phys, k: Kernel, c: Cache, but: set<Page>, more: set<Page>)
    requires k.dir < |m| && Agrees(m, k, c, but) && but <= more
    ensures Agrees(m, k, c, more)
  {
    hide Walk;
  }

  lemma Moved(m: Phys, r: Phys, q: Phys, k: Kernel, c: Cache, but: set<Page>, v: Page, f: nat)
    requires SameFor(m, r, k, but) && SameFor(m, q, k, but) && Agrees(r, k, c, but) && Names(r, k, v, f) && v !in but
    ensures Agrees(q, k, c, but) && Names(q, k, v, f)
  {
    hide Walk;
  }

  lemma HeldSelf(eager: set<Page>, tlb: Tlb)
    ensures Held(eager, tlb, tlb, {})
  {
  }

  lemma HeldTwice(eager: set<Page>, a: Tlb, b: Tlb, c: Tlb, but: set<Page>)
    requires Held(eager, a, b, but) && Held(eager, b, c, but)
    ensures Held(eager, a, c, but)
  {
  }

  lemma TwoAccesses(speculative: bool, m: Phys, k: Kernel, eager: set<Page>, t0: Tlb, t1: Tlb, t2: Tlb, t3: Tlb,
                    v: Page, d: nat, lit: set<Page>)
    requires k.dir < |m| && Held(eager, t0, t1, {}) && Held(eager, t1, t2, {}) && Held(eager, t2, t3, {})
    requires Fills(m, k, speculative, t1, t2, v) && Fills(m, k, speculative, t2, t3, v)
    ensures Held(eager, t0, t3, {})
    ensures Within(t1, d, lit) && v.d != d && (speculative ==> Lit(m, k, d, lit)) ==> Within(t3, d, lit)
  {
    FillsLit(m, k, speculative, t1, t2, v, d, lit);
    FillsLit(m, k, speculative, t2, t3, v, d, lit);
    HeldTwice(eager, t0, t1, t2, {});
    HeldTwice(eager, t0, t2, t3, {});
  }

  lemma FetchedTwice(m: Phys, k: Kernel, eager: set<Page>, t1: Tlb, t2: Tlb, t3: Tlb)
    requires k.dir < |m| && Fetched(m, k, eager, t1, {}) && Held(eager, t1, t2, {}) && Held(eager, t2, t3, {})
    ensures Fetched(m, k, eager, t3, {})
  {
    FetchedHeld(m, k, eager, t1, t2, {});
    FetchedHeld(m, k, eager, t2, t3, {});
  }

  lemma FetchedHeld(m: Phys, k: Kernel, eager: set<Page>, before: Tlb, after: Tlb, but: set<Page>)
    requires k.dir < |m| && Fetched(m, k, eager, before, but) && Held(eager, before, after, but)
    ensures Fetched(m, k, eager, after, but)
  {
    hide Walk;
  }

  lemma NamesFrames(m: Phys, k: Kernel, v: Page, f: nat)
    requires Names(m, k, v, f)
    ensures k.dir < |m| && Legal(v) && f < |m|
  {
  }

  lemma NotUnder(v: Page, d: nat)
    ensures v.d != d ==> v !in Under(d)
  {
  }

  lemma SteadyAt(m: Phys, k: Kernel, but: set<Page>, f: nat, i: nat, e: Entry)
    requires f < |m| && i < ENTRIES && Steady(m, k, but, f, i) && Proper(e)
    ensures SameFor(m, Store(m, f, i, e), k, but)
  {
  }

  lemma SteadyDataAt(m: Phys, k: Kernel, but: set<Page>, f: nat, c: Frame)
    requires f < |m| && SteadyData(m, k, but, f)
    ensures SameFor(m, Replaced(m, f, c), k, but)
  {
  }

  lemma FlushWithin(tlb: Tlb, d: nat, lit: set<Page>, p: Page)
    ensures Within(tlb, d, lit) ==> Within(tlb - {p}, d, lit)
  {
  }

  lemma FlushHeld(m: Phys, k: Kernel, eager: set<Page>, before: Tlb, tlb: Tlb, p: Page)
    requires k.dir < |m| && Held(eager, before, tlb, {})
    ensures Held(eager, before, tlb - {p}, {p})
    ensures Fetched(m, k, eager, tlb, {}) ==> Fetched(m, k, eager, tlb - {p}, {p})
  {
    hide Walk;
  }

  lemma SameForSelf(m: Phys, k: Kernel, but: set<Page>)
    requires k.dir < |m|
    ensures SameFor(m, m, k, but)
  {
  }

  /** Flushing a page, which is stale no longer. */
  lemma FlushAgrees(m: Phys, k: Kernel, c: Cache, more: set<Page>, but: set<Page>, p: Page)
    requires k.dir < |m| && Agrees(m, k, c, more) && more <= but + {p}
    ensures Agrees(m, k, Cache(c.tlb - {p}, c.stale - {p}, c.eager), but)
    ensures p.d < 2 ==> c.stale - {p} == c.stale
  {
    hide Walk;
  }

  /** Pages outside the shared tables. */
  ghost predicate Upper(but: set<Page>)
  {
    forall p :: p in but ==> p.d >= 2
  }

  /** The identity-mapped page of frame n */
  lemma DirectPage(m: Phys, k: Kernel, but: set<Page>, n: nat)
    requires IdentityMapped(m, k) && Upper(but) && DirectMapped(n) && n < |m|
    ensures Names(m, k, PageNo(n), n) && PageNo(n) != WINDOW && PageNo(n).d < 2 && PageNo(n) !in but
  {
    IdentityWalk(m, k, n);
  }

  lemma SteadyWindow(m: Phys, k: Kernel, spaces: set<nat>, owner: Owners, but: set<Page>)
    requires TablesOwned(m, k, spaces, owner) && IdentityMapped(m, k)
    ensures k.pt1 < |m| && Steady(m, k, but + {WINDOW}, k.pt1, 1023)
  {
    KernelSpace(m, k, spaces, owner);
    hide Walk, Store;
    forall e | Proper(e)
      ensures SameFor(m, Store(m, k.pt1, 1023, e), k, but + {WINDOW})
    {
      WindowWrite(m, k, spaces, owner, e);
    }
  }

  /** Assignments to the window's entry show nothing more elsewhere. */
  lemma LitWindow(m: Phys, k: Kernel, spaces: set<nat>, owner: Owners, fs: seq<Field>, d: nat, lit: set<Page>)
    requires TablesOwned(m, k, spaces, owner) && IdentityMapped(m, k) && 2 <= d && Lit(m, k, d, lit)
    requires k.pt1 < |m| && forall x :: x in fs ==> FieldOk(x)
    ensures LitStores(m, k, k.pt1, 1023, fs, d, lit)
  {
    KernelSpace(m, k, spaces, owner);
    hide Walk, Store, AssignAll;
    forall j: nat | j <= |fs|
      ensures Lit(Store(m, k.pt1, 1023, AssignAll(EntryAt(m, k.pt1, 1023), fs[..j])), k, d, lit)
    {
      WindowWrite(m, k, spaces, owner, AssignAll(EntryAt(m, k.pt1, 1023), fs[..j]));
    }
  }

  // ----- Clean frames -----

  lemma CleanKept(m: Phys, r: Phys, f: nat)
    requires f < |m| == |r| && m[f] == r[f] && Clean(m, f)
    ensures Clean(r, f)
  {
    forall i: nat | 0 < i < ENTRIES
      ensures !EntryAt(r, f, i).present
    {
      assert !EntryAt(m, f, i).present;
    }
  }

  lemma ClaimedSame(boot: BootState, before: Owners, after: Owners, used: set<nat>)
    requires Claimed(boot, before, used) && after.Keys == before.Keys
    ensures Claimed(boot, after, used)
  {
    assert forall f :: f in after ==> f in after.Keys;
  }

  /** A table out of reach means that the frames in reach are all in use. */
  lemma StrayedLow(m: Phys, k: Kernel, spaces: set<nat>, owner: Owners, boot: BootState, used: set<nat>)
    requires TablesOwned(m, k, spaces, owner) && Claimed(boot, owner, used) && Strayed(m, spaces)
    ensures Low(used) && |m| > 2047
  {
    hide EntryAt, TablesOwned;
    var s, d: nat :| s in spaces && s < |m| && d < ENTRIES && WildTable(m, s, d);
    TableOwner(m, k, spaces, owner, s, d);
    assert EntryAt(m, s, d).frame !in boot.reserved;
  }

  lemma BlankMore(boot: BootState, m: Phys, k: Kernel, used: set<nat>, more: set<nat>)
    requires Blank(boot, m, k, used) && used <= more
    ensures Blank(boot, m, k, more)
  {
    hide Clean, EntryAt;
  }

  /** Writing frames in use keeps the others clean. */
  lemma BlankWritten(boot: BootState, m: Phys, r: Phys, k: Kernel, used: set<nat>, f: nat)
    requires Blank(boot, m, k, used) && |r| == |m| && f in used && f != 0 && f !in boot.reserved
    requires forall g :: 0 <= g < |m| && g != f ==> r[g] == m[g]
    requires f == k.dir ==>
               forall d: nat :: 2 <= d < ENTRIES && !EntryAt(r, f, d).present ==> EntryAt(r, f, d) == EntryAt(m, f, d)
    ensures Blank(boot, r, k, used)
  {
    hide Clean;
    forall d: nat | 2 <= d < ENTRIES && !EntryAt(r, k.dir, d).present
      ensures EntryAt(r, k.dir, d).frame == 0
    {
      assert EntryAt(r, k.dir, d) == EntryAt(m, k.dir, d);
    }
    if boot.clean {
      forall g: nat | g < |m| && (g == 0 || g !in used)
        ensures Clean(r, g)
      {
        CleanKept(m, r, g);
      }
    }
  }

  lemma BlankStore(boot: BootState, m: Phys, k: Kernel, owner: Owners, used: set<nat>, f: nat, i: nat, e: Entry)
    requires Blank(boot, m, k, used) && Claimed(boot, owner, used) && f in owner && f < |m|
    requires i < ENTRIES && Proper(e) && (f == k.dir ==> i < 2 || e.present)
    ensures Blank(boot, Store(m, f, i, e), k, used)
  {
    StoreKeeps(m, f, i, e);
    assert f in owner.Keys;
    hide EntryAt;
    BlankWritten(boot, m, Store(m, f, i, e), k, used, f);
  }

  lemma BlankReplaced(boot: BootState, m: Phys, k: Kernel, owner: Owners, used: set<nat>, f: nat, c: Frame)
    requires Blank(boot, m, k, used) && Claimed(boot, owner, used) && f in owner && f < |m| && f != k.dir
    ensures Blank(boot, Replaced(m, f, c), k, used)
  {
    assert f in owner.Keys;
    BlankWritten(boot, m, Replaced(m, f, c), k, used, f);
  }

  lemma BootBlank(boot: BootState, m: Phys, r: Phys, k: Kernel, used: set<nat>, sections: Sections)
    requires Built(r, k, sections) && |m| == |r|
    requires forall f :: 0 <= f < |r| && f !in {k.dir, k.pt0, k.pt1} ==> r[f] == m[f]
    requires k.dir > 0 && k.pt0 > 0 && k.pt1 > 0 && boot.image == m
    requires k.dir !in boot.reserved && k.pt0 !in boot.reserved && k.pt1 !in boot.reserved
    requires boot.clean ==> forall f: nat :: f < |m| && (f == 0 || f !in used) ==> Clean(m, f)
    ensures Blank(boot, r, k, used + {k.dir, k.pt0, k.pt1})
  {
    hide Clean;
    if boot.clean {
      forall f: nat | f < |r| && (f == 0 || f !in used + {k.dir, k.pt0, k.pt1})
        ensures Clean(r, f)
      {
        CleanKept(m, r, f);
      }
    }
  }

  /** The window's entry is written: a table of the kernel's changes, but no table under entry 2 or above. */
  lemma WindowStep(boot: BootState, m: Phys, k: Kernel, spaces: set<nat>, owner: Owners, used: set<nat>, e: Entry)
    requires TablesOwned(m, k, spaces, owner) && IdentityMapped(m, k) && Proper(e)
    requires Blank(boot, m, k, used) && Claimed(boot, owner, used)
    ensures k.pt1 < |m| && k.dir < |m|
    ensures var r := Store(m, k.pt1, 1023, e);
            && TablesOwned(r, k, spaces, owner) && IdentityMapped(r, k) && Blank(boot, r, k, used)
            && SameWalks(m, r, spaces, {}) && DataKept(m, r, owner, {})
            && Walk(r, k.dir, WINDOW) == Through(SharedEntry(k.pt1), Leaf(e)) && EntryAt(r, k.pt1, 1023) == e
  {
    hide Walk, Store, EntryAt, TablesOwned, DataKept, Blank;
    WindowWrite(m, k, spaces, owner, e);
    StoreAt(m, k.pt1, 1023, e, k.pt1, 1023);
    KernelSpace(m, k, spaces, owner);
    StoreData(m, k.pt1, 1023, e, owner, {});
    TableBlank(boot, m, k, spaces, owner, used, k.pt1, 1023, e);
  }

  lemma TableBlank(boot: BootState, m: Phys, k: Kernel, spaces: set<nat>, owner: Owners, used: set<nat>,
                   t: nat, i: nat, e: Entry)
    requires TablesOwned(m, k, spaces, owner) && IsTable(owner, t) && t < |m| && i < ENTRIES && Proper(e)
    requires Blank(boot, m, k, used) && Claimed(boot, owner, used)
    ensures Blank(boot, Store(m, t, i, e), k, used)
  {
    hide Blank;
    KernelSpace(m, k, spaces, owner);
    BlankStore(boot, m, k, owner, used, t, i, e);
  }

  lemma ClearedBlank(boot: BootState, m: Phys, k: Kernel, spaces: set<nat>, owner: Owners, used: set<nat>,
                    t: nat, c: Frame)
    requires TablesOwned(m, k, spaces, owner) && IsTable(owner, t) && t < |m|
    requires Blank(boot, m, k, used) && Claimed(boot, owner, used)
    ensures Blank(boot, Replaced(m, t, c), k, used)
  {
    hide Blank;
    KernelSpace(m, k, spaces, owner);
    BlankReplaced(boot, m, k, owner, used, t, c);
  }

  // ----- Linking a table -----

  lemma {:induction false} MappingPrefix(e: Entry, rw: bool, user: bool, frame: nat, j: nat)
    requires Proper(e) && frame < FRAMES && j <= 4
    ensures forall x :: x in Mapping(rw, user, frame)[..j] ==> FieldOk(x)
    ensures AssignAll(e, Mapping(rw, user, frame)[..j]).frame == if j == 4 then frame else e.frame
    ensures AssignAll(e, Mapping(rw, user, frame)[..j]).present == (j > 0 || e.present)
  {
    var fs := Mapping(rw, user, frame);
    if j > 0 {
      MappingPrefix(e, rw, user, frame, j - 1);
      assert fs[..j] == fs[..j - 1] + [fs[j - 1]];
      AssignNext(e, fs[..j - 1], fs[j - 1]);
    }
  }

  /** What shows under an entry of the kernel's directory is the table that the entry names. */
  lemma LinkShows(m: Phys, k: Kernel, d: nat, e: Entry, p: Page)
    requires k.dir < |m| && 2 <= d < ENTRIES && Proper(e) && e.frame < |m| && e.frame != k.dir && Legal(p) && p.d == d
    ensures Walk(Store(m, k.dir, d, e), k.dir, p).Present? <==> e.present && p in Shown(m, e.frame, d)
  {
    StoreKeeps(m, k.dir, d, e);
    assert p == Page(d, p.t);
    hide Store, EntryAt;
  }

  /**
    While an absent kernel entry is linked, the present bit is set before the address, and the address
    before the table is cleared: what shows is the table at frame 0, then the fresh one.
   */
  lemma LinkLit(m: Phys, k: Kernel, d: nat, rw: bool, user: bool, table: nat)
    requires k.dir < |m| && 2 <= d < ENTRIES && !EntryAt(m, k.dir, d).present && EntryAt(m, k.dir, d).frame == 0
    requires table < |m| && table < FRAMES && table != k.dir && k.dir != 0
    ensures forall x :: x in Mapping(rw, user, table) ==> FieldOk(x)
    ensures LitStores(m, k, k.dir, d, Mapping(rw, user, table), d, Exposed(true, m, d, table))
    ensures forall p :: p in Shown(m, 0, d) ==>
              var e := AssignAll(EntryAt(m, k.dir, d), Mapping(rw, user, table)[..1]);
              Walk(Store(m, k.dir, d, e), k.dir, p).Present?
  {
    MappingOk(rw, user, table);
    var e, fs := EntryAt(m, k.dir, d), Mapping(rw, user, table);
    assert |fs| == 4;
    var lit := Exposed(true, m, d, table);
    assert Lit(m, k, d, lit);
    assert EntryAt(m, k.dir, d) == e;
    hide Walk, Store, EntryAt, AssignAll, Mapping;
    forall j: nat | j <= 4
      ensures Lit(Store(m, k.dir, d, AssignAll(e, fs[..j])), k, d, lit)
    {
      MappingPrefix(e, rw, user, table, j);
      forall p | Legal(p) && p.d == d && p !in lit
        ensures Walk(Store(m, k.dir, d, AssignAll(e, fs[..j])), k.dir, p) == NotPresent
      {
        LinkShows(m, k, d, AssignAll(e, fs[..j]), p);
      }
    }
    MappingPrefix(e, rw, user, table, 1);
    forall p | p in Shown(m, 0, d)
      ensures Walk(Store(m, k.dir, d, AssignAll(e, fs[..1])), k.dir, p).Present?
    {
      LinkShows(m, k, d, AssignAll(e, fs[..1]), p);
    }
  }

  /**
    What vmm_get_new_page leaves to be cached without translation, beside the page that it maps and
    flushes: nothing exactly when neither frame 0 nor the fresh table has another present word.
   */
  lemma ExposesNothing(m: Phys, k: Kernel, d: nat, table: nat, p: Page)
    requires k.dir < |m| && d < ENTRIES && table < |m| && p.d == d && !EntryAt(m, k.dir, d).present
    ensures Exposes(true, m, k, k.dir, d, table) - {p} == {} <==>
            forall t: nat :: t < ENTRIES && t != p.t ==> !EntryAt(m, 0, t).present && !EntryAt(m, table, t).present
  {
    hide EntryAt;
    var left := Exposes(true, m, k, k.dir, d, table) - {p};
    if left == {} {
      forall t: nat | t < ENTRIES && t != p.t
        ensures !EntryAt(m, 0, t).present && !EntryAt(m, table, t).present
      {
        assert Page(d, t) !in left;
      }
    }
  }

  /** A clean machine exposes the first page under the entry only, which is the one the search finds. */
  lemma CleanExposes(speculative: bool, boot: BootState, m: Phys, k: Kernel, used: set<nat>, s: nat, p: Page,
                     table: nat)
    requires Blank(boot, m, k, used) && boot.clean && table < |m| && table !in used
    requires s < |m| && FirstVacant(m, s, p)
    ensures Exposes(speculative, m, k, s, p.d, table) <= {p}
  {
    if s == k.dir && !EntryAt(m, s, p.d).present {
      assert Walk(m, s, Page(p.d, 0)) == NotPresent;
      assert p == Page(p.d, 0) by { assert Searched(Page(p.d, 0)) && !Before(Page(p.d, 0), p); }
      assert Clean(m, 0) && Clean(m, table);
    }
  }

  /** On a processor that caches everything eagerly, the stale pages are the ones cached without translation. */
  lemma StaleExact(m: Phys, k: Kernel, c: Cache, p: Page)
    requires k.dir < |m| && Agrees(m, k, c, {}) && c.stale <= c.eager
    ensures p in c.stale <==> p in c.tlb && Legal(p) && Walk(m, k.dir, p) == NotPresent
  {
    hide Walk;
  }

  /** One more entry is owned as a table's frame; the pages that show are those of the frame. */
  lemma TableShows(m: Phys, k: Kernel, d: nat, lit: set<Page>)
    requires k.dir < |m| && d < ENTRIES && EntryAt(m, k.dir, d).present && EntryAt(m, k.dir, d).frame < |m|
    ensures Shown(m, EntryAt(m, k.dir, d).frame, d) <= lit ==> Lit(m, k, d, lit)
    ensures forall p :: p in Shown(m, EntryAt(m, k.dir, d).frame, d) ==> Legal(p) && Walk(m, k.dir, p).Present?
  {
    var t := EntryAt(m, k.dir, d).frame;
    if Shown(m, t, d) <= lit {
      forall p | Legal(p) && p.d == d && p !in lit
        ensures Walk(m, k.dir, p) == NotPresent
      {
        assert p == Page(d, p.t) && p !in Shown(m, t, d);
      }
    }
  }

  lemma ShownKept(m: Phys, r: Phys, f: nat, d: nat)
    requires f < |m| == |r| && r[f] == m[f]
    ensures Shown(r, f, d) == Shown(m, f, d)
  {
    assert forall t: nat :: t < ENTRIES ==> EntryAt(r, f, t) == EntryAt(m, f, t);
    hide EntryAt;
  }

  lemma LinkStart(speculative: bool, boot: BootState, m: Phys, k: Kernel, spaces: set<nat>, owner: Owners,
                  used: set<nat>, c: Cache, d: nat, rw: bool, user: bool, table: nat)
    requires TablesOwned(m, k, spaces, owner) && k.dir < |m| && 2 <= d < ENTRIES && !EntryAt(m, k.dir, d).present
    requires Blank(boot, m, k, used) && 0 !in owner && table < |m| && table < FRAMES && Unclaimed(owner, table)
    requires Agrees(m, k, c, {})
    ensures forall x :: x in Mapping(rw, user, table) ==> FieldOk(x)
    ensures var lit := c.stale + Exposed(speculative, m, d, table);
            Within(c.tlb, d, lit) && (speculative ==> LitStores(m, k, k.dir, d, Mapping(rw, user, table), d, lit))
  {
    KernelSpace(m, k, spaces, owner);
    MappingOk(rw, user, table);
    AbsentWithin(m, k, c, d);
    hide EntryAt, Mapping, Agrees, TablesOwned, Within, Shown;
    var lit := c.stale + Exposed(speculative, m, d, table);
    WithinMore(c.tlb, d, c.stale, lit);
    if speculative {
      LinkLit(m, k, d, rw, user, table);
      LitMore(m, k, k.dir, d, Mapping(rw, user, table), d, Exposed(true, m, d, table), lit);
    }
  }

  lemma LitMore(m: Phys, k: Kernel, f: nat, i: nat, fs: seq<Field>, d: nat, lit: set<Page>, more: set<Page>)
    requires k.dir < |m| && f < |m| && i < ENTRIES && forall x :: x in fs ==> FieldOk(x)
    requires LitStores(m, k, f, i, fs, d, lit) && lit <= more
    ensures LitStores(m, k, f, i, fs, d, more)
  {
    hide Walk, Store, EntryAt;
  }

  lemma LinkFetched(m: Phys, k: Kernel, spaces: set<nat>, owner: Owners, boot: BootState, used: set<nat>, d: nat,
                    rw: bool, user: bool, table: nat, eager: set<Page>, tlb: Tlb)
    requires TablesOwned(m, k, spaces, owner) && k.dir < |m| && 2 <= d < ENTRIES && !EntryAt(m, k.dir, d).present
    requires Blank(boot, m, k, used) && 0 !in owner && table < |m| && table < FRAMES && Unclaimed(owner, table)
    requires forall x :: x in Mapping(rw, user, table)[..1] ==> FieldOk(x)
    requires var e := AssignAll(EntryAt(m, k.dir, d), Mapping(rw, user, table)[..1]);
             Fetched(Store(m, k.dir, d, e), k, eager, tlb, {})
    ensures forall p :: p in Shown(m, 0, d) && p in eager ==> p in tlb
  {
    KernelSpace(m, k, spaces, owner);
    LinkLit(m, k, d, rw, user, table);
    hide Walk, Store, EntryAt, AssignAll, Mapping;
    assert forall p :: p in Shown(m, 0, d) ==> Legal(p);
  }

  lemma LinkedShows(speculative: bool, m0: Phys, m: Phys, k: Kernel, d: nat, table: nat, lit: set<Page>)
    requires k.dir < |m| == |m0| && d < ENTRIES && table < |m| && m[table] == m0[table]
    requires EntryAt(m, k.dir, d).present && EntryAt(m, k.dir, d).frame == table
    requires Exposed(speculative, m0, d, table) <= lit
    ensures speculative ==> Lit(m, k, d, lit)
    ensures forall p :: p in Shown(m0, table, d) ==> Legal(p) && Walk(m, k.dir, p).Present?
  {
    ShownKept(m0, m, table, d);
    TableShows(m, k, d, lit);
  }

  lemma StillShows(m0: Phys, m: Phys, r: Phys, k: Kernel, spaces: set<nat>, owner: Owners, d: nat, table: nat,
                   lit: set<Page>)
    requires TablesOwned(m, k, spaces, owner) && k.dir < |m| == |r| == |m0| && k.pt1 < |m| && 2 <= d < ENTRIES
    requires EntryAt(m, k.dir, d).present && EntryAt(m, k.dir, d).frame == table < |m| && m[table] == m0[table]
    requires r == Store(m, k.pt1, 1023, EntryAt(r, k.pt1, 1023)) && EntryAt(r, k.dir, d) == EntryAt(m, k.dir, d)
    requires Shown(m0, table, d) <= lit
    ensures LitFills(r, k, table, Repeated(0, PAGE_SIZE), d, lit)
  {
    TableOwner(m, k, spaces, owner, k.dir, d);
    OtherFrames(m, k.pt1, 1023, EntryAt(r, k.pt1, 1023), table);
    ShownKept(m0, r, table, d);
    hide Store, EntryAt, LitFills, Shown;
    LitClearing(r, k, d, table, lit);
  }

  lemma ClearedDark(m: Phys, k: Kernel, d: nat, table: nat, lit: set<Page>)
    requires k.dir < |m| && d < ENTRIES && EntryAt(m, k.dir, d).present && EntryAt(m, k.dir, d).frame == table < |m|
    requires m[table] == ZeroFrame()
    ensures Lit(m, k, d, lit)
  {
    forall p | Legal(p) && p.d == d
      ensures Walk(m, k.dir, p) == NotPresent
    {
      EmptyTable(m, k.dir, p);
    }
  }

  lemma ExposedUnder(speculative: bool, m: Phys, d: nat, table: nat)
    requires table < |m|
    ensures Exposed(speculative, m, d, table) <= Under(d)
  {
    hide EntryAt;
  }

  lemma UnderUpper(d: nat)
    ensures d >= 2 ==> Upper(Under(d))
  {
  }

  /** What showed while a table was linked is cached as far as the processor is eager. */
  lemma ExposedHeld(speculative: bool, m0: Phys, m: Phys, k: Kernel, eager: set<Page>, t1: Tlb, t2: Tlb, t3: Tlb,
                    t4: Tlb, d: nat, table: nat)
    requires k.dir < |m| == |m0| && table < |m| && d >= 2
    requires Held(eager, t1, t2, {WINDOW}) && Held(eager, t2, t3, {}) && Held(eager, t3, t4, {WINDOW})
    requires speculative ==> Fetched(m, k, eager, t2, {WINDOW})
    requires speculative ==> forall p :: p in Shown(m0, 0, d) && p in eager ==> p in t1
    requires forall p :: p in Shown(m0, table, d) ==> Legal(p) && Walk(m, k.dir, p).Present?
    ensures forall p :: p in Exposed(speculative, m0, d, table) && p in eager ==> p in t4
  {
    hide Walk, EntryAt;
    forall p | p in Exposed(speculative, m0, d, table) && p in eager
      ensures p in t4
    {
      assert p.d == d && p != WINDOW;
      assert p in t2;
    }
  }

  // ----- The search -----

  lemma VacantAt(m: Phys, s: nat, p: Page)
    requires s < |m| && Searched(p) && Walk(m, s, p) == NotPresent
    requires forall q :: Searched(q) && Before(q, p) ==> Walk(m, s, q).Present?
    requires forall e: nat :: SearchedEntry(e) && e <= p.d ==> !WildTable(m, s, e)
    ensures Chosen(m, s, Anywhere, p) && !Stops(m, s)
  {
    hide Walk, WildTable;
  }

  /**
    In addresses: the search looks at everything from 8 MB on, the 8 MB from 0xC0000000 on left out, and
    decides on the lowest page there that is not translated.
   */
  ghost predicate LowestAt(m: Phys, s: nat, p: Page, a: nat)
  {
    && s < |m| && 0x80_0000 <= a < U32 && !(0xC000_0000 <= a < 0xC080_0000) && a % 0x1000 == 0
    && p == PageNo(a / 0x1000) && Walk(m, s, p) == NotPresent
    && forall n: nat :: 0x800 <= n < a / 0x1000 && !(0xC_0000 <= n < 0xC_0800) ==> Walk(m, s, PageNo(n)).Present?
  }

  lemma ChosenLowest(m: Phys, s: nat, p: Page)
    requires Chosen(m, s, Anywhere, p)
    ensures LowestAt(m, s, p, (p.d * 1024 + p.t) * 0x1000)
  {
    hide Walk, WildTable;
    var a := (p.d * 1024 + p.t) * 0x1000;
    assert a / 0x1000 == p.d * 1024 + p.t && p == PageNo(a / 0x1000);
    forall n: nat | 0x800 <= n < a / 0x1000 && !(0xC_0000 <= n < 0xC_0800)
      ensures Walk(m, s, PageNo(n)).Present?
    {
      var q := PageNo(n);
      assert Searched(q) && Before(q, p);
    }
  }

  lemma StopAt(m: Phys, s: nat, d: nat)
    requires s < |m| && SearchedEntry(d) && WildTable(m, s, d)
    requires forall e: nat :: SearchedEntry(e) && e < d ==> !WildTable(m, s, e)
    requires forall q :: Searched(q) && q.d < d ==> Walk(m, s, q).Present?
    ensures Stops(m, s)
  {
    assert StopsAt(m, s, d);
  }

  lemma NoStop(m: Phys, s: nat)
    requires s < |m| && forall e: nat :: SearchedEntry(e) ==> !WildTable(m, s, e)
    ensures !Stops(m, s)
  {
    hide Walk, WildTable;
  }

  lemma NoChoice(m: Phys, s: nat, slot: Slot, used: set<nat>)
    requires s < |m| && !slot.Vacant?
    requires slot.Full? ==> NoVacancy(m, s)
    requires slot.Wild? ==> Stops(m, s)
    ensures !Succeeds(m, s, Anywhere, used) && !Leaks(m, s, Anywhere, used)
  {
    hide Walk, WildTable;
    forall p
      ensures !Chosen(m, s, Anywhere, p)
    {
      if slot.Wild? {
        StopsFirst(m, s, p);
      }
    }
  }

  /** Where the search stops it decides on no page. */
  lemma StopsFirst(m: Phys, s: nat, p: Page)
    requires Stops(m, s)
    ensures !Chosen(m, s, Anywhere, p)
  {
    hide Walk, WildTable;
    var d: nat :| StopsAt(m, s, d);
    assert d <= p.d ==> !Chosen(m, s, Anywhere, p);
    assert p.d < d && Searched(p) ==> Walk(m, s, p).Present?;
  }

  /** At most one page is decided on; the outcome depends on the frames that are left. */
  lemma OneChoice(m: Phys, s: nat, explicit: Choice, p: Page, used: set<nat>)
    requires s < |m| && Chosen(m, s, explicit, p) && p.d < ENTRIES
    ensures !(explicit.Anywhere? && Stops(m, s))
    ensures forall q :: Chosen(m, s, explicit, q) ==> q == p
    ensures Succeeds(m, s, explicit, used) <==> Need(m, s, p.d) <= |Free(m, used)|
    ensures Need(m, s, p.d) <= |Free(m, used)| ==> Gets(m, s, explicit, used, p)
    ensures Leaks(m, s, explicit, used) <==> !EntryAt(m, s, p.d).present && |Free(m, used)| == 1
  {
    hide Walk, WildTable, Free, EntryAt;
    if explicit.Anywhere? && Stops(m, s) {
      StopsFirst(m, s, p);
    }
    assert forall q :: Chosen(m, s, explicit, q) ==> q == p;
    assert Need(m, s, p.d) <= |Free(m, used)| ==> Gets(m, s, explicit, used, p);
  }

  lemma StaleShrinks(speculative: bool, boot: BootState, m: Phys, k: Kernel, used: set<nat>, s: nat, p: Page,
                     table: nat)
    requires Blank(boot, m, k, used) && boot.clean && table < |m| && s < |m| && FirstVacant(m, s, p)
    requires s < |m| && p.d < ENTRIES && (!EntryAt(m, s, p.d).present ==> table !in used)
    ensures Exposes(speculative, m, k, s, p.d, table) <= {p}
  {
    if !EntryAt(m, s, p.d).present {
      CleanExposes(speculative, boot, m, k, used, s, p, table);
    }
  }

  lemma FreeLess(m: Phys, used: set<nat>, f: nat)
    ensures NoFrames(m, used) <==> |Free(m, used)| == 0
    ensures f < |m| && f !in used ==> |Free(m, used + {f})| == |Free(m, used)| - 1 && |Free(m, used)| > 0
  {
    if f < |m| && f !in used {
      assert Free(m, used + {f}) == Free(m, used) - {f};
    }
    if !NoFrames(m, used) {
      var g: nat :| g < |m| && g !in used;
      assert g in Free(m, used);
    }
  }

  lemma FreeSame(m: Phys, r: Phys, used: set<nat>)
    requires |r| == |m|
    ensures Free(r, used) == Free(m, used)
  {
  }

  lemma SameDirectory(m: Phys, r: Phys, k: Kernel, spaces: set<nat>, owner: Owners, s: nat, d: nat)
    requires TablesOwned(m, k, spaces, owner) && s in spaces && d < ENTRIES && DataKept(m, r, owner, {})
    ensures s < |m| == |r| && EntryAt(r, s, d) == EntryAt(m, s, d) && r[s] == m[s]
  {
    SpaceHolds(m, k, spaces, owner, s);
  }

  lemma DirectoryKept(m: Phys, r: Phys, k: Kernel, spaces: set<nat>, owner: Owners, s: nat, ex: set<nat>)
    requires TablesOwned(m, k, spaces, owner) && s in spaces && DataKept(m, r, owner, ex) && s !in ex
    ensures s < |m| == |r| && r[s] == m[s]
  {
    SpaceHolds(m, k, spaces, owner, s);
  }

  /** A kernel page keeps its rights while its frame is filled. */
  lemma StillMapped(m0: Phys, m1: Phys, m2: Phys, m3: Phys, k: Kernel, spaces: set<nat>, owner: Owners, p: Page, f: nat)
    requires TablesOwned(m3, k, spaces, owner) && Legal(p) && p != WINDOW && f < |m1| && !HoldsEntries(owner, f)
    requires Linked(m0, m1, k.dir, p.d, true, false)
    requires Walk(m1, k.dir, p) == Through(EntryAt(m1, k.dir, p.d), Present(f, true, false))
    requires m2 == Replaced(m1, f, ZeroFrame()) && SameWalks(m1, m2, spaces, {})
    requires SameWalks(m2, m3, spaces, {}) && DataKept(m2, m3, owner, {})
    ensures k.dir < |m3| && Linked(m0, m3, k.dir, p.d, true, false)
    ensures Walk(m3, k.dir, p) == Through(EntryAt(m3, k.dir, p.d), Present(f, true, false))
  {
    KernelSpace(m3, k, spaces, owner);
    SpaceHolds(m3, k, spaces, owner, k.dir);
    assert m3[k.dir] == m1[k.dir];
    LinkedOnwards(m0, m1, m3, k.dir, p.d, true, false);
    hide Walk, EntryAt, Linked;
  }

  /** Closing the window changes no address in any entry. */
  lemma WindowFrames(m: Phys, r: Phys, k: Kernel, f: nat, i: nat)
    requires k.pt1 < |m| && f < |m| && i < ENTRIES && |r| == |m|
    requires r == Store(m, k.pt1, 1023, EntryAt(r, k.pt1, 1023))
    requires EntryAt(r, k.pt1, 1023) == EntryAt(m, k.pt1, 1023).(present := false)
    ensures EntryAt(r, f, i).frame == EntryAt(m, f, i).frame
  {
    StoreAt(m, k.pt1, 1023, EntryAt(r, k.pt1, 1023), f, i);
  }

  lemma OtherFrames(m: Phys, f: nat, i: nat, e: Entry, g: nat)
    requires f < |m| && i < ENTRIES && Proper(e) && g < |m| && g != f
    ensures Store(m, f, i, e)[g] == m[g]
  {
  }

  lemma LinkBlank(boot: BootState, m: Phys, k: Kernel, spaces: set<nat>, owner: Owners, used: set<nat>,
                  s: nat, d: nat, e: Entry)
    requires TablesOwned(m, k, spaces, owner) && s in spaces && s < |m| && d < ENTRIES && Proper(e) && e.present
    requires Blank(boot, m, k, used) && Claimed(boot, owner, used)
    ensures Blank(boot, Store(m, s, d, e), k, used)
  {
    hide Blank;
    BlankStore(boot, m, k, owner, used, s, d, e);
  }

  /** Clearing a table byte by byte shows nothing that it did not show. */
  lemma LitClearing(m: Phys, k: Kernel, d: nat, table: nat, lit: set<Page>)
    requires k.dir < |m| && table < |m| && table != k.dir && d < ENTRIES && Shown(m, table, d) <= lit
    requires EntryAt(m, k.dir, d).present && EntryAt(m, k.dir, d).frame == table
    ensures LitFills(m, k, table, Repeated(0, PAGE_SIZE), d, lit)
  {
    var src := Repeated(0, PAGE_SIZE);
    forall j: nat | j <= |src|
      ensures Lit(Replaced(m, table, Filled(m[table], src[..j])), k, d, lit)
    {
      var r := Replaced(m, table, Filled(m[table], src[..j]));
      SameBytes(m, r, k.dir, d);
      forall p | Legal(p) && p.d == d && p !in lit
        ensures Walk(r, k.dir, p) == NotPresent
      {
        assert p == Page(d, p.t) && p !in Shown(m, table, d);
        assert !EntryAt(m, table, p.t).present;
        FilledAbsent(m[table], src[..j], p.t);
        hide EntryOf;
      }
    }
  }

  lemma Parity(a: nat, x: nat)
    ensures (a + 2 * x) % 2 == a % 2
  {
  }

  lemma WordParity(f: seq<Byte>, a: nat)
    requires a + 4 <= |f|
    ensures Word(f, a) % 2 == f[a] % 2
  {
    var x := 0x80 * f[a + 1] as int + 0x8000 * f[a + 2] as int + 0x80_0000 * f[a + 3] as int;
    assert Word(f, a) == f[a] as int + 2 * x;
    Parity(f[a], x);
  }

  lemma PresentBit(f: Frame, i: nat)
    requires i < ENTRIES
    ensures EntryOf(f, i).present <==> f[4 * i] % 2 == 1
  {
    WordParity(f, 4 * i);
    hide Word;
  }

  lemma FilledAbsent(f: Frame, zeros: seq<Byte>, i: nat)
    requires |zeros| <= PAGE_SIZE && i < ENTRIES && !EntryOf(f, i).present && forall b :: b in zeros ==> b == 0
    ensures !EntryOf(Filled(f, zeros), i).present
  {
    PresentBit(f, i);
    PresentBit(Filled(f, zeros), i);
    if 4 * i < |zeros| {
      assert zeros[4 * i] in zeros;
    }
  }

  lemma KernelSpace(m: Phys, k: Kernel, spaces: set<nat>, owner: Owners)
    requires TablesOwned(m, k, spaces, owner)
    ensures k.dir in spaces && HoldsEntries(owner, k.dir) && IsTable(owner, k.pt1)
  {
  }

  function Repeated(val: Byte, count: nat): (r: seq<Byte>)
    ensures |r| == count
  {
    seq(count, _ => val)
  }

  /** The frame with its first bytes overwritten. */
  function Filled(f: Frame, bytes: seq<Byte>): Frame
    requires |bytes| <= PAGE_SIZE
  {
    bytes + f[|bytes|..]
  }

  lemma FilledNext(f: Frame, src: seq<Byte>, i: nat)
    requires i < |src| <= PAGE_SIZE
    ensures Filled(f, src[..i])[i := src[i]] == Filled(f, src[..i + 1])
  {
    assert src[..i + 1] == src[..i] + [src[i]];
  }

  lemma FilledZero(f: Frame)
    ensures Filled(f, Repeated(0, PAGE_SIZE)) == ZeroFrame()
  {
  }

  lemma AssignNext(e: Entry, fs: seq<Field>, f: Field)
    requires Proper(e) && FieldOk(f) && forall x :: x in fs ==> FieldOk(x)
    ensures AssignAll(e, fs + [f]) == Assign(AssignAll(e, fs), f)
  {
    assert (fs + [f])[..|fs|] == fs;
  }

  lemma WindowFields(e: Entry, frame: nat, rw: bool)
    requires Proper(e) && frame < FRAMES
    ensures AssignAll(e, [SetPresent(true), SetRw(rw), SetFrame(frame)]) ==
            e.(present := true, rw := rw, frame := frame)
  {
    AssignNext(e, [], SetPresent(true));
    AssignNext(e, [SetPresent(true)], SetRw(rw));
    AssignNext(e, [SetPresent(true), SetRw(rw)], SetFrame(frame));
    assert [SetPresent(true), SetRw(rw)] + [SetFrame(frame)] == [SetPresent(true), SetRw(rw), SetFrame(frame)];
  }

  lemma UnmapFields(e: Entry)
    requires Proper(e)
    ensures AssignAll(e, [SetPresent(false)]) == e.(present := false)
  {
    AssignNext(e, [], SetPresent(false));
  }

  /** The assignments that map a page or link a table. */
  function Mapping(rw: bool, user: bool, frame: nat): seq<Field>
  {
    [SetPresent(true), SetRw(rw), SetUser(user), SetFrame(frame)]
  }

  lemma MapFields(e: Entry, rw: bool, user: bool, frame: nat)
    requires Proper(e) && frame < FRAMES
    ensures AssignAll(e, Mapping(rw, user, frame)) == Entry(true, rw, user, e.reserved, frame)
  {
    AssignNext(e, [], SetPresent(true));
    AssignNext(e, [SetPresent(true)], SetRw(rw));
    AssignNext(e, [SetPresent(true), SetRw(rw)], SetUser(user));
    AssignNext(e, [SetPresent(true), SetRw(rw), SetUser(user)], SetFrame(frame));
    assert [SetPresent(true), SetRw(rw)] + [SetUser(user)] == [SetPresent(true), SetRw(rw), SetUser(user)];
    assert [SetPresent(true), SetRw(rw), SetUser(user)] + [SetFrame(frame)] == Mapping(rw, user, frame);
  }

  lemma FreeFields(e: Entry)
    requires Proper(e)
    ensures AssignAll(e, [SetPresent(false), SetFrame(0)]) == e.(present := false, frame := 0)
  {
    AssignNext(e, [], SetPresent(false));
    AssignNext(e, [SetPresent(false)], SetFrame(0));
  }

  /** Writing an entry of a table, or of directory s, leaves everything else alone. */
  lemma StoreData(m: Phys, f: nat, i: nat, e: Entry, owner: Owners, but: set<nat>)
    requires f < |m| && i < ENTRIES && Proper(e) && (IsTable(owner, f) || f in but)
    ensures DataKept(m, Store(m, f, i, e), owner, but)
  {
  }

  lemma NoneUpper()
    ensures Upper({})
  {
  }

  lemma OneUpper(p: Page)
    requires p.d >= 2
    ensures Upper({p})
  {
  }

  lemma MappingOk(rw: bool, user: bool, frame: nat)
    requires frame < FRAMES
    ensures |Mapping(rw, user, frame)| == 4 && forall x :: x in Mapping(rw, user, frame) ==> FieldOk(x)
  {
  }

  /** The table under an entry of directory s. */
  lemma TableAt(m: Phys, k: Kernel, spaces: set<nat>, owner: Owners, s: nat, p: Page)
    requires TablesOwned(m, k, spaces, owner) && s in spaces && Legal(p)
    requires s < |m| && EntryAt(m, s, p.d).present
    ensures var t := EntryAt(m, s, p.d).frame; t < |m| && t < FRAMES && IsTable(owner, t)
  {
    TableOwner(m, k, spaces, owner, s, p.d);
  }

  /** Opening the window redirects no table, and entries of the table can then be written through it. */
  lemma MapStep(m: Phys, r: Phys, k: Kernel, spaces: set<nat>, owner: Owners, s: nat, p: Page)
    requires TablesOwned(m, k, spaces, owner) && TablesOwned(r, k, spaces, owner) && IdentityMapped(r, k)
    requires s in spaces && Legal(p) && p.d >= 2 && s < |m| && |r| == |m| && k.pt1 < |m|
    requires EntryAt(m, s, p.d).present && r == Store(m, k.pt1, 1023, EntryAt(r, k.pt1, 1023))
    ensures EntryAt(r, s, p.d) == EntryAt(m, s, p.d)
    ensures var t := EntryAt(m, s, p.d).frame; t < |m| && Steady(r, k, {p}, t, p.t)
  {
    TableOwner(m, k, spaces, owner, s, p.d);
    StoreKeeps(m, k.pt1, 1023, EntryAt(r, k.pt1, 1023));
    hide Store, EntryAt, Walk;
    SteadyVia(r, k, spaces, owner, s, p, EntryAt(m, s, p.d).frame, {p});
  }

  lemma ChainWrites(m0: Phys, m1: Phys, m2: Phys, m3: Phys, spaces: set<nat>, owner: Owners, s: nat, p: Page)
    requires SameWalks(m0, m1, spaces, {}) && SameWalks(m1, m2, spaces, {(s, p)}) && SameWalks(m2, m3, spaces, {})
    requires DataKept(m0, m1, owner, {}) && DataKept(m1, m2, owner, {}) && DataKept(m2, m3, owner, {})
    requires s in spaces && s < |m0| && Legal(p) && p != WINDOW
    ensures SameWalks(m0, m3, spaces, {(s, p)}) && DataKept(m0, m3, owner, {})
    ensures Walk(m3, s, p) == Walk(m2, s, p)
  {
    hide Walk;
  }

  /** New owners are recorded for frames that were not used; the others stay. */
  ghost predicate GrownBy(before: Owners, after: Owners, used: set<nat>)
  {
    (forall f :: f in before ==> f in after && after[f] == before[f]) &&
    forall f :: f in after && f !in before ==> f !in used
  }

  lemma SameSelf(m: Phys, spaces: set<nat>, owner: Owners, ex: set<nat>)
    ensures SameWalks(m, m, spaces, {}) && DataKept(m, m, owner, ex)
  {
  }

  /** Writing entry d of directory s redirects kernel pages only when s is the kernel's, under d. */
  lemma SteadyDirectory(m: Phys, k: Kernel, spaces: set<nat>, owner: Owners, s: nat, d: nat, but: set<Page>)
    requires TablesOwned(m, k, spaces, owner) && IdentityMapped(m, k) && s in spaces && 2 <= d < ENTRIES
    requires s == k.dir ==> but == Under(d)
    ensures s < |m| && Steady(m, k, but, s, d)
  {
    KernelSpace(m, k, spaces, owner);
    SpaceHolds(m, k, spaces, owner, s);
    hide Walk, Store;
    forall e | Proper(e)
      ensures SameFor(m, Store(m, s, d, e), k, but)
    {
      DirectoryWrite(m, k, spaces, owner, s, d, e);
      forall p | Legal(p) && p !in but
        ensures Walk(Store(m, s, d, e), k.dir, p) == Walk(m, k.dir, p)
      {
        assert s == k.dir && p.d == d ==> Page(d, p.t) in Under(d);
      }
    }
  }

  lemma LinkStep(m: Phys, k: Kernel, spaces: set<nat>, owner: Owners, s: nat, d: nat, e: Entry)
    requires TablesOwned(m, k, spaces, owner) && IdentityMapped(m, k)
    requires s in spaces && 2 <= d < ENTRIES && s < |m| && !EntryAt(m, s, d).present && Proper(e)
    requires e.present && e.frame < |m| && Unclaimed(owner, e.frame)
    ensures var r := Store(m, s, d, e);
            && TablesOwned(r, k, spaces, owner[e.frame := TableOf(s, d)]) && IdentityMapped(r, k)
            && SameWalksOutside(m, r, spaces, s, d) && DataKept(m, r, owner, {s}) && EntryAt(r, s, d) == e
  {
    hide Store, EntryAt, TablesOwned, IdentityMapped, DataKept, SameWalksOutside, HoldsEntries;
    NewTable(m, k, spaces, owner, s, d, e);
    DirectoryWrite(m, k, spaces, owner, s, d, e);
    SpaceHolds(m, k, spaces, owner, s);
    StoreData(m, s, d, e, owner, {s});
  }

  lemma SpaceHolds(m: Phys, k: Kernel, spaces: set<nat>, owner: Owners, s: nat)
    requires TablesOwned(m, k, spaces, owner) && s in spaces
    ensures HoldsEntries(owner, s) && s < |m|
  {
  }

  /** After a table was linked and cleared, what was cached of its old contents is stale. */
  lemma AgreesStale(m: Phys, k: Kernel, c: Cache, d: nat, more: set<Page>)
    requires k.dir < |m| && d >= 2 && Agrees(m, k, c, Under(d)) && Lit(m, k, d, {}) && more <= Under(d) && d < ENTRIES
    requires Within(c.tlb, d, c.stale + more) && forall p :: p in more && p in c.eager ==> p in c.tlb
    ensures Agrees(m, k, c.(stale := c.stale + more), {})
  {
    hide Walk;
    assert forall p :: p in Under(d) ==> p.d == d && Legal(p);
  }

  lemma MapKeepsLink(m: Phys, r: Phys, k: Kernel, spaces: set<nat>, owner: Owners, s: nat, d: nat)
    requires TablesOwned(m, k, spaces, owner) && s in spaces && d < ENTRIES && s < |m| && k.pt1 < |m| && |r| == |m|
    requires r == Store(m, k.pt1, 1023, EntryAt(r, k.pt1, 1023))
    ensures EntryAt(r, s, d) == EntryAt(m, s, d)
  {
    TableOwner(m, k, spaces, owner, s, d);
    StoreKeeps(m, k.pt1, 1023, EntryAt(r, k.pt1, 1023));
  }

  /** Writing the frame of a table redirects kernel pages only when it is the kernel's table, under d. */
  lemma SteadyTable(m: Phys, k: Kernel, spaces: set<nat>, owner: Owners, s: nat, d: nat, but: set<Page>)
    requires TablesOwned(m, k, spaces, owner) && IdentityMapped(m, k)
    requires s in spaces && 2 <= d < ENTRIES && s < |m| && EntryAt(m, s, d).present
    requires s == k.dir ==> but == Under(d)
    ensures EntryAt(m, s, d).frame < |m| && SteadyData(m, k, but, EntryAt(m, s, d).frame)
  {
    TableOwner(m, k, spaces, owner, s, d);
    KernelSpace(m, k, spaces, owner);
    var t := EntryAt(m, s, d).frame;
    forall c: Frame
      ensures SameFor(m, Replaced(m, t, c), k, but)
    {
      assert EntriesKept(m, Replaced(m, t, c), t);
      TableReplaced(m, Replaced(m, t, c), k, spaces, owner, s, d);
      hide Walk, EntryAt, Replaced;
      forall p | Legal(p) && p !in but
        ensures Walk(Replaced(m, t, c), k.dir, p) == Walk(m, k.dir, p)
      {
        assert s == k.dir && p.d == d ==> Page(d, p.t) in Under(d);
      }
    }
  }

  /** Clearing a table changes translations under its directory entry only. */
  lemma ClearStep(m: Phys, k: Kernel, spaces: set<nat>, owner: Owners, s: nat, d: nat)
    requires TablesOwned(m, k, spaces, owner) && IdentityMapped(m, k)
    requires s in spaces && 2 <= d < ENTRIES && s < |m| && EntryAt(m, s, d).present && EntryAt(m, s, d).frame < |m|
    ensures var r := Replaced(m, EntryAt(m, s, d).frame, ZeroFrame());
            && TablesOwned(r, k, spaces, owner) && IdentityMapped(r, k)
            && SameWalksOutside(m, r, spaces, s, d) && DataKept(m, r, owner, {})
            && EntryAt(r, s, d) == EntryAt(m, s, d)
  {
    var t := EntryAt(m, s, d).frame;
    var r := Replaced(m, t, ZeroFrame());
    TableOwner(m, k, spaces, owner, s, d);
    assert EntriesKept(m, r, t);
    TableReplaced(m, r, k, spaces, owner, s, d);
  }

  lemma TableReplaced(m: Phys, r: Phys, k: Kernel, spaces: set<nat>, owner: Owners, s: nat, d: nat)
    requires TablesOwned(m, k, spaces, owner) && IdentityMapped(m, k)
    requires s in spaces && 2 <= d < ENTRIES && s < |m| && EntryAt(m, s, d).present
    requires EntriesKept(m, r, EntryAt(m, s, d).frame)
    ensures TablesOwned(r, k, spaces, owner) && IdentityMapped(r, k) && SameWalksOutside(m, r, spaces, s, d)
    ensures EntryAt(r, s, d) == EntryAt(m, s, d)
  {
    hide EntryAt;
    var t := EntryAt(m, s, d).frame;
    TableOwner(m, k, spaces, owner, s, d);
    TablesKept(m, r, k, spaces, owner, t);
    forall s', p | s' in spaces && Legal(p) && !(s' == s && p.d == d)
      ensures s' < |m| && Walk(r, s', p) == Walk(m, s', p)
    {
      TableOwner(m, k, spaces, owner, s', p.d);
    }
    IdentityKept(m, r, k);
  }

  lemma AbsentWithin(m: Phys, k: Kernel, c: Cache, d: nat)
    requires k.dir < |m| && d < ENTRIES && !EntryAt(m, k.dir, d).present && Agrees(m, k, c, {})
    ensures Within(c.tlb, d, c.stale) && Lit(m, k, d, {})
  {
    hide EntryAt;
  }

  lemma WithinMore(tlb: Tlb, d: nat, lit: set<Page>, more: set<Page>)
    requires Within(tlb, d, lit) && lit <= more
    ensures Within(tlb, d, more)
  {
  }

  /** Linking and clearing a table, seen as a whole: no translation changes. */
  lemma ClearChain(m0: Phys, m1: Phys, m2: Phys, m3: Phys, m4: Phys, k: Kernel, spaces: set<nat>,
                   before: Owners, after: Owners, s: nat, d: nat)
    requires SameWalksOutside(m0, m1, spaces, s, d) && DataKept(m0, m1, before, {s})
    requires SameWalks(m1, m2, spaces, {}) && DataKept(m1, m2, after, {})
    requires SameWalksOutside(m2, m3, spaces, s, d) && DataKept(m2, m3, after, {})
    requires SameWalks(m3, m4, spaces, {}) && DataKept(m3, m4, after, {})
    requires s in spaces && s < |m0| && 2 <= d < ENTRIES && !EntryAt(m0, s, d).present
    requires k.pt1 < |m3| && m4 == Store(m3, k.pt1, 1023, EntryAt(m4, k.pt1, 1023))
    requires TablesOwned(m3, k, spaces, after) && EntryAt(m3, s, d).present
    requires var t := EntryAt(m3, s, d).frame;
             t < |m3| && m3[t] == ZeroFrame() && after == before[t := TableOf(s, d)] && t !in before
    ensures SameWalks(m0, m4, spaces, {}) && DataKept(m0, m4, before, {s})
    ensures EntryAt(m4, s, d) == EntryAt(m3, s, d) && m4[EntryAt(m3, s, d).frame] == ZeroFrame()
    ensures m4[s] == m1[s]
  {
    SpaceHolds(m3, k, spaces, after, s);
    MapKeepsLink(m3, m4, k, spaces, after, s, d);
    TableOwner(m3, k, spaces, after, s, d);
    var t := EntryAt(m3, s, d).frame;
    assert m4[t] == m3[t];
    hide Store, EntryAt, ZeroFrame;
    OtherSame(m0, m1, m2, m3, m4, spaces, s, d);
    forall s', p | s' in spaces && s' < |m0| && Legal(p) && p != WINDOW
      ensures Walk(m4, s', p) == Walk(m0, s', p)
    {
      if s' == s && p.d == d {
        EmptyTable(m4, s, p);
      } else {
        hide Walk;
      }
    }
  }

  lemma OtherSame(m0: Phys, m1: Phys, m2: Phys, m3: Phys, m4: Phys, spaces: set<nat>, s: nat, d: nat)
    requires SameWalksOutside(m0, m1, spaces, s, d) && SameWalks(m1, m2, spaces, {})
    requires SameWalksOutside(m2, m3, spaces, s, d) && SameWalks(m3, m4, spaces, {})
    ensures forall s', p :: s' in spaces && s' < |m0| && Legal(p) && p != WINDOW && !(s' == s && p.d == d) ==>
              |m4| == |m0| && Walk(m4, s', p) == Walk(m0, s', p)
  {
    hide Walk;
  }

  lemma TableCleared(m: Phys, t: nat)
    requires t < |m|
    ensures Replaced(m, t, ZeroFrame())[t] == ZeroFrame()
  {
  }

  lemma VacantLegal(m: Phys, s: nat, slot: Slot)
    ensures slot.Vacant? && FirstVacant(m, s, slot.page) ==> Legal(slot.page) && slot.page.d >= 2
  {
  }

  lemma NamesKept(m: Phys, r: Phys, k: Kernel, spaces: set<nat>, owner: Owners, v: Page, f: nat)
    requires TablesOwned(r, k, spaces, owner) && SameWalks(m, r, spaces, {}) && Names(m, k, v, f) && v != WINDOW
    ensures Names(r, k, v, f)
  {
  }

  /** A page that was mapped to a frame of its own keeps page ownership. */
  lemma ClaimPage(m: Phys, r: Phys, k: Kernel, spaces: set<nat>, owner: Owners, s: nat, p: Page, f: nat)
    requires Owned(m, k, spaces, owner) && TablesOwned(r, k, spaces, owner) && SameWalks(m, r, spaces, {(s, p)})
    requires s in spaces && s < |m| && Legal(p) && p.d >= 2 && f < |m| && Unclaimed(owner, f)
    requires Walk(r, s, p).Present? && Walk(r, s, p).frame == f
    ensures Owned(r, k, spaces, owner[f := if s == k.dir then Spare else PageOf(s, p)])
  {
    hide Walk, EntryAt;
    var owner' := owner[f := if s == k.dir then Spare else PageOf(s, p)];
    ReownTables(r, k, spaces, owner, f, if s == k.dir then Spare else PageOf(s, p));
    forall s', p' | s' in spaces && s' != k.dir && Legal(p') && p'.d >= 2 && Walk(r, s', p').Present?
      ensures var g := Walk(r, s', p').frame; g in owner' && owner'[g] == PageOf(s', p')
    {
      if (s', p') != (s, p) {
        assert Walk(r, s', p') == Walk(m, s', p');
      }
    }
  }

  /** Where the search stops some table is out of reach. */
  lemma StopsStrays(m: Phys, spaces: set<nat>, s: nat)
    requires s in spaces
    ensures Stops(m, s) ==> Strayed(m, spaces)
  {
    hide EntryAt, Walk;
    if Stops(m, s) {
      var d: nat :| StopsAt(m, s, d);
      assert WildTable(m, s, d);
    }
  }

  lemma WildStrays(m: Phys, spaces: set<nat>, s: nat, d: nat)
    requires s in spaces && s < |m| && d < ENTRIES
    ensures WildTable(m, s, d) ==> Strayed(m, spaces)
  {
  }

  lemma ReownTables(m: Phys, k: Kernel, spaces: set<nat>, owner: Owners, f: nat, o: Owner)
    requires TablesOwned(m, k, spaces, owner) && f < |m| && Unclaimed(owner, f)
    ensures TablesOwned(m, k, spaces, owner[f := o])
  {
    hide EntryAt;
  }

  lemma DataChain(m0: Phys, m1: Phys, m2: Phys, spaces: set<nat>, before: Owners, after: Owners, but: set<(nat, Page)>,
                  ex: set<nat>)
    requires SameWalks(m0, m1, spaces, {}) && SameWalks(m1, m2, spaces, but)
    requires DataKept(m0, m1, before, ex) && (DataKept(m1, m2, after, {}) || DataKept(m1, m2, after, ex))
    requires forall f :: f in before ==> f in after && after[f] == before[f]
    ensures SameWalks(m0, m2, spaces, but) && DataKept(m0, m2, before, ex)
  {
    hide Walk;
  }

  lemma FrameGrown(o0: Owners, o1: Owners, o2: Owners, used: set<nat>, f: nat)
    requires GrownBy(o0, o1, used) && f !in o1 && f !in used && o2.Keys == o1.Keys + {f}
    requires forall g :: g in o1 ==> g in o2 && o2[g] == o1[g]
    ensures GrownBy(o0, o2, used)
  {
    assert forall g :: g in o2 ==> g in o2.Keys;
  }

  lemma KernelFrames(m: Phys, k: Kernel)
    requires IdentityMapped(m, k)
    ensures k.dir < |m| && k.pt0 < |m| && k.pt1 < |m|
  {
  }

  lemma LeafWalk(m: Phys, s: nat, v: Page)
    requires s < |m| && Legal(v) && EntryAt(m, s, v.d).present && EntryAt(m, s, v.d).frame < |m|
    ensures Walk(m, s, v) == Through(EntryAt(m, s, v.d), Leaf(EntryAt(m, EntryAt(m, s, v.d).frame, v.t)))
  {
  }

  /** All address spaces see the window alike. */
  lemma WindowShared(m: Phys, k: Kernel, spaces: set<nat>, owner: Owners, s: nat)
    requires TablesOwned(m, k, spaces, owner) && s in spaces
    ensures s < |m| && k.dir < |m| && Walk(m, s, WINDOW) == Walk(m, k.dir, WINDOW)
  {
    TableOwner(m, k, spaces, owner, s, 1);
    TableOwner(m, k, spaces, owner, k.dir, 1);
  }

  lemma WalkKept(m: Phys, r: Phys, spaces: set<nat>, s: nat, v: Page)
    requires SameWalks(m, r, spaces, {}) && s in spaces && s < |m| && Legal(v)
    ensures |r| == |m| && (v != WINDOW ==> Walk(r, s, v) == Walk(m, s, v))
  {
  }

  lemma SameMore(m: Phys, r: Phys, spaces: set<nat>, but: set<(nat, Page)>)
    requires SameWalks(m, r, spaces, {})
    ensures SameWalks(m, r, spaces, but)
  {
  }

  /** Writing an entry of a table redirects at most the page of that entry. */
  lemma SteadyVia(m: Phys, k: Kernel, spaces: set<nat>, owner: Owners, s: nat, p: Page, t: nat, but: set<Page>)
    requires TablesOwned(m, k, spaces, owner) && IdentityMapped(m, k)
    requires s in spaces && Legal(p) && p.d >= 2 && s < |m| && EntryAt(m, s, p.d).present
    requires EntryAt(m, s, p.d).frame == t
    requires s == k.dir ==> p in but
    ensures t < |m| && Steady(m, k, but, t, p.t)
  {
    TableOwner(m, k, spaces, owner, s, p.d);
    hide Walk, Store, EntryAt;
    KernelSpace(m, k, spaces, owner);
    forall e | Proper(e)
      ensures SameFor(m, Store(m, t, p.t, e), k, but)
    {
      TableWrite(m, k, spaces, owner, s, p.d, p.t, e);
    }
  }

  /** What writing one entry of a table does. */
  lemma EntryStep(m: Phys, k: Kernel, spaces: set<nat>, owner: Owners, s: nat, p: Page, e: Entry)
    requires TablesOwned(m, k, spaces, owner) && IdentityMapped(m, k)
    requires s in spaces && Legal(p) && p.d >= 2 && s < |m| && EntryAt(m, s, p.d).present && Proper(e)
    requires EntryAt(m, s, p.d).frame < |m|
    ensures var r := Store(m, EntryAt(m, s, p.d).frame, p.t, e);
            && TablesOwned(r, k, spaces, owner) && IdentityMapped(r, k)
            && SameWalks(m, r, spaces, {(s, p)}) && Walk(r, s, p) == Through(EntryAt(m, s, p.d), Leaf(e))
            && EntryAt(r, s, p.d) == EntryAt(m, s, p.d) && DataKept(m, r, owner, {})
            && Walk(r, k.dir, WINDOW) == Walk(m, k.dir, WINDOW)
  {
    hide Store, EntryAt, Walk, TablesOwned, IdentityMapped, DataKept, SameWalks;
    var t := EntryAt(m, s, p.d).frame;
    TableWrite(m, k, spaces, owner, s, p.d, p.t, e);
    TableAt(m, k, spaces, owner, s, p);
    StoreData(m, t, p.t, e, owner, {});
    assert Page(p.d, p.t) == p;
  }

  /** Page ownership survives the loss of a page. */
  lemma DropPage(m: Phys, r: Phys, k: Kernel, spaces: set<nat>, owner: Owners, s: nat, p: Page)
    requires Owned(m, k, spaces, owner) && TablesOwned(r, k, spaces, owner) && SameWalks(m, r, spaces, {(s, p)})
    requires s < |m| && Legal(p) && Walk(r, s, p) == NotPresent
    ensures PagesOwned(r, k, spaces, owner)
  {
    hide Walk;
  }

  /** Pages of the kernel's that were vacant. */
  ghost predicate KernelWindows(m: Phys, k: Kernel, but: set<(nat, Page)>)
    requires k.dir < |m|
  {
    forall x :: x in but ==> x.0 == k.dir && Legal(x.1) && x.1.d >= 2 && Walk(m, k.dir, x.1) == NotPresent
  }

  lemma WindowsUpper(m: Phys, k: Kernel, but: set<(nat, Page)>)
    requires k.dir < |m| && KernelWindows(m, k, but)
    ensures forall x :: x in but ==> x.1 != WINDOW
  {
  }

  lemma NoWindows(m: Phys, k: Kernel)
    requires IdentityMapped(m, k)
    ensures KernelWindows(m, k, {})
  {
  }

  /** Frames keep their owner, except that a spare one may become a page of a process. */
  ghost predicate Kept(before: Owners, after: Owners)
  {
    forall f :: f in before ==> f in after && (after[f] == before[f] || (before[f].Spare? && after[f].PageOf?))
  }

  ghost predicate SparesKept(before: Owners, after: Owners)
  {
    forall f :: f in before && before[f].Spare? ==> f in after && after[f].Spare?
  }

  lemma GrownKept(before: Owners, after: Owners, used: set<nat>)
    requires GrownBy(before, after, used)
    ensures Kept(before, after) && SparesKept(before, after)
  {
  }

  lemma GrownSame(before: Owners, after: Owners, used: set<nat>)
    requires GrownBy(before, after, used)
    ensures forall g :: g in before ==> g in after && after[g] == before[g]
  {
  }

  /** A frame that the older owners do not know becomes a table. */
  lemma LinkedKept(before: Owners, after: Owners, table: nat, s: nat, d: nat)
    requires Kept(before, after) && SparesKept(before, after) && table !in before
    ensures Kept(before, after[table := TableOf(s, d)]) && SparesKept(before, after[table := TableOf(s, d)])
  {
  }

  lemma KernelNames(m: Phys, k: Kernel, spaces: set<nat>, owner: Owners)
    requires TablesOwned(m, k, spaces, owner) && IdentityMapped(m, k)
    ensures k.dir < |m| && k.dir in spaces
    ensures Names(m, k, PageNo(k.dir), k.dir) && PageNo(k.dir) != WINDOW && PageNo(k.dir).d < 2
  {
    DirectNames(m, k, k.dir);
  }

  /** Writing a frame of data redirects no page. */
  lemma SteadyPage(m: Phys, k: Kernel, spaces: set<nat>, owner: Owners, f: nat)
    requires TablesOwned(m, k, spaces, owner) && f < |m| && !HoldsEntries(owner, f)
    ensures SteadyData(m, k, {}, f)
  {
    hide Walk;
    KernelSpace(m, k, spaces, owner);
    forall c: Frame
      ensures SameFor(m, Replaced(m, f, c), k, {})
    {
      DataWrite(m, k, spaces, owner, f, c);
    }
  }

  lemma DataStep(m: Phys, k: Kernel, spaces: set<nat>, owner: Owners, f: nat, c: Frame)
    requires Owned(m, k, spaces, owner) && IdentityMapped(m, k) && f < |m| && !HoldsEntries(owner, f)
    ensures var r := Replaced(m, f, c);
            Owned(r, k, spaces, owner) && IdentityMapped(r, k) && SameWalks(m, r, spaces, {})
    ensures k.dir != f
  {
    hide Walk, EntryAt, IdentityMapped;
    DataWrite(m, k, spaces, owner, f, c);
    PagesKept(m, Replaced(m, f, c), k, spaces, owner, owner);
    KernelSpace(m, k, spaces, owner);
  }

  lemma OneWindow(m: Phys, k: Kernel, v: Page)
    requires k.dir < |m| && Legal(v) && v.d >= 2 && Walk(m, k.dir, v) == NotPresent
    ensures KernelWindows(m, k, {(k.dir, v)})
  {
  }

  /** After a new kernel page: it names its frame, and the page that names a directory still does. */
  lemma NewNames(m: Phys, r: Phys, k: Kernel, spaces: set<nat>, owner: Owners, before: set<nat>, after: set<nat>,
                 sv: Page, s: nat, w: Page, f: nat, mapped: Walked)
    requires TablesOwned(r, k, spaces, owner) && k.dir < |m|
    requires NewlyMapped(m, r, k, spaces, owner, before, after, k.dir, w, f, mapped)
    requires mapped.Present? && mapped.frame == f
    requires Names(m, k, sv, s) && sv != WINDOW && Walk(m, k.dir, w) == NotPresent && w.d >= 2
    ensures Names(r, k, w, f) && Names(r, k, sv, s) && w != WINDOW && w != sv && !HoldsEntries(owner, f)
  {
    hide Walk, EntryAt;
    KernelSpace(r, k, spaces, owner);
  }

  /** A kernel page on a fresh frame, filled; the directory of process s has not changed. */
  lemma FilledWindow(m0: Phys, m1: Phys, m2: Phys, m3: Phys, k: Kernel, spaces: set<nat>, o0: Owners, o1: Owners,
                     sv: Page, s: nat, w: Page, f: nat, c: Frame)
    requires TablesOwned(m0, k, spaces, o0) && TablesOwned(m3, k, spaces, o1)
    requires s in spaces && s != k.dir && s < |m0| == |m1| && f < |m1| && f !in o0
    requires SameWalks(m0, m1, spaces, {(k.dir, w)}) && DataKept(m0, m1, o0, {k.dir})
    requires m2 == Replaced(m1, f, c) && SameWalks(m1, m2, spaces, {})
    requires SameWalks(m2, m3, spaces, {}) && DataKept(m2, m3, o1, {})
    requires f in o1 && o1[f] == Spare && forall g :: g in o0 ==> g in o1 && o1[g] == o0[g]
    requires Names(m2, k, w, f) && Names(m1, k, sv, s) && w != WINDOW && sv != WINDOW
    ensures SameWalks(m0, m3, spaces, {(k.dir, w)}) && DataKept(m0, m3, o0, {k.dir})
    ensures m3[f] == c && m3[s] == m0[s]
    ensures Names(m3, k, w, f) && Names(m3, k, sv, s)
    ensures Walk(m3, k.dir, w).Present? && Walk(m3, k.dir, w).frame == f
  {
    hide EntryAt, Walk;
    NamesKept(m2, m3, k, spaces, o1, w, f);
    SameWalksChain(m1, m2, m3, spaces, {}, {});
    NamesKept(m1, m3, k, spaces, o1, sv, s);
    assert m3[f] == m2[f];
    assert m3[s] == m2[s] == m1[s] == m0[s];
  }

  lemma SameBytes(m: Phys, r: Phys, s: nat, d: nat)
    requires s < |m| == |r| && m[s] == r[s] && d < ENTRIES
    ensures EntryAt(r, s, d) == EntryAt(m, s, d)
  {
  }

  /** Linking a cleared table translates nothing yet. */
  lemma LinkedEmpty(m: Phys, r: Phys, k: Kernel, spaces: set<nat>, o: Owners, o': Owners, s: nat, d: nat, w: Page,
                    f: nat)
    requires Owned(m, k, spaces, o) && TablesOwned(r, k, spaces, o') && s in spaces && s != k.dir && 2 <= d < ENTRIES
    requires s < |m| && !EntryAt(m, s, d).present && SameWalksOutside(m, r, spaces, s, d) && DataKept(m, r, o, {s})
    requires EntryAt(r, s, d).present && EntryAt(r, s, d).frame == f < |m| && m[f] == ZeroFrame()
    requires f in o && o[f] == Spare && o' == o[f := TableOf(s, d)] && Names(m, k, w, f) && w != WINDOW
    ensures SameWalks(m, r, spaces, {}) && PagesOwned(r, k, spaces, o') && Names(r, k, w, f)
  {
    hide EntryAt, ZeroFrame;
    SpaceHolds(m, k, spaces, o, s);
    assert r[f] == m[f];
    forall s', p | s' in spaces && s' < |m| && Legal(p) && p != WINDOW
      ensures Walk(r, s', p) == Walk(m, s', p)
    {
      if s' == s && p.d == d {
        EmptyTable(r, s, p);
      } else {
        hide Walk;
      }
    }
    PagesKept(m, r, k, spaces, o, o');
    NamesKept(m, r, k, spaces, o', w, f);
  }

  lemma ChainKernel(m0: Phys, m3: Phys, m4: Phys, k: Kernel, spaces: set<nat>, o0: Owners, o1: Owners, w: Page, s: nat)
    requires SameWalks(m0, m3, spaces, {(k.dir, w)}) && DataKept(m0, m3, o0, {k.dir})
    requires SameWalks(m3, m4, spaces, {}) && DataKept(m3, m4, o1, {s})
    requires forall g :: g in o0 ==> g in o1 && o1[g] == o0[g]
    ensures SameWalks(m0, m4, spaces, {(k.dir, w)}) && DataKept(m0, m4, o0, {k.dir, s})
  {
    hide Walk;
  }

  lemma SameWalksOnce(m: Phys, r: Phys, q: Phys, spaces: set<nat>)
    requires SameWalks(m, r, spaces, {}) && SameWalks(r, q, spaces, {})
    ensures SameWalks(m, q, spaces, {})
  {
    hide Walk;
  }

  lemma DataMore(m: Phys, r: Phys, owner: Owners, but: set<nat>, more: set<nat>)
    requires DataKept(m, r, owner, but) && but <= more
    ensures DataKept(m, r, owner, more)
  {
  }

  lemma SameBeyond(m: Phys, r: Phys, spaces: set<nat>, but: set<(nat, Page)>, more: set<(nat, Page)>)
    requires SameWalks(m, r, spaces, but)
    ensures SameWalks(m, r, spaces, more + but)
  {
    hide Walk;
  }

  lemma ChainFrame(m0: Phys, m1: Phys, m2: Phys, spaces: set<nat>, o0: Owners, o1: Owners, o2: Owners,
                   but: set<(nat, Page)>, s: nat, v: Page, dir: nat, frame: nat)
    requires SameWalks(m0, m1, spaces, but) && SameWalks(m1, m2, spaces, {(s, v)})
    requires DataKept(m0, m1, o0, {dir, s}) && DataKept(m1, m2, o1, {}) && Kept(o0, o1) && SparesKept(o0, o1)
    requires frame in o1 && o1[frame] == Spare && o2 == o1[frame := if s == dir then Spare else PageOf(s, v)]
    ensures SameWalks(m0, m2, spaces, {(s, v)} + but) && DataKept(m0, m2, o0, {dir, s}) && Kept(o0, o2)
  {
    hide Walk;
  }

  /** Whatever the kernel still maps at these pages is a directory or a table, no page of a process. */
  ghost predicate WindowsHold(m: Phys, k: Kernel, owner: Owners, but: set<(nat, Page)>)
    requires k.dir < |m|
  {
    forall x :: x in but && x.0 == k.dir && Legal(x.1) && Walk(m, k.dir, x.1).Present? ==>
      HoldsEntries(owner, Walk(m, k.dir, x.1).frame)
  }

  lemma NoneHold(m: Phys, k: Kernel, owner: Owners)
    requires k.dir < |m|
    ensures WindowsHold(m, k, owner, {})
  {
  }

  lemma WindowHolds(m: Phys, k: Kernel, spaces: set<nat>, owner: Owners, w: Page, f: nat)
    requires Names(m, k, w, f) && HoldsEntries(owner, f)
    ensures WindowsHold(m, k, owner, {(k.dir, w)})
  {
  }

  lemma WindowsHoldKept(m: Phys, r: Phys, k: Kernel, spaces: set<nat>, owner: Owners, owner': Owners,
                        but: set<(nat, Page)>, s: nat, v: Page, frame: nat)
    requires k.dir < |m| && k.dir in spaces && WindowsHold(m, k, owner, but) && SameWalks(m, r, spaces, {(s, v)})
    requires s != k.dir && owner' == owner[frame := PageOf(s, v)] && Unclaimed(owner, frame)
    requires forall x :: x in but ==> x.1 != WINDOW
    ensures WindowsHold(r, k, owner', but)
  {
    hide Walk;
  }
}
