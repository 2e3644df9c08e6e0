/**
  Address spaces over shared physical memory: who owns which frame, and what a write changes in the
  translations of all address spaces.
 */
module AddressSpaces {
  import opened Tables

  /** Frames of the kernel's directory and its first two tables, which every address space shares. */
  datatype Kernel = Kernel(dir: nat, pt0: nat, pt1: nat)

  /** What a frame is used for. */
  datatype Owner =
    | Directory
    | SharedTable
    | TableOf(dir: nat, d: nat)
    | PageOf(dir: nat, page: Page)
    | Spare

  type Owners = map<nat, Owner>

  const WINDOW: Page := Page(1, 1023)

  /** Frame f holds a directory or a table. */
  predicate HoldsEntries(owner: Owners, f: nat)
  {
    f in owner && (owner[f].Directory? || owner[f].SharedTable? || owner[f].TableOf?)
  }

  /** Frame f may still become anything. */
  predicate Unclaimed(owner: Owners, f: nat) { f in owner ==> owner[f].Spare? }

  /** A directory entry for a table of the kernel's that all address spaces share. */
  function SharedEntry(table: nat): Entry { Entry(true, true, false, 0, table) }

  predicate LinksKernel(m: Phys, k: Kernel, dir: nat)
    requires dir < |m|
  {
    EntryAt(m, dir, 0) == SharedEntry(k.pt0) && EntryAt(m, dir, 1) == SharedEntry(k.pt1)
  }

  /** Every directory of `spaces` links the kernel's two tables, and tables of its own elsewhere. */
  ghost predicate TablesOwned(m: Phys, k: Kernel, spaces: set<nat>, owner: Owners)
  {
    && (forall f :: f in owner ==> f < |m|)
    && k.dir in spaces
    && k.pt0 in owner && owner[k.pt0] == SharedTable
    && k.pt1 in owner && owner[k.pt1] == SharedTable && k.pt0 != k.pt1
    && (forall s :: s in spaces ==> s in owner && owner[s] == Directory && LinksKernel(m, k, s))
    && (forall s, d :: s in spaces && 2 <= d < ENTRIES && EntryAt(m, s, d).present ==>
          var t := EntryAt(m, s, d).frame;
          t in owner && owner[t] == TableOf(s, d))
  }

  /** Every page that a process maps outside the shared tables is a frame of its own. */
  ghost predicate PagesOwned(m: Phys, k: Kernel, spaces: set<nat>, owner: Owners)
    requires TablesOwned(m, k, spaces, owner)
  {
    forall s, p :: s in spaces && s != k.dir && Legal(p) && p.d >= 2 && Walk(m, s, p).Present? ==>
      var f := Walk(m, s, p).frame;
      f in owner && owner[f] == PageOf(s, p)
  }

  ghost predicate Owned(m: Phys, k: Kernel, spaces: set<nat>, owner: Owners)
  {
    TablesOwned(m, k, spaces, owner) && PagesOwned(m, k, spaces, owner)
  }

  /** Frames that can be reached by their physical address. */
  predicate DirectMapped(f: nat) { 0 < f < 2047 }

  /** The shared tables map the first 8 MB to themselves, page 0 and the window apart. */
  ghost predicate IdentityMapped(m: Phys, k: Kernel)
  {
    && DirectMapped(k.dir) && DirectMapped(k.pt0) && DirectMapped(k.pt1)
    && k.dir < |m| && k.pt0 < |m| && k.pt1 < |m| && LinksKernel(m, k, k.dir)
    && (forall n :: 0 < n < 2047 ==> Identity(m, k, n))
  }

  ghost predicate Identity(m: Phys, k: Kernel, n: nat)
    requires n < 2048 && k.pt0 < |m| && k.pt1 < |m|
  {
    var e := EntryAt(m, if n < 1024 then k.pt0 else k.pt1, n % 1024);
    e.present && e.frame == n
  }

  lemma IdentityWalk(m: Phys, k: Kernel, n: nat)
    requires IdentityMapped(m, k) && 0 < n < 2047
    ensures Walk(m, k.dir, PageNo(n)).Present? && Walk(m, k.dir, PageNo(n)).frame == n
    ensures PageNo(n) != WINDOW && PageNo(n).d < 2
  {
    assert Identity(m, k, n);
  }

  /** All translations agree, those of `but` and of the window apart. */
  ghost predicate SameWalks(m: Phys, r: Phys, spaces: set<nat>, but: set<(nat, Page)>)
  {
    |r| == |m| &&
    forall s, p :: s in spaces && s < |m| && Legal(p) && p != WINDOW && (s, p) !in but ==>
      Walk(r, s, p) == Walk(m, s, p)
  }

  lemma SameWalksChain(m: Phys, r: Phys, q: Phys, spaces: set<nat>, but: set<(nat, Page)>, but': set<(nat, Page)>)
    requires SameWalks(m, r, spaces, but) && SameWalks(r, q, spaces, but')
    ensures SameWalks(m, q, spaces, but + but')
  {
  }

  // ----- Isolation -----

  /** Frame f is a directory, or some directory names it as a table. */
  ghost predicate Serves(m: Phys, spaces: set<nat>, f: nat)
  {
    f in spaces || exists s, d: nat :: s in spaces && s < |m| && d < ENTRIES && NamesTable(m, s, d, f)
  }

  predicate NamesTable(m: Phys, s: nat, d: nat, f: nat)
    requires s < |m| && d < ENTRIES
  {
    EntryAt(m, s, d).present && EntryAt(m, s, d).frame == f
  }

  /**
    Outside the shared tables two processes never share a frame, no process maps one twice, and none
    maps a frame that serves any address space as a directory or a table.
   */
  lemma Isolation(m: Phys, k: Kernel, spaces: set<nat>, owner: Owners, s: nat, p: Page, s': nat, p': Page)
    requires Owned(m, k, spaces, owner) && s in spaces && s' in spaces && Legal(p) && Legal(p')
    requires s != k.dir && s' != k.dir && (s, p) != (s', p') && p.d >= 2 && p'.d >= 2
    ensures Walk(m, s, p).Present? && Walk(m, s', p').Present? ==> Walk(m, s, p).frame != Walk(m, s', p').frame
    ensures Walk(m, s, p).Present? ==> Walk(m, s, p).frame in owner && !Serves(m, spaces, Walk(m, s, p).frame)
  {
    if Walk(m, s, p).Present? {
      var f := Walk(m, s, p).frame;
      assert owner[f] == PageOf(s, p);
      hide Walk, EntryAt;
      forall t, d: nat | t in spaces && t < |m| && d < ENTRIES
        ensures !NamesTable(m, t, d, f)
      {
        TableOwner(m, k, spaces, owner, t, d);
      }
    }
  }

  /** No two directory entries outside the shared ones name one table, and no directory is a table. */
  lemma TablesApart(m: Phys, k: Kernel, spaces: set<nat>, owner: Owners, s: nat, d: nat, s': nat, d': nat, f: nat)
    requires TablesOwned(m, k, spaces, owner) && s in spaces && s' in spaces && d < ENTRIES && d' < ENTRIES
    ensures s < |m| && s' < |m| && s in owner
    ensures NamesTable(m, s, d, f) ==> f in owner && f !in spaces
    ensures NamesTable(m, s, d, f) && NamesTable(m, s', d', f) ==> (s, d) == (s', d') || (d == d' && d < 2)
  {
    TableOwner(m, k, spaces, owner, s, d);
    TableOwner(m, k, spaces, owner, s', d');
    hide EntryAt;
  }

  lemma SharedTables(m: Phys, k: Kernel, spaces: set<nat>, owner: Owners, s: nat, p: Page)
    requires Owned(m, k, spaces, owner) && s in spaces && Legal(p) && p.d < 2
    ensures Walk(m, s, p) == Walk(m, k.dir, p)
  {
    assert LinksKernel(m, k, s) && LinksKernel(m, k, k.dir);
    assert p.d == 0 || p.d == 1;
  }

  // ----- What a write changes -----

  /** The table that a directory entry names is owned as one. */
  lemma TableOwner(m: Phys, k: Kernel, spaces: set<nat>, owner: Owners, s: nat, d: nat)
    requires TablesOwned(m, k, spaces, owner) && s in spaces && d < ENTRIES
    ensures s < |m| && owner[s] == Directory
    ensures var e := EntryAt(m, s, d);
            (d < 2 ==> e.present) &&
            (e.present ==>
              e.frame in owner && e.frame < |m| &&
              owner[e.frame] == (if d < 2 then SharedTable else TableOf(s, d)) &&
              (d == 0 ==> e == SharedEntry(k.pt0)) && (d == 1 ==> e == SharedEntry(k.pt1)))
  {
    assert LinksKernel(m, k, s);
  }

  /** All entries are the same in both memories, those of frame f apart. */
  ghost predicate EntriesKept(m: Phys, r: Phys, f: nat)
  {
    |r| == |m| && forall g: nat, i: nat :: g < |m| && g != f && i < ENTRIES ==> EntryAt(r, g, i) == EntryAt(m, g, i)
  }

  /** All translations agree, those under entry d0 of directory s0 apart. */
  ghost predicate SameWalksOutside(m: Phys, r: Phys, spaces: set<nat>, s0: nat, d0: nat)
  {
    |r| == |m| &&
    forall s, p :: s in spaces && s < |m| && Legal(p) && !(s == s0 && p.d == d0) ==> Walk(r, s, p) == Walk(m, s, p)
  }

  lemma StoreKeeps(m: Phys, f: nat, i: nat, e: Entry)
    requires f < |m| && i < ENTRIES && Proper(e)
    ensures EntriesKept(m, Store(m, f, i, e), f)
    ensures forall j: nat :: j < ENTRIES && j != i ==> EntryAt(Store(m, f, i, e), f, j) == EntryAt(m, f, j)
    ensures EntryAt(Store(m, f, i, e), f, i) == e
  {
    hide SetEntry, EntryOf;
    forall j: nat | j < ENTRIES
      ensures EntryAt(Store(m, f, i, e), f, j) == if j == i then e else EntryAt(m, f, j)
    {
      StoreAt(m, f, i, e, f, j);
    }
  }

  /** Tables stay owned when the entries of directories do. */
  lemma TablesKept(m: Phys, r: Phys, k: Kernel, spaces: set<nat>, owner: Owners, f: nat)
    requires TablesOwned(m, k, spaces, owner) && EntriesKept(m, r, f) && f !in spaces
    ensures TablesOwned(r, k, spaces, owner)
  {
    forall s, d: nat | s in spaces && d < ENTRIES
      ensures s < |m| && EntryAt(r, s, d) == EntryAt(m, s, d)
    {
      TableOwner(m, k, spaces, owner, s, d);
    }
    forall s | s in spaces
      ensures LinksKernel(r, k, s)
    {
      assert LinksKernel(m, k, s);
    }
  }

  /** Writing a frame that holds no entries changes no translation. */
  lemma DataWrite(m: Phys, k: Kernel, spaces: set<nat>, owner: Owners, f: nat, c: Frame)
    requires TablesOwned(m, k, spaces, owner) && f < |m| && !HoldsEntries(owner, f)
    ensures var r := m[f := c];
            && TablesOwned(r, k, spaces, owner) && SameWalks(m, r, spaces, {})
            && (IdentityMapped(m, k) ==> IdentityMapped(r, k))
            && Walk(r, k.dir, WINDOW) == Walk(m, k.dir, WINDOW)
  {
    var r := m[f := c];
    assert EntriesKept(m, r, f);
    hide EntryAt;
    TablesKept(m, r, k, spaces, owner, f);
    forall s, p | s in spaces && Legal(p)
      ensures s < |m| && Walk(r, s, p) == Walk(m, s, p)
    {
      TableOwner(m, k, spaces, owner, s, p.d);
    }
    if IdentityMapped(m, k) {
      IdentityKept(m, r, k);
    }
  }

  lemma IdentityKept(m: Phys, r: Phys, k: Kernel)
    requires IdentityMapped(m, k) && |r| == |m| && LinksKernel(r, k, k.dir)
    requires forall i: nat :: i < ENTRIES ==> EntryAt(r, k.pt0, i) == EntryAt(m, k.pt0, i)
    requires forall i: nat :: i < 1023 ==> EntryAt(r, k.pt1, i) == EntryAt(m, k.pt1, i)
    ensures IdentityMapped(r, k)
  {
    hide EntryAt;
    forall n | 0 < n < 2047
      ensures Identity(r, k, n)
    {
      assert Identity(m, k, n);
      if n < 1024 {
        assert EntryAt(r, k.pt0, n % 1024) == EntryAt(m, k.pt0, n % 1024);
      } else {
        assert n % 1024 < 1023;
        assert EntryAt(r, k.pt1, n % 1024) == EntryAt(m, k.pt1, n % 1024);
      }
    }
  }

  /** Writing the window entry changes the translation of the window only, in every address space. */
  lemma WindowWrite(m: Phys, k: Kernel, spaces: set<nat>, owner: Owners, e: Entry)
    requires TablesOwned(m, k, spaces, owner) && IdentityMapped(m, k) && Proper(e)
    ensures var r := Store(m, k.pt1, 1023, e);
            && TablesOwned(r, k, spaces, owner) && IdentityMapped(r, k) && SameWalks(m, r, spaces, {})
            && Walk(r, k.dir, WINDOW) == Through(SharedEntry(k.pt1), Leaf(e))
  {
    var r := Store(m, k.pt1, 1023, e);
    StoreKeeps(m, k.pt1, 1023, e);
    hide Store, EntryAt;
    TablesKept(m, r, k, spaces, owner, k.pt1);
    forall s, p | s in spaces && Legal(p) && p != WINDOW
      ensures s < |m| && Walk(r, s, p) == Walk(m, s, p)
    {
      TableOwner(m, k, spaces, owner, s, p.d);
    }
    TableOwner(r, k, spaces, owner, k.dir, 1);
    IdentityKept(m, r, k);
  }

  /** Writing an entry of an owned table changes the translation of that page of that address space. */
  lemma TableWrite(m: Phys, k: Kernel, spaces: set<nat>, owner: Owners, s0: nat, d0: nat, i: nat, e: Entry)
    requires TablesOwned(m, k, spaces, owner) && IdentityMapped(m, k) && Proper(e)
    requires s0 in spaces && 2 <= d0 < ENTRIES && i < ENTRIES && EntryAt(m, s0, d0).present
    ensures EntryAt(m, s0, d0).frame < |m|
    ensures var r := Store(m, EntryAt(m, s0, d0).frame, i, e);
            && TablesOwned(r, k, spaces, owner) && IdentityMapped(r, k)
            && SameWalks(m, r, spaces, {(s0, Page(d0, i))})
            && EntryAt(r, s0, d0) == EntryAt(m, s0, d0)
            && Walk(r, s0, Page(d0, i)) == Through(EntryAt(m, s0, d0), Leaf(e))
            && Walk(r, k.dir, WINDOW) == Walk(m, k.dir, WINDOW)
  {
    TableOwner(m, k, spaces, owner, s0, d0);
    var t := EntryAt(m, s0, d0).frame;
    var r := Store(m, t, i, e);
    StoreKeeps(m, t, i, e);
    hide Store, EntryAt;
    TablesKept(m, r, k, spaces, owner, t);
    forall s, p | s in spaces && Legal(p) && (s, p) != (s0, Page(d0, i))
      ensures s < |m| && Walk(r, s, p) == Walk(m, s, p)
    {
      TableOwner(m, k, spaces, owner, s, p.d);
    }
    TableOwner(r, k, spaces, owner, s0, d0);
    IdentityKept(m, r, k);
  }

  /** Writing an entry of a directory changes translations of that directory entry only. */
  lemma DirectoryWrite(m: Phys, k: Kernel, spaces: set<nat>, owner: Owners, s0: nat, d0: nat, e: Entry)
    requires TablesOwned(m, k, spaces, owner) && IdentityMapped(m, k) && Proper(e)
    requires s0 in spaces && 2 <= d0 < ENTRIES
    ensures s0 < |m|
    ensures var r := Store(m, s0, d0, e);
            && IdentityMapped(r, k) && EntryAt(r, s0, d0) == e
            && SameWalksOutside(m, r, spaces, s0, d0) && EntriesKept(m, r, s0)
  {
    TableOwner(m, k, spaces, owner, s0, d0);
    var r := Store(m, s0, d0, e);
    StoreKeeps(m, s0, d0, e);
    hide Store, EntryAt;
    forall s, p | s in spaces && Legal(p) && !(s == s0 && p.d == d0)
      ensures s < |m| && Walk(r, s, p) == Walk(m, s, p)
    {
      TableOwner(m, k, spaces, owner, s, p.d);
    }
    assert LinksKernel(m, k, k.dir);
    IdentityKept(m, r, k);
  }

  /** A directory entry that names a fresh frame owns it as its table. */
  lemma NewTable(m: Phys, k: Kernel, spaces: set<nat>, owner: Owners, s0: nat, d0: nat, e: Entry)
    requires TablesOwned(m, k, spaces, owner) && IdentityMapped(m, k) && Proper(e)
    requires s0 in spaces && 2 <= d0 < ENTRIES && s0 < |m|
    requires e.present && e.frame < |m| && Unclaimed(owner, e.frame)
    ensures TablesOwned(Store(m, s0, d0, e), k, spaces, owner[e.frame := TableOf(s0, d0)])
  {
    var r, owner' := Store(m, s0, d0, e), owner[e.frame := TableOf(s0, d0)];
    StoreKeeps(m, s0, d0, e);
    hide Store, EntryAt;
    forall s | s in spaces
      ensures s in owner' && owner'[s] == Directory && LinksKernel(r, k, s)
    {
      assert LinksKernel(m, k, s);
    }
    forall s, d | s in spaces && 2 <= d < ENTRIES && EntryAt(r, s, d).present
      ensures var t := EntryAt(r, s, d).frame; t in owner' && owner'[t] == TableOf(s, d)
    {
      TableOwner(m, k, spaces, owner, s, d);
    }
  }

  /** A zeroed table translates nothing. */
  lemma EmptyTable(m: Phys, s: nat, p: Page)
    requires s < |m| && Legal(p)
    requires EntryAt(m, s, p.d).present ==> EntryAt(m, s, p.d).frame < |m| && m[EntryAt(m, s, p.d).frame] == ZeroFrame()
    ensures Walk(m, s, p) == NotPresent
  {
    ZeroFrameEntries(p.t);
  }

  /** Page ownership depends on the translations only. */
  lemma PagesKept(m: Phys, r: Phys, k: Kernel, spaces: set<nat>, owner: Owners, owner': Owners)
    requires Owned(m, k, spaces, owner) && TablesOwned(r, k, spaces, owner') && SameWalks(m, r, spaces, {})
    requires forall f :: f in owner && owner[f].PageOf? ==> f in owner' && owner'[f] == owner[f]
    ensures PagesOwned(r, k, spaces, owner')
  {
  }
}
