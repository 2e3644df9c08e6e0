/** Page directories and page tables in physical memory, and the two-level walk over them. */
module Tables {
  import opened ByteWords

  const PAGE_SIZE: nat := 4096
  const ENTRIES: nat := 1024
  const FRAMES: nat := 0x10_0000

  type Frame = f: seq<Byte> | |f| == 4096 witness seq(4096, _ => 0)

  type Phys = seq<Frame>

  // ----- Entries -----

  /** A directory or table entry; the two have one layout. */
  datatype Entry = Entry(present: bool, rw: bool, user: bool, reserved: nat, frame: nat)

  predicate Proper(e: Entry) { e.reserved < 512 && e.frame < FRAMES }

  /** Bits 0 to 2 are the flags, bits 3 to 11 are reserved, bits 12 to 31 are the frame number. */
  function Decode(w: nat): (e: Entry)
    requires w < U32
    ensures Proper(e)
  {
    Entry(w % 2 == 1, w / 2 % 2 == 1, w / 2 / 2 % 2 == 1, w / 2 / 2 / 2 % 512, w / 2 / 2 / 2 / 512)
  }

  function Bit(b: bool): nat { if b then 1 else 0 }

  function Encode(e: Entry): (w: nat)
    requires Proper(e)
    ensures w < U32
  {
    Bit(e.present) + 2 * (Bit(e.rw) + 2 * (Bit(e.user) + 2 * (e.reserved + 512 * e.frame)))
  }

  lemma Halves(b: bool, x: nat)
    ensures var w := Bit(b) + 2 * x; w / 2 == x && (w % 2 == 1 <==> b)
  {
  }

  /** The bit fields of an entry and its word determine each other. */
  lemma DecodeEncode(e: Entry)
    requires Proper(e)
    ensures Decode(Encode(e)) == e
  {
    var x3 := e.reserved + 512 * e.frame;
    assert x3 / 512 == e.frame && x3 % 512 == e.reserved;
    var x2 := Bit(e.user) + 2 * x3;
    var x1 := Bit(e.rw) + 2 * x2;
    Halves(e.user, x3);
    Halves(e.rw, x2);
    Halves(e.present, x1);
  }

  lemma EncodeDecode(w: nat)
    requires w < U32
    ensures Encode(Decode(w)) == w
  {
  }

  function EntryOf(f: Frame, i: nat): (e: Entry)
    requires i < ENTRIES
    ensures Proper(e)
  {
    Decode(Word(f, 4 * i))
  }

  function SetEntry(f: Frame, i: nat, e: Entry): Frame
    requires i < ENTRIES && Proper(e)
  {
    SetWord(f, 4 * i, Encode(e))
  }

  /** Writing one entry changes that entry and no other. */
  lemma SetEntryOf(f: Frame, i: nat, e: Entry, j: nat)
    requires i < ENTRIES && j < ENTRIES && Proper(e)
    ensures EntryOf(SetEntry(f, i, e), j) == if i == j then e else EntryOf(f, j)
  {
    hide Word, Encode, Decode;
    DecodeEncode(e);
    if i != j {
      WordKept(f, SetEntry(f, i, e), 4 * j);
    }
  }

  /** Of two writes to one entry the second remains. */
  lemma SetEntryTwice(f: Frame, i: nat, e: Entry, e': Entry)
    requires i < ENTRIES && Proper(e) && Proper(e')
    ensures SetEntry(SetEntry(f, i, e), i, e') == SetEntry(f, i, e')
  {
    hide Word, Encode;
  }

  const NO_ENTRY := Entry(false, false, false, 0, 0)

  function ZeroFrame(): (f: Frame) { seq(4096, _ => 0) }

  lemma ZeroFrameEntries(i: nat)
    requires i < ENTRIES
    ensures EntryOf(ZeroFrame(), i) == NO_ENTRY
  {
  }

  // ----- Virtual pages -----

  /** A virtual page: directory index and table index. */
  datatype Page = Page(d: nat, t: nat)

  predicate Legal(p: Page) { p.d < ENTRIES && p.t < ENTRIES }

  /** The n-th page of the address space. */
  function PageNo(n: nat): (p: Page)
    requires n < FRAMES
    ensures Legal(p) && p.d * ENTRIES + p.t == n
  {
    Page(n / ENTRIES, n % ENTRIES)
  }

  // ----- The walk -----

  datatype Walked = NotPresent | Present(frame: nat, rw: bool, user: bool)

  function EntryAt(m: Phys, f: nat, i: nat): (e: Entry)
    requires f < |m| && i < ENTRIES
    ensures Proper(e)
  {
    EntryOf(m[f], i)
  }

  /** What a final entry says of its page. */
  function Leaf(e: Entry): Walked
  {
    if e.present then Present(e.frame, e.rw, e.user) else NotPresent
  }

  /** The rights that a directory entry leaves of a translation: section 4.6 of the Intel SDM, Volume 3A. */
  function Through(e: Entry, w: Walked): Walked
  {
    if w.Present? then Present(w.frame, e.rw && w.rw, e.user && w.user) else NotPresent
  }

  /** The translation of page p by the directory in frame dir: section 4.3 of the Intel SDM, Volume 3A. */
  function Walk(m: Phys, dir: nat, p: Page): Walked
    requires dir < |m| && Legal(p)
  {
    var e := EntryAt(m, dir, p.d);
    if !e.present || e.frame >= |m| then NotPresent else Through(e, Leaf(EntryAt(m, e.frame, p.t)))
  }

  // ----- Reads -----

  /** What a read of one byte at a linear address gives: the rights at the address and the byte, or a fault. */
  datatype Reading = Fault | Value(rw: bool, user: bool, byte: Byte)

  /** The processor's own view of the tables, words and bits alone: sections 4.3 and 4.6 of the Intel SDM. */
  function Read(m: Phys, dir: nat, a: nat): Reading
    requires dir < |m| && a < U32
  {
    var e := Word(m[dir], a / 0x40_0000 * 4);
    if e % 2 == 0 || e / 0x1000 >= |m| then Fault else
      var t := Word(m[e / 0x1000], a / 0x1000 % 0x400 * 4);
      if t % 2 == 0 || t / 0x1000 >= |m| then Fault else
        Value(e / 2 % 2 == 1 && t / 2 % 2 == 1, e / 4 % 2 == 1 && t / 4 % 2 == 1, m[t / 0x1000][a % 0x1000])
  }

  lemma DecodeBits(w: nat)
    requires w < U32
    ensures var e := Decode(w);
            && e.frame == w / 0x1000 && (e.present <==> w % 2 == 1)
            && (e.rw <==> w / 2 % 2 == 1) && (e.user <==> w / 4 % 2 == 1)
  {
  }

  lemma AddressParts(a: nat)
    requires a < U32
    ensures a / 0x1000 < FRAMES && PageNo(a / 0x1000) == Page(a / 0x40_0000, a / 0x1000 % 0x400)
  {
  }

  /** Reading through the walk of pages is reading through words and bits. */
  lemma ReadWalk(m: Phys, dir: nat, a: nat)
    requires dir < |m| && a < U32
    ensures a / 0x1000 < FRAMES
    ensures Read(m, dir, a) ==
            var w := Walk(m, dir, PageNo(a / 0x1000));
            if w.Present? && w.frame < |m| then Value(w.rw, w.user, m[w.frame][a % 0x1000]) else Fault
  {
    AddressParts(a);
    hide Word, PageNo, Decode;
    var e := Word(m[dir], a / 0x40_0000 * 4);
    DecodeBits(e);
    if e % 2 == 1 && e / 0x1000 < |m| {
      DecodeBits(Word(m[e / 0x1000], a / 0x1000 % 0x400 * 4));
    }
  }

  function Store(m: Phys, f: nat, i: nat, e: Entry): (r: Phys)
    requires f < |m| && i < ENTRIES && Proper(e)
    ensures |r| == |m|
  {
    m[f := SetEntry(m[f], i, e)]
  }

  lemma StoreAt(m: Phys, f: nat, i: nat, e: Entry, g: nat, j: nat)
    requires f < |m| && i < ENTRIES && Proper(e) && g < |m| && j < ENTRIES
    ensures EntryAt(Store(m, f, i, e), g, j) == if g == f && j == i then e else EntryAt(m, g, j)
  {
    hide SetEntry, EntryOf;
    SetEntryOf(m[f], i, e, j);
  }

  lemma StoreTwice(m: Phys, f: nat, i: nat, e: Entry, e': Entry)
    requires f < |m| && i < ENTRIES && Proper(e) && Proper(e')
    ensures Store(Store(m, f, i, e), f, i, e') == Store(m, f, i, e')
  {
    hide SetEntry;
    SetEntryTwice(m[f], i, e, e');
  }
}
