/**
  Where the bitmap, the first tables and the heap lie in memory: kernel_main puts all three into the
  frames that the allocator hands out.
 */
module BootLayout {
  import opened ByteWords
  import opened Bitmaps
  import opened Frames
  import opened Tables
  import opened AddressSpaces
  import opened PageMapping
  import HeapSpec

  /** The first n frames. */
  function Below(n: nat): (s: set<nat>)
    ensures forall f: nat :: f in s <==> f < n
  {
    if n == 0 then {} else Below(n - 1) + {n - 1}
  }

  /** The address after the bitmap, where the heap starts too. */
  function BitmapEnd(start: nat, total: nat): nat { start + 4 * Words(total) }

  function FrameOf(a: nat): nat { a / FRAME_SIZE }

  /** The frames that pmm_init reserves. */
  ghost predicate Reserved(used: set<nat>, total: nat, end: nat)
  {
    forall f: nat :: f in used <==> f < total && (f + 1) * FRAME_SIZE <= end
  }

  lemma LeastFreeIs(used: set<nat>, total: nat, n: nat)
    requires n < total && n !in used && forall f: nat :: f < n ==> f in used
    ensures LeastFree(used, total, 0) == n
  {
    var f := LeastFree(used, total, 0);
    assert f < n ==> f in used;
  }

  lemma BootsAt(e: nat, total: nat)
    requires 0 < e && e + 3 <= 2047 && e + 3 <= total <= FRAMES
    ensures Boots(Below(e), total, Kernel(e, e + 1, e + 2))
  {
    var u0, u1, u2 := Below(e), Below(e + 1), Below(e + 2);
    LeastFreeIs(u0, total, e);
    assert u0 + {e} == u1;
    LeastFreeIs(u1, total, e + 1);
    assert u1 + {e + 1} == u2;
    LeastFreeIs(u2, total, e + 2);
  }

  lemma BootsOne(used: set<nat>, total: nat, k: Kernel, k': Kernel)
    requires Boots(used, total, k) && Boots(used, total, k')
    ensures k == k'
  {
  }

  lemma ReservedBelow(used: set<nat>, total: nat, end: nat)
    requires Reserved(used, total, end) && end / FRAME_SIZE <= total
    ensures used == Below(end / FRAME_SIZE)
  {
    var e := end / FRAME_SIZE;
    forall f: nat
      ensures f in used <==> f in Below(e)
    {
      assert (f + 1) * FRAME_SIZE <= end <==> f < e;
    }
  }

  /**
    Whenever paging_init finds its frames, the kernel's directory is the frame in which the bitmap
    ends.  It lies over the bitmap exactly when the bitmap does not end at the start of a frame, and
    the first header of the heap lies in it in any case.
   */
  lemma DirectoryOverBitmap(start: nat, total: nat, used: set<nat>, k: Kernel)
    requires 0 < total <= FRAMES && FRAME_SIZE <= BitmapEnd(start, total)
    requires Reserved(used, total, BitmapEnd(start, total)) && Boots(used, total, k)
    ensures k.dir == FrameOf(BitmapEnd(start, total))
    ensures (exists a: nat :: start <= a < BitmapEnd(start, total) && FrameOf(a) == k.dir) <==>
            BitmapEnd(start, total) % FRAME_SIZE != 0
  {
    var end := BitmapEnd(start, total);
    var e := end / FRAME_SIZE;
    assert 0 in used && forall f: nat :: f in used ==> f < e;
    BootsFacts(used, total, k);
    AllocateExact(used, total);
    assert k.dir !in used && forall j :: 0 <= j < k.dir ==> j in used;
    forall f: nat | f < e && f < total
      ensures f in used
    {
      assert (f + 1) * FRAME_SIZE <= end;
    }
    assert e !in used;
    hide Words;
    if end % FRAME_SIZE != 0 {
      assert start <= end - 1 && FrameOf(end - 1) == k.dir;
    }
  }

  /** Every frame that can be handed out below 8 MB overlaps the heap, and no other does. */
  lemma HeapOverFrames(total: nat, end: nat, used: set<nat>, f: nat)
    requires Reserved(used, total, end) && f < total && f !in used
    ensures Overlaps(f, end, HeapSpec.CEILING) <==> f < 2048
  {
  }

  lemma FreeCount(m: Phys, n: nat)
    requires n <= |m|
    ensures |Free(m, Below(n))| == |m| - n
    decreases |m| - n
  {
    var used := Below(n);
    FreeLess(m, used, n);
    if n < |m| {
      assert used + {n} == Below(n + 1);
      FreeCount(m, n + 1);
    }
  }

  // ----- Marks in memory -----

  function Pow2(n: nat): (p: nat)
    ensures p > 0
  {
    if n == 0 then 1 else 2 * Pow2(n - 1)
  }

  /** The mark of frame f in a bitmap at the start of frame c. */
  predicate Marked(c: Frame, f: nat)
    requires f / 32 < ENTRIES
  {
    Word(c, 4 * (f / 32)) / Pow2(f % 32) % 2 == 1
  }

  lemma ZeroUnmarked(c: Frame, f: nat)
    requires f / 32 < ENTRIES && Word(c, 4 * (f / 32)) == 0
    ensures !Marked(c, f)
  {
    hide Word;
  }

  /**
    kernel_main's layout, with the bitmap at 4 MB, on every machine with 1027 to 32736 frames: the
    kernel's directory is built over the whole bitmap.  Afterwards the marks of frames are bits of
    directory entries: the kernel's own tables are not marked, the next frame handed out is frame 2,
    and marking it gives user access to the first 4 MB.
   */
  lemma KernelMainOverlap(total: nat, used: set<nat>, k: Kernel, m: Phys, sections: Sections)
    requires 1027 <= total <= 32736 && Reserved(used, total, BitmapEnd(0x40_0000, total)) && Boots(used, total, k)
    requires Built(m, k, sections)
    ensures k == Kernel(0x400, 0x401, 0x402) && forall f: nat :: f < total ==> f / 32 < ENTRIES
    ensures !Marked(m[k.dir], k.dir) && !Marked(m[k.dir], k.pt0) && !Marked(m[k.dir], k.pt1)
    ensures Marked(m[k.dir], 0) && Marked(m[k.dir], 1) && !Marked(m[k.dir], 2)
    ensures Word(m[k.dir], 0) + Pow2(2) < U32
    ensures Decode(Word(m[k.dir], 0) + Pow2(2)) == EntryAt(m, k.dir, 0).(user := true)
  {
    assert BitmapEnd(0x40_0000, total) / FRAME_SIZE == 0x400;
    ReservedBelow(used, total, BitmapEnd(0x40_0000, total));
    BootsAt(0x400, total);
    BootsOne(used, total, k, Kernel(0x400, 0x401, 0x402));
    DirectoryWords(m, k, sections);
    hide Word, Built, Boots;
    FirstMarks(m[k.dir]);
    ZeroUnmarked(m[k.dir], k.dir);
    ZeroUnmarked(m[k.dir], k.pt0);
    ZeroUnmarked(m[k.dir], k.pt1);
  }

  lemma DirectoryWords(m: Phys, k: Kernel, sections: Sections)
    requires Built(m, k, sections) && k == Kernel(0x400, 0x401, 0x402)
    ensures k.dir < |m| && EntryAt(m, k.dir, 0) == Entry(true, true, false, 0, 0x401)
    ensures Word(m[k.dir], 0) == 0x40_1003 && Word(m[k.dir], 4 * 32) == 0
  {
    EncodeDecode(Word(m[k.dir], 0));
    EncodeDecode(Word(m[k.dir], 4 * 32));
    assert EntryAt(m, k.dir, 0) == Entry(true, true, false, 0, k.pt0);
    assert EntryAt(m, k.dir, 32) == NO_ENTRY;
    hide Word;
  }

  lemma FirstMarks(c: Frame)
    requires Word(c, 0) == 0x40_1003
    ensures Marked(c, 0) && Marked(c, 1) && !Marked(c, 2)
    ensures Decode(Word(c, 0) + Pow2(2)) == Entry(true, true, true, 0, 0x401)
  {
    hide Word;
    assert Pow2(0) == 1 && Pow2(1) == 2 && Pow2(2) == 4;
  }

  /** Memory as a boot loader reports it: 639 KB and 129920 KB, which makes 32639 frames. */
  lemma OverlapExample()
    ensures var total := FramesIn((639 + 129920) * 1024);
            && total == 32639 && BitmapEnd(0x40_0000, total) == 0x40_0FF0
            && exists used, k ::
                 Reserved(used, total, 0x40_0FF0) && Boots(used, total, k) && k.dir == FrameOf(0x40_0000)
  {
    BelowReserved(0x400, 32639, 0x40_0FF0);
    BootsAt(0x400, 32639);
    hide Below, Boots, Reserved;
    assert Reserved(Below(0x400), 32639, 0x40_0FF0) && Boots(Below(0x400), 32639, Kernel(0x400, 0x401, 0x402));
    assert Kernel(0x400, 0x401, 0x402).dir == FrameOf(0x40_0000);
  }

  lemma BelowReserved(e: nat, total: nat, end: nat)
    requires e == end / FRAME_SIZE <= total
    ensures Reserved(Below(e), total, end)
  {
    forall f: nat
      ensures f in Below(e) <==> f < total && (f + 1) * FRAME_SIZE <= end
    {
      assert (f + 1) * FRAME_SIZE <= end <==> f < e;
    }
  }

  // ----- The heap's first header -----

  /**
    kmalloc_init after paging_init: its first word falls on an entry of the kernel's directory and
    makes that entry present, whatever it was.
   */
  lemma HeaderLinks(c: Frame, end: nat)
    requires end % 4 == 0 && end + HeapSpec.HEADER < HeapSpec.CEILING
    ensures var i, size := end % FRAME_SIZE / 4, HeapSpec.Init(end)[0].size;
            && i < ENTRIES && size < U32
            && EntryOf(SetWord(c, 4 * i, size), i).present
  {
    HeaderArithmetic(end);
    OddPresent(c, end % FRAME_SIZE / 4, HeapSpec.Init(end)[0].size);
  }

  lemma HeaderArithmetic(end: nat)
    requires end % 4 == 0 && end + HeapSpec.HEADER < HeapSpec.CEILING
    ensures end % FRAME_SIZE / 4 < ENTRIES && HeapSpec.Init(end)[0].size < U32 && HeapSpec.Init(end)[0].size % 2 == 1
  {
    var q := end / 4;
    assert end == 4 * q && HeapSpec.Init(end)[0].size == 2 * (0x3F_FFF9 - 2 * q) + 1;
  }

  lemma OddPresent(c: Frame, i: nat, w: nat)
    requires i < ENTRIES && w < U32 && w % 2 == 1
    ensures EntryOf(SetWord(c, 4 * i, w), i).present
  {
    hide Word;
  }
}
