/** The physical frame allocator over the bitmap of used frames. */
module Frames {
  import opened ByteWords
  import opened Bitmaps

  const FRAME_SIZE: nat := 4096

  /** The least frame number not below i that is not used, or total. */
  function LeastFree(used: set<nat>, total: nat, i: nat): (f: nat)
    requires i <= total
    ensures i <= f <= total
    ensures f < total ==> f !in used
    ensures forall j :: i <= j < f ==> j in used
    decreases total - i
  {
    if i == total || i !in used then i else LeastFree(used, total, i + 1)
  }

  /** pmm_allocate_frame: the frames used afterwards and the physical address returned */
  function Allocate(used: set<nat>, total: nat): (set<nat>, nat)
  {
    var f := LeastFree(used, total, 0);
    if f == total then (used, 0) else (used + {f}, f * FRAME_SIZE % U32)
  }

  /** pmm_free_frame */
  function Release(used: set<nat>, addr: nat): set<nat> { used - {addr / FRAME_SIZE} }

  /**
    The returned address names the frame that was taken: with fewer than 2^20 frames it does not
    overflow, and with frame 0 reserved it is 0 exactly when no frame is free.
   */
  lemma AllocateExact(used: set<nat>, total: nat)
    requires total <= U32 / FRAME_SIZE && 0 in used
    ensures var (after, addr) := Allocate(used, total);
            && (addr == 0 <==> forall f :: 0 <= f < total ==> f in used)
            && (addr == 0 ==> after == used)
            && (addr != 0 ==>
                  var f := addr / FRAME_SIZE;
                  addr == f * FRAME_SIZE && f < total && f !in used && after == used + {f} &&
                  forall j :: 0 <= j < f ==> j in used)
  {
    var f := LeastFree(used, total, 0);
    if f < total {
      assert f * FRAME_SIZE < U32;
      assert f * FRAME_SIZE / FRAME_SIZE == f;
    }
  }

  /** Freeing what was just allocated restores the set of used frames. */
  lemma AllocateRelease(used: set<nat>, total: nat)
    requires total <= U32 / FRAME_SIZE && 0 in used && Allocate(used, total).1 != 0
    ensures Release(Allocate(used, total).0, Allocate(used, total).1) == used
  {
    AllocateExact(used, total);
  }

  /** How many whole frames so many bytes of memory make. */
  function FramesIn(bytes: nat): (n: nat)
    ensures bytes < U32 ==> n <= U32 / FRAME_SIZE
  {
    bytes / FRAME_SIZE
  }

  /** Every frame counted lies in memory, and no other would. */
  lemma WholeFrames(bytes: nat)
    ensures FramesIn(bytes) * 4096 <= bytes < (FramesIn(bytes) + 1) * 4096
    ensures forall n: nat :: n * 4096 <= bytes < (n + 1) * 4096 ==> n == FramesIn(bytes)
  {
  }

  lemma FrameInMemory(f: nat, total: nat, bytes: nat)
    requires f < total <= U32 / FRAME_SIZE && total * 4096 <= bytes
    ensures f * FRAME_SIZE % U32 == f * FRAME_SIZE && f * FRAME_SIZE % 4096 == 0 && f * FRAME_SIZE + 4096 <= bytes
  {
    assert f * FRAME_SIZE < U32;
  }

  /** The address is the start of a frame, or past the end of memory. */
  predicate AtBoundary(a: nat, total: nat) { a % FRAME_SIZE == 0 || total <= a / FRAME_SIZE }

  /** Frame f holds bytes from start to end - 1. */
  predicate Overlaps(f: nat, start: nat, end: nat) { start < (f + 1) * FRAME_SIZE && f * FRAME_SIZE < end }

  /** The frame in which an area ends is the only one of its frames that may not lie wholly below its end. */
  lemma ReservedIff(start: nat, end: nat, total: nat, used: set<nat>)
    requires start <= end && forall f: nat :: f in used <==> f < total && (f + 1) * FRAME_SIZE <= end
    requires start < end || total == 0
    ensures (forall f: nat :: f < total && Overlaps(f, start, end) ==> f in used) <==>
            AtBoundary(end, total)
  {
    var last := end / FRAME_SIZE;
    if end % FRAME_SIZE != 0 && last < total {
      assert Overlaps(last, start, end) && last !in used;
    }
  }

  class FrameAllocator {
    var frameBitmap: Bitmap
    var totalFrames: nat
    /** The address of the bitmap's storage. */
    const bitmapStart: nat
    /** How many bytes of memory there are. */
    ghost const memoryBytes: nat

    ghost predicate Valid()
      reads this, frameBitmap
    {
      frameBitmap.Valid() && frameBitmap.totalBits == totalFrames <= U32 / FRAME_SIZE &&
      totalFrames * 4096 <= memoryBytes < (totalFrames + 1) * 4096
    }

    ghost function Used(): set<nat>
      requires Valid()
      reads this, frameBitmap, frameBitmap.storage
    {
      frameBitmap.Used()
    }

    /** Frame f holds bytes of the bitmap. */
    ghost predicate InBitmap(f: nat)
      reads this`totalFrames
    {
      Overlaps(f, bitmapStart, bitmapStart + 4 * Words(totalFrames))
    }

    /** The allocator hands out no frame that holds its own bitmap. */
    ghost predicate BitmapReserved()
      requires Valid()
      reads this, frameBitmap, frameBitmap.storage
    {
      forall f: nat :: f < totalFrames && InBitmap(f) ==> f in Used()
    }

    /** Used are the frames of memory that lie wholly below the end of the bitmap, and no others. */
    ghost predicate Initial()
      requires Valid()
      reads this, frameBitmap, frameBitmap.storage
    {
      forall f: nat :: f in Used() <==>
        f < totalFrames && (f + 1) * FRAME_SIZE <= bitmapStart + 4 * Words(totalFrames)
    }

    /**
      pmm_init: everything below the end of the bitmap is reserved, rounded down to whole frames and
      cut off at the end of memory.  The bitmap's own frames are all among them exactly when the bitmap
      ends at the start of a frame, or past the end of memory.
     */
    constructor (totalRamBytes: nat, storage: array<bv32>, bitmapStart: nat)
      requires totalRamBytes < U32 && storage.Length >= Words(FramesIn(totalRamBytes))
      requires bitmapStart + 4 * Words(FramesIn(totalRamBytes)) < U32
      modifies storage
      ensures Valid() && totalFrames == FramesIn(totalRamBytes) && frameBitmap.storage == storage
      ensures memoryBytes == totalRamBytes && totalFrames * 4096 <= totalRamBytes < (totalFrames + 1) * 4096
      ensures fresh(frameBitmap) && this.bitmapStart == bitmapStart
      ensures Initial()
      ensures BitmapReserved() <==> AtBoundary(bitmapStart + 4 * Words(totalFrames), totalFrames)
    {
      hide FramesIn, Words, Used, Initial, BitmapReserved, AtBoundary, Bitmap.Used;
      this.bitmapStart, memoryBytes := bitmapStart, totalRamBytes;
      WholeFrames(totalRamBytes);
      totalFrames := FramesIn(totalRamBytes);
      frameBitmap := new Bitmap(storage, FramesIn(totalRamBytes));
      new;
      ReserveBitmap();
    }

    /** The part of pmm_init that marks frames. */
    method ReserveBitmap()
      requires Valid()
      modifies frameBitmap.storage
      ensures Valid()
      ensures Initial()
      ensures BitmapReserved() <==> AtBoundary(bitmapStart + 4 * Words(totalFrames), totalFrames)
    {
      frameBitmap.ClearAll();
      var nextFreeAddress := bitmapStart + Words(totalFrames) * 4;
      Reserve(nextFreeAddress / FRAME_SIZE);
      forall f: nat
        ensures f in Used() <==> f < totalFrames && (f + 1) * FRAME_SIZE <= nextFreeAddress
      {
        assert f < nextFreeAddress / FRAME_SIZE <==> (f + 1) * FRAME_SIZE <= nextFreeAddress;
      }
      ReservedIff(bitmapStart, nextFreeAddress, totalFrames, Used());
    }

    /** Marks the frames below n used. */
    method Reserve(n: nat)
      requires Valid()
      modifies frameBitmap.storage
      ensures Valid()
      ensures forall f: nat :: f in Used() <==> f in old(Used()) || (f < totalFrames && f < n)
    {
      hide IsSet;
      for frame := 0 to n
        invariant Valid()
        invariant forall f: nat :: f in Used() <==> f in old(Used()) || (f < totalFrames && f < frame)
      {
        ghost var before := Used();
        frameBitmap.Set(frame);
        assert Used() == before + if frame < totalFrames then {frame} else {};
      }
    }

    /** pmm_allocate_frame; what it hands out lies wholly in memory */
    method AllocateFrame() returns (addr: nat)
      requires Valid()
      modifies frameBitmap.storage
      ensures Valid() && (Used(), addr) == Allocate(old(Used()), totalFrames)
      ensures Used() != old(Used()) ==> addr % 4096 == 0 && addr + 4096 <= memoryBytes
    {
      for bitIndex := 0 to totalFrames
        invariant Used() == old(Used()) && LeastFree(Used(), totalFrames, 0) == LeastFree(Used(), totalFrames, bitIndex)
      {
        var taken := frameBitmap.Test(bitIndex);
        if !taken {
          frameBitmap.Set(bitIndex);
          FrameInMemory(bitIndex, totalFrames, memoryBytes);
          return bitIndex * FRAME_SIZE % U32;
        }
      }
      addr := 0;
    }

    /** pmm_free_frame */
    method FreeFrame(addr: nat)
      requires Valid()
      modifies frameBitmap.storage
      ensures Valid() && Used() == Release(old(Used()), addr)
    {
      frameBitmap.Clear(addr / FRAME_SIZE);
    }
  }
}
