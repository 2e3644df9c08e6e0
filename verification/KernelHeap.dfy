/** kmalloc and kfree over bytes: the headers live in the memory that is handed out. */
module KernelHeap {
  import opened HeapSpec
  import opened HeapProofs
  import opened ByteWords

  /** The header of b is in memory, with the given next pointer. */
  ghost predicate Header(m: seq<Byte>, b: Block, next: nat)
  {
    b.addr + HEADER <= |m| &&
    Word(m, b.addr) == b.size && (m[b.addr + 4] != 0) == b.free && Word(m, b.addr + 8) == next
  }

  function Next(bs: seq<Block>, i: nat): nat { if i + 1 < |bs| then bs[i + 1].addr else 0 }

  /** The headers of all blocks are in memory, linked in order. */
  ghost predicate Stored(m: seq<Byte>, bs: seq<Block>)
  {
    forall i :: 0 <= i < |bs| ==> Header(m, bs[i], Next(bs, i))
  }

  lemma HeaderKept(m: seq<Byte>, r: seq<Byte>, b: Block, next: nat)
    requires Header(m, b, next) && Same(m, r, b.addr, b.addr + HEADER)
    ensures Header(r, b, next)
  {
  }

  lemma Disjoint(bs: seq<Block>, lo: nat, i: nat, j: nat)
    requires Laid(bs, lo, CEILING) && i < |bs| && j < |bs| && i != j
    ensures End(bs[i]) <= bs[j].addr || End(bs[j]) <= bs[i].addr
  {
  }

  // ----- The writes of kmalloc -----

  /** The writes that cut block l + r in two: first the new header, then the old one. */
  function WriteSplit(m: seq<Byte>, l: Block, r: Block, next: nat): (s: seq<Byte>)
    requires l.addr + HEADER <= r.addr && r.addr + HEADER <= |m|
    requires l.size < U32 && r.size < U32 && r.addr < U32 && next < U32
    ensures |s| == |m|
  {
    var m1 := SetWord(m, r.addr, r.size);
    var m2 := SetByte(m1, r.addr + 4, 1);
    var m3 := SetWord(m2, r.addr + 8, next);
    var m4 := SetWord(m3, l.addr, l.size);
    SetWord(m4, l.addr + 8, r.addr)
  }

  lemma WriteSplitHeaders(m: seq<Byte>, l: Block, r: Block, next: nat)
    requires l.addr + HEADER <= r.addr && r.addr + HEADER <= |m|
    requires l.size < U32 && r.size < U32 && r.addr < U32 && next < U32
    requires r.free && (m[l.addr + 4] != 0) == l.free
    ensures var s := WriteSplit(m, l, r, next);
            && Header(s, r, next) && Header(s, l, r.addr)
            && Same(m, s, 0, l.addr) && Same(m, s, l.addr + HEADER, r.addr) && Same(m, s, r.addr + HEADER, |m|)
  {
    hide Word;
    var m1 := SetWord(m, r.addr, r.size);
    var m2 := SetByte(m1, r.addr + 4, 1);
    var m3 := SetWord(m2, r.addr + 8, next);
    var m4 := SetWord(m3, l.addr, l.size);
    var s := SetWord(m4, l.addr + 8, r.addr);
    WordKept(m1, m2, r.addr);
    WordKept(m2, m3, r.addr);
    WordKept(m3, m4, r.addr);
    WordKept(m4, s, r.addr);
    WordKept(m3, m4, r.addr + 8);
    WordKept(m4, s, r.addr + 8);
    WordKept(m4, s, l.addr);
  }

  /** Marks the block at addr used. */
  function WriteUsed(m: seq<Byte>, addr: nat): seq<Byte>
    requires addr + HEADER <= |m|
  {
    SetByte(m, addr + 4, 0)
  }

  lemma WriteUsedHeader(m: seq<Byte>, b: Block, next: nat)
    requires Header(m, b, next)
    ensures Header(WriteUsed(m, b.addr), b.(free := false), next)
    ensures Same(m, WriteUsed(m, b.addr), 0, b.addr + 4)
    ensures Same(m, WriteUsed(m, b.addr), b.addr + 5, |m|)
  {
  }

  /** Headers of the blocks other than k survive writes within block k. */
  lemma OthersKept(m: seq<Byte>, r: seq<Byte>, bs: seq<Block>, lo: nat, k: nat)
    requires Laid(bs, lo, CEILING) && k < |bs| && Stored(m, bs)
    requires Same(m, r, 0, bs[k].addr) && Same(m, r, End(bs[k]), |m|)
    ensures forall i :: 0 <= i < |bs| && i != k ==> Header(r, bs[i], Next(bs, i))
  {
    forall i | 0 <= i < |bs| && i != k
      ensures Header(r, bs[i], Next(bs, i))
    {
      assert Header(m, bs[i], Next(bs, i));
      Disjoint(bs, lo, i, k);
      hide Header;
      HeaderKept(m, r, bs[i], Next(bs, i));
    }
  }

  /** The memory after a grant of n bytes from block k. */
  function Granted(m: seq<Byte>, bs: seq<Block>, k: nat, n: nat): (r: seq<Byte>)
    requires k < |bs| && |m| > CEILING
    requires bs[k].size >= n && End(bs[k]) <= CEILING && Next(bs, k) < U32
    ensures |r| == |m|
  {
    var b := bs[k];
    SplitExact(b.size, n);
    if Splits(b.size, n) then
      WriteUsed(WriteSplit(m, Block(b.addr, n, true),
                           Block(b.addr + HEADER + n, b.size - n - HEADER, true), Next(bs, k)), b.addr)
    else
      WriteUsed(m, b.addr)
  }

  lemma GrantedWhole(m: seq<Byte>, bs: seq<Block>, lo: nat, k: nat)
    requires Laid(bs, lo, CEILING) && k < |bs| && Stored(m, bs) && |m| > CEILING
    ensures var r := WriteUsed(m, bs[k].addr);
            && Stored(r, bs[k := bs[k].(free := false)])
            && Same(m, r, 0, bs[k].addr) && Same(m, r, End(bs[k]), |m|)
  {
    assert Header(m, bs[k], Next(bs, k));
    WriteUsedHeader(m, bs[k], Next(bs, k));
    hide Header, WriteUsed, Stored, Laid;
    FlagStored(m, WriteUsed(m, bs[k].addr), bs, lo, k, false);
  }

  lemma FlagStored(m: seq<Byte>, r: seq<Byte>, bs: seq<Block>, lo: nat, k: nat, free: bool)
    requires Laid(bs, lo, CEILING) && k < |bs| && Stored(m, bs)
    requires Same(m, r, 0, bs[k].addr) && Same(m, r, End(bs[k]), |m|)
    requires Header(r, bs[k].(free := free), Next(bs, k))
    ensures Stored(r, bs[k := bs[k].(free := free)])
  {
    OthersKept(m, r, bs, lo, k);
    hide Header, Laid, Stored, Same;
    var s := bs[k := bs[k].(free := free)];
    assert forall i :: 0 <= i < |s| ==> s[i].addr == bs[i].addr;
    forall i | 0 <= i < |s|
      ensures Header(r, s[i], Next(s, i))
    {
      assert Next(s, i) == Next(bs, i);
      if i != k {
        assert s[i] == bs[i];
      }
    }
    StoredIf(r, s);
  }

  /** The headers of the two pieces of a split block. */
  lemma CutHeaders(m: seq<Byte>, b: Block, n: nat, next: nat)
    requires Header(m, b, next) && b.free && b.size >= n + HEADER + MIN_PAYLOAD
    requires End(b) <= CEILING < |m| && next < U32
    ensures var l, x := Block(b.addr, n, true), Block(b.addr + HEADER + n, b.size - n - HEADER, true);
            var r := WriteUsed(WriteSplit(m, l, x, next), b.addr);
            && Header(r, l.(free := false), x.addr) && Header(r, x, next)
            && Same(m, r, 0, b.addr) && Same(m, r, End(b), |m|)
  {
    var l, x := Block(b.addr, n, true), Block(b.addr + HEADER + n, b.size - n - HEADER, true);
    WriteSplitHeaders(m, l, x, next);
    hide WriteSplit, Word;
    var m1 := WriteSplit(m, l, x, next);
    WriteUsedHeader(m1, l, x.addr);
    HeaderKept(m1, WriteUsed(m1, b.addr), x, next);
  }

  /** The new list is stored when the two pieces of block k are, and nothing else was written. */
  lemma SpliceStored(m: seq<Byte>, r: seq<Byte>, bs: seq<Block>, lo: nat, k: nat, l: Block, x: Block)
    requires Laid(bs, lo, CEILING) && k < |bs| && Stored(m, bs) && l.addr == bs[k].addr
    requires Same(m, r, 0, bs[k].addr) && Same(m, r, End(bs[k]), |m|)
    requires Header(r, l, x.addr) && Header(r, x, Next(bs, k))
    ensures Stored(r, Splice(bs, k, l, x))
  {
    OthersKept(m, r, bs, lo, k);
    hide Header, Splice, Laid, Stored, Same;
    var s := Splice(bs, k, l, x);
    forall i | 0 <= i < |bs| + 1
      ensures i < |s| && Header(r, s[i], Next(s, i))
    {
      SpliceNextAddr(bs, k, l, x, i);
    }
    SpliceAt(bs, k, l, x, 0);
    StoredIf(r, s);
  }

  lemma SpliceNextAddr(bs: seq<Block>, k: nat, l: Block, x: Block, i: nat)
    requires k < |bs| && i <= |bs| && l.addr == bs[k].addr
    ensures var s := Splice(bs, k, l, x);
            && |s| == |bs| + 1
            && s[i] == (if i < k then bs[i] else if i == k then l else if i == k + 1 then x else bs[i - 1])
            && Next(s, i) == if i == k then x.addr else Next(bs, if i < k then i else i - 1)
  {
    SpliceAt(bs, k, l, x, i);
    if i < |bs| {
      SpliceAt(bs, k, l, x, i + 1);
    }
  }

  lemma StoredIf(m: seq<Byte>, bs: seq<Block>)
    requires forall i :: 0 <= i < |bs| ==> Header(m, bs[i], Next(bs, i))
    ensures Stored(m, bs)
  {
  }

  /** The two ways to grant, without the 32-bit arithmetic. */
  lemma GrantedCases(m: seq<Byte>, bs: seq<Block>, lo: nat, k: nat, n: nat)
    requires Laid(bs, lo, CEILING) && k < |bs| && Stored(m, bs) && |m| > CEILING && Fits(bs[k], n)
    requires Next(bs, k) < U32
    ensures End(bs[k]) <= CEILING && Header(m, bs[k], Next(bs, k))
    ensures var b := bs[k];
            if b.size >= n + HEADER + MIN_PAYLOAD then
              var l, x := Block(b.addr, n, true), Block(b.addr + HEADER + n, b.size - n - HEADER, true);
              && Taken(bs, k, n) == Splice(bs, k, l.(free := false), x)
              && Granted(m, bs, k, n) == WriteUsed(WriteSplit(m, l, x, Next(bs, k)), b.addr)
            else
              && Taken(bs, k, n) == bs[k := b.(free := false)]
              && Granted(m, bs, k, n) == WriteUsed(m, b.addr)
  {
    TakenExact(bs, lo, k, n);
    SplitExact(bs[k].size, n);
    assert Header(m, bs[k], Next(bs, k));
    hide WriteSplit, WriteUsed, Taken, Splice, Stored, Header;
  }

  /** A grant stores the new list and writes nowhere but in the block it takes. */
  lemma GrantedStored(m: seq<Byte>, bs: seq<Block>, lo: nat, k: nat, n: nat)
    requires Laid(bs, lo, CEILING) && k < |bs| && Stored(m, bs) && |m| > CEILING && Fits(bs[k], n)
    requires Next(bs, k) < U32
    ensures End(bs[k]) <= CEILING
    ensures var r := Granted(m, bs, k, n);
            Stored(r, Taken(bs, k, n)) && Same(m, r, 0, bs[k].addr) && Same(m, r, End(bs[k]), |m|)
  {
    hide Header, Splice, Same, WriteSplit, WriteUsed, Taken, Laid, Stored, Granted;
    var b, next := bs[k], Next(bs, k);
    GrantedCases(m, bs, lo, k, n);
    if b.size >= n + HEADER + MIN_PAYLOAD {
      CutHeaders(m, b, n, next);
      var l, x := Block(b.addr, n, true), Block(b.addr + HEADER + n, b.size - n - HEADER, true);
      var r := WriteUsed(WriteSplit(m, l, x, next), b.addr);
      SpliceStored(m, r, bs, lo, k, l.(free := false), x);
    } else {
      GrantedWhole(m, bs, lo, k);
    }
  }

  // ----- The writes of kfree -----

  /** Marks the block at addr free. */
  function WriteFree(m: seq<Byte>, addr: nat): (r: seq<Byte>)
    requires addr + HEADER <= |m|
    ensures |r| == |m|
  {
    SetByte(m, addr + 4, 1)
  }

  lemma FreedStored(m: seq<Byte>, bs: seq<Block>, lo: nat, k: nat)
    requires Laid(bs, lo, CEILING) && k < |bs| && Stored(m, bs) && |m| > CEILING
    ensures var r := WriteFree(m, bs[k].addr);
            && Stored(r, bs[k := bs[k].(free := true)])
            && Same(m, r, 0, bs[k].addr) && Same(m, r, End(bs[k]), |m|)
  {
    var b := bs[k];
    assert Header(m, b, Next(bs, k));
    WriteFreeHeader(m, b, Next(bs, k));
    hide Header, WriteFree, Stored, Laid;
    FlagStored(m, WriteFree(m, b.addr), bs, lo, k, true);
  }

  lemma WriteFreeHeader(m: seq<Byte>, b: Block, next: nat)
    requires Header(m, b, next)
    ensures Header(WriteFree(m, b.addr), b.(free := true), next)
    ensures Same(m, WriteFree(m, b.addr), 0, b.addr + 4)
    ensures Same(m, WriteFree(m, b.addr), b.addr + 5, |m|)
  {
  }

  /** The list with block i + 1 merged into block i. */
  function MergeAt(keepLeft: bool, bs: seq<Block>, i: nat): seq<Block>
    requires i + 1 < |bs|
  {
    bs[..i] + [Merged(keepLeft, bs[i], bs[i + 1])] + bs[i + 2..]
  }

  /** Writes the size and the next pointer of the block at addr. */
  function WriteLink(m: seq<Byte>, addr: nat, size: nat, next: nat): (r: seq<Byte>)
    requires addr + HEADER <= |m| && size < U32 && next < U32
    ensures |r| == |m|
  {
    SetWord(SetWord(m, addr, size), addr + 8, next)
  }

  lemma WriteLinkHeader(m: seq<Byte>, b: Block, next: nat, size: nat, next': nat)
    requires Header(m, b, next) && size < U32 && next' < U32
    ensures var r := WriteLink(m, b.addr, size, next');
            && Header(r, b.(size := size), next')
            && Same(m, r, 0, b.addr) && Same(m, r, b.addr + HEADER, |m|)
  {
    hide Word;
    var m1 := SetWord(m, b.addr, size);
    WordKept(m1, SetWord(m1, b.addr + 8, next'), b.addr);
  }

  lemma MergeAtIndex(keepLeft: bool, bs: seq<Block>, i: nat, j: nat)
    requires i + 1 < |bs| && j < |bs| - 1
    ensures var s := MergeAt(keepLeft, bs, i);
            && |s| == |bs| - 1
            && s[j] == (if j < i then bs[j] else if j == i then Merged(keepLeft, bs[i], bs[i + 1]) else bs[j + 1])
            && Next(s, j) == Next(bs, if j < i then j else j + 1)
  {
  }

  lemma MergeAtLaid(keepLeft: bool, bs: seq<Block>, lo: nat, i: nat)
    requires Laid(bs, lo, CEILING) && i + 1 < |bs|
    ensures Laid(MergeAt(keepLeft, bs, i), lo, CEILING)
  {
    hide MergeAt;
    var s := MergeAt(keepLeft, bs, i);
    MergeAtIndex(keepLeft, bs, i, 0);
    MergeAtIndex(keepLeft, bs, i, |bs| - 2);
    forall j | 0 <= j < |s|
      ensures s[j].size > 0
    {
      MergeAtIndex(keepLeft, bs, i, j);
    }
    forall j, k | 0 <= j < k < |s|
      ensures End(s[j]) <= s[k].addr
    {
      MergeAtApart(keepLeft, bs, lo, i, j, k);
    }
  }

  lemma MergeAtApart(keepLeft: bool, bs: seq<Block>, lo: nat, i: nat, j: nat, k: nat)
    requires Laid(bs, lo, CEILING) && i + 1 < |bs| && j < k < |bs| - 1
    ensures var s := MergeAt(keepLeft, bs, i);
            k < |s| && End(s[j]) <= s[k].addr
  {
    hide MergeAt;
    MergeAtIndex(keepLeft, bs, i, j);
    MergeAtIndex(keepLeft, bs, i, k);
    assert End(bs[i]) <= bs[i + 1].addr;
  }

  lemma MergedStored(keepLeft: bool, m: seq<Byte>, bs: seq<Block>, lo: nat, i: nat)
    requires Laid(bs, lo, CEILING) && i + 1 < |bs| && Stored(m, bs) && |m| > CEILING
    requires Next(bs, i + 1) < U32
    ensures Merged(keepLeft, bs[i], bs[i + 1]).size < U32
    ensures var r := WriteLink(m, bs[i].addr, Merged(keepLeft, bs[i], bs[i + 1]).size, Next(bs, i + 1));
            && Stored(r, MergeAt(keepLeft, bs, i))
            && Same(m, r, 0, bs[i].addr) && Same(m, r, End(bs[i]), |m|)
  {
    var b, next := Merged(keepLeft, bs[i], bs[i + 1]), Next(bs, i + 1);
    SizesBounded(bs, lo, CEILING, i + 1);
    Disjoint(bs, lo, i, i + 1);
    var r := WriteLink(m, b.addr, b.size, next);
    assert Header(m, bs[i], Next(bs, i));
    WriteLinkHeader(m, bs[i], Next(bs, i), b.size, next);
    hide Header, WriteLink, MergeAt;
    OthersKept(m, r, bs, lo, i);
    var s := MergeAt(keepLeft, bs, i);
    forall j | 0 <= j < |bs| - 1
      ensures j < |s| && Header(r, s[j], Next(s, j))
    {
      MergeAtIndex(keepLeft, bs, i, j);
    }
    MergeAtIndex(keepLeft, bs, i, 0);
    StoredIf(r, s);
  }

  // ----- The pass of kfree, position by position -----

  lemma PassMerge(keepLeft: bool, bs: seq<Block>, i: nat)
    requires i + 1 < |bs| && bs[i].free && bs[i + 1].free
    ensures var s := MergeAt(keepLeft, bs, i);
            s[..i] + Coalesce(keepLeft, s[i..]) == bs[..i] + Coalesce(keepLeft, bs[i..])
  {
    var s := MergeAt(keepLeft, bs, i);
    assert s[..i] == bs[..i];
    assert s[i..] == [Merged(keepLeft, bs[i], bs[i + 1])] + bs[i..][2..];
  }

  lemma PassSkip(keepLeft: bool, bs: seq<Block>, i: nat)
    requires i + 1 < |bs| && !(bs[i].free && bs[i + 1].free)
    ensures bs[..i + 1] + Coalesce(keepLeft, bs[i + 1..]) == bs[..i] + Coalesce(keepLeft, bs[i..])
  {
    assert bs[i..][1..] == bs[i + 1..];
    assert bs[..i + 1] == bs[..i] + [bs[i]];
  }

  /** Used blocks survive a merge of two free ones, and it writes into none of them. */
  lemma MergeAtUsed(keepLeft: bool, bs: seq<Block>, lo: nat, i: nat, b: Block)
    requires Laid(bs, lo, CEILING) && i + 1 < |bs| && bs[i].free && bs[i + 1].free
    requires !b.free && b in bs
    ensures b in MergeAt(keepLeft, bs, i)
    ensures End(b) <= bs[i].addr || End(bs[i]) <= b.addr
  {
    var j :| 0 <= j < |bs| && bs[j] == b;
    Disjoint(bs, lo, i, j);
    MergeAtIndex(keepLeft, bs, i, if j < i then j else j - 1);
  }

  /** The blocks of `was` other than ptr's that are in use are still there, all bytes as they were. */
  ghost predicate Undisturbed(ptr: nat, was: seq<Block>, m: seq<Byte>, bs: seq<Block>, r: seq<Byte>)
  {
    forall b :: b in was && !b.free && Payload(b) != ptr ==> b in bs && Same(m, r, b.addr, End(b))
  }

  lemma UndisturbedSelf(ptr: nat, bs: seq<Block>, m: seq<Byte>)
    ensures Undisturbed(ptr, bs, m, bs, m)
  {
  }

  lemma UndisturbedGranted(m: seq<Byte>, r: seq<Byte>, bs: seq<Block>, lo: nat, k: nat, n: nat)
    requires Laid(bs, lo, CEILING) && k < |bs| && bs[k].free && HeapSpec.Fits(bs[k], n) && |r| == |m|
    requires Same(m, r, 0, bs[k].addr) && Same(m, r, End(bs[k]), |m|)
    ensures Undisturbed(0, bs, m, Taken(bs, k, n), r)
  {
    forall b | b in bs && !b.free
      ensures b in Taken(bs, k, n) && Same(m, r, b.addr, End(b))
    {
      TakenKeepsUsed(bs, k, n, b);
      var i :| 0 <= i < |bs| && bs[i] == b;
      Disjoint(bs, lo, i, k);
    }
  }

  /** A byte inside the payload of block k is no part of a header or of another block. */
  lemma PayloadWritten(m: seq<Byte>, bs: seq<Block>, lo: nat, k: nat, a: nat, v: Byte)
    requires Laid(bs, lo, CEILING) && Stored(m, bs) && k < |bs| && |m| > CEILING
    requires Payload(bs[k]) <= a < End(bs[k]) && a < |m|
    ensures Stored(SetByte(m, a, v), bs)
    ensures forall i :: 0 <= i < |bs| && i != k ==> Same(m, SetByte(m, a, v), bs[i].addr, End(bs[i]))
  {
    var r := SetByte(m, a, v);
    OthersKept(m, r, bs, lo, k);
    assert Header(m, bs[k], Next(bs, k));
    HeaderKept(m, r, bs[k], Next(bs, k));
    forall i | 0 <= i < |bs| && i != k
      ensures Same(m, r, bs[i].addr, End(bs[i]))
    {
      Disjoint(bs, lo, i, k);
    }
  }

  lemma UndisturbedFreed(m: seq<Byte>, bs: seq<Block>, lo: nat, k: nat)
    requires Laid(bs, lo, CEILING) && |m| > CEILING && k < |bs|
    ensures bs[k].addr + HEADER <= |m|
    ensures Undisturbed(Payload(bs[k]), bs, m, bs[k := bs[k].(free := true)], WriteFree(m, bs[k].addr))
  {
    var s, r := bs[k := bs[k].(free := true)], WriteFree(m, bs[k].addr);
    forall b | b in bs && !b.free && Payload(b) != Payload(bs[k])
      ensures b in s && Same(m, r, b.addr, End(b))
    {
      var i :| 0 <= i < |bs| && bs[i] == b;
      Disjoint(bs, lo, i, k);
      assert s[i] == b;
    }
  }

  lemma UndisturbedMerge(keepLeft: bool, ptr: nat, was: seq<Block>, m: seq<Byte>,
                         bs: seq<Block>, lo: nat, r: seq<Byte>, i: nat, r': seq<Byte>)
    requires i + 1 < |bs| && bs[i].free && bs[i + 1].free
    requires Laid(bs, lo, CEILING) && Undisturbed(ptr, was, m, bs, r)
    requires Same(r, r', 0, bs[i].addr) && Same(r, r', End(bs[i]), |r|)
    ensures Undisturbed(ptr, was, m, MergeAt(keepLeft, bs, i), r')
  {
    forall b | b in was && !b.free && Payload(b) != ptr
      ensures b in MergeAt(keepLeft, bs, i) && Same(m, r', b.addr, End(b))
    {
      MergeAtUsed(keepLeft, bs, lo, i, b);
    }
  }

  // ----- The heap -----

  class Heap {
    /** false: the coalescing assignment as written; true: as intended. */
    const keepLeft: bool
    /** The identity-mapped memory, indexed by address. */
    const mem: array<Byte>
    /** The address of the first header. */
    var heapStart: nat
    /** The heap's value. */
    ghost var blocks: seq<Block>

    ghost predicate Valid()
      reads this, mem
    {
      mem.Length > CEILING && heapStart > 0 && Inv(blocks, heapStart) && Stored(mem[..], blocks)
    }

    /** kmalloc_init */
    constructor (keepLeft: bool, mem: array<Byte>, dynamicHeapStart: nat)
      requires mem.Length > CEILING && 0 < dynamicHeapStart && dynamicHeapStart + HEADER < CEILING
      modifies mem
      ensures Valid() && this.mem == mem && this.keepLeft == keepLeft && heapStart == dynamicHeapStart
      ensures blocks == Init(dynamicHeapStart)
      ensures Word(mem[..], dynamicHeapStart) == 0x7F_FFFF - dynamicHeapStart - 12
      ensures mem[dynamicHeapStart + 4] == 1 && Word(mem[..], dynamicHeapStart + 8) == 0
      ensures Same(old(mem[..]), mem[..], 0, dynamicHeapStart)
      ensures Same(old(mem[..]), mem[..], dynamicHeapStart + HEADER, mem.Length)
    {
      this.keepLeft := keepLeft;
      this.mem := mem;
      heapStart := dynamicHeapStart;
      blocks := Init(dynamicHeapStart);
      new;
      InitInv(dynamicHeapStart);
      ghost var m := mem[..];
      WriteWord(mem, heapStart, CEILING - dynamicHeapStart - HEADER);
      ghost var m1 := mem[..];
      mem[heapStart + 4] := 1;
      ghost var m2 := mem[..];
      WriteWord(mem, heapStart + 8, 0);
      WordKept(m1, m2, heapStart);
      WordKept(m2, mem[..], heapStart);
    }

    /** A 32-bit store. */
    static method WriteWord(mem: array<Byte>, a: nat, v: nat)
      requires a + 4 <= mem.Length && v < U32
      modifies mem
      ensures mem[..] == SetWord(old(mem[..]), a, v)
    {
      mem[a] := v % 0x100;
      mem[a + 1] := v / 0x100 % 0x100;
      mem[a + 2] := v / 0x1_0000 % 0x100;
      mem[a + 3] := v / 0x100_0000;
    }

    /** A 32-bit load. */
    static method ReadWord(mem: array<Byte>, a: nat) returns (v: nat)
      requires a + 4 <= mem.Length
      ensures v == Word(mem[..], a)
    {
      v := mem[a] as int + 0x100 * mem[a + 1] as int + 0x1_0000 * mem[a + 2] as int + 0x100_0000 * mem[a + 3] as int;
    }

    lemma NextBounded(bs: seq<Block>, lo: nat, i: nat)
      requires Laid(bs, lo, CEILING) && lo > 0 && i < |bs|
      ensures Next(bs, i) < U32 && (Next(bs, i) == 0 <==> i + 1 == |bs|)
    {
    }

    /** What the header of block k says. */
    lemma HeaderOf(k: nat)
      requires Valid() && k < |blocks|
      ensures 0 < blocks[k].addr && End(blocks[k]) <= CEILING < mem.Length
      ensures Header(mem[..], blocks[k], Next(blocks, k))
      ensures Next(blocks, k) < U32 && (Next(blocks, k) == 0 <==> k + 1 == |blocks|)
    {
      assert Header(mem[..], blocks[k], Next(blocks, k));
      NextBounded(blocks, heapStart, k);
      SizesBounded(blocks, heapStart, CEILING, k);
    }

    /** How the list lies in memory: size, flag and next pointer at offsets 0, 4 and 8, the payload at 12. */
    lemma HeaderLayout(k: nat)
      requires Valid() && k < |blocks|
      ensures var a := blocks[k].addr;
              && a + 12 + blocks[k].size <= 0x7F_FFFF < mem.Length && (k == 0 ==> a == heapStart)
              && Word(mem[..], a) == blocks[k].size && (mem[a + 4] != 0 <==> blocks[k].free)
              && Word(mem[..], a + 8) == (if k + 1 < |blocks| then blocks[k + 1].addr else 0)
              && (k + 1 < |blocks| ==> a + 12 + blocks[k].size <= blocks[k + 1].addr)
    {
      HeaderOf(k);
      assert Laid(blocks, heapStart, CEILING);
    }

    /**
      kmalloc.  0 stands for NULL.  Nothing is written outside the block that is taken: headers and
      payloads of all other blocks keep their bytes.
     */
    method Kmalloc(size: nat) returns (ptr: nat)
      requires Valid() && size < U32
      modifies this`blocks, mem
      ensures Valid() && blocks == Malloc(old(blocks), size).0
      ensures ptr == match Malloc(old(blocks), size).1 case None => 0 case Some(p) => p
      ensures ptr == 0 ==> mem[..] == old(mem[..])
      ensures ptr != 0 ==>
                var k := FirstFit(old(blocks), size);
                k < |old(blocks)| &&
                Same(old(mem[..]), mem[..], 0, old(blocks)[k].addr) &&
                Same(old(mem[..]), mem[..], End(old(blocks)[k]), mem.Length)
      ensures Undisturbed(0, old(blocks), old(mem[..]), blocks, mem[..])
    {
      hide Laid, Stored, Header, Same, Taken, Undisturbed;
      UndisturbedSelf(0, blocks, mem[..]);
      if size == 0 {
        return 0;
      }
      var current := heapStart;
      ghost var k := 0;
      NotEmpty();
      HeaderOf(0);
      while current != 0
        invariant Valid() && blocks == old(blocks) && mem[..] == old(mem[..])
        invariant k <= |blocks| && current == if k < |blocks| then blocks[k].addr else 0
        invariant k < |blocks| ==> current > 0
        invariant forall j :: 0 <= j < k ==> !HeapSpec.Fits(blocks[j], size)
        decreases |blocks| - k
      {
        HeaderOf(k);
        var blockSize, isFree := ReadBlock(current, k);
        if isFree && blockSize >= size {
          FirstFitIs(blocks, size, k);
          GrantedStored(mem[..], blocks, heapStart, k, size);
          TakenInv(blocks, heapStart, k, size);
          Grant(current, blockSize, size, k);
          UndisturbedGranted(old(mem[..]), mem[..], blocks, heapStart, k, size);
          blocks := Taken(blocks, k, size);
          return current + HEADER;
        }
        current := ReadNext(current, k);
        k := k + 1;
        if k < |blocks| {
          HeaderOf(k);
        }
      }
      FirstFitIs(blocks, size, k);
      return 0;
    }

    lemma NotEmpty()
      requires Valid()
      ensures blocks != [] && blocks[0].addr == heapStart
    {
    }

    static lemma FirstFitIs(bs: seq<Block>, n: nat, k: nat)
      requires k <= |bs| && (k < |bs| ==> HeapSpec.Fits(bs[k], n))
      requires forall j :: 0 <= j < k ==> !HeapSpec.Fits(bs[j], n)
      ensures FirstFit(bs, n) == k
    {
    }

    method ReadBlock(addr: nat, ghost k: nat) returns (size: nat, isFree: bool)
      requires k < |blocks| && addr == blocks[k].addr && Header(mem[..], blocks[k], Next(blocks, k))
      ensures size == blocks[k].size && isFree == blocks[k].free
    {
      size := ReadWord(mem, addr);
      isFree := mem[addr + 4] != 0;
    }

    method ReadNext(addr: nat, ghost k: nat) returns (next: nat)
      requires k < |blocks| && addr == blocks[k].addr && Header(mem[..], blocks[k], Next(blocks, k))
      ensures next == Next(blocks, k)
    {
      next := ReadWord(mem, addr + 8);
    }

    /** The writes of kmalloc to the block it takes. */
    method Grant(current: nat, blockSize: nat, size: nat, ghost k: nat)
      requires mem.Length > CEILING && k < |blocks| && current == blocks[k].addr && blockSize == blocks[k].size
      requires blockSize >= size && End(blocks[k]) <= CEILING && Next(blocks, k) < U32
      requires Header(mem[..], blocks[k], Next(blocks, k))
      modifies mem
      ensures mem[..] == Granted(old(mem[..]), blocks, k, size)
    {
      hide Header, Word, WriteSplit, Splits;
      SplitExact(blockSize, size);
      var split := SplitTest(blockSize, size);
      if split {
        var next := ReadNext(current, k);
        WriteSplitBlock(current, size, current + HEADER + size, blockSize - size - HEADER, next);
      }
      mem[current + 4] := 0;
    }

    method SplitTest(blockSize: nat, size: nat) returns (split: bool)
      ensures split == Splits(blockSize, size)
    {
      split := blockSize >= (size + HEADER + MIN_PAYLOAD) % U32;
    }

    method WriteSplitBlock(addr: nat, size: nat, newAddr: nat, newSize: nat, next: nat)
      requires addr + HEADER <= newAddr && newAddr + HEADER <= mem.Length
      requires size < U32 && newSize < U32 && newAddr < U32 && next < U32
      modifies mem
      ensures mem[..] == WriteSplit(old(mem[..]), Block(addr, size, true), Block(newAddr, newSize, true), next)
    {
      hide Word, SetWord;
      WriteWord(mem, newAddr, newSize);
      mem[newAddr + 4] := 1;
      WriteWord(mem, newAddr + 8, next);
      WriteWord(mem, addr, size);
      WriteWord(mem, addr + 8, newAddr);
    }

    /**
      A write by whoever was handed out the block: inside its payload nobody else is disturbed, and the
      heap stays intact.
     */
    method WritePayload(ptr: nat, offset: nat, v: Byte, ghost k: nat)
      requires Valid() && k < |blocks| && ptr == Payload(blocks[k]) && offset < blocks[k].size
      modifies mem
      ensures Valid() && mem[..] == SetByte(old(mem[..]), ptr + offset, v)
      ensures forall i :: 0 <= i < |blocks| && i != k ==>
                Same(old(mem[..]), mem[..], blocks[i].addr, End(blocks[i]))
    {
      hide Laid, Stored, Header, Same, Separated;
      HeaderOf(k);
      PayloadWritten(mem[..], blocks, heapStart, k, ptr + offset, v);
      mem[ptr + offset] := v;
    }

    /**
      kfree of NULL or of the payload of a block in the list.  Every block that stays in use keeps all
      its bytes, header and payload.
     */
    method Kfree(ptr: nat)
      requires Valid() && Legal(blocks, Free(ptr))
      modifies this`blocks, mem
      ensures Valid() && blocks == Serve(keepLeft, old(blocks), Free(ptr))
      ensures Undisturbed(ptr, old(blocks), old(mem[..]), blocks, mem[..])
    {
      hide Laid, Stored, Header, Same, Separated, Coalesce, WriteFree;
      if ptr == 0 {
        PayloadPositive();
        UndisturbedSelf(ptr, blocks, mem[..]);
        return;
      }
      ghost var k := Find(blocks, ptr);
      HeaderOf(k);
      ServeInv(keepLeft, blocks, heapStart, Free(ptr));
      FlagLaid(blocks, heapStart, CEILING, k, true);
      MarkFree(ptr - HEADER, k);
      MergePass(ptr, old(blocks), old(mem[..]));
    }

    method MarkFree(block: nat, ghost k: nat)
      requires Valid() && k < |blocks| && block == blocks[k].addr
      modifies this`blocks, mem
      ensures blocks == old(blocks)[k := old(blocks)[k].(free := true)] && Stored(mem[..], blocks)
      ensures Undisturbed(Payload(old(blocks)[k]), old(blocks), old(mem[..]), blocks, mem[..])
    {
      hide Laid, Stored, Header, Same, Separated, Undisturbed;
      HeaderOf(k);
      FreedStored(mem[..], blocks, heapStart, k);
      UndisturbedFreed(mem[..], blocks, heapStart, k);
      mem[block + 4] := 1;
      blocks := blocks[k := blocks[k].(free := true)];
    }

    lemma PayloadPositive()
      requires Valid()
      ensures Find(blocks, 0) == |blocks|
    {
    }

    /** The loop of kfree. */
    method MergePass(ghost ptr: nat, ghost was: seq<Block>, ghost m: seq<Byte>)
      requires mem.Length > CEILING && heapStart > 0
      requires Laid(blocks, heapStart, CEILING) && Stored(mem[..], blocks) && Undisturbed(ptr, was, m, blocks, mem[..])
      modifies this`blocks, mem
      ensures Laid(blocks, heapStart, CEILING) && Stored(mem[..], blocks) && Undisturbed(ptr, was, m, blocks, mem[..])
      ensures blocks == Coalesce(keepLeft, old(blocks))
    {
      hide Laid, Stored, Header, Same, Undisturbed, Coalesce, MergeAt;
      ghost var i: nat := 0;
      var current := heapStart;
      FirstBlock();
      BlockFacts(0);
      var next := ReadNext(current, 0);
      while current != 0 && next != 0
        invariant mem.Length > CEILING && heapStart > 0
        invariant Laid(blocks, heapStart, CEILING) && Stored(mem[..], blocks)
        invariant Undisturbed(ptr, was, m, blocks, mem[..])
        invariant i < |blocks| && current == blocks[i].addr > 0 && next == Next(blocks, i)
        invariant blocks[..i] + Coalesce(keepLeft, blocks[i..]) == Coalesce(keepLeft, old(blocks))
        decreases |blocks| - i
      {
        current, next, i := MergeOrSkip(current, next, i, ptr, was, m);
      }
      BlockFacts(i);
    }

    /** One round of the loop. */
    method MergeOrSkip(current: nat, next: nat, ghost i: nat, ghost ptr: nat, ghost was: seq<Block>, ghost m: seq<Byte>)
      returns (current': nat, next': nat, ghost i': nat)
      requires mem.Length > CEILING && heapStart > 0
      requires Laid(blocks, heapStart, CEILING) && Stored(mem[..], blocks) && Undisturbed(ptr, was, m, blocks, mem[..])
      requires i < |blocks| && current == blocks[i].addr > 0 && next == Next(blocks, i) && next != 0
      modifies this`blocks, mem
      ensures Laid(blocks, heapStart, CEILING) && Stored(mem[..], blocks) && Undisturbed(ptr, was, m, blocks, mem[..])
      ensures i' < |blocks| && current' == blocks[i'].addr > 0 && next' == Next(blocks, i')
      ensures |blocks| - i' < |old(blocks)| - i
      ensures blocks[..i'] + Coalesce(keepLeft, blocks[i'..]) == old(blocks[..i] + Coalesce(keepLeft, blocks[i..]))
    {
      hide Laid, Stored, Header, Same, Undisturbed, Coalesce, MergeAt;
      current', next', i' := current, next, i;
      BlockFacts(i);
      BlockFacts(i + 1);
      var size, isFree := ReadBlock(current, i);
      var nextSize, nextFree := ReadBlock(next, i + 1);
      if isFree && nextFree {
        next' := Merge(current, next, size, nextSize, i, ptr, was, m);
      } else {
        PassSkip(keepLeft, blocks, i);
        current' := next;
        i' := i + 1;
        next' := ReadNext(current', i');
      }
    }

    lemma FirstBlock()
      requires Laid(blocks, heapStart, CEILING)
      ensures blocks != [] && blocks[0].addr == heapStart && blocks[0..] == blocks
      ensures blocks[..0] + Coalesce(keepLeft, blocks[0..]) == Coalesce(keepLeft, blocks)
    {
      assert blocks[0..] == blocks;
    }

    lemma BlockFacts(k: nat)
      requires mem.Length > CEILING && heapStart > 0 && k < |blocks|
      requires Laid(blocks, heapStart, CEILING) && Stored(mem[..], blocks)
      ensures 0 < blocks[k].addr && End(blocks[k]) <= CEILING
      ensures Header(mem[..], blocks[k], Next(blocks, k))
      ensures Next(blocks, k) < U32 && (Next(blocks, k) == 0 <==> k + 1 == |blocks|)
      ensures k + 1 == |blocks| ==> blocks[..k] + Coalesce(keepLeft, blocks[k..]) == blocks
    {
      assert Header(mem[..], blocks[k], Next(blocks, k));
      NextBounded(blocks, heapStart, k);
      SizesBounded(blocks, heapStart, CEILING, k);
    }

    /** The merging branch of the loop: line 73 is where the two readings differ. */
    method Merge(current: nat, next: nat, size: nat, nextSize: nat, ghost i: nat,
                 ghost ptr: nat, ghost was: seq<Block>, ghost m: seq<Byte>)
      returns (nextNext: nat)
      requires mem.Length > CEILING && heapStart > 0 && i + 1 < |blocks|
      requires Laid(blocks, heapStart, CEILING) && Stored(mem[..], blocks) && Undisturbed(ptr, was, m, blocks, mem[..])
      requires current == blocks[i].addr && next == blocks[i + 1].addr
      requires size == blocks[i].size && nextSize == blocks[i + 1].size && blocks[i].free && blocks[i + 1].free
      modifies this`blocks, mem
      ensures Laid(blocks, heapStart, CEILING) && Stored(mem[..], blocks) && Undisturbed(ptr, was, m, blocks, mem[..])
      ensures |blocks| == |old(blocks)| - 1 && blocks[i].addr == current && nextNext == Next(blocks, i)
      ensures blocks[..i] + Coalesce(keepLeft, blocks[i..]) ==
              old(blocks[..i] + Coalesce(keepLeft, blocks[i..]))
    {
      hide Laid, Stored, Header, Same, Undisturbed, WriteLink, Coalesce, SetWord;
      BlockFacts(i);
      BlockFacts(i + 1);
      MergedStored(keepLeft, mem[..], blocks, heapStart, i);
      MergeAtLaid(keepLeft, blocks, heapStart, i);
      MergeAtIndex(keepLeft, blocks, i, i);
      PassMerge(keepLeft, blocks, i);
      nextNext := ReadNext(next, i + 1);
      ghost var b := Merged(keepLeft, blocks[i], blocks[i + 1]);
      UndisturbedMerge(keepLeft, ptr, was, m, blocks, heapStart, mem[..], i,
                       WriteLink(mem[..], current, b.size, nextNext));
      WriteLinkOf(current, ((if keepLeft then size else 0) + HEADER + nextSize) % U32, nextNext);
      blocks := MergeAt(keepLeft, blocks, i);
    }

    method WriteLinkOf(addr: nat, size: nat, next: nat)
      requires addr + HEADER <= mem.Length && size < U32 && next < U32
      modifies mem
      ensures mem[..] == WriteLink(old(mem[..]), addr, size, next)
    {
      hide SetWord;
      WriteWord(mem, addr, size);
      WriteWord(mem, addr + 8, next);
    }
  }
}
