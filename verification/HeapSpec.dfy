/**
  The kernel heap as a list of blocks.

  A block is a 12-byte header at `addr` followed by `size` bytes of payload.  `keepLeft` tells the two
  readings of the coalescing assignment apart: false is the code as written, which replaces the left
  block's size, and true is the intended addition to it.
 */
module HeapSpec {
  import opened ByteWords

  const HEADER: nat := 12
  const MIN_PAYLOAD: nat := 4
  const CEILING: nat := 0x007F_FFFF

  datatype Option<T> = None | Some(value: T)

  datatype Block = Block(addr: nat, size: nat, free: bool)

  function Payload(b: Block): nat { b.addr + HEADER }

  function End(b: Block): nat { b.addr + HEADER + b.size }

  // ----- Operations -----

  /** kmalloc_init */
  function Init(start: nat): seq<Block>
    requires start + HEADER < CEILING
  {
    [Block(start, CEILING - start - HEADER, true)]
  }

  predicate Fits(b: Block, n: nat) { b.free && b.size >= n }

  /** The first block that fits n bytes, or |bs|. */
  function FirstFit(bs: seq<Block>, n: nat): (k: nat)
    ensures k <= |bs|
    ensures k < |bs| ==> Fits(bs[k], n)
    ensures forall j :: 0 <= j < k ==> !Fits(bs[j], n)
  {
    if bs == [] || Fits(bs[0], n) then 0 else 1 + FirstFit(bs[1..], n)
  }

  /** The test for splitting, in 32-bit arithmetic. */
  predicate Splits(size: nat, n: nat) { size >= (n + HEADER + MIN_PAYLOAD) % U32 }

  /** Block k of bs replaced by l and r. */
  function Splice(bs: seq<Block>, k: nat, l: Block, r: Block): seq<Block>
    requires k < |bs|
  {
    bs[..k] + [l, r] + bs[k + 1..]
  }

  /** Block k taken for n bytes, what is left over split off; all sums are 32-bit. */
  function Taken(bs: seq<Block>, k: nat, n: nat): seq<Block>
    requires k < |bs|
  {
    var b := bs[k];
    if Splits(b.size, n) then
      Splice(bs, k, Block(b.addr, n, false),
             Block((b.addr + HEADER + n) % U32, (b.size - n - HEADER) % U32, true))
    else
      bs[k := b.(free := false)]
  }

  /** kmalloc: the blocks afterwards and the payload address handed out. */
  function Malloc(bs: seq<Block>, n: nat): (seq<Block>, Option<nat>)
  {
    var k := FirstFit(bs, n);
    if n == 0 || k == |bs| then (bs, None) else (Taken(bs, k, n), Some(Payload(bs[k])))
  }

  function Merged(keepLeft: bool, l: Block, r: Block): Block
  {
    l.(size := (if keepLeft then l.size else 0) + HEADER + r.size)
  }

  /** The pass of kfree over the list. */
  function Coalesce(keepLeft: bool, bs: seq<Block>): seq<Block>
    decreases |bs|
  {
    if |bs| < 2 then bs
    else if bs[0].free && bs[1].free then
      Coalesce(keepLeft, [Merged(keepLeft, bs[0], bs[1])] + bs[2..])
    else
      [bs[0]] + Coalesce(keepLeft, bs[1..])
  }

  /** kfree of the payload of block k */
  function Release(keepLeft: bool, bs: seq<Block>, k: nat): seq<Block>
    requires k < |bs|
  {
    Coalesce(keepLeft, bs[k := bs[k].(free := true)])
  }

  // ----- Invariant -----

  /** Blocks in address order from lo, none reaching into the next, the last one ending by hi. */
  ghost predicate Laid(bs: seq<Block>, lo: nat, hi: nat)
  {
    && bs != [] && bs[0].addr == lo
    && (forall i :: 0 <= i < |bs| ==> bs[i].size > 0)
    && (forall i, j :: 0 <= i < j < |bs| ==> End(bs[i]) <= bs[j].addr)
    && End(bs[|bs| - 1]) <= hi
  }

  /** The same without gaps. */
  ghost predicate Tiled(bs: seq<Block>, lo: nat, hi: nat)
  {
    && bs != [] && bs[0].addr == lo
    && (forall i, j :: 0 <= i < |bs| - 1 && j == i + 1 ==> End(bs[i]) == bs[j].addr)
    && End(bs[|bs| - 1]) == hi
  }

  /** No two neighbours are both free. */
  ghost predicate Separated(bs: seq<Block>)
  {
    forall i, j :: 0 <= i < |bs| - 1 && j == i + 1 ==> !(bs[i].free && bs[j].free)
  }

  /** Header and payload bytes of all blocks together. */
  function Bytes(bs: seq<Block>): nat
  {
    if bs == [] then 0 else HEADER + bs[0].size + Bytes(bs[1..])
  }

  // ----- Runs -----

  /** Freeing names a block of the list, as the source demands of its callers. */
  datatype Request = Alloc(n: nat) | Free(payload: nat)

  /** The block whose payload starts at p, or |bs|. */
  function Find(bs: seq<Block>, p: nat): (k: nat)
    ensures k <= |bs|
    ensures k < |bs| ==> Payload(bs[k]) == p
    ensures forall j :: 0 <= j < k ==> Payload(bs[j]) != p
  {
    if bs == [] || Payload(bs[0]) == p then 0 else 1 + Find(bs[1..], p)
  }

  predicate Legal(bs: seq<Block>, r: Request)
  {
    match r
    case Alloc(n) => n < U32
    case Free(p) => p == 0 || Find(bs, p) < |bs|
  }

  function Serve(keepLeft: bool, bs: seq<Block>, r: Request): seq<Block>
    requires Legal(bs, r)
  {
    match r
    case Alloc(n) => Malloc(bs, n).0
    case Free(p) => if Find(bs, p) == |bs| then bs else Release(keepLeft, bs, Find(bs, p))
  }
}
