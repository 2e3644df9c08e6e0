/** What every run of kmalloc and kfree keeps, for the code as written and as intended. */
module HeapProofs {
  import opened ByteWords
  import opened HeapSpec

  ghost predicate Inv(bs: seq<Block>, lo: nat)
  {
    Laid(bs, lo, CEILING) && Separated(bs)
  }

  // ----- Allocation -----

  /** The split test cannot wrap: a block that fits bounds the request. */
  lemma SplitExact(size: nat, n: nat)
    requires n <= size < CEILING
    ensures Splits(size, n) <==> size >= n + HEADER + MIN_PAYLOAD
  {
  }

  lemma SizesBounded(bs: seq<Block>, lo: nat, hi: nat, k: nat)
    requires Laid(bs, lo, hi) && k < |bs|
    ensures lo <= bs[k].addr && End(bs[k]) <= hi
  {
  }

  /** A block that fits is taken whole, or cut into the grant and a free remainder. */
  lemma TakenExact(bs: seq<Block>, lo: nat, k: nat, n: nat)
    requires Laid(bs, lo, CEILING) && k < |bs| && bs[k].size >= n
    ensures var b := bs[k];
            Taken(bs, k, n) ==
            if b.size >= n + HEADER + MIN_PAYLOAD then
              Splice(bs, k, Block(b.addr, n, false), Block(b.addr + HEADER + n, b.size - n - HEADER, true))
            else bs[k := b.(free := false)]
  {
    SizesBounded(bs, lo, CEILING, k);
    SplitExact(bs[k].size, n);
  }

  lemma SpliceAt(bs: seq<Block>, k: nat, l: Block, r: Block, i: nat)
    requires k < |bs| && i <= |bs|
    ensures var s := Splice(bs, k, l, r);
            |s| == |bs| + 1 &&
            s[i] == if i < k then bs[i] else if i == k then l else if i == k + 1 then r else bs[i - 1]
  {
  }

  /** l and r together fill the place of a free block. */
  ghost predicate Cuts(b: Block, l: Block, r: Block)
  {
    b.free && l.addr == b.addr && End(l) == r.addr && End(r) == End(b) && l.size > 0 && r.size > 0 && !l.free
  }

  lemma SpliceLaid(bs: seq<Block>, lo: nat, k: nat, l: Block, r: Block)
    requires Laid(bs, lo, CEILING) && k < |bs| && Cuts(bs[k], l, r)
    ensures Laid(Splice(bs, k, l, r), lo, CEILING)
  {
    hide Splice;
    var s := Splice(bs, k, l, r);
    SpliceAt(bs, k, l, r, 0);
    SpliceAt(bs, k, l, r, |bs|);
    forall i | 0 <= i < |s|
      ensures s[i].size > 0
    {
      SpliceAt(bs, k, l, r, i);
    }
    forall i, j | 0 <= i < j < |s|
      ensures End(s[i]) <= s[j].addr
    {
      SpliceAt(bs, k, l, r, i);
      SpliceAt(bs, k, l, r, j);
    }
  }

  lemma SpliceNext(bs: seq<Block>, lo: nat, k: nat, l: Block, r: Block)
    requires bs != [] && k < |bs| && Cuts(bs[k], l, r)
    ensures Separated(bs) ==> Separated(Splice(bs, k, l, r))
    ensures Tiled(bs, lo, CEILING) ==> Tiled(Splice(bs, k, l, r), lo, CEILING)
  {
    hide Splice;
    var s := Splice(bs, k, l, r);
    SpliceAt(bs, k, l, r, 0);
    SpliceAt(bs, k, l, r, |bs|);
    forall i, j | 0 <= i < |s| - 1 && j == i + 1
      ensures Separated(bs) ==> !(s[i].free && s[j].free)
      ensures Tiled(bs, lo, CEILING) ==> End(s[i]) == s[j].addr
    {
      SpliceAt(bs, k, l, r, i);
      SpliceAt(bs, k, l, r, j);
    }
  }

  /** The free flag is no part of the layout. */
  lemma FlagLaid(bs: seq<Block>, lo: nat, hi: nat, k: nat, free: bool)
    requires Laid(bs, lo, hi) && k < |bs|
    ensures var s := bs[k := bs[k].(free := free)];
            && Laid(s, lo, hi) && (Tiled(bs, lo, hi) ==> Tiled(s, lo, hi))
            && (!free && Separated(bs) ==> Separated(s))
  {
  }

  /** An allocation keeps the layout and the separation of free blocks, and the tiling if there is one. */
  lemma TakenInv(bs: seq<Block>, lo: nat, k: nat, n: nat)
    requires Inv(bs, lo) && 0 < n && k < |bs| && Fits(bs[k], n)
    ensures Inv(Taken(bs, k, n), lo)
    ensures Tiled(bs, lo, CEILING) ==> Tiled(Taken(bs, k, n), lo, CEILING)
  {
    hide Splice, Taken, Laid, Tiled, Separated;
    var b := bs[k];
    TakenExact(bs, lo, k, n);
    if b.size >= n + HEADER + MIN_PAYLOAD {
      var l, r := Block(b.addr, n, false), Block(b.addr + HEADER + n, b.size - n - HEADER, true);
      SpliceLaid(bs, lo, k, l, r);
      SpliceNext(bs, lo, k, l, r);
    } else {
      FlagLaid(bs, lo, CEILING, k, false);
    }
  }

  /**
    kmalloc is a complete first fit: it fails exactly when the request is empty or no free block is
    large enough.  Otherwise it takes the lowest one and returns the address 12 bytes behind it; a block
    with 16 bytes or more to spare is cut behind the grant, any other is granted as a whole.
   */
  lemma MallocFirstFit(bs: seq<Block>, lo: nat, n: nat)
    requires Inv(bs, lo)
    ensures Malloc(bs, n).1.None? <==> n == 0 || forall k :: 0 <= k < |bs| ==> !(bs[k].free && bs[k].size >= n)
    ensures Malloc(bs, n).1.None? ==> Malloc(bs, n).0 == bs
    ensures Malloc(bs, n).1.Some? ==>
              exists k :: 0 <= k < |bs| && bs[k].free && bs[k].size >= n && Malloc(bs, n).1.value == bs[k].addr + 12
                && (forall j :: 0 <= j < k ==> !(bs[j].free && bs[j].size >= n))
                && Malloc(bs, n).0 ==
                   if bs[k].size >= n + 16 then
                     bs[..k]
                     + [Block(bs[k].addr, n, false), Block(bs[k].addr + 12 + n, bs[k].size - n - 12, true)]
                     + bs[k + 1..]
                   else
                     bs[k := Block(bs[k].addr, bs[k].size, false)]
  {
    var k := FirstFit(bs, n);
    if n > 0 && k < |bs| {
      TakenExact(bs, lo, k, n);
      assert Fits(bs[k], n);
    }
  }

  // ----- Coalescing -----

  /** One pass leaves no two neighbouring free blocks, whatever the list was. */
  lemma {:induction false} CoalesceSeparates(keepLeft: bool, bs: seq<Block>)
    ensures Separated(Coalesce(keepLeft, bs))
    ensures bs != [] ==>
              Coalesce(keepLeft, bs) != [] && Coalesce(keepLeft, bs)[0].addr == bs[0].addr &&
              Coalesce(keepLeft, bs)[0].free == bs[0].free
    decreases |bs|
  {
    if |bs| >= 2 {
      if bs[0].free && bs[1].free {
        CoalesceSeparates(keepLeft, [Merged(keepLeft, bs[0], bs[1])] + bs[2..]);
      } else {
        CoalesceSeparates(keepLeft, bs[1..]);
      }
    }
  }

  lemma LaidTail(bs: seq<Block>, lo: nat, hi: nat)
    requires Laid(bs, lo, hi) && |bs| >= 2
    ensures Laid(bs[1..], bs[1].addr, hi) && End(bs[0]) <= bs[1].addr
    ensures Tiled(bs, lo, hi) ==> Tiled(bs[1..], bs[1].addr, hi)
  {
    var t := bs[1..];
    assert forall i :: 0 <= i < |t| ==> t[i] == bs[i + 1];
  }

  lemma LaidMerge(keepLeft: bool, bs: seq<Block>, lo: nat, hi: nat)
    requires Laid(bs, lo, hi) && |bs| >= 2
    ensures var m := [Merged(keepLeft, bs[0], bs[1])] + bs[2..];
            Laid(m, lo, hi) && (keepLeft && Tiled(bs, lo, hi) ==> Tiled(m, lo, hi))
  {
    MergeLaid(keepLeft, bs, lo, hi);
    if keepLeft && Tiled(bs, lo, hi) {
      MergeTiled(keepLeft, bs, lo, hi);
    }
    hide Laid, Tiled;
  }

  lemma MergeLaid(keepLeft: bool, bs: seq<Block>, lo: nat, hi: nat)
    requires Laid(bs, lo, hi) && |bs| >= 2
    ensures Laid([Merged(keepLeft, bs[0], bs[1])] + bs[2..], lo, hi)
  {
    var m := [Merged(keepLeft, bs[0], bs[1])] + bs[2..];
    assert forall i :: 1 <= i < |m| ==> m[i] == bs[i + 1];
  }

  lemma MergeTiled(keepLeft: bool, bs: seq<Block>, lo: nat, hi: nat)
    requires |bs| >= 2 && keepLeft && Tiled(bs, lo, hi)
    ensures Tiled([Merged(keepLeft, bs[0], bs[1])] + bs[2..], lo, hi)
  {
    var m := [Merged(keepLeft, bs[0], bs[1])] + bs[2..];
    assert forall i :: 1 <= i < |m| ==> m[i] == bs[i + 1];
  }

  lemma LaidCons(b: Block, bs: seq<Block>, hi: nat)
    requires bs != [] && Laid(bs, bs[0].addr, hi) && End(b) <= bs[0].addr && b.size > 0
    ensures Laid([b] + bs, b.addr, hi)
    ensures Tiled(bs, bs[0].addr, hi) && End(b) == bs[0].addr ==> Tiled([b] + bs, b.addr, hi)
  {
    var c := [b] + bs;
    assert forall i :: 1 <= i < |c| ==> c[i] == bs[i - 1];
  }

  /** Merging keeps blocks apart under both readings, and keeps the tiling under the intended one. */
  lemma {:induction false} CoalesceLaid(keepLeft: bool, bs: seq<Block>, lo: nat, hi: nat)
    requires Laid(bs, lo, hi)
    ensures Laid(Coalesce(keepLeft, bs), lo, hi)
    ensures keepLeft && Tiled(bs, lo, hi) ==> Tiled(Coalesce(keepLeft, bs), lo, hi)
    decreases |bs|
  {
    if |bs| >= 2 {
      if bs[0].free && bs[1].free {
        LaidMerge(keepLeft, bs, lo, hi);
        CoalesceLaid(keepLeft, [Merged(keepLeft, bs[0], bs[1])] + bs[2..], lo, hi);
      } else {
        LaidTail(bs, lo, hi);
        CoalesceLaid(keepLeft, bs[1..], bs[1].addr, hi);
        CoalesceSeparates(keepLeft, bs[1..]);
        LaidCons(bs[0], Coalesce(keepLeft, bs[1..]), hi);
      }
    }
  }

  lemma ReleaseInv(keepLeft: bool, bs: seq<Block>, lo: nat, k: nat)
    requires Inv(bs, lo) && k < |bs|
    ensures Inv(Release(keepLeft, bs, k), lo)
    ensures keepLeft && Tiled(bs, lo, CEILING) ==> Tiled(Release(keepLeft, bs, k), lo, CEILING)
  {
    hide Laid, Tiled, Separated;
    var freed := bs[k := bs[k].(free := true)];
    FlagLaid(bs, lo, CEILING, k, true);
    CoalesceSeparates(keepLeft, freed);
    CoalesceLaid(keepLeft, freed, lo, CEILING);
  }

  /** Every request keeps the heap invariant, and under the intended reading the tiling too. */
  lemma ServeInv(keepLeft: bool, bs: seq<Block>, lo: nat, r: Request)
    requires Inv(bs, lo) && Legal(bs, r)
    ensures Inv(Serve(keepLeft, bs, r), lo)
    ensures keepLeft && Tiled(bs, lo, CEILING) ==> Tiled(Serve(keepLeft, bs, r), lo, CEILING)
  {
    match r
    case Alloc(n) =>
      var k := FirstFit(bs, n);
      if n > 0 && k < |bs| {
        TakenInv(bs, lo, k, n);
      }
    case Free(p) =>
      if Find(bs, p) < |bs| {
        ReleaseInv(keepLeft, bs, lo, Find(bs, p));
      }
  }

  // ----- Runs -----

  ghost predicate Runs(keepLeft: bool, bs: seq<Block>, rs: seq<Request>)
    decreases |rs|
  {
    rs != [] ==> Legal(bs, rs[0]) && Runs(keepLeft, Serve(keepLeft, bs, rs[0]), rs[1..])
  }

  ghost function Exec(keepLeft: bool, bs: seq<Block>, rs: seq<Request>): seq<Block>
    requires Runs(keepLeft, bs, rs)
    decreases |rs|
  {
    if rs == [] then bs else Exec(keepLeft, Serve(keepLeft, bs, rs[0]), rs[1..])
  }

  /** Over any run the blocks stay in address order without overlap, and no two neighbours are free. */
  lemma {:induction false} RunInv(keepLeft: bool, bs: seq<Block>, lo: nat, rs: seq<Request>)
    requires Inv(bs, lo) && Runs(keepLeft, bs, rs)
    ensures Inv(Exec(keepLeft, bs, rs), lo)
    ensures keepLeft && Tiled(bs, lo, CEILING) ==> Tiled(Exec(keepLeft, bs, rs), lo, CEILING)
    decreases |rs|
  {
    if rs != [] {
      ServeInv(keepLeft, bs, lo, rs[0]);
      RunInv(keepLeft, Serve(keepLeft, bs, rs[0]), lo, rs[1..]);
    }
  }

  lemma InitInv(start: nat)
    requires start + HEADER < CEILING
    ensures Inv(Init(start), start) && Tiled(Init(start), start, CEILING)
  {
  }

  /** Blocks never overlap, headers included, and none reaches below the start or past the ceiling. */
  lemma RunDisjoint(keepLeft: bool, start: nat, rs: seq<Request>, b: Block, c: Block)
    requires start + HEADER < CEILING && Runs(keepLeft, Init(start), rs) && b != c
    requires b in Exec(keepLeft, Init(start), rs) && c in Exec(keepLeft, Init(start), rs)
    ensures start <= b.addr && End(b) <= CEILING
    ensures End(b) <= c.addr || End(c) <= b.addr
  {
    InitInv(start);
    RunInv(keepLeft, Init(start), start, rs);
    BlocksApart(Exec(keepLeft, Init(start), rs), start, b, c);
  }

  lemma BlocksApart(bs: seq<Block>, lo: nat, b: Block, c: Block)
    requires Laid(bs, lo, CEILING) && b in bs && c in bs && b != c
    ensures lo <= b.addr && End(b) <= CEILING && (End(b) <= c.addr || End(c) <= b.addr)
  {
    var i :| 0 <= i < |bs| && bs[i] == b;
    var j :| 0 <= j < |bs| && bs[j] == c;
    assert i != j;
  }

  /**
    Round trip of the intended form: when every block is free again at the end of a run, the heap is
    the single block that kmalloc_init made.
   */
  lemma AllFreedRestores(start: nat, rs: seq<Request>)
    requires start + HEADER < CEILING && Runs(true, Init(start), rs)
    requires forall b :: b in Exec(true, Init(start), rs) ==> b.free
    ensures Exec(true, Init(start), rs) == Init(start)
  {
    InitInv(start);
    RunInv(true, Init(start), start, rs);
    var bs := Exec(true, Init(start), rs);
    TwoBlocks(bs);
  }

  lemma TwoBlocks(bs: seq<Block>)
    requires Separated(bs)
    ensures |bs| >= 2 ==> exists b :: b in bs && !b.free
  {
    if |bs| >= 2 {
      var b := if bs[0].free then bs[1] else bs[0];
      assert b in bs && !b.free;
    }
  }

  // ----- Blocks in use -----

  lemma {:induction false} CoalesceKeepsUsed(keepLeft: bool, bs: seq<Block>, b: Block)
    requires !b.free
    ensures b in Coalesce(keepLeft, bs) <==> b in bs
    decreases |bs|
  {
    if |bs| >= 2 {
      if bs[0].free && bs[1].free {
        var m := [Merged(keepLeft, bs[0], bs[1])] + bs[2..];
        CoalesceKeepsUsed(keepLeft, m, b);
        assert bs == [bs[0], bs[1]] + bs[2..];
      } else {
        CoalesceKeepsUsed(keepLeft, bs[1..], b);
        assert bs == [bs[0]] + bs[1..];
      }
    }
  }

  lemma TakenKeepsUsed(bs: seq<Block>, k: nat, n: nat, b: Block)
    requires k < |bs| && bs[k].free && !b.free && b in bs
    ensures b in Taken(bs, k, n)
  {
    var i :| 0 <= i < |bs| && bs[i] == b;
    var s := Taken(bs, k, n);
    assert s[if |s| > |bs| && i > k then i + 1 else i] == b;
  }

  lemma ServeKeepsUsed(keepLeft: bool, bs: seq<Block>, r: Request, b: Block)
    requires Legal(bs, r) && !b.free && b in bs && r != Free(Payload(b))
    ensures b in Serve(keepLeft, bs, r)
  {
    match r
    case Alloc(n) =>
      var k := FirstFit(bs, n);
      if n > 0 && k < |bs| {
        TakenKeepsUsed(bs, k, n, b);
      }
    case Free(p) =>
      var k := Find(bs, p);
      if k < |bs| {
        var i :| 0 <= i < |bs| && bs[i] == b;
        assert bs[k := bs[k].(free := true)][i] == b;
        CoalesceKeepsUsed(keepLeft, bs[k := bs[k].(free := true)], b);
      }
  }

  /** A block handed out keeps its place and its size until it is freed, under both readings. */
  lemma {:induction false} RunKeepsUsed(keepLeft: bool, bs: seq<Block>, rs: seq<Request>, b: Block)
    requires Runs(keepLeft, bs, rs) && !b.free && b in bs && Free(Payload(b)) !in rs
    ensures b in Exec(keepLeft, bs, rs)
    decreases |rs|
  {
    if rs != [] {
      ServeKeepsUsed(keepLeft, bs, rs[0], b);
      RunKeepsUsed(keepLeft, Serve(keepLeft, bs, rs[0]), rs[1..], b);
    }
  }

  // ----- What the code as written loses -----

  lemma {:induction false} CoalesceIdle(keepLeft: bool, bs: seq<Block>)
    requires Separated(bs)
    ensures Coalesce(keepLeft, bs) == bs
    decreases |bs|
  {
    if |bs| >= 2 {
      assert !(bs[0].free && bs[1].free);
      assert Separated(bs[1..]) by {
        assert forall i :: 0 <= i < |bs[1..]| ==> bs[1..][i] == bs[i + 1];
      }
      CoalesceIdle(keepLeft, bs[1..]);
    }
  }

  ghost predicate Sized(bs: seq<Block>) { forall i :: 0 <= i < |bs| ==> bs[i].size > 0 }

  /** As written, a pass that merges anything loses bytes. */
  lemma {:induction false} CoalesceLoses(bs: seq<Block>)
    requires Sized(bs)
    ensures Bytes(Coalesce(false, bs)) <= Bytes(bs)
    ensures Bytes(Coalesce(false, bs)) == Bytes(bs) ==> Separated(bs)
    decreases |bs|
  {
    if |bs| >= 2 {
      if bs[0].free && bs[1].free {
        var m := [Merged(false, bs[0], bs[1])] + bs[2..];
        CoalesceLoses(m);
        assert bs[1..][1..] == bs[2..] && m[1..] == bs[2..];
      } else {
        var t := bs[1..];
        CoalesceLoses(t);
        assert ([bs[0]] + Coalesce(false, t))[1..] == Coalesce(false, t);
        assert forall i :: 1 <= i < |bs| ==> bs[i] == t[i - 1];
      }
    }
  }

  /** Block k has a free neighbour. */
  predicate FreeNeighbour(bs: seq<Block>, k: nat)
    requires k < |bs|
  {
    (k > 0 && bs[k - 1].free) || (k + 1 < |bs| && bs[k + 1].free)
  }

  /**
    As written, freeing a used block keeps all bytes of the heap exactly when neither neighbour of the
    block is free.
   */
  lemma ReleaseConservesIff(bs: seq<Block>, lo: nat, k: nat)
    requires Inv(bs, lo) && k < |bs|
    ensures Bytes(Release(false, bs, k)) <= Bytes(bs)
    ensures Bytes(Release(false, bs, k)) == Bytes(bs) <==> bs[k].free || !FreeNeighbour(bs, k)
  {
    hide Bytes, Coalesce;
    var freed := bs[k := bs[k].(free := true)];
    BytesFlag(bs, k, true);
    CoalesceLoses(freed);
    if bs[k].free {
      assert freed == bs;
      CoalesceIdle(false, bs);
    } else if FreeNeighbour(bs, k) {
      assert !Separated(freed) by {
        var i := if k > 0 && bs[k - 1].free then k - 1 else k;
        assert freed[i].free && freed[i + 1].free;
      }
    } else {
      assert Separated(freed);
      CoalesceIdle(false, freed);
    }
  }

  lemma {:induction false} BytesFlag(bs: seq<Block>, k: nat, free: bool)
    requires k < |bs|
    ensures Bytes(bs[k := bs[k].(free := free)]) == Bytes(bs)
  {
    var s := bs[k := bs[k].(free := free)];
    if k == 0 {
      assert s[1..] == bs[1..];
    } else {
      BytesFlag(bs[1..], k - 1, free);
      assert s[1..] == bs[1..][k - 1 := bs[1..][k - 1].(free := free)];
    }
  }

  lemma {:induction false} BytesSplice(bs: seq<Block>, k: nat, l: Block, r: Block)
    requires k < |bs| && l.size + HEADER + r.size == bs[k].size
    ensures Bytes(Splice(bs, k, l, r)) == Bytes(bs)
  {
    var s := Splice(bs, k, l, r);
    if k == 0 {
      assert s[1..][1..] == bs[1..];
    } else {
      BytesSplice(bs[1..], k - 1, l, r);
      assert s[1..] == Splice(bs[1..], k - 1, l, r);
    }
  }

  /** An allocation keeps all bytes. */
  lemma MallocConserves(bs: seq<Block>, lo: nat, n: nat)
    requires Inv(bs, lo)
    ensures Bytes(Malloc(bs, n).0) == Bytes(bs)
  {
    var k := FirstFit(bs, n);
    if n > 0 && k < |bs| {
      var b := bs[k];
      TakenExact(bs, lo, k, n);
      BytesFlag(bs, k, false);
      if b.size >= n + HEADER + MIN_PAYLOAD {
        BytesSplice(bs, k, Block(b.addr, n, false), Block(b.addr + HEADER + n, b.size - n - HEADER, true));
      }
    }
  }

  /** No request of the run frees a used block next to a free one. */
  ghost predicate NeverMerges(bs: seq<Block>, rs: seq<Request>)
    requires Runs(false, bs, rs)
    decreases |rs|
  {
    rs != [] ==>
      (rs[0].Free? && Find(bs, rs[0].payload) < |bs| ==>
         var k := Find(bs, rs[0].payload);
         bs[k].free || !FreeNeighbour(bs, k)) &&
      NeverMerges(Serve(false, bs, rs[0]), rs[1..])
  }

  /** As written, a run keeps all bytes of the heap exactly when it never merges. */
  lemma {:induction false} RunConservesIff(bs: seq<Block>, lo: nat, rs: seq<Request>)
    requires Inv(bs, lo) && Runs(false, bs, rs)
    ensures Bytes(Exec(false, bs, rs)) <= Bytes(bs)
    ensures Bytes(Exec(false, bs, rs)) == Bytes(bs) <==> NeverMerges(bs, rs)
    decreases |rs|
  {
    if rs != [] {
      var r := rs[0];
      match r {
        case Alloc(n) => MallocConserves(bs, lo, n);
        case Free(p) =>
          if Find(bs, p) < |bs| {
            ReleaseConservesIff(bs, lo, Find(bs, p));
          }
      }
      ServeInv(false, bs, lo, r);
      RunConservesIff(Serve(false, bs, r), lo, rs[1..]);
    }
  }

  // ----- Allocating and freeing again -----

  /** A pass over a list with one pair of free neighbours merges that pair. */
  lemma {:induction false} CoalescePair(keepLeft: bool, bs: seq<Block>, k: nat, l: Block, r: Block)
    requires Separated(bs) && k < |bs| && bs[k].free && l.free && r.free
    ensures Coalesce(keepLeft, Splice(bs, k, l, r)) == bs[k := Merged(keepLeft, l, r)]
    decreases k
  {
    var s := Splice(bs, k, l, r);
    var t := bs[k := Merged(keepLeft, l, r)];
    if k == 0 {
      assert [Merged(keepLeft, s[0], s[1])] + s[2..] == t;
      assert Separated(t);
      CoalesceIdle(keepLeft, t);
    } else {
      assert Separated(bs[1..]) by {
        assert forall i :: 0 <= i < |bs[1..]| ==> bs[1..][i] == bs[i + 1];
      }
      CoalescePair(keepLeft, bs[1..], k - 1, l, r);
      assert s[1..] == Splice(bs[1..], k - 1, l, r);
      assert t == [bs[0]] + bs[1..][k - 1 := Merged(keepLeft, l, r)];
      assert !(bs[0].free && bs[1].free);
    }
  }

  lemma FindPayload(bs: seq<Block>, lo: nat, k: nat)
    requires Laid(bs, lo, CEILING) && k < |bs|
    ensures Find(bs, Payload(bs[k])) == k
  {
  }

  lemma TakenReleased(keepLeft: bool, bs: seq<Block>, lo: nat, k: nat, n: nat)
    requires Inv(bs, lo) && k < |bs| && Fits(bs[k], n)
    ensures |Taken(bs, k, n)| > k && Taken(bs, k, n)[k].addr == bs[k].addr
    ensures Release(keepLeft, Taken(bs, k, n), k) ==
            if keepLeft || bs[k].size < n + HEADER + MIN_PAYLOAD then bs
            else bs[k := bs[k].(size := bs[k].size - n)]
  {
    hide Laid, Separated, Coalesce;
    var b := bs[k];
    var taken := Taken(bs, k, n);
    TakenExact(bs, lo, k, n);
    if b.size >= n + HEADER + MIN_PAYLOAD {
      var l, r := Block(b.addr, n, false), Block(b.addr + HEADER + n, b.size - n - HEADER, true);
      assert taken[k := l.(free := true)] == Splice(bs, k, l.(free := true), r);
      CoalescePair(keepLeft, bs, k, l.(free := true), r);
    } else {
      assert taken[k := taken[k].(free := true)] == bs;
      CoalesceIdle(keepLeft, bs);
    }
  }

  /**
    Allocating and freeing at once: the intended form restores the heap; as written, the block that
    was taken comes back n bytes smaller when it had been split, so the heap is restored exactly when
    it had not.
   */
  lemma MallocFreeRoundTrip(keepLeft: bool, bs: seq<Block>, lo: nat, n: nat)
    requires Inv(bs, lo) && Malloc(bs, n).1.Some? && n < U32
    ensures var (taken, p) := Malloc(bs, n);
            var k := FirstFit(bs, n);
            && Legal(taken, Free(p.value))
            && k < |bs|
            && (keepLeft || bs[k].size < n + HEADER + MIN_PAYLOAD <==>
                Serve(keepLeft, taken, Free(p.value)) == bs)
            && (!keepLeft && bs[k].size >= n + HEADER + MIN_PAYLOAD ==>
                Serve(keepLeft, taken, Free(p.value)) == bs[k := bs[k].(size := bs[k].size - n)])
  {
    hide Laid, Tiled, Separated, Taken, Release;
    var k := FirstFit(bs, n);
    TakenInv(bs, lo, k, n);
    TakenReleased(keepLeft, bs, lo, k, n);
    FindPayload(Taken(bs, k, n), lo, k);
    assert Malloc(bs, n).0 == Taken(bs, k, n);
    assert bs[k := bs[k].(size := bs[k].size - n)][k].size != bs[k].size;
  }

  /** A run as written that loses bytes: an allocation that splits the only block, freed again. */
  lemma LosingRun(start: nat)
    requires start + 1000 < CEILING
    ensures var rs := [Alloc(100), Free(start + HEADER)];
            Runs(false, Init(start), rs) && Bytes(Exec(false, Init(start), rs)) == Bytes(Init(start)) - 100
  {
    var bs, rs := Init(start), [Alloc(100), Free(start + HEADER)];
    InitInv(start);
    MallocFreeRoundTrip(false, bs, start, 100);
    var taken := Serve(false, bs, rs[0]);
    assert FirstFit(bs, 100) == 0 && Malloc(bs, 100).1 == Some(start + HEADER);
    var last := Serve(false, taken, rs[1]);
    assert rs[1..] == [rs[1]] && [rs[1]][1..] == [];
    assert Exec(false, last, []) == last && Runs(false, last, []);
    assert Exec(false, taken, [rs[1]]) == last && Runs(false, taken, [rs[1]]);
    assert last == [bs[0].(size := bs[0].size - 100)];
    assert last[1..] == [] && bs[1..] == [];
  }
}
