/** The bitmap of used frames: one bit of a 32-bit word per frame. */
module Bitmaps {
  /** k as a 32-bit word, the shift count of `1U << k`. */
  function ShiftCount(k: nat): (b: bv32)
    requires k < 32
    ensures b < 32 && b as int == k
  {
    if k == 0 then 0 else ShiftCount(k - 1) + 1
  }

  function Shifted(i: bv32): bv32
    requires i < 32
  {
    1 << i
  }

  /** 1U << k */
  function Mask(k: nat): bv32
    requires k < 32
  {
    Shifted(ShiftCount(k))
  }

  lemma Shifts(i: bv32, j: bv32)
    requires i < 32 && j < 32
    ensures (1 as bv32) << i != 0
    ensures i != j ==> ((1 as bv32) << i) & ((1 as bv32) << j) == 0
  {
  }

  /** The word operations of the bitmap. */
  function Raised(w: bv32, mask: bv32): bv32 { w | mask }

  function Lowered(w: bv32, mask: bv32): bv32 { w & !mask }

  function Common(w: bv32, mask: bv32): bv32 { w & mask }

  predicate Shows(w: bv32, mask: bv32) { Common(w, mask) != 0 }

  lemma SameMask(w: bv32, a: bv32)
    requires a != 0
    ensures Shows(Raised(w, a), a) && !Shows(Lowered(w, a), a)
  {
    OrSelf(w, a);
    AndNotSelf(w, a);
    hide Common, Raised, Lowered;
  }

  lemma OrSelf(w: bv32, a: bv32)
    ensures Common(Raised(w, a), a) == a
  {
  }

  lemma AndNotSelf(w: bv32, a: bv32)
    ensures Common(Lowered(w, a), a) == 0
  {
  }

  lemma OrSplits(w: bv32, a: bv32, b: bv32)
    ensures Common(Raised(w, a), b) == Raised(Common(w, b), Common(a, b))
  {
  }

  lemma OrNothing(w: bv32)
    ensures Raised(w, 0) == w
  {
  }

  lemma OrOther(w: bv32, a: bv32, b: bv32)
    requires Common(a, b) == 0
    ensures Common(Raised(w, a), b) == Common(w, b)
  {
    OrSplits(w, a, b);
    hide Common;
    OrNothing(Common(w, b));
  }

  lemma AndNotOther(w: bv32, a: bv32, b: bv32)
    requires Common(a, b) == 0
    ensures Common(Lowered(w, a), b) == Common(w, b)
  {
    assert b & !a == b;
  }

  lemma OtherMask(w: bv32, a: bv32, b: bv32)
    requires Common(a, b) == 0
    ensures Shows(Raised(w, a), b) <==> Shows(w, b)
    ensures Shows(Lowered(w, a), b) <==> Shows(w, b)
  {
    hide Common, Raised, Lowered;
    OrOther(w, a, b);
    AndNotOther(w, a, b);
  }

  lemma CommonShifts(i: bv32, j: bv32)
    requires i < 32 && j < 32
    ensures Shifted(i) != 0 && (i != j ==> Common(Shifted(i), Shifted(j)) == 0)
  {
    Shifts(i, j);
  }

  lemma MasksApart(i: nat, j: nat)
    requires i < 32 && j < 32
    ensures Mask(i) != 0 && (i != j ==> Common(Mask(i), Mask(j)) == 0)
  {
    hide Common, Shifted;
    CommonShifts(ShiftCount(i), ShiftCount(j));
    assert i != j ==> ShiftCount(i) != ShiftCount(j);
  }

  lemma Updates(w: bv32, i: nat, j: nat)
    requires i < 32 && j < 32
    ensures Shows(Raised(w, Mask(i)), Mask(j)) <==> (i == j || Shows(w, Mask(j)))
    ensures Shows(Lowered(w, Mask(i)), Mask(j)) <==> (i != j && Shows(w, Mask(j)))
  {
    hide Mask, ShiftCount, Shows, Common, Raised, Lowered;
    MasksApart(i, j);
    if i == j {
      SameMask(w, Mask(i));
    } else {
      OtherMask(w, Mask(i), Mask(j));
    }
  }

  /** Bit i of the words in storage. */
  predicate IsSet(words: seq<bv32>, i: nat)
    requires i / 32 < |words|
  {
    Shows(words[i / 32], Mask(i % 32))
  }

  lemma ZeroWord(i: nat)
    requires i < 32
    ensures !Shows(0, Mask(i))
  {
    assert 0 & Mask(i) == 0;
  }

  /** Setting or clearing bit i of its word leaves every other bit of every word alone. */
  lemma OneBit(words: seq<bv32>, i: nat, j: nat)
    requires i / 32 < |words| && j / 32 < |words|
    ensures var w := words[i / 32];
            && (IsSet(words[i / 32 := Raised(w, Mask(i % 32))], j) <==> i == j || IsSet(words, j))
            && (IsSet(words[i / 32 := Lowered(w, Mask(i % 32))], j) <==> i != j && IsSet(words, j))
  {
    hide Mask, Shows, Raised, Lowered;
    if i / 32 == j / 32 {
      Updates(words[i / 32], i % 32, j % 32);
    }
  }

  function Words(bits: nat): nat { bits / 32 + if bits % 32 != 0 then 1 else 0 }

  class Bitmap {
    var storage: array<bv32>
    var totalBits: nat

    ghost predicate Valid()
      reads this
    {
      storage.Length >= Words(totalBits)
    }

    /** The bits that are set, the bitmap's value. */
    ghost function Used(): (s: set<nat>)
      requires Valid()
      reads this, storage
      ensures forall i :: i in s ==> i < totalBits
    {
      set i: nat | i < totalBits && IsSet(storage[..], i)
    }

    constructor (storage: array<bv32>, totalBits: nat)
      requires storage.Length >= Words(totalBits)
      ensures this.storage == storage && this.totalBits == totalBits
    {
      this.storage := storage;
      this.totalBits := totalBits;
    }

    method ClearAll()
      requires Valid()
      modifies storage
      ensures Used() == {}
    {
      hide Mask, Shows;
      var words := totalBits / 32;
      if totalBits % 32 != 0 {
        words := words + 1;
      }
      for i := 0 to words
        invariant forall j :: 0 <= j < i ==> storage[j] == 0
      {
        storage[i] := 0;
      }
      forall i: nat | i < totalBits
        ensures !IsSet(storage[..], i)
      {
        ZeroWord(i % 32);
      }
    }

    /** No bit but bitIndex changes, not even one beyond totalBits. */
    method Set(bitIndex: nat)
      requires Valid()
      modifies storage
      ensures Used() == old(Used()) + if bitIndex < totalBits then {bitIndex} else {}
      ensures forall j: nat :: j / 32 < storage.Length && j != bitIndex ==>
                (IsSet(storage[..], j) <==> IsSet(old(storage[..]), j))
    {
      if bitIndex >= totalBits {
        return;
      }
      hide Mask, IsSet, Raised, Lowered;
      forall j: nat | j / 32 < storage.Length { OneBit(storage[..], bitIndex, j); }
      ghost var w := storage[bitIndex / 32];
      storage[bitIndex / 32] := Raised(storage[bitIndex / 32], Mask(bitIndex % 32));
      assert storage[..] == old(storage[..])[bitIndex / 32 := Raised(w, Mask(bitIndex % 32))];
    }

    method Clear(bitIndex: nat)
      requires Valid()
      modifies storage
      ensures Used() == old(Used()) - {bitIndex}
      ensures forall j: nat :: j / 32 < storage.Length && j != bitIndex ==>
                (IsSet(storage[..], j) <==> IsSet(old(storage[..]), j))
    {
      if bitIndex >= totalBits {
        return;
      }
      hide Mask, IsSet, Raised, Lowered;
      forall j: nat | j / 32 < storage.Length { OneBit(storage[..], bitIndex, j); }
      ghost var w := storage[bitIndex / 32];
      storage[bitIndex / 32] := Lowered(storage[bitIndex / 32], Mask(bitIndex % 32));
      assert storage[..] == old(storage[..])[bitIndex / 32 := Lowered(w, Mask(bitIndex % 32))];
    }

    method Test(bitIndex: nat) returns (b: bool)
      requires Valid()
      ensures b <==> bitIndex in Used()
    {
      hide Mask, Shows;
      if bitIndex >= totalBits {
        return false;
      }
      b := Shows(storage[bitIndex / 32], Mask(bitIndex % 32));
      assert b == IsSet(storage[..], bitIndex);
    }
  }
}
