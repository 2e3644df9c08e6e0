/** Memory as a sequence of bytes, with little-endian 32-bit words. */
module ByteWords {
  type Byte = x: int | 0 <= x < 256

  const U32: nat := 0x1_0000_0000

  /** The little-endian 32-bit word at address a. */
  function Word(m: seq<Byte>, a: nat): (w: nat)
    requires a + 4 <= |m|
    ensures w < U32
  {
    m[a] as int + 0x100 * m[a + 1] as int + 0x1_0000 * m[a + 2] as int + 0x100_0000 * m[a + 3] as int
  }

  /** The four bytes of a word, lowest first. */
  lemma WordBytes(m: seq<Byte>, a: nat)
    requires a + 4 <= |m|
    ensures var w := Word(m, a);
            && m[a] == w % 0x100 && m[a + 1] == w / 0x100 % 0x100
            && m[a + 2] == w / 0x1_0000 % 0x100 && m[a + 3] == w / 0x100_0000 % 0x100
  {
    LowByte(m[a], m[a + 1] as int + 0x100 * (m[a + 2] as int + 0x100 * m[a + 3] as int));
    LowByte(m[a + 1], m[a + 2] as int + 0x100 * m[a + 3] as int);
    LowByte(m[a + 2], m[a + 3] as int);
    var w := Word(m, a);
    assert w / 0x1_0000 == w / 0x100 / 0x100 && w / 0x100_0000 == w / 0x100 / 0x100 / 0x100;
  }

  lemma LowByte(b: Byte, x: nat)
    ensures (b as int + 0x100 * x) % 0x100 == b && (b as int + 0x100 * x) / 0x100 == x
  {
  }

  function SetWord(m: seq<Byte>, a: nat, v: nat): (r: seq<Byte>)
    requires a + 4 <= |m| && v < U32
    ensures |r| == |m| && Word(r, a) == v
    ensures forall i :: 0 <= i < |m| && !(a <= i < a + 4) ==> r[i] == m[i]
  {
    Digits(v);
    m[a := v % 0x100][a + 1 := v / 0x100 % 0x100][a + 2 := v / 0x1_0000 % 0x100][a + 3 := v / 0x100_0000]
  }

  lemma Digits(v: nat)
    requires v < U32
    ensures v / 0x100_0000 < 0x100
    ensures v == v % 0x100 + 0x100 * (v / 0x100 % 0x100)
                 + 0x1_0000 * (v / 0x1_0000 % 0x100) + 0x100_0000 * (v / 0x100_0000)
  {
    assert v / 0x1_0000 == v / 0x100 / 0x100;
    assert v / 0x100_0000 == v / 0x1_0000 / 0x100;
  }

  function SetByte(m: seq<Byte>, a: nat, v: Byte): (r: seq<Byte>)
    requires a < |m|
  {
    m[a := v]
  }

  /** Bytes lo to hi - 1 are the same in both memories. */
  ghost predicate Same(m: seq<Byte>, r: seq<Byte>, lo: nat, hi: nat)
  {
    |m| == |r| && forall i :: lo <= i < hi && i < |m| ==> m[i] == r[i]
  }

  lemma WordKept(m: seq<Byte>, r: seq<Byte>, a: nat)
    requires a + 4 <= |m| && Same(m, r, a, a + 4)
    ensures Word(r, a) == Word(m, a)
  {
  }
}
