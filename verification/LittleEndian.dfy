/** Bytes, and 32-bit little-endian words stored in byte sequences. */
module LittleEndian {

  type byte = x: int | 0 <= x < 256

  const U32: int := 0x1_0000_0000

  type uint32 = x: int | 0 <= x < U32

  function Power2(n: nat): nat { if n == 0 then 1 else 2 * Power2(n - 1) }

  function Min(a: nat, b: nat): nat { if a <= b then a else b }

  function FromBytes(b0: int, b1: int, b2: int, b3: int): int {
    b0 + 0x100 * b1 + 0x1_0000 * b2 + 0x100_0000 * b3
  }

  /** The i-th aligned word of b, as an i386 load reads it. */
  function Word(b: seq<byte>, i: nat): uint32
    requires 4 * i + 4 <= |b|
  {
    FromBytes(b[4 * i], b[4 * i + 1], b[4 * i + 2], b[4 * i + 3])
  }

  function ByteOf(v: uint32, k: nat): byte
    requires k < 4
  {
    if k == 0 then v % 0x100
    else if k == 1 then v / 0x100 % 0x100
    else if k == 2 then v / 0x1_0000 % 0x100
    else v / 0x100_0000
  }

  /** b with its i-th aligned word overwritten by v, as an i386 store writes it. */
  function PutWord(b: seq<byte>, i: nat, v: uint32): (r: seq<byte>)
    requires 4 * i + 4 <= |b|
    ensures |r| == |b|
    ensures forall k :: 0 <= k < |b| && !(4 * i <= k < 4 * i + 4) ==> r[k] == b[k]
  {
    b[4 * i := ByteOf(v, 0)][4 * i + 1 := ByteOf(v, 1)][4 * i + 2 := ByteOf(v, 2)][4 * i + 3 := ByteOf(v, 3)]
  }

  /** The four bytes of a word put together again give the word. */
  lemma BytesOfWord(v: uint32)
    ensures FromBytes(ByteOf(v, 0), ByteOf(v, 1), ByteOf(v, 2), ByteOf(v, 3)) == v
  {
    assert v / 0x100 / 0x100 == v / 0x1_0000;
    assert v / 0x1_0000 / 0x100 == v / 0x100_0000;
  }

  /** A stored word reads back; every other aligned word is untouched. */
  lemma WordOfPut(b: seq<byte>, i: nat, v: uint32, j: nat)
    requires 4 * i + 4 <= |b| && 4 * j + 4 <= |b|
    ensures Word(PutWord(b, i, v), j) == if i == j then v else Word(b, j)
  {
    BytesOfWord(v);
  }

  /** The number in the four bytes from o on, the lowest first. */
  function Le32(b: seq<byte>, o: nat): nat
    requires o + 4 <= |b|
  {
    b[o] as int + 256 * (b[o + 1] as int) + 65536 * (b[o + 2] as int) + 16777216 * (b[o + 3] as int)
  }

  /** Two byte strings that differ at most from one place up to another. */
  ghost predicate SameOutside(b: seq<byte>, b': seq<byte>, from: nat, to: nat) {
    |b'| == |b| && forall k: nat :: k < |b| && !(from <= k < to) ==> b'[k] == b[k]
  }
}
