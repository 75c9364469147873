/** Byte strings: pages, rows and the little-endian 64-bit words stored in them. */
module Bytes {

  type byte = x: int | 0 <= x < 256

  type Bytes = seq<byte>

  const WORD: nat := 8
  const U64_MAX: nat := 0xFFFF_FFFF_FFFF_FFFF

  predicate IsU64(x: int) {
    0 <= x <= U64_MAX
  }

  /** memcpy of `row` into `page` at `off`; a copy that does not fit leaves the page alone. */
  function Splice(page: Bytes, off: nat, row: Bytes): (r: Bytes)
    ensures |r| == |page|
  {
    if off + |row| <= |page| then page[..off] + row + page[off + |row|..] else page
  }

  /** The bytes just spliced in can be read back, and no byte outside the target moves. */
  lemma SpliceReads(page: Bytes, off: nat, row: Bytes)
    requires off + |row| <= |page|
    ensures Splice(page, off, row)[off..off + |row|] == row
    ensures forall a, b :: 0 <= a <= b <= off ==> Splice(page, off, row)[a..b] == page[a..b]
    ensures forall a, b :: off + |row| <= a <= b <= |page| ==> Splice(page, off, row)[a..b] == page[a..b]
  {
    var r := Splice(page, off, row);
    assert r[off..off + |row|] == row;
    forall a, b | off + |row| <= a <= b <= |page| ensures r[a..b] == page[a..b] {
      forall k | a <= k < b ensures r[k] == page[k] {}
    }
  }

  /** `n` little-endian bytes of `x`. */
  function Encode(x: nat, n: nat): (r: Bytes)
    ensures |r| == n
  {
    if n == 0 then [] else [x % 256] + Encode(x / 256, n - 1)
  }

  function Decode(b: Bytes): nat {
    if b == [] then 0 else b[0] + 256 * Decode(b[1..])
  }

  function Power256(n: nat): (r: nat)
    ensures r > 0
  {
    if n == 0 then 1 else 256 * Power256(n - 1)
  }

  lemma {:induction false} DecodeEncode(x: nat, n: nat)
    requires x < Power256(n)
    ensures Decode(Encode(x, n)) == x
  {
    if n > 0 {
      DecodeEncode(x / 256, n - 1);
      assert Encode(x, n)[1..] == Encode(x / 256, n - 1);
    }
  }

  /** Little-endian: every further byte weighs 256 times the one before it. */
  lemma {:induction false} LastByteWeighsMost(b: Bytes, c: byte)
    ensures Decode(b + [c]) == Decode(b) + Power256(|b|) * c
  {
    if b == [] {
      assert [c][1..] == [];
    } else {
      assert (b + [c])[1..] == b[1..] + [c];
      LastByteWeighsMost(b[1..], c);
    }
  }

  lemma {:induction false} EncodeDecode(b: Bytes)
    ensures Encode(Decode(b), |b|) == b
    ensures Decode(b) < Power256(|b|)
  {
    if b != [] {
      EncodeDecode(b[1..]);
      assert Decode(b) % 256 == b[0] && Decode(b) / 256 == Decode(b[1..]);
    }
  }

  function Word(x: nat): (r: Bytes)
    ensures |r| == WORD
  {
    Encode(x, WORD)
  }

  /** A 64-bit value survives being copied to memory and back. */
  lemma WordRoundTrip(x: nat)
    requires IsU64(x)
    ensures Decode(Word(x)) == x
  {
    Power256Is64Bits();
    DecodeEncode(x, WORD);
  }

  /** Any eight bytes are the image of exactly the 64-bit value they decode to. */
  lemma WordOfBytes(b: Bytes)
    requires |b| == WORD
    ensures Word(Decode(b)) == b && IsU64(Decode(b))
  {
    Power256Is64Bits();
    EncodeDecode(b);
  }

  lemma Power256Is64Bits()
    ensures Power256(WORD) == U64_MAX + 1
  {
    assert Power256(2) == 65536;
    assert Power256(4) == 65536 * 65536;
    assert Power256(6) == 65536 * 65536 * 65536;
  }
}
