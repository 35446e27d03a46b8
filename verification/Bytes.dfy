/**
 Bytes, little-endian fields and bitmaps, as the on-disk and in-image formats
 of the repository use them.
 */
module Bytes {

  const U32: nat := 0x1_0000_0000
  const U64: nat := 0x1_0000_0000_0000_0000

  type byte = x: int | 0 <= x < 256

  function Least(a: nat, b: nat): nat { if a < b then a else b }

  function Zeros(n: nat): (z: seq<byte>)
    ensures |z| == n
    ensures forall i :: 0 <= i < n ==> z[i] == 0
  {
    seq(n, i => 0)
  }

  /** Little-endian fields of w bytes: the low byte comes first. */
  function Put(v: nat, w: nat): (p: seq<byte>)
    ensures |p| == w
  {
    if w == 0 then [] else [v % 256] + Put(v / 256, w - 1)
  }

  function Get(p: seq<byte>): nat {
    if p == [] then 0 else p[0] + 256 * Get(p[1..])
  }

  function Pow256(w: nat): nat {
    if w == 0 then 1 else 256 * Pow256(w - 1)
  }

  lemma Powers()
    ensures Pow256(2) == 0x1_0000 && Pow256(4) == U32 && Pow256(8) == U64
  {
    assert Pow256(4) == 256 * (256 * (256 * (256 * Pow256(0))));
    assert Pow256(8) == 256 * (256 * (256 * (256 * Pow256(4))));
  }

  lemma {:induction false} GetPut(v: nat, w: nat)
    requires v < Pow256(w)
    ensures Get(Put(v, w)) == v
  {
    if w > 0 {
      assert v / 256 < Pow256(w - 1);
      GetPut(v / 256, w - 1);
      assert Put(v, w)[1..] == Put(v / 256, w - 1);
    }
  }

  lemma {:induction false} GetRange(p: seq<byte>)
    ensures Get(p) < Pow256(|p|)
  {
    if p != [] {
      GetRange(p[1..]);
    }
  }

  /** A stored field determines its bytes: no two byte strings of one length share a value. */
  lemma {:induction false} GetInjective(p: seq<byte>, q: seq<byte>)
    requires |p| == |q| && Get(p) == Get(q)
    ensures p == q
  {
    if p != [] {
      assert p[0] == Get(p) % 256 == Get(q) % 256 == q[0];
      GetInjective(p[1..], q[1..]);
      assert p == [p[0]] + p[1..] && q == [q[0]] + q[1..];
    }
  }

  /** Field of w bytes at offset o. */
  function Field(p: seq<byte>, o: nat, w: nat): nat
    requires o + w <= |p|
  {
    Get(p[o..o + w])
  }

  // ---- bitmaps: bit i is bit i % 8 of byte i / 8 ----

  /** (x >> k) & 1 */
  predicate Bit(x: nat, k: nat) {
    if k == 0 then x % 2 == 1 else Bit(x / 2, k - 1)
  }

  function Pow2(n: nat): nat {
    if n == 0 then 1 else 2 * Pow2(n - 1)
  }

  function Value(b: seq<bool>): (x: nat)
    ensures x < Pow2(|b|)
  {
    if b == [] then 0 else (if b[0] then 1 else 0) + 2 * Value(b[1..])
  }

  lemma {:induction false} BitOfValue(b: seq<bool>, k: nat)
    requires k < |b|
    ensures Bit(Value(b), k) == b[k]
  {
    if k > 0 {
      BitOfValue(b[1..], k - 1);
    }
  }

  function ByteOfBits(b: seq<bool>): (x: byte)
    requires |b| == 8
  {
    assert Pow2(8) == 16 * (2 * (2 * (2 * (2 * Pow2(0)))));
    Value(b)
  }

  function Unpack(p: seq<byte>): (bits: seq<bool>)
    ensures |bits| == 8 * |p|
  {
    seq(8 * |p|, i requires 0 <= i < 8 * |p| => Bit(p[i / 8], i % 8))
  }

  function Pack(bits: seq<bool>): (p: seq<byte>)
    requires |bits| % 8 == 0
    ensures 8 * |p| == |bits|
  {
    seq(|bits| / 8, j requires 0 <= j < |bits| / 8 => ByteOfBits(bits[8 * j..8 * j + 8]))
  }

  lemma UnpackPack(bits: seq<bool>)
    requires |bits| % 8 == 0
    ensures Unpack(Pack(bits)) == bits
  {
    forall i | 0 <= i < |bits|
      ensures Unpack(Pack(bits))[i] == bits[i]
    {
      var j := i / 8;
      BitOfValue(bits[8 * j..8 * j + 8], i % 8);
    }
  }
}
