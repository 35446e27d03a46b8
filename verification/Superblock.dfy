/**
 The EXFS superblock, format version 3: one block, little-endian fields, and an
 FNV-1a 64 checksum over everything before it.
 */
module Superblock {
  import opened Bytes
  import opened BlockDevice

  const MAX_GROUPS: nat := 512
  const VERSION: nat := 3
  const CHECK_OFF: nat := 4088
  const ITAB_AREA0: nat := 2
  const ITAB_BLOCKS: nat := 8
  const ITAB_AREA1: nat := 10
  const DATA_START: nat := 18
  const INODES: nat := 128
  const MAX_BLOCKS: nat := 0x100_0000
  const MAGIC: seq<byte> := [88, 65, 83, 77, 70, 83, 50, 0]      // "XASMFS2\0"

  datatype Fields = Fields(
    gen: nat, itab: nat, nitab: nat, ninodes: nat, total: nat, ngroups: nat,
    slot: seq<byte>, free: seq<nat>)

  datatype Decoded = Sb(fields: Fields) | BadMagic | BadCheck | BadField

  // ---- FNV-1a ----

  /** Bitwise exclusive or. */
  function Xor(a: nat, b: nat): nat
    decreases a + b
  {
    if a == 0 && b == 0 then 0
    else (if a % 2 != b % 2 then 1 else 0) + 2 * Xor(a / 2, b / 2)
  }

  function FnvStep(h: nat, b: byte): nat {
    (Xor(h, b) * 1099511628211) % U64
  }

  function FnvFrom(h: nat, p: seq<byte>): nat
    decreases |p|
  {
    if p == [] then h else FnvFrom(FnvStep(h, p[0]), p[1..])
  }

  function Fnv(p: seq<byte>): nat { FnvFrom(14695981039346656037, p) }

  method Fnv64(p: seq<byte>) returns (h: nat)
    ensures h == Fnv(p)
  {
    h := 14695981039346656037;
    var i := 0;
    while i < |p|
      invariant i <= |p| && FnvFrom(h, p[i..]) == Fnv(p)
    {
      assert p[i..][1..] == p[i + 1..];
      h := FnvStep(h, p[i]);
      i := i + 1;
    }
  }

  lemma {:induction false} XorInjective(a: nat, b: nat, x: nat)
    requires Xor(a, x) == Xor(b, x)
    ensures a == b
    decreases a + b + x
  {
    if a + b + x > 0 {
      assert Xor(a, x) % 2 == if a % 2 != x % 2 then 1 else 0;
      assert Xor(b, x) % 2 == if b % 2 != x % 2 then 1 else 0;
      XorInjective(a / 2, b / 2, x / 2);
    }
  }

  lemma {:induction false} XorCommutes(a: nat, b: nat)
    ensures Xor(a, b) == Xor(b, a)
    decreases a + b
  {
    if a + b > 0 {
      XorCommutes(a / 2, b / 2);
    }
  }

  lemma {:induction false} XorRange(a: nat, b: nat, k: nat)
    requires a < Pow2(k) && b < Pow2(k)
    ensures Xor(a, b) < Pow2(k)
    decreases k
  {
    if k > 0 {
      XorRange(a / 2, b / 2, k - 1);
    }
  }

  lemma Pow2Is64()
    ensures Pow2(64) == U64
  {
    assert Pow2(16) == 0x1_0000 by {
      assert Pow2(8) == 256 * Pow2(0);
      assert Pow2(16) == 256 * Pow2(8);
    }
    assert Pow2(24) == 256 * Pow2(16);
    assert Pow2(32) == 256 * Pow2(24);
    assert Pow2(40) == 256 * Pow2(32);
    assert Pow2(48) == 256 * Pow2(40);
    assert Pow2(56) == 256 * Pow2(48);
    assert Pow2(64) == 256 * Pow2(56);
  }

  /** The prime has an inverse modulo 2^64, so multiplying by it loses nothing. */
  lemma MulInjective(a: nat, b: nat)
    requires a < 0x1_0000_0000_0000_0000 && b < 0x1_0000_0000_0000_0000
    requires (a * 1099511628211) % 0x1_0000_0000_0000_0000 == (b * 1099511628211) % 0x1_0000_0000_0000_0000
    ensures a == b
  {
    var k := (a * 1099511628211) / 0x1_0000_0000_0000_0000 - (b * 1099511628211) / 0x1_0000_0000_0000_0000;
    MulInverse(a - b, k);
  }

  lemma MulInverse(d: int, k: int)
    requires -0x1_0000_0000_0000_0000 < d < 0x1_0000_0000_0000_0000
    requires d * 1099511628211 == k * 0x1_0000_0000_0000_0000
    ensures d == 0
  {
    assert d * 1099511628211 * 14886173955864302971 == k * 14886173955864302971 * 0x1_0000_0000_0000_0000;
    var z := k * 14886173955864302971 - d * 887285111055;
    assert d == z * 0x1_0000_0000_0000_0000;
  }

  lemma Range(h: nat, b: byte)
    requires h < U64
    ensures Xor(h, b) < U64
  {
    Pow2Is64();
    XorRange(h, b, 64);
  }

  /** Different hash states stay different whatever bytes follow. */
  lemma {:induction false} FnvKeepsApart(g: nat, h: nat, p: seq<byte>)
    requires g < U64 && h < U64 && g != h
    ensures FnvFrom(g, p) != FnvFrom(h, p)
    decreases |p|
  {
    if p != [] {
      Range(g, p[0]);
      Range(h, p[0]);
      if FnvStep(g, p[0]) == FnvStep(h, p[0]) {
        MulInjective(Xor(g, p[0]), Xor(h, p[0]));
        XorInjective(g, h, p[0]);
      }
      FnvKeepsApart(FnvStep(g, p[0]), FnvStep(h, p[0]), p[1..]);
    }
  }

  /** Changing one byte always changes the hash. */
  lemma {:induction false} FnvOneByte(h: nat, p: seq<byte>, i: nat, b: byte)
    requires h < U64 && i < |p| && p[i] != b
    ensures FnvFrom(h, p) != FnvFrom(h, p[i := b])
    decreases |p|
  {
    if i > 0 {
      FnvOneByte(FnvStep(h, p[0]), p[1..], i - 1, b);
      assert p[i := b][1..] == p[1..][i - 1 := b];
    } else {
      Range(h, p[0]);
      Range(h, b);
      if FnvStep(h, p[0]) == FnvStep(h, b) {
        MulInjective(Xor(h, p[0]), Xor(h, b));
        XorCommutes(h, p[0]);
        XorCommutes(h, b);
        XorInjective(p[0], b, h);
      }
      FnvKeepsApart(FnvStep(h, p[0]), FnvStep(h, b), p[1..]);
      assert p[0 := b][1..] == p[1..];
    }
  }

  // ---- the record ----

  predicate Typed(f: Fields) {
    && f.gen < U64 && f.itab < U64 && f.nitab < U32 && f.ninodes < U32 && f.total < U64 && f.ngroups < U32
    && |f.slot| == MAX_GROUPS && |f.free| == MAX_GROUPS
    && forall g :: 0 <= g < MAX_GROUPS ==> f.free[g] < U32
  }

  function ItabArea(gen: nat): nat { if gen % 2 == 1 then ITAB_AREA1 else ITAB_AREA0 }

  /** The fields a checksum-verified page must satisfy. */
  predicate FieldsOk(f: Fields)
    requires |f.slot| == |f.free| == MAX_GROUPS
  {
    && 0 < f.ngroups <= MAX_GROUPS
    && (f.itab == ITAB_AREA0 || f.itab == ITAB_AREA1)
    && f.nitab == ITAB_BLOCKS
    && f.ninodes == INODES
    && DATA_START + 16 <= f.total <= MAX_BLOCKS
    && f.itab == ItabArea(f.gen)
    && (forall g :: 0 <= g < f.ngroups ==> f.slot[g] <= 1)
    && (forall g :: f.ngroups <= g < MAX_GROUPS ==> f.slot[g] == 0 && f.free[g] == 0)
  }

  function Table(v: seq<nat>): (p: seq<byte>)
    ensures |p| == 4 * |v|
  {
    if v == [] then [] else Put(v[0], 4) + Table(v[1..])
  }

  function Head(f: Fields): (p: seq<byte>)
    ensures |p| == 64
  {
    MAGIC + Put(VERSION, 4) + Zeros(4) + Put(f.gen, 8) + Put(f.itab, 8) + Put(f.nitab, 4) +
    Put(f.ninodes, 4) + Put(f.total, 8) + Put(f.ngroups, 4) + Zeros(12)
  }

  function Body(f: Fields): (p: seq<byte>)
    requires |f.slot| == |f.free| == MAX_GROUPS
    ensures |p| == CHECK_OFF
  {
    Head(f) + f.slot + Table(f.free) + Zeros(1464)
  }

  /** sb_encode; which fields survive decoding again is `DecodeEncode`. */
  function Encode(f: Fields): (p: Page)
    requires |f.slot| == |f.free| == MAX_GROUPS
  {
    Body(f) + Put(Fnv(Body(f)), 8)
  }

  function ReadFields(p: Page): (f: Fields)
    ensures Typed(f)
  {
    FieldRanges(p);
    Fields(Field(p, 16, 8), Field(p, 24, 8), Field(p, 32, 4), Field(p, 36, 4), Field(p, 40, 8), Field(p, 48, 4),
           p[64..576], seq(MAX_GROUPS, g requires 0 <= g < MAX_GROUPS => Field(p, 576 + 4 * g, 4)))
  }

  lemma FieldRanges(p: Page)
    ensures forall o: nat :: o + 8 <= BLOCK ==> Field(p, o, 8) < U64
    ensures forall o: nat :: o + 4 <= BLOCK ==> Field(p, o, 4) < U32
  {
    Powers();
    forall o: nat | o + 8 <= BLOCK ensures Field(p, o, 8) < U64 {
      GetRange(p[o..o + 8]);
    }
    forall o: nat | o + 4 <= BLOCK ensures Field(p, o, 4) < U32 {
      GetRange(p[o..o + 4]);
    }
  }

  /** sb_decode: which check fails first, or the fields. */
  function Decode(p: Page): Decoded {
    if p[..8] != MAGIC || Field(p, 8, 4) != VERSION then BadMagic
    else if Field(p, CHECK_OFF, 8) != Fnv(p[..CHECK_OFF]) then BadCheck
    else if FieldsOk(ReadFields(p)) then Sb(ReadFields(p)) else BadField
  }

  lemma {:induction false} TableAt(v: seq<nat>, g: nat)
    requires g < |v|
    ensures Table(v)[4 * g..4 * g + 4] == Put(v[g], 4)
  {
    if g > 0 {
      TableAt(v[1..], g - 1);
      assert Table(v)[4 * g..4 * g + 4] == Table(v[1..])[4 * (g - 1)..4 * (g - 1) + 4];
    }
  }

  lemma {:induction false} FnvRange(h: nat, p: seq<byte>)
    requires h < U64
    ensures FnvFrom(h, p) < U64
    decreases |p|
  {
    if p != [] {
      FnvRange(FnvStep(h, p[0]), p[1..]);
    }
  }

  lemma HeadFields(f: Fields)
    requires Typed(f)
    ensures var h := Head(f);
            && h[..8] == MAGIC && Get(h[8..12]) == VERSION && Get(h[16..24]) == f.gen && Get(h[24..32]) == f.itab
            && Get(h[32..36]) == f.nitab && Get(h[36..40]) == f.ninodes && Get(h[40..48]) == f.total
            && Get(h[48..52]) == f.ngroups
  {
    hide Put, Get;
    Powers();
    var h := Head(f);
    assert h[8..12] == Put(VERSION, 4) && h[16..24] == Put(f.gen, 8) && h[24..32] == Put(f.itab, 8);
    assert h[32..36] == Put(f.nitab, 4) && h[36..40] == Put(f.ninodes, 4) && h[40..48] == Put(f.total, 8);
    assert h[48..52] == Put(f.ngroups, 4);
    GetPut(VERSION, 4);
    GetPut(f.gen, 8);
    GetPut(f.itab, 8);
    GetPut(f.nitab, 4);
    GetPut(f.ninodes, 4);
    GetPut(f.total, 8);
    GetPut(f.ngroups, 4);
  }

  lemma BodyTables(f: Fields, p: Page)
    requires Typed(f) && p[..CHECK_OFF] == Body(f)
    ensures p[..64] == Head(f) && p[64..576] == f.slot
    ensures forall g :: 0 <= g < MAX_GROUPS ==> Field(p, 576 + 4 * g, 4) == f.free[g]
  {
    hide Head, Table, Put, Get, Fnv;
    var b := Body(f);
    assert b[..64] == Head(f) && b[64..576] == f.slot && b[576..2624] == Table(f.free);
    assert p[..64] == b[..64] && p[64..576] == b[64..576] && p[576..2624] == b[576..2624];
    forall g | 0 <= g < MAX_GROUPS
      ensures Field(p, 576 + 4 * g, 4) == f.free[g]
    {
      TableAt(f.free, g);
      assert p[576 + 4 * g..576 + 4 * g + 4] == p[576..2624][4 * g..4 * g + 4];
      Powers();
      GetPut(f.free[g], 4);
    }
  }

  lemma ReadsBack(f: Fields, p: Page)
    requires Typed(f) && p[..CHECK_OFF] == Body(f)
    ensures p[..8] == MAGIC && Field(p, 8, 4) == VERSION
    ensures ReadFields(p) == f
  {
    hide Head, Table, Put, Get, Fnv, Body;
    BodyTables(f, p);
    HeadFields(f);
    var h := p[..64];
    assert p[..8] == h[..8] && p[8..12] == h[8..12] && p[16..24] == h[16..24] && p[24..32] == h[24..32];
    assert p[32..36] == h[32..36] && p[36..40] == h[36..40] && p[40..48] == h[40..48] && p[48..52] == h[48..52];
    assert ReadFields(p).free == f.free;
  }

  /** Decoding inverts encoding for every representable record. */
  lemma DecodeEncode(f: Fields)
    requires Typed(f)
    ensures Decode(Encode(f)) == if FieldsOk(f) then Sb(f) else BadField
  {
    hide Head, Table, Put, Get, Fnv, Body, ReadFields;
    var p := Encode(f);
    assert p[..CHECK_OFF] == Body(f);
    ReadsBack(f, p);
    assert p[CHECK_OFF..CHECK_OFF + 8] == Put(Fnv(Body(f)), 8);
    Powers();
    assert Fnv(Body(f)) < U64 by { HashRange(Body(f)); }
    GetPut(Fnv(Body(f)), 8);
  }

  lemma HashRange(p: seq<byte>)
    ensures Fnv(p) < U64
  {
    FnvRange(14695981039346656037, p);
  }

  /** A page that differs from an encoded one in exactly one byte is rejected. */
  lemma OneByteRejected(f: Fields, i: nat, b: byte)
    requires Typed(f) && i < BLOCK && Encode(f)[i] != b
    ensures Decode(Encode(f)[i := b]).BadMagic? || Decode(Encode(f)[i := b]).BadCheck?
  {
    hide Head, Table, Put, Get, Fnv, Body, ReadFields, FieldsOk;
    var p := Encode(f);
    var q := p[i := b];
    assert p[..CHECK_OFF] == Body(f);
    ReadsBack(f, p);
    if i < CHECK_OFF {
      HashDiffers(p[..CHECK_OFF], i, b);
      assert q[..CHECK_OFF] == p[..CHECK_OFF][i := b];
      assert q[CHECK_OFF..CHECK_OFF + 8] == p[CHECK_OFF..CHECK_OFF + 8];
      StoredHash(f);
    } else {
      assert q[..CHECK_OFF] == p[..CHECK_OFF];
      StoredHash(f);
      if Field(q, CHECK_OFF, 8) == Field(p, CHECK_OFF, 8) {
        GetInjective(q[CHECK_OFF..CHECK_OFF + 8], p[CHECK_OFF..CHECK_OFF + 8]);
      }
    }
  }

  lemma HashDiffers(p: seq<byte>, i: nat, b: byte)
    requires i < |p| && p[i] != b
    ensures Fnv(p) != Fnv(p[i := b])
  {
    FnvOneByte(14695981039346656037, p, i, b);
  }

  lemma StoredHash(f: Fields)
    requires Typed(f)
    ensures Field(Encode(f), CHECK_OFF, 8) == Fnv(Body(f))
  {
    hide Head, Table, Put, Get, Fnv, Body;
    assert Encode(f)[CHECK_OFF..CHECK_OFF + 8] == Put(Fnv(Body(f)), 8);
    Powers();
    HashRange(Body(f));
    GetPut(Fnv(Body(f)), 8);
  }
}
