/**
 CRC-32 as .exb images use it: the checker and the packer run a 16-entry table,
 a nibble at a time; the standard (section 8 of RFC 1952) is defined bit by bit.
 */
module Crc {
  import opened Bytes

  const SKIP_FROM: nat := 28
  const SKIP_TO: nat := 32

  /** One bit of the reflected polynomial. */
  function BitStep(c: bv32): bv32 {
    if c & 1 == 1 then (c >> 1) ^ 0xEDB88320 else c >> 1
  }

  function FourBits(c: bv32): bv32 {
    BitStep(BitStep(BitStep(BitStep(c))))
  }

  function EightBits(c: bv32): bv32 {
    FourBits(FourBits(c))
  }

  function Nibble(i: bv32): bv32 {
    if i == 0 then 0x00000000 else if i == 1 then 0x1DB71064 else if i == 2 then 0x3B6E20C8 else if i == 3 then 0x26D930AC
    else if i == 4 then 0x76DC4190 else if i == 5 then 0x6B6B51F4 else if i == 6 then 0x4DB26158
    else if i == 7 then 0x5005713C else if i == 8 then 0xEDB88320 else if i == 9 then 0xF00F9344
    else if i == 10 then 0xD6D6A3E8 else if i == 11 then 0xCB61B38C else if i == 12 then 0x9B64C2B0
    else if i == 13 then 0x86D3D2D4 else if i == 14 then 0xA00AE278 else 0xBDBDF21C
  }

  function NibbleStep(c: bv32): bv32 {
    (c >> 4) ^ Nibble(c & 15)
  }

  /** One table look-up does four bits. */
  lemma NibbleIsBits(c: bv32)
    ensures NibbleStep(c) == FourBits(c)
  {
  }

  lemma LowNibble(x: bv32, y: bv32)
    ensures (x ^ (y << 4)) & 15 == x & 15
  {
  }

  lemma HighNibbles(x: bv32, y: bv32)
    requires y & 0xF0000000 == 0
    ensures (x ^ (y << 4)) >> 4 == (x >> 4) ^ y
  {
  }

  lemma XorSwap(x: bv32, y: bv32, z: bv32)
    ensures (x ^ y) ^ z == (x ^ z) ^ y
  {
  }

  lemma HighBits(x: bv32, y: bv32)
    requires y & 0xF0000000 == 0
    ensures NibbleStep(x ^ (y << 4)) == NibbleStep(x) ^ y
  {
    LowNibble(x, y);
    HighNibbles(x, y);
    XorSwap(x >> 4, y, Nibble(x & 15));
  }

  function Mix(a: bv32, b: bv32): bv32 {
    a ^ b
  }

  function Up4(y: bv32): bv32 {
    y << 4
  }

  function High24(c: bv32): bv32 {
    c >> 8
  }

  function Low8(c: bv32): bv32 {
    c & 0xFF
  }

  predicate Top4Clear(y: bv32) {
    y & 0xF0000000 == 0
  }

  lemma HighBitsPass(x: bv32, y: bv32)
    requires Top4Clear(y)
    ensures NibbleStep(Mix(x, Up4(y))) == Mix(NibbleStep(x), y)
  {
    hide NibbleStep;
    HighBits(x, y);
  }

  lemma LowByte(c: bv32)
    ensures c == Mix(Low8(c), Up4(Up4(High24(c))))
    ensures Top4Clear(High24(c)) && Top4Clear(Up4(High24(c)))
  {
  }

  /** RFC 1952's byte table: entry n is eight bit steps of n, and the rest of the register passes through. */
  lemma ByteTableIsBits(c: bv32)
    ensures EightBits(c) == Mix(EightBits(Low8(c)), High24(c))
  {
    hide NibbleStep, FourBits, Mix, Up4, High24, Low8, Top4Clear;
    var m, y := Low8(c), High24(c);
    LowByte(c);
    NibbleIsBits(c);
    NibbleIsBits(m);
    NibbleIsBits(NibbleStep(c));
    NibbleIsBits(NibbleStep(m));
    HighBitsPass(m, Up4(y));
    HighBitsPass(NibbleStep(m), y);
  }

  function Word(b: byte): bv32 {
    b as bv32
  }

  /** The register after a byte string, bit by bit. */
  function Register(p: seq<byte>): bv32 {
    if p == [] then 0xFFFFFFFF
    else EightBits(Mix(Register(p[..|p| - 1]), Word(p[|p| - 1])))
  }

  /** The CRC-32 of a byte string, as the standard defines it. */
  function Crc32(p: seq<byte>): (c: nat)
    ensures c < U32
  {
    !Register(p) as nat
  }

  /** The update step of RFC 1952: the low byte of the register picks a table entry. */
  lemma Rfc1952(p: seq<byte>, b: byte)
    ensures var c := Mix(Register(p), Word(b));
      Register(p + [b]) == Mix(EightBits(Low8(c)), High24(c))
  {
    hide EightBits, Mix, Word, Low8, High24;
    assert (p + [b])[..|p|] == p;
    ByteTableIsBits(Mix(Register(p), Word(b)));
  }

  /** The image with its checksum field read as zero. */
  function Masked(img: seq<byte>): (m: seq<byte>)
    ensures |m| == |img|
    ensures forall i :: 0 <= i < |img| ==> m[i] == if SKIP_FROM <= i < SKIP_TO then 0 else img[i]
  {
    seq(|img|, i requires 0 <= i < |img| => if SKIP_FROM <= i < SKIP_TO then 0 else img[i])
  }

  /** The loop of the checker and of the packer computes the standard CRC of the masked image. */
  method CrcImage(img: seq<byte>) returns (c: nat)
    ensures c == Crc32(Masked(img))
  {
    hide NibbleStep, FourBits, Mix, Word;
    var crc: bv32 := 0xFFFFFFFF;
    var i := 0;
    while i < |img|
      invariant 0 <= i <= |img| && crc == Register(Masked(img)[..i])
    {
      var b: byte := if SKIP_FROM <= i < SKIP_TO then 0 else img[i];
      assert Masked(img)[..i + 1][..i] == Masked(img)[..i];
      crc := Mix(crc, Word(b));
      NibbleIsBits(crc);
      crc := NibbleStep(crc);
      NibbleIsBits(crc);
      crc := NibbleStep(crc);
      i := i + 1;
    }
    assert Masked(img)[..|img|] == Masked(img);
    c := !crc as nat;
  }
}
