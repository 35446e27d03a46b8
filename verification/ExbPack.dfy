/** The image packer: lays out segments and requests and seals them with the checksum. */
module ExbPack {
  import opened Bytes
  import opened Crc
  import opened Exb

  datatype Part = Part(vaddr: nat, mem: nat, flags: nat, data: seq<byte>)

  datatype Req = Req(kind: nat, value: nat)

  function Round16(x: nat): (r: nat)
    ensures x <= r < x + 16 && r % 16 == 0
  {
    x + 15 - (x + 15) % 16
  }

  function TablesEnd(parts: seq<Part>, reqs: seq<Req>): nat {
    HEADER + SEG_ENTRY * |parts| + CAP_ENTRY * |reqs|
  }

  /** Where the data of part n would go. */
  function Place(parts: seq<Part>, reqs: seq<Req>, n: nat): nat
    requires n <= |parts|
  {
    if n == 0 then Round16(TablesEnd(parts, reqs))
    else
      var p := Place(parts, reqs, n - 1);
      if parts[n - 1].data == [] then p else Round16(p + |parts[n - 1].data|)
  }

  function OffsetOf(parts: seq<Part>, reqs: seq<Req>, i: nat): nat
    requires i < |parts|
  {
    if parts[i].data == [] then 0 else Place(parts, reqs, i)
  }

  function SegBytes(p: Part, off: nat): (b: seq<byte>)
    ensures |b| == SEG_ENTRY
  {
    Put(p.vaddr, 8) + Put(p.mem, 8) + Put(off, 4) + Put(|p.data|, 4) + Put(p.flags, 4) + Put(0, 4)
  }

  function SegTable(parts: seq<Part>, reqs: seq<Req>, n: nat): (b: seq<byte>)
    requires n <= |parts|
    ensures |b| == SEG_ENTRY * n
  {
    if n == 0 then [] else SegTable(parts, reqs, n - 1) + SegBytes(parts[n - 1], OffsetOf(parts, reqs, n - 1))
  }

  function CapBytes(r: Req): (b: seq<byte>)
    ensures |b| == CAP_ENTRY
  {
    Put(r.kind, 4) + Put(0, 4) + Put(r.value, 8)
  }

  function CapTable(reqs: seq<Req>): (b: seq<byte>)
    ensures |b| == CAP_ENTRY * |reqs|
  {
    if reqs == [] then [] else CapTable(reqs[..|reqs| - 1]) + CapBytes(reqs[|reqs| - 1])
  }

  function CapOffset(parts: seq<Part>, reqs: seq<Req>): nat {
    if reqs == [] then 0 else HEADER + SEG_ENTRY * |parts|
  }

  function Header(parts: seq<Part>, reqs: seq<Req>, entry: nat, total: nat, crc: seq<byte>, kind: byte := 0): (b: seq<byte>)
    requires |crc| == 4
    ensures |b| == HEADER
  {
    [0x7F, 0x45, 0x58, 0x42, 1, 1] + Put(HEADER, 2) + Put(0, 4) + Put(1, 4) + Put(entry, 8) + Put(total, 4) + crc
    + Put(HEADER, 4) + Put(|parts|, 4) + Put(CapOffset(parts, reqs), 4) + Put(|reqs|, 4) + [kind] + Zeros(15)
  }

  /** The data of the first n parts, each padded to 16 bytes. */
  function Area(parts: seq<Part>, reqs: seq<Req>, n: nat): (b: seq<byte>)
    requires n <= |parts|
    ensures Place(parts, reqs, 0) + |b| == Place(parts, reqs, n)
  {
    if n == 0 then []
    else
      var d := parts[n - 1].data;
      var pos := Place(parts, reqs, n - 1);
      if d == [] then Area(parts, reqs, n - 1)
      else Area(parts, reqs, n - 1) + d + Zeros(Round16(pos + |d|) - (pos + |d|))
  }

  function Tail(parts: seq<Part>, reqs: seq<Req>): (b: seq<byte>)
    ensures HEADER + |b| == Place(parts, reqs, |parts|)
  {
    SegTable(parts, reqs, |parts|) + CapTable(reqs)
    + Zeros(Round16(TablesEnd(parts, reqs)) - TablesEnd(parts, reqs)) + Area(parts, reqs, |parts|)
  }

  function Body(parts: seq<Part>, reqs: seq<Req>, entry: nat, crc: seq<byte>, kind: byte := 0): (b: seq<byte>)
    requires |crc| == 4
    ensures |b| == Place(parts, reqs, |parts|)
  {
    Header(parts, reqs, entry, Place(parts, reqs, |parts|), crc, kind) + Tail(parts, reqs)
  }

  /** The packed file; kind 0 is a user program. */
  function Image(parts: seq<Part>, reqs: seq<Req>, entry: nat, kind: byte := 0): seq<byte> {
    Body(parts, reqs, entry, Put(Crc32(Masked(Body(parts, reqs, entry, Zeros(4), kind))), 4), kind)
  }

  /** The packer's loops: offsets, tables, header, data, then the checksum over it all. */
  method BuildImage(parts: seq<Part>, reqs: seq<Req>, entry: nat, kind: byte) returns (img: seq<byte>)
    ensures img == Image(parts, reqs, entry, kind)
  {
    hide SegBytes, CapBytes, Header, Round16, Crc32, Masked, Put;
    var pos := Round16(TablesEnd(parts, reqs));
    var segtab: seq<byte>, i: nat := [], 0;
    while i < |parts|
      invariant i <= |parts| && pos == Place(parts, reqs, i) && segtab == SegTable(parts, reqs, i)
    {
      var off := if parts[i].data == [] then 0 else pos;
      if parts[i].data != [] {
        pos := Round16(pos + |parts[i].data|);
      }
      segtab := segtab + SegBytes(parts[i], off);
      i := i + 1;
    }
    var captab: seq<byte> := [];
    i := 0;
    while i < |reqs|
      invariant i <= |reqs| && captab == CapTable(reqs[..i])
    {
      assert reqs[..i + 1][..i] == reqs[..i];
      captab := captab + CapBytes(reqs[i]);
      i := i + 1;
    }
    assert reqs[..|reqs|] == reqs;
    var area := BuildArea(parts, reqs);
    ZerosPut();
    var body := Header(parts, reqs, entry, pos, Put(0, 4), kind) + (segtab + captab
      + Zeros(Round16(TablesEnd(parts, reqs)) - TablesEnd(parts, reqs)) + area);
    var crc := CrcImage(body);
    img := body[..SKIP_FROM] + Put(crc, 4) + body[SKIP_TO..];
    Overlaid(parts, reqs, entry, Put(0, 4), Put(crc, 4), kind);
  }

  method BuildArea(parts: seq<Part>, reqs: seq<Req>) returns (area: seq<byte>)
    ensures area == Area(parts, reqs, |parts|)
  {
    hide Round16;
    area := [];
    var i: nat := 0;
    while i < |parts|
      invariant i <= |parts| && area == Area(parts, reqs, i)
    {
      var d := parts[i].data;
      if d != [] {
        var at := Place(parts, reqs, 0) + |area| + |d|;
        area := area + d + Zeros(Round16(at) - at);
      }
      i := i + 1;
    }
  }

  lemma ZerosPut()
    ensures Put(0, 4) == Zeros(4)
  {
    assert Put(0, 4) == [0] + ([0] + ([0] + ([0] + Put(0, 0))));
  }

  /** Writing the checksum field changes nothing else. */
  lemma Overlaid(parts: seq<Part>, reqs: seq<Req>, entry: nat, a: seq<byte>, b: seq<byte>, kind: byte := 0)
    requires |a| == |b| == 4
    ensures var p := Body(parts, reqs, entry, a, kind);
      p[..SKIP_FROM] + b + p[SKIP_TO..] == Body(parts, reqs, entry, b, kind)
    ensures Masked(Body(parts, reqs, entry, a, kind)) == Masked(Body(parts, reqs, entry, b, kind))
  {
    hide Put, Tail, Place, SegTable, CapTable, Area;
    var total := Place(parts, reqs, |parts|);
    var ha, hb := Header(parts, reqs, entry, total, a, kind), Header(parts, reqs, entry, total, b, kind);
    assert ha[..SKIP_FROM] == hb[..SKIP_FROM] && ha[SKIP_TO..] == hb[SKIP_TO..] && hb[SKIP_FROM..SKIP_TO] == b;
    var p, q := Body(parts, reqs, entry, a, kind), Body(parts, reqs, entry, b, kind);
    assert p[..SKIP_FROM] == q[..SKIP_FROM] && p[SKIP_TO..] == q[SKIP_TO..];
    assert q == q[..SKIP_FROM] + q[SKIP_FROM..SKIP_TO] + q[SKIP_TO..];
    forall i | 0 <= i < |p| && !(SKIP_FROM <= i < SKIP_TO)
      ensures p[i] == q[i]
    {
      assert i < SKIP_FROM ==> p[..SKIP_FROM][i] == q[..SKIP_FROM][i];
      assert i >= SKIP_TO ==> p[SKIP_TO..][i - SKIP_TO] == q[SKIP_TO..][i - SKIP_TO];
    }
  }

  // ---- reading an image back ----

  /** Every value fits its field. */
  predicate Typed(parts: seq<Part>, reqs: seq<Req>, entry: nat) {
    && |parts| < U32 && |reqs| < U32 && entry < U64 && Place(parts, reqs, |parts|) < U32
    && (forall i :: 0 <= i < |parts| ==>
          parts[i].vaddr < U64 && parts[i].mem < U64 && parts[i].flags < U32 && |parts[i].data| < U32)
    && (forall i :: 0 <= i < |reqs| ==> reqs[i].kind < U32 && reqs[i].value < U64)
  }

  function SegOf(parts: seq<Part>, reqs: seq<Req>, i: nat): Seg
    requires i < |parts|
  {
    var p := parts[i];
    Seg(p.vaddr, p.mem, PagesOf(p.mem), OffsetOf(parts, reqs, i), |p.data|, p.flags)
  }

  function CapOf(r: Req): Cap {
    Cap(r.kind, 0, r.value)
  }

  lemma FieldIn(img: seq<byte>, a: nat, b: nat, o: nat, w: nat)
    requires a <= o && o + w <= b <= |img|
    ensures Field(img, o, w) == Field(img[a..b], o - a, w)
  {
    hide Get;
    var s := img[a..b];
    var x, y := img[o..o + w], s[o - a..o - a + w];
    forall k | 0 <= k < w
      ensures x[k] == y[k]
    {
      assert s[o - a + k] == img[o + k];
    }
    assert x == y;
  }

  lemma {:induction false} PlaceGrows(parts: seq<Part>, reqs: seq<Req>, i: nat, n: nat)
    requires i <= n <= |parts|
    ensures Place(parts, reqs, i) <= Place(parts, reqs, n)
    ensures i < n ==> Place(parts, reqs, i) + |parts[i].data| <= Place(parts, reqs, n)
    decreases n - i
  {
    hide Round16;
    if i < n {
      PlaceGrows(parts, reqs, i, n - 1);
    }
  }

  lemma {:induction false} SegAt(parts: seq<Part>, reqs: seq<Req>, n: nat, i: nat)
    requires i < n <= |parts|
    ensures SegTable(parts, reqs, n)[SEG_ENTRY * i..SEG_ENTRY * i + SEG_ENTRY]
         == SegBytes(parts[i], OffsetOf(parts, reqs, i))
  {
    hide SegBytes, OffsetOf;
    var b := SegTable(parts, reqs, n);
    if i < n - 1 {
      SegAt(parts, reqs, n - 1, i);
      assert b[..SEG_ENTRY * (n - 1)] == SegTable(parts, reqs, n - 1);
      assert b[SEG_ENTRY * i..SEG_ENTRY * i + SEG_ENTRY]
          == b[..SEG_ENTRY * (n - 1)][SEG_ENTRY * i..SEG_ENTRY * i + SEG_ENTRY];
    }
  }

  lemma {:induction false} CapAt(reqs: seq<Req>, i: nat)
    requires i < |reqs|
    ensures CapTable(reqs)[CAP_ENTRY * i..CAP_ENTRY * i + CAP_ENTRY] == CapBytes(reqs[i])
  {
    hide CapBytes;
    var b, n := CapTable(reqs), |reqs|;
    if i < n - 1 {
      CapAt(reqs[..n - 1], i);
      assert b[..CAP_ENTRY * (n - 1)] == CapTable(reqs[..n - 1]);
      assert b[CAP_ENTRY * i..CAP_ENTRY * i + CAP_ENTRY]
          == b[..CAP_ENTRY * (n - 1)][CAP_ENTRY * i..CAP_ENTRY * i + CAP_ENTRY];
    }
  }

  lemma AreaStep(parts: seq<Part>, reqs: seq<Req>, n: nat)
    requires 0 < n <= |parts|
    ensures var a, b, d := Area(parts, reqs, n - 1), Area(parts, reqs, n), parts[n - 1].data;
      |a| + |d| <= |b| && b[..|a|] == a && b[|a|..|a| + |d|] == d
  {
    hide Place, Round16;
    var a, b, d := Area(parts, reqs, n - 1), Area(parts, reqs, n), parts[n - 1].data;
    if d == [] {
      assert b[..|a|] == a;
    } else {
      var z := b[|a| + |d|..];
      assert b == a + d + z;
    }
  }

  lemma {:induction false} DataAt(parts: seq<Part>, reqs: seq<Req>, n: nat, i: nat)
    requires i < n <= |parts|
    ensures var o := Place(parts, reqs, i) - Place(parts, reqs, 0);
      0 <= o && o + |parts[i].data| <= |Area(parts, reqs, n)|
      && Area(parts, reqs, n)[o..o + |parts[i].data|] == parts[i].data
  {
    hide Area, Place;
    var a, b := Area(parts, reqs, n - 1), Area(parts, reqs, n);
    AreaStep(parts, reqs, n);
    if i < n - 1 {
      DataAt(parts, reqs, n - 1, i);
      var o, d := Place(parts, reqs, i) - Place(parts, reqs, 0), parts[i].data;
      assert b[o..o + |d|] == b[..|a|][o..o + |d|];
    }
  }

  lemma PutField(v: nat, w: nat, p: seq<byte>, o: nat)
    requires v < Pow256(w) && o + w <= |p| && p[o..o + w] == Put(v, w)
    ensures Field(p, o, w) == v
  {
    GetPut(v, w);
  }

  lemma TailIs(head: seq<byte>, tail: seq<byte>)
    ensures (head + tail)[|head|..|head| + |tail|] == tail
  {
  }

  lemma SegFields(p: Part, off: nat)
    requires p.vaddr < U64 && p.mem < U64 && off < U32 && |p.data| < U32 && p.flags < U32
    ensures var b := SegBytes(p, off);
      && Field(b, 0, 8) == p.vaddr && Field(b, 8, 8) == p.mem && Field(b, 16, 4) == off
      && Field(b, 20, 4) == |p.data| && Field(b, 24, 4) == p.flags && Field(b, 28, 4) == 0
  {
    hide Put, Get, Field;
    var b := SegBytes(p, off);
    Powers();
    var head := Put(p.vaddr, 8) + Put(p.mem, 8) + Put(off, 4) + Put(|p.data|, 4) + Put(p.flags, 4);
    assert b == head + Put(0, 4);
    TailIs(head, Put(0, 4));
    PutField(p.vaddr, 8, b, 0);
    PutField(p.mem, 8, b, 8);
    PutField(off, 4, b, 16);
    PutField(|p.data|, 4, b, 20);
    PutField(p.flags, 4, b, 24);
    PutField(0, 4, b, 28);
  }

  lemma CapFields(r: Req)
    requires r.kind < U32 && r.value < U64
    ensures var b := CapBytes(r); Field(b, 0, 4) == r.kind && Field(b, 4, 4) == 0 && Field(b, 8, 8) == r.value
  {
    hide Put, Get, Field;
    var b := CapBytes(r);
    Powers();
    PutField(r.kind, 4, b, 0);
    PutField(0, 4, b, 4);
    PutField(r.value, 8, b, 8);
  }

  lemma HeaderFields(parts: seq<Part>, reqs: seq<Req>, entry: nat, total: nat, crc: seq<byte>)
    requires |crc| == 4 && |parts| < U32 && |reqs| < U32 && entry < U64 && total < U32
    requires CapOffset(parts, reqs) < U32
    ensures var b := Header(parts, reqs, entry, total, crc);
      && b[0] == 0x7F && b[1] == 0x45 && b[2] == 0x58 && b[3] == 0x42 && b[4] == 1 && b[5] == 1
      && Field(b, 6, 2) == HEADER && Field(b, 8, 4) == 0 && Field(b, 12, 4) == 1 && Field(b, 16, 8) == entry
      && Field(b, 24, 4) == total && b[28..32] == crc && Field(b, 32, 4) == HEADER && Field(b, 36, 4) == |parts|
      && Field(b, 40, 4) == CapOffset(parts, reqs) && Field(b, 44, 4) == |reqs|
      && forall i :: 48 <= i < 64 ==> b[i] == 0
  {
    hide Put, Get, Field, CapOffset;
    var b := Header(parts, reqs, entry, total, crc);
    Powers();
    PutField(HEADER, 2, b, 6);
    PutField(0, 4, b, 8);
    PutField(1, 4, b, 12);
    PutField(entry, 8, b, 16);
    PutField(total, 4, b, 24);
    PutField(HEADER, 4, b, 32);
    PutField(|parts|, 4, b, 36);
    PutField(CapOffset(parts, reqs), 4, b, 40);
    PutField(|reqs|, 4, b, 44);
  }

  /** The pieces of an image, by place. */
  lemma Pieces(parts: seq<Part>, reqs: seq<Req>, entry: nat, crc: seq<byte>)
    requires |crc| == 4
    ensures var img := Body(parts, reqs, entry, crc);
      var c := HEADER + SEG_ENTRY * |parts|;
      && TablesEnd(parts, reqs) <= Place(parts, reqs, 0) <= |img|
      && img[..HEADER] == Header(parts, reqs, entry, |img|, crc)
      && img[HEADER..c] == SegTable(parts, reqs, |parts|)
      && img[c..TablesEnd(parts, reqs)] == CapTable(reqs)
      && img[Place(parts, reqs, 0)..] == Area(parts, reqs, |parts|)
  {
    hide Header, SegTable, CapTable, Area, Round16;
    PlaceGrows(parts, reqs, 0, |parts|);
    var img := Body(parts, reqs, entry, crc);
    var c, e, z := HEADER + SEG_ENTRY * |parts|, TablesEnd(parts, reqs), Place(parts, reqs, 0);
    var t := Tail(parts, reqs);
    assert img[HEADER..] == t;
    assert t[..c - HEADER] == SegTable(parts, reqs, |parts|);
    assert t[c - HEADER..e - HEADER] == CapTable(reqs);
    assert t[z - HEADER..] == Area(parts, reqs, |parts|);
    assert img[HEADER..c] == t[..c - HEADER];
    assert img[c..e] == t[c - HEADER..e - HEADER];
    assert img[z..] == t[z - HEADER..];
  }

  function Laid(parts: seq<Part>, reqs: seq<Req>): Tables {
    Tables(HEADER, |parts|, CapOffset(parts, reqs), |reqs|)
  }

  lemma LaidFits(parts: seq<Part>, reqs: seq<Req>)
    ensures SegEnd(Laid(parts, reqs)) <= TablesEnd(parts, reqs) && CapEnd(Laid(parts, reqs)) <= TablesEnd(parts, reqs)
    ensures TablesEnd(parts, reqs) <= Place(parts, reqs, 0) <= Place(parts, reqs, |parts|)
  {
    PlaceGrows(parts, reqs, 0, |parts|);
  }

  lemma ReadsHeader(parts: seq<Part>, reqs: seq<Req>, entry: nat)
    requires Typed(parts, reqs, entry)
    ensures var img := Image(parts, reqs, entry);
      && |img| == Place(parts, reqs, |parts|) >= HEADER
      && HeaderStatus(img) == (if |img| > MAX_FILE then ESize else ExbOk)
      && TablesOf(img) == Laid(parts, reqs) && F64(img, 16) == entry
  {
    hide Header, Place, Get, Field, Body, Masked, Crc32, Put, TablesEnd;
    var crc := Crc32(Masked(Body(parts, reqs, entry, Zeros(4))));
    var img := Body(parts, reqs, entry, Put(crc, 4));
    LaidFits(parts, reqs);
    Overlaid(parts, reqs, entry, Zeros(4), Put(crc, 4));
    Pieces(parts, reqs, entry, Put(crc, 4));
    OffsetSmall(parts, reqs);
    HeaderFields(parts, reqs, entry, |img|, Put(crc, 4));
    FromHeader(img, Header(parts, reqs, entry, |img|, Put(crc, 4)));
    Powers();
    PutField(crc, 4, img, 28);
  }

  lemma OffsetSmall(parts: seq<Part>, reqs: seq<Req>)
    requires Place(parts, reqs, |parts|) < U32
    ensures CapOffset(parts, reqs) < U32 && HEADER <= TablesEnd(parts, reqs)
  {
    LaidFits(parts, reqs);
  }

  /** Header fields read from the image are those of its first 64 bytes. */
  lemma FromHeader(img: seq<byte>, h: seq<byte>)
    requires |img| >= HEADER == |h| && img[..HEADER] == h
    ensures forall i :: 0 <= i < HEADER ==> img[i] == h[i]
    ensures forall o, w :: 0 <= o && 0 <= w && o + w <= HEADER ==> Field(img, o, w) == Field(h, o, w)
    ensures img[28..32] == h[28..32]
  {
    forall i | 0 <= i < HEADER
      ensures img[i] == h[i]
    {
      assert img[..HEADER][i] == img[i];
    }
    forall o: nat, w: nat | o + w <= HEADER
      ensures Field(img, o, w) == Field(h, o, w)
    {
      FieldIn(img, 0, HEADER, o, w);
      assert img[0..HEADER] == h;
    }
  }

  lemma ReadsSeg(parts: seq<Part>, reqs: seq<Req>, entry: nat, i: nat)
    requires Typed(parts, reqs, entry) && i < |parts|
    ensures var img, t := Image(parts, reqs, entry), Laid(parts, reqs);
      SegEnd(t) <= |img| && RawSeg(img, t, i) == SegOf(parts, reqs, i) && SegPad(img, t, i) == 0
  {
    hide Header, Place, Get, Field, Body, Masked, Crc32, Put, TablesEnd, SegTable, SegBytes;
    LaidFits(parts, reqs);
    var crc := Crc32(Masked(Body(parts, reqs, entry, Zeros(4))));
    var img := Body(parts, reqs, entry, Put(crc, 4));
    Pieces(parts, reqs, entry, Put(crc, 4));
    SegAt(parts, reqs, |parts|, i);
    PlaceGrows(parts, reqs, i, |parts|);
    SegFields(parts[i], OffsetOf(parts, reqs, i));
    var p := HEADER + SEG_ENTRY * i;
    SliceOfSlice(img, HEADER, HEADER + SEG_ENTRY * |parts|, SEG_ENTRY * i, SEG_ENTRY);
    assert img[p..p + SEG_ENTRY] == SegBytes(parts[i], OffsetOf(parts, reqs, i));
    FieldIn(img, p, p + SEG_ENTRY, p, 8);
    FieldIn(img, p, p + SEG_ENTRY, p + 8, 8);
    FieldIn(img, p, p + SEG_ENTRY, p + 16, 4);
    FieldIn(img, p, p + SEG_ENTRY, p + 20, 4);
    FieldIn(img, p, p + SEG_ENTRY, p + 24, 4);
    FieldIn(img, p, p + SEG_ENTRY, p + 28, 4);
  }

  lemma SliceOfSlice(img: seq<byte>, a: nat, b: nat, o: nat, w: nat)
    requires a <= b <= |img| && a + o + w <= b
    ensures img[a..b][o..o + w] == img[a + o..a + o + w]
  {
    var s := img[a..b];
    var x, y := s[o..o + w], img[a + o..a + o + w];
    forall k | 0 <= k < w
      ensures x[k] == y[k]
    {
      assert s[o + k] == img[a + (o + k)];
    }
    assert x == y;
  }

  lemma ReadsCap(parts: seq<Part>, reqs: seq<Req>, entry: nat, i: nat)
    requires Typed(parts, reqs, entry) && i < |reqs|
    ensures var img, t := Image(parts, reqs, entry), Laid(parts, reqs);
      CapEnd(t) <= |img| && RawCap(img, t, i) == CapOf(reqs[i])
  {
    hide Header, Place, Get, Field, Body, Masked, Crc32, Put, CapTable, CapBytes;
    LaidFits(parts, reqs);
    var crc := Crc32(Masked(Body(parts, reqs, entry, Zeros(4))));
    var img := Body(parts, reqs, entry, Put(crc, 4));
    Pieces(parts, reqs, entry, Put(crc, 4));
    CapAt(reqs, i);
    CapFields(reqs[i]);
    var c := HEADER + SEG_ENTRY * |parts|;
    var p := c + CAP_ENTRY * i;
    SliceOfSlice(img, c, c + CAP_ENTRY * |reqs|, CAP_ENTRY * i, CAP_ENTRY);
    assert img[p..p + CAP_ENTRY] == CapBytes(reqs[i]);
    FieldIn(img, p, p + CAP_ENTRY, p, 4);
    FieldIn(img, p, p + CAP_ENTRY, p + 4, 4);
    FieldIn(img, p, p + CAP_ENTRY, p + 8, 8);
  }

  /** Each part's bytes are in the file where its entry says. */
  lemma ReadsData(parts: seq<Part>, reqs: seq<Req>, entry: nat, i: nat)
    requires i < |parts| && parts[i].data != []
    ensures var img, o := Image(parts, reqs, entry), OffsetOf(parts, reqs, i);
      o + |parts[i].data| <= |img| && img[o..o + |parts[i].data|] == parts[i].data
  {
    hide Header, Place, Area, Body, Masked, Crc32, Put, TablesEnd;
    var crc := Crc32(Masked(Body(parts, reqs, entry, Zeros(4))));
    var img := Body(parts, reqs, entry, Put(crc, 4));
    Pieces(parts, reqs, entry, Put(crc, 4));
    DataAt(parts, reqs, |parts|, i);
    var z := Place(parts, reqs, 0);
    SliceOfSlice(img, z, |img|, Place(parts, reqs, i) - z, |parts[i].data|);
    assert img[z..|img|] == img[z..];
  }

  // ---- packing and parsing are inverse ----

  predicate PartOk(p: Part) {
    && p.flags in {1, 3, 5}
    && p.vaddr % PAGE == 0 && VA_MIN <= p.vaddr && p.vaddr + PagesOf(p.mem) * PAGE <= VA_LIMIT
    && 0 < p.mem <= MAX_BYTES && |p.data| <= p.mem
  }

  predicate Apart(p: Part, q: Part) {
    !Overlap(p.vaddr, p.vaddr + PagesOf(p.mem) * PAGE, q.vaddr, q.vaddr + PagesOf(q.mem) * PAGE)
  }

  function SegsOf(parts: seq<Part>, reqs: seq<Req>): (r: seq<Seg>)
    ensures |r| == |parts| && forall i :: 0 <= i < |parts| ==> r[i] == SegOf(parts, reqs, i)
  {
    seq(|parts|, i requires 0 <= i < |parts| => SegOf(parts, reqs, i))
  }

  /** A program the format can hold. */
  ghost predicate Packable(parts: seq<Part>, reqs: seq<Req>, entry: nat) {
    && 1 <= |parts| <= MAX_SEGS && |reqs| <= MAX_CAPS && Place(parts, reqs, |parts|) <= MAX_FILE
    && (forall i :: 0 <= i < |parts| ==> PartOk(parts[i]))
    && (forall i, j :: 0 <= j < i < |parts| ==> Apart(parts[i], parts[j]))
    && PageSum(SegsOf(parts, reqs)) <= MAX_PAGES
    && (exists i :: 0 <= i < |parts| && Exb.Holds(SegOf(parts, reqs, i), entry))
    && (forall i :: 0 <= i < |reqs| ==> CapOk(CapOf(reqs[i])))
    && (forall i, j :: 0 <= j < i < |reqs| && Base(CapOf(reqs[i])) <= 3 ==> Base(CapOf(reqs[i])) != Base(CapOf(reqs[j])))
  }

  /** The value asked for under a base kind, or a default. */
  function Asked(reqs: seq<Req>, base: nat, default: nat): nat {
    if reqs == [] then default
    else if Base(CapOf(reqs[|reqs| - 1])) == base then reqs[|reqs| - 1].value
    else Asked(reqs[..|reqs| - 1], base, default)
  }

  lemma SegOkIsPartOk(parts: seq<Part>, reqs: seq<Req>, entry: nat, i: nat)
    requires Typed(parts, reqs, entry) && i < |parts|
    ensures SegEnd(Laid(parts, reqs)) <= |Image(parts, reqs, entry)|
    ensures SegOk(Image(parts, reqs, entry), Laid(parts, reqs), i) <==> PartOk(parts[i])
  {
    hide Image, RawSeg, SegPad, Place;
    ReadsHeader(parts, reqs, entry);
    ReadsSeg(parts, reqs, entry, i);
    LaidFits(parts, reqs);
    PlaceGrows(parts, reqs, 0, i);
    PlaceGrows(parts, reqs, i, |parts|);
  }

  lemma ClashIsOverlap(parts: seq<Part>, reqs: seq<Req>, i: nat, j: nat)
    requires j < i < |parts|
    ensures Clash(SegOf(parts, reqs, i), SegOf(parts, reqs, j)) <==> !Apart(parts[i], parts[j])
  {
    hide Place;
    PlaceGrows(parts, reqs, j, i);
  }

  lemma SegmentsBack(parts: seq<Part>, reqs: seq<Req>, entry: nat)
    requires Typed(parts, reqs, entry)
    ensures var img, t := Image(parts, reqs, entry), Laid(parts, reqs);
      && SegEnd(t) <= |img|
      && SegList(img, t, t.segCnt) == SegsOf(parts, reqs)
      && (SegmentsGood(img, t) <==>
            && (forall i :: 0 <= i < |parts| ==> PartOk(parts[i]))
            && (forall i, j :: 0 <= j < i < |parts| ==> Apart(parts[i], parts[j]))
            && PageSum(SegsOf(parts, reqs)) <= MAX_PAGES)
  {
    hide Image, RawSeg, SegOk, PartOk, Clash, Apart, PageSum, Typed, Place;
    ReadsHeader(parts, reqs, entry);
    LaidFits(parts, reqs);
    var img, t := Image(parts, reqs, entry), Laid(parts, reqs);
    forall i | 0 <= i < |parts|
      ensures RawSeg(img, t, i) == SegOf(parts, reqs, i) && (SegOk(img, t, i) <==> PartOk(parts[i]))
    {
      ReadsSeg(parts, reqs, entry, i);
      SegOkIsPartOk(parts, reqs, entry, i);
    }
    forall i, j | 0 <= j < i < |parts|
      ensures Clash(RawSeg(img, t, i), RawSeg(img, t, j)) <==> !Apart(parts[i], parts[j])
    {
      ClashIsOverlap(parts, reqs, i, j);
    }
    assert SegList(img, t, t.segCnt) == SegsOf(parts, reqs);
  }

  lemma CapsBack(parts: seq<Part>, reqs: seq<Req>, entry: nat)
    requires Typed(parts, reqs, entry)
    ensures var img, t := Image(parts, reqs, entry), Laid(parts, reqs);
      && CapEnd(t) <= |img|
      && (CapsGood(img, t) <==>
            && (forall i :: 0 <= i < |reqs| ==> CapOk(CapOf(reqs[i])))
            && (forall i, j :: 0 <= j < i < |reqs| && Base(CapOf(reqs[i])) <= 3 ==>
                  Base(CapOf(reqs[i])) != Base(CapOf(reqs[j]))))
  {
    hide Image, RawCap, CapOk, Typed, Place, Base, CapOf;
    ReadsHeader(parts, reqs, entry);
    LaidFits(parts, reqs);
    var img, t := Image(parts, reqs, entry), Laid(parts, reqs);
    forall i | 0 <= i < |reqs|
      ensures RawCap(img, t, i) == CapOf(reqs[i])
    {
      ReadsCap(parts, reqs, entry, i);
    }
  }

  lemma LaidStatus(parts: seq<Part>, reqs: seq<Req>)
    ensures TablesStatus(Laid(parts, reqs), Place(parts, reqs, |parts|)) == ExbOk
      <==> 1 <= |parts| <= MAX_SEGS && |reqs| <= MAX_CAPS
  {
    hide Place;
    LaidFits(parts, reqs);
  }

  lemma UserAccepted(parts: seq<Part>, reqs: seq<Req>, entry: nat)
    requires Typed(parts, reqs, entry)
    ensures StatusOf(Image(parts, reqs, entry)) == ExbOk <==> Packable(parts, reqs, entry)
  {
    hide Image, Typed, Place, SegmentsGood, CapsGood, HeaderStatus, StatusOf, TablesStatus, PartOk, Apart, CapOk, RawSeg,
         PageSum, Exb.Holds, HeaderOk, TablesOk;
    var img, t := Image(parts, reqs, entry), Laid(parts, reqs);
    PassesExactly(img);
    HeaderExactly(img);
    ReadsHeader(parts, reqs, entry);
    LaidFits(parts, reqs);
    LaidStatus(parts, reqs);
    TablesExactly(t, |img|);
    SegmentsBack(parts, reqs, entry);
    CapsBack(parts, reqs, entry);
    forall i | 0 <= i < |parts|
      ensures RawSeg(img, t, i) == SegOf(parts, reqs, i)
    {
      ReadsSeg(parts, reqs, entry, i);
    }
  }

  /** The validator accepts a packed file exactly when it is a user program the format can hold. */
  lemma PackedAccepted(parts: seq<Part>, reqs: seq<Req>, entry: nat, kind: byte)
    requires Typed(parts, reqs, entry)
    ensures StatusOf(Image(parts, reqs, entry, kind)) == ExbOk <==> kind == 0 && Packable(parts, reqs, entry)
  {
    hide Typed, Packable, StatusOf, HeaderStatus;
    if kind == 0 {
      UserAccepted(parts, reqs, entry);
    } else {
      KindRefused(parts, reqs, entry, kind);
    }
  }

  lemma KindRefused(parts: seq<Part>, reqs: seq<Req>, entry: nat, kind: byte)
    requires kind != 0
    ensures StatusOf(Image(parts, reqs, entry, kind)) != ExbOk
  {
    hide StatusOf, HeaderStatus, Crc32, Masked, Put, Tail, Place, SegmentsGood, CapsGood, TablesOk;
    var img := Image(parts, reqs, entry, kind);
    assert img[48] == kind;
    PassesExactly(img);
  }

  lemma {:induction false} WantsBack(parts: seq<Part>, reqs: seq<Req>, entry: nat, before: Info, n: nat)
    requires Typed(parts, reqs, entry) && n <= |reqs| && CapEnd(Laid(parts, reqs)) <= |Image(parts, reqs, entry)|
    requires WantsOf(Image(parts, reqs, entry), Laid(parts, reqs), before, n).ok
    ensures var w := WantsOf(Image(parts, reqs, entry), Laid(parts, reqs), before, n);
      && w.stack == Asked(reqs[..n], 1, DEFAULT_STACK)
      && w.heap == Asked(reqs[..n], 2, before.heapFrames)
      && w.tokens == Asked(reqs[..n], 3, before.extraTokens)
  {
    hide Image, RawCap, Base, CapOf, Typed;
    if n > 0 {
      WantsBack(parts, reqs, entry, before, n - 1);
      ReadsCap(parts, reqs, entry, n - 1);
      assert reqs[..n][..n - 1] == reqs[..n - 1];
      CapValue(reqs[n - 1]);
    }
  }

  lemma CapValue(r: Req)
    ensures CapOf(r).value == r.value
  {
  }

  /** Parsing a packed program gives back its segments, entry point and requests, and the file holds its bytes. */
  lemma ParseInvertsPack(parts: seq<Part>, reqs: seq<Req>, entry: nat, before: Info)
    requires Typed(parts, reqs, entry) && Packable(parts, reqs, entry)
    ensures var img := Image(parts, reqs, entry);
      && StatusOf(img) == ExbOk && |img| >= HEADER && TablesFit(TablesOf(img), |img|)
      && InfoOf(img, before)
         == Info(entry, SegsOf(parts, reqs), PageSum(SegsOf(parts, reqs)), Asked(reqs, 1, DEFAULT_STACK),
                 Asked(reqs, 2, before.heapFrames), Asked(reqs, 3, before.extraTokens))
      && forall i :: 0 <= i < |parts| && parts[i].data != [] ==>
           var s := SegOf(parts, reqs, i);
           s.off + s.size <= |img| && img[s.off..s.off + s.size] == parts[i].data
  {
    hide Image, Typed, Packable, Place, StatusOf, HeaderStatus, WantsOf, PageSum, SegsOf;
    var img, t := Image(parts, reqs, entry), Laid(parts, reqs);
    UserAccepted(parts, reqs, entry);
    OkFits(img);
    ReadsHeader(parts, reqs, entry);
    SegmentsBack(parts, reqs, entry);
    CapsBack(parts, reqs, entry);
    WantsGranted(img, before);
    WantsBack(parts, reqs, entry, before, |reqs|);
    assert reqs[..|reqs|] == reqs;
    forall i | 0 <= i < |parts| && parts[i].data != []
      ensures var s := SegOf(parts, reqs, i);
        s.off + s.size <= |img| && img[s.off..s.off + s.size] == parts[i].data
    {
      ReadsData(parts, reqs, entry, i);
    }
  }

  lemma WantsGranted(img: seq<byte>, before: Info)
    requires StatusOf(img) == ExbOk
    ensures |img| >= HEADER && CapEnd(TablesOf(img)) <= |img| && WantsOf(img, TablesOf(img), before, TablesOf(img).capCnt).ok
  {
    hide HeaderStatus, WantsOf, SegsStatus;
    OkFits(img);
    BeforeOnly(img, TablesOf(img), before, TablesOf(img).capCnt);
  }

  /** Without requests the record's heap and token fields come out as they went in. */
  lemma NoRequests(parts: seq<Part>, entry: nat, before: Info)
    requires Typed(parts, [], entry) && Packable(parts, [], entry)
    ensures StatusOf(Image(parts, [], entry)) == ExbOk
    ensures var img := Image(parts, [], entry);
      && |img| >= HEADER && TablesFit(TablesOf(img), |img|)
      && InfoOf(img, before).heapFrames == before.heapFrames && InfoOf(img, before).extraTokens == before.extraTokens
  {
    hide Typed, Packable, Image, StatusOf, InfoOf;
    ParseInvertsPack(parts, [], entry, before);
  }

  /** One byte of code at the lowest address. */
  const TINY: seq<Part> := [Part(VA_MIN, 1, 5, [0xC3])]

  lemma TinyPacks()
    ensures Typed(TINY, [], VA_MIN) && Packable(TINY, [], VA_MIN)
    ensures SegsOf(TINY, []) == [Seg(VA_MIN, 1, 1, 96, 1, 5)] && PageSum(SegsOf(TINY, [])) == 1
  {
    assert Place(TINY, [], 1) == 112;
    assert SegOf(TINY, [], 0) == Seg(VA_MIN, 1, 1, 96, 1, 5);
    assert SegsOf(TINY, [])[..0] == [];
    assert Exb.Holds(SegOf(TINY, [], 0), VA_MIN);
  }

  /** An accepted image whose result depends on what the record held. */
  lemma StaleRequests()
    ensures var img := Image(TINY, [], VA_MIN);
      && StatusOf(img) == ExbOk && |img| >= HEADER && TablesFit(TablesOf(img), |img|)
      && InfoOf(img, ZEROED.(heapFrames := 7)) != InfoOf(img, ZEROED)
  {
    hide Typed, Packable, Image, StatusOf, InfoOf;
    TinyPacks();
    NoRequests(TINY, VA_MIN, ZEROED);
    NoRequests(TINY, VA_MIN, ZEROED.(heapFrames := 7));
  }
}
