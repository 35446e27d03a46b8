/** Executable images (.exb, version 1): what the validator accepts and what it reports. */
module Exb {
  import opened Bytes
  import opened Crc

  const HEADER: nat := 64
  const SEG_ENTRY: nat := 32
  const CAP_ENTRY: nat := 16
  const PAGE: nat := 4096
  const MAX_FILE: nat := 16 * 1024 * 1024
  const MAX_SEGS: nat := 8
  const MAX_CAPS: nat := 8
  const MAX_PAGES: nat := 4096
  const MAX_BYTES: nat := 16777216
  const DEFAULT_STACK: nat := 16384
  const MAX_STACK: nat := 262144
  const MAX_HEAP: nat := 1048576
  const MAX_TOKENS: nat := 4096
  const VA_MIN: nat := 0x80_0000_0000
  const VA_LIMIT: nat := 0x7000_0000_0000
  const OPTIONAL: nat := 0x8000_0000

  datatype Status =
    | ExbOk | ESize | EMagic | EVersion | EHeader | ETarget | ECrc | ESegTab | ESeg | EWx | EOverlap | EEntry | ECap
    | ELimit | EKind

  datatype Seg = Seg(vaddr: nat, mem: nat, pages: nat, off: nat, size: nat, flags: nat)

  datatype Info = Info(entry: nat, segs: seq<Seg>, imagePages: nat, stackBytes: nat, heapFrames: nat, extraTokens: nat)

  const ZEROED: Info := Info(0, [], 0, 0, 0, 0)

  function F16(p: seq<byte>, o: nat): nat requires o + 2 <= |p| { Field(p, o, 2) }

  function F32(p: seq<byte>, o: nat): nat requires o + 4 <= |p| { Field(p, o, 4) }

  function F64(p: seq<byte>, o: nat): nat requires o + 8 <= |p| { Field(p, o, 8) }

  predicate Overlap(a0: nat, a1: nat, b0: nat, b1: nat) {
    a0 < b1 && b0 < a1
  }

  predicate In(lo: nat, hi: nat, b: nat) {
    lo <= b < hi
  }

  predicate Writable(flags: nat) {
    flags / 2 % 2 == 1
  }

  predicate Executable(flags: nat) {
    flags / 4 % 2 == 1
  }

  function PagesOf(mem: nat): nat {
    (mem + PAGE - 1) / PAGE
  }

  // ---- header ----

  /** The tables' places and sizes, as the header gives them. */
  datatype Tables = Tables(segOff: nat, segCnt: nat, capOff: nat, capCnt: nat)

  function TablesOf(img: seq<byte>): Tables
    requires |img| >= HEADER
  {
    Tables(F32(img, 32), F32(img, 36), F32(img, 40), F32(img, 44))
  }

  function SegEnd(t: Tables): nat {
    t.segOff + t.segCnt * SEG_ENTRY
  }

  function CapEnd(t: Tables): nat {
    t.capOff + t.capCnt * CAP_ENTRY
  }

  function HeaderStatus(img: seq<byte>): Status {
    if |img| < HEADER || |img| > MAX_FILE then ESize
    else if img[0] != 0x7F || img[1] != 0x45 || img[2] != 0x58 || img[3] != 0x42 then EMagic
    else if img[4] != 1 || img[5] != 1 then EVersion
    else if F16(img, 6) != HEADER || F32(img, 8) != 0 || (exists i :: 49 <= i < 64 && img[i] != 0) then EHeader
    else if img[48] != 0 then EKind
    else if F32(img, 12) != 1 then ETarget
    else if F32(img, 24) != |img| then ESize
    else if F32(img, 28) != Crc32(Masked(img)) then ECrc
    else ExbOk
  }

  function TablesStatus(t: Tables, size: nat): Status {
    if t.segCnt < 1 || t.segCnt > MAX_SEGS || t.segOff < HEADER || SegEnd(t) > size then ESegTab
    else if t.capCnt > MAX_CAPS then ECap
    else if t.capCnt == 0 then (if t.capOff != 0 then ECap else ExbOk)
    else if t.capOff < HEADER || CapEnd(t) > size then ECap
    else if Overlap(t.segOff, SegEnd(t), t.capOff, CapEnd(t)) then EOverlap
    else ExbOk
  }

  predicate TablesFit(t: Tables, size: nat) {
    HEADER <= t.segOff && SegEnd(t) <= size && t.segCnt <= MAX_SEGS && CapEnd(t) <= size && t.capCnt <= MAX_CAPS
  }

  // ---- segments ----

  function RawSeg(img: seq<byte>, t: Tables, i: nat): Seg
    requires i < t.segCnt && SegEnd(t) <= |img|
  {
    var p := t.segOff + i * SEG_ENTRY;
    Seg(F64(img, p), F64(img, p + 8), PagesOf(F64(img, p + 8)), F32(img, p + 16), F32(img, p + 20), F32(img, p + 24))
  }

  function SegPad(img: seq<byte>, t: Tables, i: nat): nat
    requires i < t.segCnt && SegEnd(t) <= |img|
  {
    F32(img, t.segOff + i * SEG_ENTRY + 28)
  }

  function VEnd(s: Seg): nat {
    s.vaddr + s.pages * PAGE
  }

  /** One segment by itself. */
  function LocalStatus(s: Seg, pad: nat, t: Tables, size: nat): Status {
    if pad != 0 || s.flags >= 8 || s.flags % 2 == 0 then ESeg
    else if Writable(s.flags) && Executable(s.flags) then EWx
    else if s.vaddr % PAGE != 0 || s.vaddr < VA_MIN || s.vaddr >= VA_LIMIT then ESeg
    else if s.mem == 0 || s.mem > MAX_BYTES || VEnd(s) > VA_LIMIT || s.size > s.mem then ESeg
    else if s.size == 0 then (if s.off != 0 then ESeg else ExbOk)
    else if s.off < HEADER || s.off + s.size > size then ESeg
    else if Overlap(s.off, s.off + s.size, t.segOff, SegEnd(t)) then EOverlap
    else if t.capCnt != 0 && Overlap(s.off, s.off + s.size, t.capOff, CapEnd(t)) then EOverlap
    else ExbOk
  }

  /** Two segments that meet in memory or in the file. */
  predicate Clash(s: Seg, r: Seg) {
    || Overlap(s.vaddr, VEnd(s), r.vaddr, VEnd(r))
    || (s.size != 0 && r.size != 0 && Overlap(s.off, s.off + s.size, r.off, r.off + r.size))
  }

  function SegList(img: seq<byte>, t: Tables, n: nat): (r: seq<Seg>)
    requires n <= t.segCnt && SegEnd(t) <= |img|
    ensures |r| == n && forall i :: 0 <= i < n ==> r[i] == RawSeg(img, t, i)
  {
    if n == 0 then [] else SegList(img, t, n - 1) + [RawSeg(img, t, n - 1)]
  }

  function PageSum(s: seq<Seg>): nat {
    if s == [] then 0 else PageSum(s[..|s| - 1]) + s[|s| - 1].pages
  }

  /** The first complaint about segments 0..n, in file order. */
  function SegsStatus(img: seq<byte>, t: Tables, n: nat): Status
    requires n <= t.segCnt && SegEnd(t) <= |img|
  {
    if n == 0 then ExbOk
    else
      var before := SegsStatus(img, t, n - 1);
      var s := RawSeg(img, t, n - 1);
      var local := LocalStatus(s, SegPad(img, t, n - 1), t, |img|);
      if before != ExbOk then before
      else if local != ExbOk then local
      else if PageSum(SegList(img, t, n)) > MAX_PAGES then ELimit
      else if exists j :: 0 <= j < n - 1 && Clash(s, RawSeg(img, t, j)) then EOverlap
      else ExbOk
  }

  predicate Holds(s: Seg, entry: nat) {
    Executable(s.flags) && s.vaddr <= entry && entry - s.vaddr < s.size
  }

  // ---- capabilities ----

  datatype Cap = Cap(kind: nat, pad: nat, value: nat)

  /** What the capabilities seen so far ask for. */
  datatype Wants = Wants(ok: bool, stack: nat, heap: nat, tokens: nat, seenStack: bool, seenHeap: bool, seenTokens: bool)

  function RawCap(img: seq<byte>, t: Tables, i: nat): Cap
    requires i < t.capCnt && CapEnd(t) <= |img|
  {
    var p := t.capOff + i * CAP_ENTRY;
    Cap(F32(img, p), F32(img, p + 4), F64(img, p + 8))
  }

  function Base(c: Cap): nat {
    c.kind % OPTIONAL
  }

  function AddCap(w: Wants, c: Cap): Wants {
    if c.pad != 0 || Base(c) == 0 then w.(ok := false)
    else if Base(c) == 1 then
      if w.seenStack || c.value % PAGE != 0 || c.value < PAGE || c.value > MAX_STACK then w.(ok := false)
      else w.(stack := c.value, seenStack := true)
    else if Base(c) == 2 then
      if w.seenHeap || c.value > MAX_HEAP then w.(ok := false) else w.(heap := c.value, seenHeap := true)
    else if Base(c) == 3 then
      if w.seenTokens || c.value > MAX_TOKENS then w.(ok := false) else w.(tokens := c.value, seenTokens := true)
    else if c.kind < OPTIONAL then w.(ok := false)
    else w
  }

  /** `before` is what the caller's record held: requests that are not made keep it. */
  function WantsOf(img: seq<byte>, t: Tables, before: Info, n: nat): Wants
    requires n <= t.capCnt && CapEnd(t) <= |img|
  {
    if n == 0 then Wants(true, DEFAULT_STACK, before.heapFrames, before.extraTokens, false, false, false)
    else
      var w := WantsOf(img, t, before, n - 1);
      if w.ok then AddCap(w, RawCap(img, t, n - 1)) else w
  }

  // ---- the whole image ----

  function StatusOf(img: seq<byte>): Status {
    var h := HeaderStatus(img);
    if h != ExbOk then h
    else
      var t := TablesOf(img);
      var ts := TablesStatus(t, |img|);
      if ts != ExbOk then ts
      else
        var ss := SegsStatus(img, t, t.segCnt);
        if ss != ExbOk then ss
        else if !(exists i :: 0 <= i < t.segCnt && Holds(RawSeg(img, t, i), F64(img, 16))) then EEntry
        else if CapEnd(t) <= |img| && WantsOf(img, t, ZEROED, t.capCnt).ok then ExbOk
        else ECap
  }

  function InfoOf(img: seq<byte>, before: Info): Info
    requires |img| >= HEADER && TablesFit(TablesOf(img), |img|)
  {
    var t := TablesOf(img);
    var w := WantsOf(img, t, before, t.capCnt);
    var segs := SegList(img, t, t.segCnt);
    Info(F64(img, 16), segs, PageSum(segs), w.stack, w.heap, w.tokens)
  }

  lemma OkFits(img: seq<byte>)
    requires StatusOf(img) == ExbOk
    ensures |img| >= HEADER && TablesFit(TablesOf(img), |img|)
  {
    hide HeaderStatus, SegsStatus, WantsOf;
    HeaderLength(img);
  }

  lemma HeaderLength(img: seq<byte>)
    requires HeaderStatus(img) == ExbOk
    ensures HEADER <= |img| <= MAX_FILE
  {
  }

  /** Equal but for requests not made, which keep what the record held. */
  predicate Alike(w: Wants, z: Wants, before: Info) {
    && w.ok == z.ok && w.stack == z.stack
    && w.seenStack == z.seenStack && w.seenHeap == z.seenHeap && w.seenTokens == z.seenTokens
    && w.heap == (if w.seenHeap then z.heap else before.heapFrames)
    && w.tokens == (if w.seenTokens then z.tokens else before.extraTokens)
  }

  lemma AlikeStep(w: Wants, z: Wants, before: Info, c: Cap)
    requires Alike(w, z, before)
    ensures Alike(AddCap(w, c), AddCap(z, c), before)
  {
    hide Base;
  }

  lemma {:induction false} BeforeOnly(img: seq<byte>, t: Tables, before: Info, n: nat)
    requires n <= t.capCnt && CapEnd(t) <= |img|
    ensures Alike(WantsOf(img, t, before, n), WantsOf(img, t, ZEROED, n), before)
  {
    hide RawCap, AddCap;
    if n > 0 {
      BeforeOnly(img, t, before, n - 1);
      AlikeStep(WantsOf(img, t, before, n - 1), WantsOf(img, t, ZEROED, n - 1), before, RawCap(img, t, n - 1));
    }
  }

  /**
   The result does not depend on what the caller's record held before exactly when
   the image has both a heap and a token request.
   */
  lemma UnsetRequests(img: seq<byte>)
    requires StatusOf(img) == ExbOk
    ensures |img| >= HEADER && TablesFit(TablesOf(img), |img|)
    ensures var t := TablesOf(img);
      (forall before :: InfoOf(img, before) == InfoOf(img, ZEROED)) <==> Asks(img, t, t.capCnt, 2) && Asks(img, t, t.capCnt, 3)
  {
    OkFits(img);
    hide SegList, PageSum, WantsOf, HeaderStatus, SegsStatus, Asks, CapOk, RawCap, Base;
    var t := TablesOf(img);
    var w := WantsOf(img, t, ZEROED, t.capCnt);
    WantsExactly(img, t, t.capCnt);
    forall before
      ensures Alike(WantsOf(img, t, before, t.capCnt), w, before)
    {
      BeforeOnly(img, t, before, t.capCnt);
    }
    if !(w.seenHeap && w.seenTokens) {
      var other := ZEROED.(heapFrames := w.heap + 1, extraTokens := w.tokens + 1);
      assert InfoOf(img, other) != InfoOf(img, ZEROED);
    }
  }

  method Parse(img: seq<byte>, before: Info) returns (rc: Status, out: Info)
    ensures rc == StatusOf(img)
    ensures rc != ExbOk ==> out == ZEROED
    ensures rc == ExbOk ==> |img| >= HEADER && TablesFit(TablesOf(img), |img|) && out == InfoOf(img, before)
  {
    hide HeaderStatus, SegsStatus, WantsOf, LocalStatus, PageSum, RawSeg, Get;
    out := ZEROED;
    rc := CheckHeader(img);
    if rc != ExbOk {
      return;
    }
    HeaderLength(img);
    var t := TablesOf(img);
    rc := TablesStatus(t, |img|);
    if rc != ExbOk {
      return;
    }
    var segs, pages;
    rc, segs, pages := CheckSegs(img, t);
    if rc != ExbOk {
      return;
    }
    var entry := F64(img, 16);
    var found := FindEntry(segs, entry);
    if !found {
      return EEntry, ZEROED;
    }
    BeforeOnly(img, t, before, t.capCnt);
    var w := CheckCaps(img, t, before);
    if !w.ok {
      return ECap, ZEROED;
    }
    out := Info(entry, segs, pages, w.stack, w.heap, w.tokens);
  }

  method CheckHeader(img: seq<byte>) returns (rc: Status)
    ensures rc == HeaderStatus(img)
  {
    hide Get, Crc32, Masked;
    if |img| < HEADER || |img| > MAX_FILE {
      return ESize;
    }
    if img[0] != 0x7F || img[1] != 0x45 || img[2] != 0x58 || img[3] != 0x42 {
      return EMagic;
    }
    if img[4] != 1 || img[5] != 1 {
      return EVersion;
    }
    if F16(img, 6) != HEADER || F32(img, 8) != 0 {
      return EHeader;
    }
    var i := 49;
    while i < 64
      invariant 49 <= i <= 64 && forall j :: 49 <= j < i ==> img[j] == 0
    {
      if img[i] != 0 {
        return EHeader;
      }
      i := i + 1;
    }
    if img[48] != 0 {
      return EKind;
    }
    if F32(img, 12) != 1 {
      return ETarget;
    }
    if F32(img, 24) != |img| {
      return ESize;
    }
    var c := CrcImage(img);
    rc := if F32(img, 28) != c then ECrc else ExbOk;
  }

  method CheckSegs(img: seq<byte>, t: Tables) returns (rc: Status, segs: seq<Seg>, pages: nat)
    requires SegEnd(t) <= |img|
    ensures rc == SegsStatus(img, t, t.segCnt)
    ensures rc == ExbOk ==> segs == SegList(img, t, t.segCnt) && pages == PageSum(segs)
  {
    hide LocalStatus, RawSeg, Get, SegPad;
    segs, pages := [], 0;
    var i: nat := 0;
    while i < t.segCnt
      invariant i <= t.segCnt && SegsStatus(img, t, i) == ExbOk
      invariant segs == SegList(img, t, i) && pages == PageSum(segs)
    {
      Earlier(img, t, i + 1);
      var s := RawSeg(img, t, i);
      rc := LocalStatus(s, SegPad(img, t, i), t, |img|);
      if rc != ExbOk {
        return;
      }
      pages := pages + s.pages;
      assert (segs + [s])[..i] == segs;
      if pages > MAX_PAGES {
        return ELimit, segs, pages;
      }
      var j: nat := 0;
      while j < i
        invariant j <= i && forall l :: 0 <= l < j ==> !Clash(s, segs[l])
      {
        if Clash(s, segs[j]) {
          return EOverlap, segs, pages;
        }
        j := j + 1;
      }
      segs := segs + [s];
      i := i + 1;
    }
    rc := ExbOk;
  }

  /** A complaint about one segment is the complaint about all that follow. */
  lemma {:induction false} Earlier(img: seq<byte>, t: Tables, n: nat)
    requires n <= t.segCnt && SegEnd(t) <= |img|
    ensures SegsStatus(img, t, n) != ExbOk ==> SegsStatus(img, t, t.segCnt) == SegsStatus(img, t, n)
    decreases t.segCnt - n
  {
    hide LocalStatus, RawSeg, SegPad;
    if n < t.segCnt {
      Earlier(img, t, n + 1);
    }
  }

  method FindEntry(segs: seq<Seg>, entry: nat) returns (found: bool)
    ensures found <==> exists i :: 0 <= i < |segs| && Holds(segs[i], entry)
  {
    found := false;
    var i := 0;
    while i < |segs|
      invariant 0 <= i <= |segs| && (found <==> exists j :: 0 <= j < i && Holds(segs[j], entry))
    {
      if Holds(segs[i], entry) {
        found := true;
      }
      i := i + 1;
    }
  }

  method CheckCaps(img: seq<byte>, t: Tables, before: Info) returns (w: Wants)
    requires CapEnd(t) <= |img|
    ensures w == WantsOf(img, t, before, t.capCnt)
  {
    hide AddCap, RawCap;
    w := Wants(true, DEFAULT_STACK, before.heapFrames, before.extraTokens, false, false, false);
    var i: nat := 0;
    while i < t.capCnt
      invariant i <= t.capCnt && w.ok && w == WantsOf(img, t, before, i)
    {
      w := AddCap(w, RawCap(img, t, i));
      i := i + 1;
      if !w.ok {
        Refused(img, t, before, i);
        return;
      }
    }
  }

  lemma {:induction false} Refused(img: seq<byte>, t: Tables, before: Info, n: nat)
    requires n <= t.capCnt && CapEnd(t) <= |img| && !WantsOf(img, t, before, n).ok
    ensures WantsOf(img, t, before, t.capCnt) == WantsOf(img, t, before, n)
    decreases t.capCnt - n
  {
    hide AddCap, RawCap;
    if n < t.capCnt {
      Refused(img, t, before, n + 1);
    }
  }

  // ---- what acceptance means ----

  ghost predicate SegOk(img: seq<byte>, t: Tables, i: nat)
    requires i < t.segCnt && SegEnd(t) <= |img|
  {
    var s := RawSeg(img, t, i);
    && SegPad(img, t, i) == 0
    && s.flags in {1, 3, 5}
    && s.vaddr % PAGE == 0 && VA_MIN <= s.vaddr && s.vaddr + PagesOf(s.mem) * PAGE <= VA_LIMIT
    && 0 < s.mem <= MAX_BYTES && s.size <= s.mem
    && (if s.size == 0 then s.off == 0
        else
          && HEADER <= s.off && s.off + s.size <= |img|
          && (s.off + s.size <= t.segOff || SegEnd(t) <= s.off)
          && (t.capCnt == 0 || s.off + s.size <= t.capOff || CapEnd(t) <= s.off))
  }

  predicate CapOk(c: Cap) {
    && c.pad == 0 && Base(c) != 0
    && (Base(c) == 1 ==> c.value % PAGE == 0 && PAGE <= c.value <= MAX_STACK)
    && (Base(c) == 2 ==> c.value <= MAX_HEAP)
    && (Base(c) == 3 ==> c.value <= MAX_TOKENS)
    && (Base(c) > 3 ==> c.kind >= OPTIONAL)
  }

  ghost predicate SegmentsGood(img: seq<byte>, t: Tables)
    requires SegEnd(t) <= |img|
  {
    && (forall i :: 0 <= i < t.segCnt ==> SegOk(img, t, i))
    && (forall i, j :: 0 <= j < i < t.segCnt ==> !Clash(RawSeg(img, t, i), RawSeg(img, t, j)))
    && PageSum(SegList(img, t, t.segCnt)) <= MAX_PAGES
  }

  ghost predicate CapsGood(img: seq<byte>, t: Tables)
    requires CapEnd(t) <= |img|
  {
    && (forall i :: 0 <= i < t.capCnt ==> CapOk(RawCap(img, t, i)))
    && (forall i, j :: 0 <= j < i < t.capCnt && Base(RawCap(img, t, i)) <= 3 ==>
          Base(RawCap(img, t, i)) != Base(RawCap(img, t, j)))
  }

  predicate HeaderOk(img: seq<byte>) {
    && HEADER <= |img| <= MAX_FILE
    && img[..6] == [0x7F, 0x45, 0x58, 0x42, 1, 1]
    && F16(img, 6) == HEADER && F32(img, 8) == 0 && F32(img, 12) == 1
    && F32(img, 24) == |img| && F32(img, 28) == Crc32(Masked(img))
    && forall i :: 48 <= i < HEADER ==> img[i] == 0
  }

  predicate TablesOk(t: Tables, size: nat) {
    && 1 <= t.segCnt <= MAX_SEGS && HEADER <= t.segOff && SegEnd(t) <= size && t.capCnt <= MAX_CAPS
    && (if t.capCnt == 0 then t.capOff == 0
        else HEADER <= t.capOff && CapEnd(t) <= size && (SegEnd(t) <= t.capOff || CapEnd(t) <= t.segOff))
  }

  lemma HeaderExactly(img: seq<byte>)
    ensures HeaderStatus(img) == ExbOk <==> HeaderOk(img)
  {
    hide Get, Crc32, Masked;
    if |img| >= HEADER {
      assert img[..6] == [img[0], img[1], img[2], img[3], img[4], img[5]];
    }
  }

  lemma TablesExactly(t: Tables, size: nat)
    ensures TablesStatus(t, size) == ExbOk <==> TablesOk(t, size)
    ensures TablesStatus(t, size) == ESegTab <==> !(1 <= t.segCnt <= 8 && 64 <= t.segOff && t.segOff + 32 * t.segCnt <= size)
    ensures TablesStatus(t, size) == EOverlap <==>
      && TablesStatus(t, size) != ESegTab && 1 <= t.capCnt <= MAX_CAPS && HEADER <= t.capOff && CapEnd(t) <= size
      && exists b :: In(t.segOff, SegEnd(t), b) && In(t.capOff, CapEnd(t), b)
    ensures TablesStatus(t, size) in {ExbOk, ESegTab, ECap, EOverlap}
    ensures TablesOk(t, size) && HEADER <= size ==> TablesFit(t, size)
  {
    if TablesStatus(t, size) == EOverlap {
      var b := if t.segOff < t.capOff then t.capOff else t.segOff;
      assert In(t.segOff, SegEnd(t), b) && In(t.capOff, CapEnd(t), b);
    }
  }

  /** The validator's conditions, without an order of checks. */
  ghost predicate Passes(img: seq<byte>) {
    && HeaderOk(img)
    && (var t := TablesOf(img);
        && TablesOk(t, |img|) && TablesFit(t, |img|)
        && SegmentsGood(img, t)
        && (exists i :: 0 <= i < t.segCnt && Holds(RawSeg(img, t, i), F64(img, 16)))
        && CapsGood(img, t))
  }

  lemma LocalIsSegOk(img: seq<byte>, t: Tables, i: nat)
    requires i < t.segCnt && SegEnd(t) <= |img|
    ensures LocalStatus(RawSeg(img, t, i), SegPad(img, t, i), t, |img|) == ExbOk <==> SegOk(img, t, i)
  {
    hide Get, Field;
    var s := RawSeg(img, t, i);
    assert s.pages == PagesOf(s.mem);
    assert s.flags < 8 && s.flags % 2 == 1 && !(Writable(s.flags) && Executable(s.flags)) <==> s.flags in {1, 3, 5};
    assert s.mem > 0 ==> PagesOf(s.mem) >= 1;
  }

  /** The flags, addresses and sizes of one segment are in order, and its bytes lie in the file. */
  predicate Shaped(s: Seg, pad: nat, size: nat) {
    && pad == 0 && s.flags in {1, 3, 5}
    && s.vaddr % PAGE == 0 && VA_MIN <= s.vaddr && s.vaddr + PagesOf(s.mem) * PAGE <= VA_LIMIT
    && 0 < s.mem <= MAX_BYTES && s.size <= s.mem
    && if s.size == 0 then s.off == 0 else HEADER <= s.off && s.off + s.size <= size
  }

  /** The refusals of one segment, by their causes. */
  lemma SegAnswers(s: Seg, pad: nat, t: Tables, size: nat)
    requires TablesOk(t, size) && s.pages == PagesOf(s.mem)
    ensures var rc := LocalStatus(s, pad, t, size);
      && rc in {ExbOk, ESeg, EWx, EOverlap}
      && (rc == EWx <==> pad == 0 && s.flags == 7)
      && (rc == ESeg <==> !(pad == 0 && s.flags == 7) && !Shaped(s, pad, size))
      && (rc == EOverlap <==>
            && Shaped(s, pad, size)
            && exists b :: In(s.off, s.off + s.size, b) && (In(t.segOff, SegEnd(t), b) || In(t.capOff, CapEnd(t), b)))
  {
    assert s.flags < 8 && s.flags % 2 == 1 && !(Writable(s.flags) && Executable(s.flags)) <==> s.flags in {1, 3, 5};
    assert s.mem > 0 ==> PagesOf(s.mem) >= 1;
    assert s.flags < 8 && s.flags % 2 == 1 && Writable(s.flags) && Executable(s.flags) <==> s.flags == 7;
    if LocalStatus(s, pad, t, size) == EOverlap {
      if Overlap(s.off, s.off + s.size, t.segOff, SegEnd(t)) {
        var b := if s.off < t.segOff then t.segOff else s.off;
        assert In(s.off, s.off + s.size, b) && In(t.segOff, SegEnd(t), b);
      } else {
        var b := if s.off < t.capOff then t.capOff else s.off;
        assert In(s.off, s.off + s.size, b) && In(t.capOff, CapEnd(t), b);
      }
    }
  }

  lemma SumStep(s: seq<Seg>, x: Seg)
    ensures PageSum(s) <= PageSum(s + [x])
  {
    assert (s + [x])[..|s|] == s;
  }

  lemma {:induction false} SegsExactly(img: seq<byte>, t: Tables, n: nat)
    requires n <= t.segCnt && SegEnd(t) <= |img|
    ensures SegsStatus(img, t, n) == ExbOk <==>
      && (forall i :: 0 <= i < n ==> SegOk(img, t, i))
      && (forall i, j :: 0 <= j < i < n ==> !Clash(RawSeg(img, t, i), RawSeg(img, t, j)))
      && PageSum(SegList(img, t, n)) <= MAX_PAGES
  {
    hide RawSeg, LocalStatus, SegOk, Clash, SegPad, PageSum;
    if n == 0 {
      NoPages();
    } else {
      SegsExactly(img, t, n - 1);
      LocalIsSegOk(img, t, n - 1);
      SumStep(SegList(img, t, n - 1), RawSeg(img, t, n - 1));
    }
  }

  lemma NoPages()
    ensures PageSum([]) == 0
  {
  }

  /** The request flags say which known kinds came up. */
  lemma {:induction false} WantsExactly(img: seq<byte>, t: Tables, n: nat)
    requires n <= t.capCnt && CapEnd(t) <= |img|
    ensures var w := WantsOf(img, t, ZEROED, n);
      && (w.ok <==>
            && (forall i :: 0 <= i < n ==> CapOk(RawCap(img, t, i)))
            && (forall i, j :: 0 <= j < i < n && Base(RawCap(img, t, i)) <= 3 ==>
                  Base(RawCap(img, t, i)) != Base(RawCap(img, t, j))))
      && (w.ok ==> Seen(img, t, n, w))
  {
    hide RawCap, AddCap, CapOk, Base, Seen;
    if n == 0 {
      NothingSeen(img, t);
    } else {
      WantsExactly(img, t, n - 1);
      var w := WantsOf(img, t, ZEROED, n - 1);
      if w.ok {
        CapStep(img, t, n, w);
      }
    }
  }

  ghost predicate Seen(img: seq<byte>, t: Tables, n: nat, w: Wants)
    requires n <= t.capCnt && CapEnd(t) <= |img|
  {
    && (w.seenStack <==> Asks(img, t, n, 1)) && (w.seenHeap <==> Asks(img, t, n, 2))
    && (w.seenTokens <==> Asks(img, t, n, 3))
  }

  ghost predicate Asks(img: seq<byte>, t: Tables, n: nat, base: nat)
    requires n <= t.capCnt && CapEnd(t) <= |img|
  {
    exists j :: 0 <= j < n && Base(RawCap(img, t, j)) == base
  }

  lemma AsksStep(img: seq<byte>, t: Tables, n: nat, base: nat)
    requires 0 < n <= t.capCnt && CapEnd(t) <= |img|
    ensures Asks(img, t, n, base) <==> Base(RawCap(img, t, n - 1)) == base || Asks(img, t, n - 1, base)
  {
    hide RawCap, Base;
  }

  lemma NothingSeen(img: seq<byte>, t: Tables)
    requires CapEnd(t) <= |img|
    ensures Seen(img, t, 0, WantsOf(img, t, ZEROED, 0))
  {
  }

  lemma CapStep(img: seq<byte>, t: Tables, n: nat, w: Wants)
    requires 0 < n <= t.capCnt && CapEnd(t) <= |img| && w.ok && Seen(img, t, n - 1, w)
    ensures var c := RawCap(img, t, n - 1);
      var u := AddCap(w, c);
      && (u.ok <==> CapOk(c) && forall j :: 0 <= j < n - 1 && Base(c) <= 3 ==> Base(c) != Base(RawCap(img, t, j)))
      && (u.ok ==> Seen(img, t, n, u))
  {
    hide RawCap, Base;
    AsksStep(img, t, n, 1);
    AsksStep(img, t, n, 2);
    AsksStep(img, t, n, 3);
  }

  lemma PassesExactly(img: seq<byte>)
    ensures StatusOf(img) == ExbOk <==> Passes(img)
  {
    hide HeaderStatus, SegsStatus, WantsOf, SegOk, CapOk, Clash, RawSeg, RawCap, PageSum, Get, Base, HeaderOk, TablesOk, TablesStatus;
    HeaderExactly(img);
    if HeaderStatus(img) == ExbOk {
      HeaderLength(img);
      var t := TablesOf(img);
      TablesExactly(t, |img|);
      if TablesStatus(t, |img|) == ExbOk {
        SegsExactly(img, t, t.segCnt);
        WantsExactly(img, t, t.capCnt);
      }
    }
  }

  // ---- the format ----

  /** Byte b of the file belongs to the segment. */
  predicate HasByte(s: Seg, b: nat) {
    s.off <= b < s.off + s.size
  }

  /** The address lies in a page that holds some of the segment. */
  predicate HasAddress(s: Seg, a: nat) {
    s.vaddr <= a && (a - s.vaddr) / PAGE * PAGE < s.mem
  }

  ghost predicate Share(s: Seg, r: Seg) {
    || (exists b: nat :: HasByte(s, b) && HasByte(r, b))
    || (exists a: nat :: HasAddress(s, a) && HasAddress(r, a))
  }

  /** The request is of this kind, required or optional. */
  predicate OfKind(c: Cap, kind: nat) {
    c.kind == kind || c.kind == kind + 0x8000_0000
  }

  /** Kinds 1, 2 and 3 are known, kind 0 never is, and others must be optional. */
  predicate RequestOk(c: Cap) {
    && c.pad == 0 && !OfKind(c, 0)
    && (OfKind(c, 1) ==> c.value % 4096 == 0 && 4096 <= c.value <= 64 * 4096)
    && (OfKind(c, 2) ==> c.value <= 0x10_0000)
    && (OfKind(c, 3) ==> c.value <= 4096)
    && (c.kind < 0x8000_0000 ==> c.kind <= 3)
  }

  /** An image of the format, by its fields. */
  ghost predicate Accepts(img: seq<byte>) {
    && HeaderOk(img)
    && (var t := TablesOf(img);
        && TablesOk(t, |img|) && TablesFit(t, |img|)
        && (forall i :: 0 <= i < t.segCnt ==> SegOk(img, t, i))
        && (forall i, j :: 0 <= j < i < t.segCnt ==> !Share(RawSeg(img, t, i), RawSeg(img, t, j)))
        && PageSum(SegList(img, t, t.segCnt)) <= MAX_PAGES
        && (exists i :: 0 <= i < t.segCnt && EntryIn(RawSeg(img, t, i), F64(img, 16)))
        && (forall i :: 0 <= i < t.capCnt ==> RequestOk(RawCap(img, t, i)))
        && (forall i, j, kind :: 0 <= j < i < t.capCnt && 1 <= kind <= 3 ==>
              !(OfKind(RawCap(img, t, i), kind) && OfKind(RawCap(img, t, j), kind))))
  }

  /** The entry point is one of the bytes an executable segment has in the file. */
  predicate EntryIn(s: Seg, entry: nat) {
    s.flags == 5 && s.vaddr <= entry < s.vaddr + s.size
  }

  lemma AddressBelow(s: Seg, a: nat)
    requires s.pages == PagesOf(s.mem)
    ensures HasAddress(s, a) <==> s.vaddr <= a < VEnd(s)
  {
  }

  lemma ClashExactly(s: Seg, r: Seg)
    requires s.pages == PagesOf(s.mem) && r.pages == PagesOf(r.mem) && s.mem > 0 && r.mem > 0
    ensures Clash(s, r) <==> Share(s, r)
  {
    hide HasAddress, PagesOf;
    forall a: nat
      ensures HasAddress(s, a) <==> s.vaddr <= a < VEnd(s)
      ensures HasAddress(r, a) <==> r.vaddr <= a < VEnd(r)
    {
      AddressBelow(s, a);
      AddressBelow(r, a);
    }
    if Overlap(s.vaddr, VEnd(s), r.vaddr, VEnd(r)) {
      AtLeastAPage(s);
      AtLeastAPage(r);
      var a := if s.vaddr < r.vaddr then r.vaddr else s.vaddr;
      assert HasAddress(s, a) && HasAddress(r, a);
    } else if Clash(s, r) {
      var b := if s.off < r.off then r.off else s.off;
      assert HasByte(s, b) && HasByte(r, b);
    }
  }

  lemma AtLeastAPage(s: Seg)
    requires s.pages == PagesOf(s.mem) && s.mem > 0
    ensures VEnd(s) > s.vaddr
  {
  }

  lemma KindIsBase(c: Cap, kind: nat)
    requires c.kind < 0x1_0000_0000 && kind < OPTIONAL
    ensures Base(c) == kind <==> OfKind(c, kind)
  {
  }

  lemma RequestIsCap(c: Cap)
    requires c.kind < 0x1_0000_0000
    ensures RequestOk(c) <==> CapOk(c)
  {
    hide Base, OfKind;
    KindIsBase(c, 0);
    KindIsBase(c, 1);
    KindIsBase(c, 2);
    KindIsBase(c, 3);
    SmallKind(c);
  }

  lemma SmallKind(c: Cap)
    requires c.kind < 0x1_0000_0000
    ensures c.kind < 0x8000_0000 ==> Base(c) == c.kind
  {
  }

  lemma RawKind(img: seq<byte>, t: Tables, i: nat)
    requires i < t.capCnt && CapEnd(t) <= |img|
    ensures RawCap(img, t, i).kind < 0x1_0000_0000
  {
    var p := t.capOff + i * CAP_ENTRY;
    Powers();
    GetRange(img[p..p + 4]);
  }

  /** The validator accepts exactly the images of the format. */
  lemma AcceptsExactly(img: seq<byte>)
    ensures StatusOf(img) == ExbOk <==> Accepts(img)
  {
    hide StatusOf, SegOk, RawSeg, RawCap, PageSum, HeaderOk, TablesOk, Clash, Share, CapOk, RequestOk, Base, OfKind, Holds, EntryIn;
    PassesExactly(img);
    if HeaderOk(img) {
      HeaderSize(img);
      var t := TablesOf(img);
      if TablesFit(t, |img|) {
        SegmentsExactly(img, t);
        RequestsExactly(img, t);
      }
    }
  }

  lemma HeaderSize(img: seq<byte>)
    requires HeaderOk(img)
    ensures |img| >= HEADER
  {
  }

  lemma SegmentsExactly(img: seq<byte>, t: Tables)
    requires SegEnd(t) <= |img|
    ensures SegmentsGood(img, t) <==>
      && (forall i :: 0 <= i < t.segCnt ==> SegOk(img, t, i))
      && (forall i, j :: 0 <= j < i < t.segCnt ==> !Share(RawSeg(img, t, i), RawSeg(img, t, j)))
      && PageSum(SegList(img, t, t.segCnt)) <= MAX_PAGES
    ensures forall i, e :: 0 <= i < t.segCnt && SegOk(img, t, i) ==>
      (Holds(RawSeg(img, t, i), e) <==> EntryIn(RawSeg(img, t, i), e))
  {
    hide RawSeg, SegOk, Clash, Share, PageSum, Holds, EntryIn;
    forall i, e | 0 <= i < t.segCnt && SegOk(img, t, i)
      ensures Holds(RawSeg(img, t, i), e) <==> EntryIn(RawSeg(img, t, i), e)
    {
      SegFacts(img, t, i);
      EntryExactly(RawSeg(img, t, i), e);
    }
    forall i, j | 0 <= j < i < t.segCnt && SegOk(img, t, i) && SegOk(img, t, j)
      ensures Clash(RawSeg(img, t, i), RawSeg(img, t, j)) <==> Share(RawSeg(img, t, i), RawSeg(img, t, j))
    {
      SegFacts(img, t, i);
      SegFacts(img, t, j);
      ClashExactly(RawSeg(img, t, i), RawSeg(img, t, j));
    }
  }

  lemma SegFacts(img: seq<byte>, t: Tables, i: nat)
    requires i < t.segCnt && SegEnd(t) <= |img| && SegOk(img, t, i)
    ensures var s := RawSeg(img, t, i);
      s.pages == PagesOf(s.mem) && s.mem > 0 && s.flags in {1, 3, 5}
  {
    hide Get, Field;
  }

  lemma EntryExactly(s: Seg, e: nat)
    requires s.flags in {1, 3, 5}
    ensures Holds(s, e) <==> EntryIn(s, e)
  {
  }

  lemma RequestsExactly(img: seq<byte>, t: Tables)
    requires CapEnd(t) <= |img|
    ensures CapsGood(img, t) <==>
      && (forall i :: 0 <= i < t.capCnt ==> RequestOk(RawCap(img, t, i)))
      && (forall i, j, kind :: 0 <= j < i < t.capCnt && 1 <= kind <= 3 ==>
            !(OfKind(RawCap(img, t, i), kind) && OfKind(RawCap(img, t, j), kind)))
  {
    hide RawCap, CapOk, RequestOk, Base, OfKind;
    forall i | 0 <= i < t.capCnt
      ensures RequestOk(RawCap(img, t, i)) <==> CapOk(RawCap(img, t, i))
      ensures forall kind: nat :: kind <= 3 ==> (OfKind(RawCap(img, t, i), kind) <==> Base(RawCap(img, t, i)) == kind)
      ensures CapOk(RawCap(img, t, i)) ==> Base(RawCap(img, t, i)) >= 1
    {
      RawKind(img, t, i);
      RequestIsCap(RawCap(img, t, i));
      CapNotZero(RawCap(img, t, i));
      forall kind: nat | kind <= 3
        ensures OfKind(RawCap(img, t, i), kind) <==> Base(RawCap(img, t, i)) == kind
      {
        KindIsBase(RawCap(img, t, i), kind);
      }
    }
    forall i, j | 0 <= j < i < t.capCnt && CapOk(RawCap(img, t, i)) && Base(RawCap(img, t, i)) <= 3
                  && Base(RawCap(img, t, i)) == Base(RawCap(img, t, j))
      ensures exists kind :: 1 <= kind <= 3 && OfKind(RawCap(img, t, i), kind) && OfKind(RawCap(img, t, j), kind)
    {
      var kind := Base(RawCap(img, t, i));
      assert OfKind(RawCap(img, t, i), kind) && OfKind(RawCap(img, t, j), kind);
    }
  }

  lemma CapNotZero(c: Cap)
    ensures CapOk(c) ==> Base(c) >= 1
  {
  }

  /** Segments that are each in order but share a byte or an address are refused for just that. */
  lemma SharingRefused(img: seq<byte>, i: nat, j: nat)
    requires HeaderOk(img) && |img| >= HEADER && TablesOk(TablesOf(img), |img|)
    requires forall l :: 0 <= l < TablesOf(img).segCnt ==> SegOk(img, TablesOf(img), l)
    requires PageSum(SegList(img, TablesOf(img), TablesOf(img).segCnt)) <= MAX_PAGES
    requires j < i < TablesOf(img).segCnt && Share(RawSeg(img, TablesOf(img), i), RawSeg(img, TablesOf(img), j))
    ensures StatusOf(img) == EOverlap
  {
    hide HeaderStatus, SegsStatus, WantsOf, SegOk, Clash, Share, RawSeg, PageSum, HeaderOk, TablesOk, TablesStatus;
    var t := TablesOf(img);
    HeaderExactly(img);
    TablesExactly(t, |img|);
    SegmentsExactly(img, t);
    SegsExactly(img, t, t.segCnt);
    OnlyOverlap(img, t, t.segCnt);
  }

  /** With header, tables and segments in order, the entry point and then the requests decide. */
  lemma LateRefusals(img: seq<byte>)
    requires HeaderOk(img) && |img| >= HEADER && TablesOk(TablesOf(img), |img|)
    requires forall l :: 0 <= l < TablesOf(img).segCnt ==> SegOk(img, TablesOf(img), l)
    requires forall i, j :: 0 <= j < i < TablesOf(img).segCnt ==>
      !Share(RawSeg(img, TablesOf(img), i), RawSeg(img, TablesOf(img), j))
    requires PageSum(SegList(img, TablesOf(img), TablesOf(img).segCnt)) <= MAX_PAGES
    ensures StatusOf(img) == EEntry <==>
      forall i :: 0 <= i < TablesOf(img).segCnt ==> !EntryIn(RawSeg(img, TablesOf(img), i), F64(img, 16))
    ensures StatusOf(img) in {ExbOk, EEntry, ECap}
  {
    hide HeaderStatus, SegsStatus, WantsOf, SegOk, Clash, Share, RawSeg, PageSum, HeaderOk, TablesOk, TablesStatus, Holds, EntryIn;
    var t := TablesOf(img);
    HeaderExactly(img);
    TablesExactly(t, |img|);
    SegmentsExactly(img, t);
    SegsExactly(img, t, t.segCnt);
  }

  lemma {:induction false} OnlyOverlap(img: seq<byte>, t: Tables, n: nat)
    requires n <= t.segCnt && SegEnd(t) <= |img| && forall l :: 0 <= l < n ==> SegOk(img, t, l)
    requires PageSum(SegList(img, t, n)) <= MAX_PAGES
    ensures SegsStatus(img, t, n) == ExbOk || SegsStatus(img, t, n) == EOverlap
  {
    hide RawSeg, LocalStatus, SegOk, Clash, SegPad, PageSum;
    if n > 0 {
      LocalIsSegOk(img, t, n - 1);
      SumStep(SegList(img, t, n - 1), RawSeg(img, t, n - 1));
      OnlyOverlap(img, t, n - 1);
    }
  }
}
