/**
 Byte-range I/O over extents: whole-file writes, range writes that merge with
 what was there, and range reads.  The specification is a plain byte array.
 */
module ContentIO {
  import opened Bytes
  import opened BlockDevice
  import opened Extents
  import opened Image
  import opened Transfer
  import GM = GroupMap

  /** The bytes after writing `data` at `off`: a gap past the end reads as zeros. */
  function Splice(old_: seq<byte>, off: nat, data: seq<byte>): (r: seq<byte>)
    ensures |r| == if off + |data| > |old_| then off + |data| else |old_|
  {
    seq(if off + |data| > |old_| then off + |data| else |old_|,
        i requires 0 <= i =>
          if off <= i < off + |data| then data[i - off] else if i < |old_| then old_[i] else 0)
  }

  ghost function BlockSet(list: seq<Extent>): set<nat> { set b | b in Blocks(list) }

  /** Fresh blocks are pairwise distinct, newly used, and were not used before. */
  lemma AddsDistinct(u0: set<nat>, u: set<nat>, blocks: seq<nat>)
    requires Adds(u0, u, blocks)
    ensures forall i, j :: 0 <= i < j < |blocks| ==> blocks[i] != blocks[j]
    ensures forall i :: 0 <= i < |blocks| ==> blocks[i] in u && blocks[i] !in u0
  {
    forall i | 0 <= i < |blocks|
      ensures blocks[i] in u && blocks[i] !in u0
    {
      assert blocks[i] in multiset(blocks);
      assert multiset(u)[blocks[i]] == multiset(u0)[blocks[i]] + multiset(blocks)[blocks[i]];
    }
    forall i, j | 0 <= i < j < |blocks|
      ensures blocks[i] != blocks[j]
    {
      assert blocks == blocks[..j] + [blocks[j]] + blocks[j + 1..];
      var b := blocks[i];
      assert blocks[..j][i] == b && b in multiset(blocks[..j]);
      assert multiset(blocks)[b] >= 1 + multiset([blocks[j]])[b];
      assert multiset(u)[b] == multiset(u0)[b] + multiset(blocks)[b];
    }
  }

  /** Blocks taken from the map lie inside the volume. */
  lemma TakenInside(geo: GM.Geometry, pages: seq<seq<bool>>, u0: set<nat>, blocks: seq<nat>, l: nat)
    requires geo.WellFormed() && GM.PagesOk(pages, geo.groups) && l < |blocks|
    requires Adds(u0, GM.UsedBlocks(geo, pages), blocks)
    ensures blocks[l] < geo.total
  {
    hide GM.UsedBlocks;
    GM.UsedInside(geo, pages);
    assert blocks[l] in multiset(GM.UsedBlocks(geo, pages));
  }

  /** A block write; a failed one may have reached the disk all the same. */
  method PutExact(gm: GM.GMap, b: nat, p: Page) returns (ok: bool)
    requires gm.Valid() && b !in GM.AllSlots(gm.geo)
    modifies gm.dev
    ensures gm.Valid() && Through(old(gm.dev.trace), gm.dev.trace, {b})
    ensures ok ==> b < |old(gm.dev.disk)| && gm.dev.disk == old(gm.dev.disk)[b := p]
    ensures gm.dev.reliable && b < gm.dev.size ==> ok
    ensures SameExcept(gm.dev.disk, old(gm.dev.disk), {b})
    ensures
      || (!ok && gm.dev.disk == old(gm.dev.disk) && gm.dev.trace == old(gm.dev.trace))
      || (b < |old(gm.dev.disk)| && gm.dev.disk == old(gm.dev.disk)[b := p] &&
          gm.dev.trace == old(gm.dev.trace) + [gm.dev.disk])
  {
    hide GM.Coherent, GM.Counted, GM.AllSlots, Through;
    ok := gm.dev.Write(b, p);
    if !gm.faulted {
      GM.OtherWritesKeep(gm.geo, old(gm.dev.disk), gm.dev.disk, gm.slot, gm.written, gm.cache, gm.pages, {b});
    }
  }

  method PutBlock(gm: GM.GMap, b: nat, p: Page) returns (ok: bool)
    requires gm.Valid() && b !in GM.AllSlots(gm.geo)
    modifies gm.dev
    ensures gm.Valid() && Through(old(gm.dev.trace), gm.dev.trace, {b})
    ensures ok ==> b < |old(gm.dev.disk)| && gm.dev.disk == old(gm.dev.disk)[b := p]
    ensures gm.dev.reliable && b < gm.dev.size ==> ok
    ensures SameExcept(gm.dev.disk, old(gm.dev.disk), {b})
  {
    hide GM.Coherent, GM.Counted, GM.AllSlots, Through, SameExcept;
    ok := PutExact(gm, b, p);
  }

  /** Position in an extent list: extent i, block k within it, logical block l. */
  ghost predicate At(list: seq<Extent>, i: nat, k: nat, l: nat) {
    && i <= |list| && l == |Blocks(list[..i])| + k
    && (i < |list| ==> k < list[i].len) && (i == |list| ==> k == 0)
  }

  lemma AtBlock(list: seq<Extent>, i: nat, k: nat, l: nat)
    requires At(list, i, k, l) && Positive(list)
    ensures i <= |list| && (i < |list| ==> k < list[i].len)
    ensures l <= |Blocks(list)| && (i == |list| <==> l == |Blocks(list)|)
    ensures i < |list| ==> Blocks(list)[l] == list[i].start + k
  {
    hide Blocks;
    BlocksPrefix(list, i);
    if i < |list| {
      BlocksStep(list, i);
      BlocksPrefix(list, i + 1);
    } else {
      BlocksAll(list);
    }
  }

  lemma AtNext(list: seq<Extent>, i: nat, k: nat, l: nat)
    requires At(list, i, k, l) && i < |list| && Positive(list)
    ensures k + 1 < list[i].len ==> At(list, i, k + 1, l + 1)
    ensures k + 1 == list[i].len ==> At(list, i + 1, 0, l + 1)
  {
    hide Blocks;
    BlocksStep(list, i);
  }

  lemma AtStart(list: seq<Extent>)
    requires Positive(list)
    ensures At(list, 0, 0, 0)
  {
    assert list[..0] == [];
  }

  /** The copy loop of exfs_write: every fresh block, in order, padded with zeros. */
  method WriteWhole(gm: GM.GMap, runs: seq<Extent>, buf: seq<byte>, ghost u0: set<nat>) returns (ok: bool)
    requires gm.Valid() && Positive(runs) && |Blocks(runs)| == CeilDiv(|buf|)
    requires Adds(u0, Used(gm), Blocks(runs)) && BlockSet(runs) !! GM.AllSlots(gm.geo)
    modifies gm.dev
    ensures gm.Valid() && Through(old(gm.dev.trace), gm.dev.trace, BlockSet(runs))
    ensures ok ==> Stored(gm.dev.disk, runs, buf)
    ensures gm.dev.reliable && gm.geo.total <= gm.dev.size ==> ok
  {
    hide GM.Coherent, GM.Counted, GM.AllSlots, Through, Blocks, PageOf, At, Adds, GM.UsedBlocks, GM.Used, BlockSet,
         SameExcept, WrittenTo, Stored;
    ThroughSelf(gm.dev.trace, BlockSet(runs));
    AtStart(runs);
    NoneWritten(gm.dev.disk, Blocks(runs), buf, 0);
    var i, k := 0, 0;
    ghost var l := 0;
    var pos := 0;
    while i < |runs|
      invariant i <= |runs| && (i < |runs| ==> k < runs[i].len)
      invariant At(runs, i, k, l) && gm.Valid()
      invariant Through(old(gm.dev.trace), gm.dev.trace, BlockSet(runs))
      invariant pos == Least(|buf|, BLOCK * l)
      invariant WrittenTo(gm.dev.disk, Blocks(runs), buf, 0, l)
      decreases |runs| - i, if i < |runs| then runs[i].len - k else 0
    {
      label Before:
      AtBlock(runs, i, k, l);
      AtNext(runs, i, k, l);
      var n := if |buf| - pos < BLOCK then |buf| - pos else BLOCK;
      var page: Page := buf[pos..pos + n] + Zeros(BLOCK - n);
      FullPage(buf, l, pos, n);
      InBlockSet(runs, l);
      TakenInside(gm.geo, gm.pages, u0, Blocks(runs), l);
      ok := PutBlock(gm, runs[i].start + k, page);
      ThroughWiden(old@Before(gm.dev.trace), gm.dev.trace, {runs[i].start + k}, BlockSet(runs));
      ThroughTrans(old(gm.dev.trace), old@Before(gm.dev.trace), gm.dev.trace, BlockSet(runs));
      if !ok {
        return;
      }
      WrittenStep(u0, Used(gm), old@Before(gm.dev.disk), Blocks(runs), buf, 0, l);
      pos := pos + n;
      l := l + 1;
      k := k + 1;
      if k == runs[i].len {
        i, k := i + 1, 0;
      }
      AtBlock(runs, i, k, l);
    }
    AtBlock(runs, i, k, l);
    WrittenAll(gm.dev.disk, runs, buf);
    ok := true;
  }

  /** Blocks first .. first + n of a file with these bytes are on disk. */
  ghost predicate WrittenTo(d: Disk, blocks: seq<nat>, bytes: seq<byte>, first: nat, n: nat) {
    n <= |blocks| && forall m :: 0 <= m < n ==> blocks[m] < |d| && d[blocks[m]] == PageOf(bytes, first + m)
  }

  lemma WrittenStep(u0: set<nat>, u: set<nat>, d: Disk, blocks: seq<nat>, bytes: seq<byte>, first: nat, n: nat)
    requires WrittenTo(d, blocks, bytes, first, n) && n < |blocks| && blocks[n] < |d| && Adds(u0, u, blocks)
    ensures WrittenTo(d[blocks[n] := PageOf(bytes, first + n)], blocks, bytes, first, n + 1)
  {
    hide PageOf, Adds;
    AddsDistinct(u0, u, blocks);
  }

  lemma WrittenAll(d: Disk, runs: seq<Extent>, bytes: seq<byte>)
    requires WrittenTo(d, Blocks(runs), bytes, 0, |Blocks(runs)|) && |Blocks(runs)| == CeilDiv(|bytes|)
    ensures Stored(d, runs, bytes)
  {
    hide Blocks, PageOf;
    forall l | 0 <= l < |Blocks(runs)|
      ensures d[Blocks(runs)[l]] == PageOf(bytes, l)
    {
      assert 0 + l == l;
    }
  }

  lemma InBlockSet(list: seq<Extent>, l: nat)
    requires l < |Blocks(list)|
    ensures Blocks(list)[l] in BlockSet(list)
  {
  }

  lemma FullPage(buf: seq<byte>, l: nat, pos: nat, n: nat)
    requires pos == Least(|buf|, BLOCK * l) && n == Least(|buf| - pos, BLOCK)
    requires l < CeilDiv(|buf|)
    ensures buf[pos..pos + n] + Zeros(BLOCK - n) == PageOf(buf, l)
  {
    assert pos == BLOCK * l;
  }

  /**
   One block of exfs_write_at: what was there with zeros after the old end, or
   zeros; then the caller's bytes that fall into the block.
   */
  method MergePage(had: bool, was: Page, size: nat, off: nat, buf: seq<byte>, l: nat, ghost before: seq<byte>)
    returns (page: Page)
    requires |before| == size
    requires had ==> was == PageOf(before, l)
    requires !had ==> size <= BLOCK * l || (off <= BLOCK * l && BLOCK * l + BLOCK <= off + |buf|)
    ensures page == PageOf(Splice(before, off, buf), l)
  {
    var bs := BLOCK * l;
    page := Zeros(BLOCK);
    if had {
      page := was;
      var j := if size > bs then size - bs else 0;
      while j < BLOCK
        invariant forall m :: 0 <= m < BLOCK ==> page[m] == PageOf(before, l)[m]
      {
        page := page[j := 0];
        j := j + 1;
      }
    }
    ghost var base := page;
    var p := if off > bs then off else bs;
    var to := if off + |buf| < bs + BLOCK then off + |buf| else bs + BLOCK;
    ghost var from := p;
    while p < to
      invariant from <= p && (p <= to || p == from)
      invariant forall m :: 0 <= m < BLOCK ==> page[m] == if from <= bs + m < p then buf[bs + m - off] else base[m]
    {
      page := page[p - bs := buf[p - off]];
      p := p + 1;
    }
    forall m | 0 <= m < BLOCK
      ensures page[m] == PageOf(Splice(before, off, buf), l)[m]
    {
    }
  }

  /** Blocks first .. last of the file, written to the fresh runs in order. */
  method WriteRange(gm: GM.GMap, list: seq<Extent>, size: nat, off: nat, buf: seq<byte>, runs: seq<Extent>,
                    first: nat, last: nat, ghost u0: set<nat>, ghost before: seq<byte>)
    returns (ok: bool)
    requires gm.Valid() && Positive(runs) && |Blocks(runs)| == last + 1 - first && first <= last
    requires Adds(u0, Used(gm), Blocks(runs)) && BlockSet(runs) !! GM.AllSlots(gm.geo)
    requires |before| == size && Stored(gm.dev.disk, list, before) && BlockSet(list) <= u0
    modifies gm.dev
    ensures gm.Valid() && Through(old(gm.dev.trace), gm.dev.trace, BlockSet(runs))
    ensures ok ==> WrittenTo(gm.dev.disk, Blocks(runs), Splice(before, off, buf), first, last + 1 - first)
    ensures gm.dev.reliable && gm.geo.total <= gm.dev.size ==> ok
  {
    hide GM.Coherent, GM.Counted, GM.AllSlots, Through, Blocks, PageOf, At, Adds, GM.UsedBlocks, GM.Used, BlockSet,
         Splice, Stored, WrittenTo;
    ThroughSelf(gm.dev.trace, BlockSet(runs));
    AtStart(runs);
    NoneWritten(gm.dev.disk, Blocks(runs), Splice(before, off, buf), first);
    var oldb := CountBlocks(list);
    StoredBlocks(gm.dev.disk, list, before);
    var i, k, l := 0, 0, first;
    AtBlock(runs, i, k, l - first);
    while l <= last
      invariant first <= l <= last + 1 && At(runs, i, k, l - first) && i <= |runs|
      invariant l <= last ==> i < |runs| && k < runs[i].len
      invariant gm.Valid() && Through(old(gm.dev.trace), gm.dev.trace, BlockSet(runs))
      invariant Stored(gm.dev.disk, list, before)
      invariant WrittenTo(gm.dev.disk, Blocks(runs), Splice(before, off, buf), first, l - first)
    {
      label Before:
      AtBlock(runs, i, k, l - first);
      AtNext(runs, i, k, l - first);
      var full := off <= BLOCK * l && off + |buf| >= BLOCK * l + BLOCK;
      var was: Page := Zeros(BLOCK);
      var had := !full && l < oldb;
      if had {
        var found, op := OldPhys(list, l);
        StoredAt(gm.dev.disk, list, before, l);
        ok, was := gm.dev.Read(op);
        if !found || !ok {
          ok := false;
          return;
        }
      }
      var page := MergePage(had, was, size, off, buf, l, before);
      InBlockSet(runs, l - first);
      TakenInside(gm.geo, gm.pages, u0, Blocks(runs), l - first);
      ok := PutBlock(gm, runs[i].start + k, page);
      ThroughWiden(old@Before(gm.dev.trace), gm.dev.trace, {runs[i].start + k}, BlockSet(runs));
      ThroughTrans(old(gm.dev.trace), old@Before(gm.dev.trace), gm.dev.trace, BlockSet(runs));
      if !ok {
        return;
      }
      FreshKeepsOld(u0, Used(gm), Blocks(runs), l - first, old@Before(gm.dev.disk), gm.dev.disk, list, before);
      WrittenStep(u0, Used(gm), old@Before(gm.dev.disk), Blocks(runs), Splice(before, off, buf), first, l - first);
      k := k + 1;
      if k == runs[i].len {
        i, k := i + 1, 0;
      }
      l := l + 1;
      AtBlock(runs, i, k, l - first);
    }
    ok := true;
  }

  lemma NoneWritten(d: Disk, blocks: seq<nat>, bytes: seq<byte>, first: nat)
    ensures WrittenTo(d, blocks, bytes, first, 0)
  {
  }

  lemma StoredBlocks(d: Disk, list: seq<Extent>, bytes: seq<byte>)
    requires Stored(d, list, bytes)
    ensures |Blocks(list)| == CeilDiv(|bytes|)
  {
  }

  lemma StoredAt(d: Disk, list: seq<Extent>, bytes: seq<byte>, l: nat)
    requires Stored(d, list, bytes) && l < |Blocks(list)|
    ensures Blocks(list)[l] < |d| && d[Blocks(list)[l]] == PageOf(bytes, l)
  {
  }

  /** Writing a fresh block leaves the old content alone. */
  lemma FreshKeepsOld(u0: set<nat>, u: set<nat>, blocks: seq<nat>, n: nat, d: Disk, d': Disk,
                      list: seq<Extent>, bytes: seq<byte>)
    requires Adds(u0, u, blocks) && n < |blocks| && BlockSet(list) <= u0
    requires SameExcept(d', d, {blocks[n]}) && Stored(d, list, bytes)
    ensures Stored(d', list, bytes)
  {
    hide Blocks, Adds;
    AddsDistinct(u0, u, blocks);
    forall b | b in Blocks(list) && b < |d|
      ensures d[b] == d'[b]
    {
      assert b in BlockSet(list);
    }
    ContentFrame(d, d', list, |bytes|);
  }

  /** The bytes [off, off + cap) of a file, as far as it goes.  `bad` tells whether the device failed a read. */
  method ReadRange(dev: Device, list: seq<Extent>, size: nat, off: nat, cap: nat, ghost content: seq<byte>)
    returns (ok: bool, out: seq<byte>, ghost bad: bool)
    requires |content| == size && Stored(dev.disk, list, content) && Positive(list)
    ensures ok ==> out == if off < size then content[off..off + Least(size - off, cap)] else []
    ensures !ok ==> bad
    ensures dev.reliable ==> ok
  {
    hide Blocks, PageOf, At, Stored;
    bad, out := false, [];
    if off >= size {
      ok := true;
      return;
    }
    var want := if size - off < cap then size - off else cap;
    StoredBlocks(dev.disk, list, content);
    var i: nat, k: nat := Seek(list, off / BLOCK);
    ghost var l: nat := off / BLOCK;
    if i == |list| {
      AtBlock(list, i, k, l);
      assert false;
    }
    var skip: nat := off % BLOCK;
    while |out| < want
      invariant |out| <= want && out == content[off..off + |out|]
      invariant At(list, i, k, l) && i <= |list| && skip < BLOCK
      invariant |out| < want ==> off + |out| == BLOCK * l + skip
    {
      AtBlock(list, i, k, l);
      if i == |list| {
        assert false;
        ok := false;
        return;
      }
      AtNext(list, i, k, l);
      var page: Page;
      StoredAt(dev.disk, list, content, l);
      ok, page := dev.Read(list[i].start + k);
      if !ok {
        bad := true;
        return;
      }
      var n := if want - |out| < BLOCK - skip then want - |out| else BLOCK - skip;
      PageSlice(content, l, skip, n);
      assert content[off..off + |out|] + content[off + |out|..off + |out| + n] == content[off..off + |out| + n];
      out := out + page[skip..skip + n];
      skip := 0;
      l := l + 1;
      k := k + 1;
      if k == list[i].len {
        i, k := i + 1, 0;
      }
    }
    ok := true;
  }

  lemma PageSlice(bytes: seq<byte>, l: nat, skip: nat, n: nat)
    requires skip + n <= BLOCK && BLOCK * l + skip + n <= |bytes|
    ensures PageOf(bytes, l)[skip..skip + n] == bytes[BLOCK * l + skip..BLOCK * l + skip + n]
  {
  }

  /** The extent and offset of logical block l. */
  method Seek(list: seq<Extent>, l: nat) returns (i: nat, k: nat)
    requires Positive(list)
    ensures i <= |list|
    ensures i < |list| ==> At(list, i, k, l)
    ensures i == |list| ==> l >= |Blocks(list)|
  {
    hide Blocks;
    var base := 0;
    i, k := 0, 0;
    AtStart(list);
    while i < |list| && base + list[i].len <= l
      invariant i <= |list| && base == |Blocks(list[..i])| <= l
    {
      BlocksStep(list, i);
      base := base + list[i].len;
      i := i + 1;
    }
    if i == |list| {
      BlocksAll(list);
    } else {
      k := l - base;
    }
  }

  // ---- exfs_write_at: the new list ----

  /** The blocks of a file once logical blocks `first` to `last` were replaced. */
  function Respliced(was: seq<nat>, added: seq<nat>, first: nat, last: nat): seq<nat>
    requires first <= |was|
  {
    was[..first] + added + Slice(was, last + 1, |was|)
  }

  /** Old blocks before `first`, the fresh runs, old blocks after `last`: as few extents as these blocks allow. */
  method BuildStage(list: seq<Extent>, runs: seq<Extent>, first: nat, last: nat) returns (ok: bool, stage: seq<Extent>)
    requires first <= |Blocks(list)| && first <= last && Positive(runs)
    requires Inside(list, U32_MAX) && Inside(runs, U32_MAX)
    ensures ok <==> RunCount(Respliced(Blocks(list), Blocks(runs), first, last)) <= MAX_EXT
    ensures ok ==>
      && Blocks(stage) == Respliced(Blocks(list), Blocks(runs), first, last)
      && |stage| == RunCount(Blocks(stage)) && |stage| <= MAX_EXT && Positive(stage)
  {
    hide Blocks, RunCount;
    NoBlocks({});
    NothingStaged();
    ghost var final := Respliced(Blocks(list), Blocks(runs), first, last);
    ok, stage := WalkStage(list, 0, first, []);
    assert Slice(Blocks(list), 0, first) == Blocks(list)[..first];
    ghost var head := Blocks(list)[..first];
    assert [] + head == head;
    if !ok {
      Longer(head, final);
      return;
    }
    var i := 0;
    assert runs[..0] == [] && head + [] == head;
    while i < |runs|
      invariant i <= |runs| && |stage| <= MAX_EXT && Merged(stage)
      invariant Blocks(stage) == head + Blocks(runs[..i])
    {
      BlocksStep(runs, i);
      BlocksPrefix(runs, i + 1);
      MergedStep(stage, runs[i].start, runs[i].len);
      ghost var more := head + Blocks(runs[..i + 1]);
      assert Blocks(stage) + RunSeq(runs[i].start, runs[i].len) == more;
      ok, stage := StageAdd(stage, runs[i].start, runs[i].len);
      if !ok {
        Longer(more, final);
        return;
      }
      i := i + 1;
    }
    BlocksAll(runs);
    var oldb := CountBlocks(list);
    ok, stage := WalkStage(list, last + 1, oldb, stage);
  }

  lemma NothingStaged()
    ensures Merged([]) && Blocks([]) == []
  {
  }

  lemma Longer(part: seq<nat>, all: seq<nat>)
    requires part <= all
    ensures RunCount(part) <= RunCount(all)
  {
    assert all == part + all[|part|..];
    RunCountGrows(part, all[|part|..]);
  }

  lemma PageBefore(before: seq<byte>, off: nat, buf: seq<byte>, l: nat)
    requires BLOCK * l + BLOCK <= off && buf != []
    ensures PageOf(Splice(before, off, buf), l) == PageOf(before, l)
  {
  }

  lemma PageAfter(before: seq<byte>, off: nat, buf: seq<byte>, l: nat)
    requires off + |buf| <= BLOCK * l
    ensures PageOf(Splice(before, off, buf), l) == PageOf(before, l)
  {
  }

  /** With the fresh blocks written, the new list stores exactly the spliced bytes. */
  lemma SpliceStored(d: Disk, list: seq<Extent>, runs: seq<Extent>, stage: seq<Extent>, before: seq<byte>,
                     off: nat, buf: seq<byte>, first: nat, last: nat)
    requires buf != [] && Stored(d, list, before)
    requires last == (off + |buf| - 1) / BLOCK && first == Least(off / BLOCK, |Blocks(list)|) && first <= last
    requires |Blocks(runs)| == last + 1 - first
    requires WrittenTo(d, Blocks(runs), Splice(before, off, buf), first, last + 1 - first)
    requires Blocks(stage) == Blocks(list)[..first] + Blocks(runs) + Slice(Blocks(list), last + 1, |Blocks(list)|)
    ensures Stored(d, stage, Splice(before, off, buf))
  {
    hide Blocks, PageOf;
    var s := Splice(before, off, buf);
    var b := Blocks(stage);
    SpliceSize(|before|, off, |buf|);
    forall l | 0 <= l < |b|
      ensures b[l] < |d| && d[b[l]] == PageOf(s, l)
    {
      if l < first {
        PageBefore(before, off, buf, l);
        assert b[l] == Blocks(list)[l];
      } else if l <= last {
        assert b[l] == Blocks(runs)[l - first];
        assert first + (l - first) == l;
      } else {
        assert b[l] == Blocks(list)[l];
        PageAfter(before, off, buf, l);
      }
    }
  }

  lemma SpliceSize(size: nat, off: nat, len: nat)
    requires len > 0
    ensures var end := if off + len > size then off + len else size;
            var last := (off + len - 1) / BLOCK;
            CeilDiv(end) == if last + 1 > CeilDiv(size) then last + 1 else CeilDiv(size)
  {
  }
}
