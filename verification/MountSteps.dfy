/**
 The reading side of exfs_mount, block by block.  `bad` tells whether the
 device failed a read; when it did not, each step computes what the pure
 recovery function says.
 */
module MountSteps {
  import opened Bytes
  import opened BlockDevice
  import opened Extents
  import opened InodeTable
  import opened Image
  import opened Namespace
  import opened VolumeState
  import opened CommitSteps
  import GM = GroupMap
  import EP = ExtentPool
  import Sb = Superblock

  /** The newest valid superblock; one that cannot be read is skipped. */
  method ReadSuper(dev: Device) returns (best: Option<Sb.Fields>, ghost bad: bool)
    requires |dev.disk| >= 2
    ensures !bad ==> best == Newest(dev.disk)
    ensures dev.reliable ==> !bad
    ensures best.Some? ==> Sb.Typed(best.value) && Sb.FieldsOk(best.value)
  {
    hide Sb.Decode, Sb.FieldsOk;
    best, bad := None, false;
    var s := 0;
    while s < 2
      invariant s <= 2 && (dev.reliable ==> !bad)
      invariant !bad && s == 0 ==> best == None
      invariant !bad && s == 1 ==> best == var a := Sb.Decode(dev.disk[0]); if a.Sb? then Some(a.fields) else None
      invariant !bad && s == 2 ==> best == Newest(dev.disk)
      invariant best.Some? ==> Sb.Typed(best.value) && Sb.FieldsOk(best.value)
    {
      var ok, page := dev.Read(s);
      if ok {
        var f := Sb.Decode(page);
        DecodedShape(page);
        if f.Sb? && (best.None? || f.fields.gen > best.value.gen) {
          best := Some(f.fields);
        }
      } else {
        bad := true;
      }
      s := s + 1;
    }
  }

  /** The blocks of the inode table. */
  method ReadArea(dev: Device, area: nat) returns (ok: bool, pages: seq<Page>)
    ensures ok ==> area + Sb.ITAB_BLOCKS <= |dev.disk| && pages == dev.disk[area..area + Sb.ITAB_BLOCKS]
    ensures dev.reliable && area + Sb.ITAB_BLOCKS <= |dev.disk| ==> ok
  {
    pages := [];
    var b := 0;
    ok := true;
    while b < Sb.ITAB_BLOCKS
      invariant b <= Sb.ITAB_BLOCKS && |pages| == b && ok
      invariant b > 0 ==> area + b <= |dev.disk|
      invariant forall c :: 0 <= c < b ==> pages[c] == dev.disk[area + c]
    {
      var page: Page;
      ok, page := dev.Read(area + b);
      if !ok { return; }
      pages := pages + [page];
      b := b + 1;
    }
  }

  /** inode_decode: the record, then its chain, block by block. */
  method DecodeRecord(dev: Device, r: seq<byte>) returns (ok: bool, n: Node, ghost bad: bool)
    requires |r| == RECORD
    ensures !bad ==> (ok <==> ReadRecord(dev.disk, r).Some?)
    ensures ok ==> ReadRecord(dev.disk, r) == Some(n)
    ensures dev.reliable ==> (ok <==> ReadRecord(dev.disk, r).Some?)
    ensures bad ==> !ok && !dev.reliable
  {
    hide Field, ReadExtents;
    bad := false;
    n := Node(false, Field(r, 4, 4), Field(r, 8, 8), r[16..112][NAME - 1 := 0], [], []);
    if Field(r, 0, 4) == 0 { return true, n, false; }
    if Field(r, 120, 4) > INLINE { return false, n, false; }
    var blk: nat := Field(r, 112, 8);
    var list, chain: seq<nat> := ReadExtents(r, 128, Field(r, 120, 4)), [];
    while blk != 0
      invariant |chain| <= MAX_CHAIN
      invariant ReadChain(dev.disk, blk, list, chain) ==
                ReadChain(dev.disk, Field(r, 112, 8), ReadExtents(r, 128, Field(r, 120, 4)), [])
      decreases MAX_CHAIN - |chain|, blk
    {
      if |chain| >= MAX_CHAIN { return false, n, false; }
      var got, page := dev.Read(blk);
      if !got {
        ok, bad := false, blk < |dev.disk|;
        return;
      }
      var cnt := Field(page, 8, 4);
      if cnt > PER_CHAIN || |list| + cnt > MAX_EXT { return false, n, false; }
      list := list + ReadExtents(page, 16, cnt);
      chain := chain + [blk];
      blk := Field(page, 0, 8);
    }
    ok := true;
    n := n.(used := true, list := list, chain := chain);
  }

  /** The range checks of exfs_mount on one file. */
  method CheckNode(n: Node, total: nat) returns (ok: bool)
    ensures ok == NodeFits(n, total)
  {
    var k := 0;
    while k < |n.chain|
      invariant k <= |n.chain|
      invariant forall j :: 0 <= j < k ==> Sb.DATA_START <= n.chain[j] < total
    {
      if n.chain[k] < Sb.DATA_START || n.chain[k] >= total { return false; }
      k := k + 1;
    }
    k := 0;
    while k < |n.list|
      invariant k <= |n.list|
      invariant forall j :: 0 <= j < k ==>
        n.list[j].len != 0 && Sb.DATA_START <= n.list[j].start && (n.list[j].start + n.list[j].len) % U64 <= total
    {
      var e := n.list[k];
      if e.len == 0 || e.start < Sb.DATA_START || (e.start + e.len) % U64 > total { return false; }
      k := k + 1;
    }
    ok := true;
  }

  lemma DecodedShape(p: Page)
    ensures Sb.Decode(p).Sb? ==> Sb.Typed(Sb.Decode(p).fields) && Sb.FieldsOk(Sb.Decode(p).fields)
  {
    hide Sb.ReadFields, Sb.FieldsOk, Sb.Fnv;
  }

  lemma SuperShape(f: Sb.Fields)
    requires Sb.Typed(f) && Sb.FieldsOk(f)
    ensures f.ngroups <= |f.slot| && f.ngroups <= |f.free| && f.itab + Sb.ITAB_BLOCKS <= Sb.DATA_START
  {
  }

  lemma RecoverSuper(d: Disk)
    requires Sized(|d|)
    ensures Recover(d).Some? <==>
      && Newest(d).Some? && Newest(d).value.total == |d| && Newest(d).value.ngroups == GeometryOf(|d|).groups
      && (SbShape(d); ReadNodes(d, Newest(d).value.itab, INODES).Some?)
    ensures Recover(d).Some? ==>
      (SbShape(d); var f := Newest(d).value;
       Recover(d) == Some(Image(f.gen, f.itab, Slots(f), f.free[..f.ngroups], ReadNodes(d, f.itab, INODES).value)))
  {
    hide Newest, ReadNodes, Slots;
  }

  /** Inodes decoded so far have their lists in the pool; the others hold nothing. */
  ghost predicate Loaded(parts: seq<EP.Part>, lists: seq<seq<Extent>>, nodes: seq<Node>) {
    && |parts| == |lists| == INODES && |nodes| <= INODES
    && (forall i :: 0 <= i < |nodes| ==> lists[i] == nodes[i].list && parts[i].cap == CapOf(|nodes[i].list|))
    && (forall i :: |nodes| <= i < INODES ==> lists[i] == [] && parts[i].cap == 0)
  }

  lemma NothingLoaded(d: Disk, area: nat, parts: seq<EP.Part>, lists: seq<seq<Extent>>)
    requires area + Sb.ITAB_BLOCKS <= |d|
    requires parts == seq(EP.INODES, i => EP.NONE) && lists == seq(EP.INODES, i => [])
    ensures ReadNodes(d, area, 0) == Some([]) && Loaded(parts, lists, [])
  {
  }

  lemma {:induction false} ReadNodesEnds(d: Disk, area: nat, k: nat, m: nat)
    requires area + Sb.ITAB_BLOCKS <= |d| && k < m <= INODES
    ensures ReadNodes(d, area, k + 1).None? ==> ReadNodes(d, area, m).None?
    decreases m
  {
    hide ReadRecord, Caps, NodeFits, RecordAt;
    if k + 1 < m {
      ReadNodesEnds(d, area, k, m - 1);
    }
  }

  lemma ReadNodesStep(d: Disk, area: nat, k: nat, nodes: seq<Node>, n: Node)
    requires area + Sb.ITAB_BLOCKS <= |d| && k < INODES && ReadNodes(d, area, k) == Some(nodes)
    requires ReadRecord(d, RecordAt(d, area, k)) == Some(n)
    ensures ReadNodes(d, area, k + 1) ==
      if (n.used && !NodeFits(n, |d|)) || Caps(nodes + [n]) > EP.POOL then None else Some(nodes + [n])
  {
    hide ReadRecord, Caps, NodeFits, RecordAt;
  }

  lemma ReadNodesStop(d: Disk, area: nat, k: nat)
    requires area + Sb.ITAB_BLOCKS <= |d| && k < INODES && ReadRecord(d, RecordAt(d, area, k)).None?
    ensures ReadNodes(d, area, k + 1).None?
  {
    hide ReadRecord, Caps, NodeFits, RecordAt;
  }

  /** The files before record k are good, and with its file the lists are too long for the pool. */
  ghost predicate OverAt(d: Disk, area: nat, k: nat) {
    && area + Sb.ITAB_BLOCKS <= |d| && k < INODES && ReadNodes(d, area, k).Some?
    && (var n := ReadRecord(d, RecordAt(d, area, k));
        n.Some? && Caps(ReadNodes(d, area, k).value + [n.value]) > EP.POOL)
  }

  /** The newest superblock belongs to this device, and its files do not fit the pool. */
  ghost predicate PoolOver(d: Disk) {
    && |d| >= 2 && Newest(d).Some? && Newest(d).value.total == |d| && Newest(d).value.ngroups == GeometryOf(|d|).groups
    && exists k: nat :: OverAt(d, Newest(d).value.itab, k)
  }

  /** Reading stops at record i for another reason, or not at all. */
  lemma NotOver(d: Disk, area: nat, i: nat)
    requires area + Sb.ITAB_BLOCKS <= |d| && i <= INODES && ReadNodes(d, area, i).Some?
    requires i < INODES ==> !OverAt(d, area, i) && ReadNodes(d, area, i + 1).None?
    ensures !exists k: nat :: OverAt(d, area, k)
  {
    hide ReadNodes, RecordAt, Caps;
    forall k: nat | k < INODES && k != i
      ensures !OverAt(d, area, k)
    {
      if k < i {
        ReadNodesEnds(d, area, k, i);
        var n := ReadRecord(d, RecordAt(d, area, k));
        if ReadNodes(d, area, k).Some? && n.Some? {
          ReadNodesStep(d, area, k, ReadNodes(d, area, k).value, n.value);
        }
      } else {
        ReadNodesEnds(d, area, i, k);
      }
    }
  }

  lemma LoadedCaps(parts: seq<EP.Part>, lists: seq<seq<Extent>>, nodes: seq<Node>, n: Node)
    requires Loaded(parts, lists, nodes)
    ensures EP.SumCap(parts, EP.INODES) == Caps(nodes) && Caps(nodes + [n]) == Caps(nodes) + CapOf(|n.list|)
  {
    hide EP.CapFor;
    LoadedSum(parts, lists, nodes, INODES);
    assert nodes[..Least(INODES, |nodes|)] == nodes;
    assert (nodes + [n])[..|nodes|] == nodes;
  }

  lemma {:induction false} LoadedSum(parts: seq<EP.Part>, lists: seq<seq<Extent>>, nodes: seq<Node>, k: nat)
    requires Loaded(parts, lists, nodes) && k <= INODES
    ensures EP.SumCap(parts, k) == Caps(nodes[..Least(k, |nodes|)])
  {
    hide EP.CapFor;
    if k > 0 {
      LoadedSum(parts, lists, nodes, k - 1);
      if k <= |nodes| {
        assert nodes[..k][..k - 1] == nodes[..k - 1];
      }
    }
  }

  lemma LoadedSlot(parts: seq<EP.Part>, lists: seq<seq<Extent>>, nodes: seq<Node>)
    requires Loaded(parts, lists, nodes) && |nodes| < INODES
    ensures |parts| == INODES && parts[|nodes|].cap == 0
  {
  }

  lemma LoadedMoved(before: seq<EP.Part>, parts: seq<EP.Part>, lists: seq<seq<Extent>>, nodes: seq<Node>)
    requires Loaded(before, lists, nodes) && EP.SameCaps(parts, before)
    ensures Loaded(parts, lists, nodes)
  {
  }

  lemma LoadedNext(parts: seq<EP.Part>, lists: seq<seq<Extent>>, nodes: seq<Node>, n: Node, spare: EP.Part)
    requires Loaded(parts, lists, nodes) && |nodes| < INODES && spare.cap == CapOf(|n.list|)
    ensures Loaded(parts[|nodes| := EP.Part(spare.off, spare.cap, |n.list|)], lists[|nodes| := n.list], nodes + [n])
  {
  }

  lemma UnusedLoaded(d: Disk, r: seq<byte>, own: seq<int>, parts: seq<EP.Part>, lists: seq<seq<Extent>>, nodes: seq<Node>, n: Node)
    requires |r| == RECORD && ReadRecord(d, r) == Some(n) && !n.used
    requires EP.Owners(own, parts, EP.NONE) && Loaded(parts, lists, nodes) && |nodes| < INODES
    ensures Loaded(parts, lists, nodes + [n]) && Caps(nodes + [n]) <= EP.POOL
  {
    hide ReadChain, Field, ReadExtents, EP.Owners, Caps;
    LoadedCaps(parts, lists, nodes, n);
    EP.FreeRunFits(own, parts, 0, 0);
  }

  lemma AllLoaded(parts: seq<EP.Part>, lists: seq<seq<Extent>>, nodes: seq<Node>)
    requires Loaded(parts, lists, nodes) && |nodes| == INODES
    ensures PoolMatches(parts, lists, nodes)
  {
  }

  /** Mounting a consistent disk re-establishes everything the operations keep. */
  lemma Mounted(geo: GM.Geometry, trace: seq<Disk>, img: Image, epochs: seq<Epoch>)
    requires |trace| > 0 && Good(trace[|trace| - 1], img) && geo == GeometryOf(|trace[|trace| - 1]|)
    requires epochs == [Epoch(|trace| - 1, Some(img), View(trace[|trace| - 1], img.nodes))]
    ensures geo.WellFormed() && GM.SlotsOk(img.slots, geo.groups) && |img.counts| == geo.groups
    ensures GM.TablesFit(geo, trace[|trace| - 1], img.slots, img.counts)
    ensures var d := trace[|trace| - 1];
            var used := GM.UsedBlocks(geo, GM.DiskPages(geo, d, img.slots));
            && Sound(geo, d, img.nodes, Settled(), [], used) && CrashSafe(trace, epochs)
            && Anchored(geo, Some(img), img.gen, img.itab, img.slots, used)
  {
    hide FileOk, Tree, Space, View, GM.TablesFit, GM.UsedBlocks, GM.DiskPages, Recover, AllBlocks, ChainStored, GM.Reserved;
    var d := trace[|trace| - 1];
    var used := GM.UsedBlocks(geo, GM.DiskPages(geo, d, img.slots));
    forall i | 0 <= i < INODES
      ensures ChainOrChanged(d, img.nodes[i], Settled()[i])
    {
      assert ChainStored(d, img.nodes[i].list, img.nodes[i].chain);
    }
    AllBlocksUsed(geo, img.nodes, [], used);
    RecoveredArea(d);
  }

  lemma RecoveredArea(d: Disk)
    requires Sized(|d|) && Recover(d).Some?
    ensures Recover(d).value.itab == Sb.ItabArea(Recover(d).value.gen)
  {
    hide Newest, ReadNodes, Slots;
    RecoverSuper(d);
    SbShape(d);
  }
}
