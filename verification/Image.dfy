/**
 What a disk means to exfs_mount: the newest valid superblock, the inode table
 it names, the files of that table, and the bitmap in the slots it names.
 */
module Image {
  import opened Bytes
  import opened BlockDevice
  import opened Extents
  import opened InodeTable
  import opened Namespace
  import opened Intervals
  import GM = GroupMap
  import EP = ExtentPool
  import Sb = Superblock

  const PER_PAGE: nat := 16       // records per block

  function GeometryOf(total: nat): GM.Geometry {
    GM.Geometry(total, GM.BITS, (total + GM.BITS - 1) / GM.BITS)
  }

  predicate Sized(total: nat) {
    Sb.DATA_START + 16 <= total <= Sb.MAX_BLOCKS
  }

  lemma {:induction false} StartBits(g: nat)
    ensures GM.Start(GM.BITS, g) == g * GM.BITS
  {
    GM.StartIsProduct(GM.BITS, g);
  }

  lemma GeometryOk(total: nat)
    requires Sized(total)
    ensures GeometryOf(total).WellFormed()
  {
    var n := GeometryOf(total).groups;
    StartBits(n - 1);
    StartBits(n);
  }

  datatype Image = Image(gen: nat, itab: nat, slots: seq<nat>, counts: seq<nat>, nodes: seq<Node>)

  // ---- the superblock in force ----

  function Newest(d: Disk): Option<Sb.Fields>
    requires |d| >= 2
  {
    var a, b := Sb.Decode(d[0]), Sb.Decode(d[1]);
    if a.Sb? && b.Sb? then Some(if b.fields.gen > a.fields.gen then b.fields else a.fields)
    else if a.Sb? then Some(a.fields)
    else if b.Sb? then Some(b.fields)
    else None
  }

  /** A commit's superblock becomes the newest exactly if the 64-bit generation did not wrap. */
  lemma CommitIsNewest(d: Disk, gen: nat, f: Sb.Fields, page: Page)
    requires |d| >= 2 && gen < U64 && Newest(d).Some? && Newest(d).value.gen == gen
    requires Sb.Decode(d[gen % 2]) == Sb.Sb(Newest(d).value)
    requires Sb.Decode(page) == Sb.Sb(f) && f.gen == (gen + 1) % U64
    ensures Newest(d[f.gen % 2 := page]) == Some(f) <==> gen + 1 < U64
    ensures gen + 1 == U64 ==> Newest(d[f.gen % 2 := page]) == Newest(d)
  {
    hide Sb.Decode;
    assert f.gen % 2 == 1 - gen % 2;
  }

  /** A format's superblock, of generation 1, becomes the newest exactly if slot 0 holds none of generation 1 or more. */
  lemma FormatIsNewest(d: Disk, f: Sb.Fields, page: Page)
    requires |d| >= 2 && Sb.Decode(page) == Sb.Sb(f) && f.gen == 1 && Sb.Decode(d[0]) != Sb.Sb(f)
    ensures Newest(d[1 := page]) == Some(f) <==> !(Sb.Decode(d[0]).Sb? && Sb.Decode(d[0]).fields.gen >= 1)
  {
    hide Sb.Decode;
  }

  // ---- the inode table ----

  function RecordAt(d: Disk, area: nat, i: nat): (r: seq<byte>)
    requires area + Sb.ITAB_BLOCKS <= |d| && i < INODES
    ensures |r| == RECORD
  {
    d[area + i / PER_PAGE][RECORD * (i % PER_PAGE)..RECORD * (i % PER_PAGE) + RECORD]
  }

  /** The checks of exfs_mount on a decoded file; the end of an extent is computed in 64 bits. */
  predicate NodeFits(n: Node, total: nat) {
    && (forall k :: 0 <= k < |n.chain| ==> Sb.DATA_START <= n.chain[k] < total)
    && (forall k :: 0 <= k < |n.list| ==>
          n.list[k].len != 0 && Sb.DATA_START <= n.list[k].start && (n.list[k].start + n.list[k].len) % U64 <= total)
  }

  /** Pool slots a list of n extents reserves. */
  function CapOf(n: nat): nat { if n == 0 then 0 else EP.CapFor(n) }

  function Caps(nodes: seq<Node>): nat {
    if nodes == [] then 0 else Caps(nodes[..|nodes| - 1]) + CapOf(|nodes[|nodes| - 1].list|)
  }

  function ReadNodes(d: Disk, area: nat, k: nat): (r: Option<seq<Node>>)
    requires area + Sb.ITAB_BLOCKS <= |d| && k <= INODES
    ensures r.Some? ==> |r.value| == k
  {
    if k == 0 then Some([])
    else
      var before := ReadNodes(d, area, k - 1);
      var n := ReadRecord(d, RecordAt(d, area, k - 1));
      if before.None? || n.None? then None
      else if n.value.used && !NodeFits(n.value, |d|) then None
      else if Caps(before.value + [n.value]) > EP.POOL then None
      else Some(before.value + [n.value])
  }

  /** What exfs_mount adopts when every block can be read. */
  function Recover(d: Disk): Option<Image>
    requires Sized(|d|)
  {
    var sb := Newest(d);
    if sb.None? || sb.value.total != |d| || sb.value.ngroups != GeometryOf(|d|).groups then None
    else
      SbShape(d);
      var nodes := ReadNodes(d, sb.value.itab, INODES);
      if nodes.None? then None
      else Some(Image(sb.value.gen, sb.value.itab, Slots(sb.value), sb.value.free[..sb.value.ngroups], nodes.value))
  }

  lemma SbShape(d: Disk)
    requires |d| >= 2 && Newest(d).Some?
    ensures Sb.Typed(Newest(d).value) && Sb.FieldsOk(Newest(d).value)
  {
    hide Sb.ReadFields, Sb.FieldsOk, Sb.Fnv;
  }

  function Slots(f: Sb.Fields): (s: seq<nat>)
    requires f.ngroups <= |f.slot|
    ensures GM.SlotsOk(s, f.ngroups)
  {
    seq(f.ngroups, g requires 0 <= g < f.ngroups => if f.slot[g] != 0 then 1 else 0)
  }

  // ---- frames: recovery reads only these blocks ----

  ghost function NodeBlocks(n: Node): set<nat> {
    (set b | b in Blocks(n.list)) + (set b | b in n.chain)
  }

  ghost function AllBlocks(nodes: seq<Node>): set<nat> {
    set i, b | 0 <= i < |nodes| && nodes[i].used && b in NodeBlocks(nodes[i]) :: b
  }

  ghost function CommittedSlots(geo: GM.Geometry, slots: seq<nat>): set<nat>
    requires GM.SlotsOk(slots, geo.groups)
  {
    set g | 0 <= g < geo.groups :: geo.SlotBlock(g, slots[g])
  }

  /** Both superblocks, the table area in force, the committed slots, and every block of a committed file. */
  ghost function Protected(geo: GM.Geometry, img: Image): set<nat>
    requires GM.SlotsOk(img.slots, geo.groups)
  {
    {0, 1} + Run(img.itab, Sb.ITAB_BLOCKS) + CommittedSlots(geo, img.slots) + AllBlocks(img.nodes)
  }

  ghost predicate AgreeOn(d: Disk, e: Disk, blocks: set<nat>) {
    |d| == |e| && forall b :: b in blocks && b < |d| ==> d[b] == e[b]
  }

  lemma {:induction false} ReadChainFrame(d: Disk, e: Disk, blk: nat, list: seq<Extent>, chain: seq<nat>)
    requires |d| == |e| && ReadChain(d, blk, list, chain).Some?
    requires forall b :: b in ReadChain(d, blk, list, chain).value.1 && b < |d| ==> d[b] == e[b]
    ensures ReadChain(e, blk, list, chain) == ReadChain(d, blk, list, chain)
    ensures chain <= ReadChain(d, blk, list, chain).value.1
    decreases MAX_CHAIN - |chain|
  {
    hide Field, ReadExtents;
    if blk != 0 {
      var cnt := Field(d[blk], 8, 4);
      var next, more := Field(d[blk], 0, 8), list + ReadExtents(d[blk], 16, cnt);
      ReadChainGrows(d, next, more, chain + [blk]);
      assert (chain + [blk])[|chain|] == blk;
      assert ReadChain(d, blk, list, chain).value.1[|chain|] == blk;
      ReadChainFrame(d, e, next, more, chain + [blk]);
    }
  }

  lemma {:induction false} ReadChainGrows(d: Disk, blk: nat, list: seq<Extent>, chain: seq<nat>)
    requires ReadChain(d, blk, list, chain).Some?
    ensures chain <= ReadChain(d, blk, list, chain).value.1
    decreases MAX_CHAIN - |chain|
  {
    hide Field, ReadExtents;
    if blk != 0 {
      var cnt := Field(d[blk], 8, 4);
      ReadChainGrows(d, Field(d[blk], 0, 8), list + ReadExtents(d[blk], 16, cnt), chain + [blk]);
    }
  }

  lemma ReadRecordFrame(d: Disk, e: Disk, r: seq<byte>)
    requires |r| == RECORD && |d| == |e| && ReadRecord(d, r).Some?
    requires forall b :: b in ReadRecord(d, r).value.chain && b < |d| ==> d[b] == e[b]
    ensures ReadRecord(e, r) == ReadRecord(d, r)
  {
    hide Field, ReadExtents, ReadChain;
    if Field(r, 0, 4) != 0 {
      ReadChainFrame(d, e, Field(r, 112, 8), ReadExtents(r, 128, Field(r, 120, 4)), []);
    }
  }

  lemma {:induction false} ReadNodesFrame(d: Disk, e: Disk, area: nat, k: nat)
    requires area + Sb.ITAB_BLOCKS <= |d| == |e| && k <= INODES
    requires ReadNodes(d, area, k).Some?
    requires forall b :: area <= b < area + Sb.ITAB_BLOCKS ==> d[b] == e[b]
    requires forall i, b :: 0 <= i < k && b in ReadNodes(d, area, k).value[i].chain && b < |d| ==> d[b] == e[b]
    ensures ReadNodes(e, area, k) == ReadNodes(d, area, k)
  {
    hide ReadRecord, Caps, NodeFits;
    if k > 0 {
      var all := ReadNodes(d, area, k).value;
      assert all[..k - 1] == ReadNodes(d, area, k - 1).value;
      ReadNodesFrame(d, e, area, k - 1);
      assert all[k - 1] == ReadRecord(d, RecordAt(d, area, k - 1)).value;
      ReadRecordFrame(d, e, RecordAt(d, area, k - 1));
    }
  }

  /** Recovery depends on the protected blocks alone. */
  lemma RecoverFrame(d: Disk, e: Disk)
    requires Sized(|d|) && Recover(d).Some?
    requires AgreeOn(d, e, Protected(GeometryOf(|d|), Recover(d).value))
    ensures Recover(e) == Recover(d)
  {
    hide Sb.Decode, ReadNodes, ReadRecord, Slots, Run;
    var img := Recover(d).value;
    assert 0 in Protected(GeometryOf(|d|), img) && 1 in Protected(GeometryOf(|d|), img);
    SbShape(d);
    forall b | img.itab <= b < img.itab + Sb.ITAB_BLOCKS
      ensures d[b] == e[b]
    {
      assert b in Run(img.itab, Sb.ITAB_BLOCKS);
    }
    forall i, b | 0 <= i < INODES && b in img.nodes[i].chain && b < |d|
      ensures d[b] == e[b]
    {
      UnusedHasNoChain(d, img.itab, INODES, i);
      assert b in NodeBlocks(img.nodes[i]);
      assert b in AllBlocks(img.nodes);
    }
    ReadNodesFrame(d, e, img.itab, INODES);
  }

  lemma {:induction false} UnusedHasNoChain(d: Disk, area: nat, k: nat, i: nat)
    requires area + Sb.ITAB_BLOCKS <= |d| && i < k <= INODES && ReadNodes(d, area, k).Some?
    ensures !ReadNodes(d, area, k).value[i].used ==> ReadNodes(d, area, k).value[i].chain == []
  {
    hide ReadChain, Field, ReadExtents, Caps, NodeFits, RecordAt;
    if i < k - 1 {
      UnusedHasNoChain(d, area, k - 1, i);
    }
  }

  // ---- file contents ----

  function CeilDiv(n: nat): nat { (n + BLOCK - 1) / BLOCK }

  /** Block l of a file with these bytes: zeros after the end. */
  function PageOf(bytes: seq<byte>, l: nat): (p: Page) {
    seq(BLOCK, j requires 0 <= j < BLOCK => if BLOCK * l + j < |bytes| then bytes[BLOCK * l + j] else 0)
  }

  /** The blocks of the list hold exactly these bytes, padded with zeros to whole blocks. */
  ghost predicate Stored(d: Disk, list: seq<Extent>, bytes: seq<byte>) {
    && |Blocks(list)| == CeilDiv(|bytes|)
    && forall l :: 0 <= l < |Blocks(list)| ==> Blocks(list)[l] < |d| && d[Blocks(list)[l]] == PageOf(bytes, l)
  }

  /** The bytes of a file as the disk holds them. */
  function ByteAt(d: Disk, blocks: seq<nat>, i: nat): byte {
    if i / BLOCK < |blocks| && blocks[i / BLOCK] < |d| then d[blocks[i / BLOCK]][i % BLOCK] else 0
  }

  function Content(d: Disk, list: seq<Extent>, size: nat): (bytes: seq<byte>)
    ensures |bytes| == size
  {
    seq(size, i requires 0 <= i => ByteAt(d, Blocks(list), i))
  }

  lemma StoredIsContent(d: Disk, list: seq<Extent>, bytes: seq<byte>)
    requires Stored(d, list, bytes)
    ensures Content(d, list, |bytes|) == bytes
  {
    hide Blocks;
    forall i | 0 <= i < |bytes|
      ensures ByteAt(d, Blocks(list), i) == bytes[i]
    {
      var l := i / BLOCK;
      assert l < CeilDiv(|bytes|);
      assert BLOCK * l + i % BLOCK == i;
    }
  }

  lemma ContentFrame(d: Disk, e: Disk, list: seq<Extent>, size: nat)
    requires |d| == |e| && forall b :: b in Blocks(list) && b < |d| ==> d[b] == e[b]
    ensures Content(e, list, size) == Content(d, list, size)
    ensures forall bytes :: Stored(d, list, bytes) ==> Stored(e, list, bytes)
  {
    hide Blocks, PageOf;
    forall i | 0 <= i < size
      ensures ByteAt(e, Blocks(list), i) == ByteAt(d, Blocks(list), i)
    {
    }
  }

  datatype Entry = Entry(name: seq<byte>, kind: nat, bytes: seq<byte>)

  /** The file system a table describes, inode by inode: name, type and bytes. */
  function View(d: Disk, nodes: seq<Node>): (v: seq<Option<Entry>>)
    ensures |v| == |nodes|
  {
    seq(|nodes|, i requires 0 <= i < |nodes| => ViewOf(d, nodes[i]))
  }

  function ViewOf(d: Disk, n: Node): Option<Entry> {
    if n.used then Some(Entry(Str(n.name), n.kind, Content(d, n.list, n.size))) else None
  }

  lemma ViewFrame(d: Disk, e: Disk, nodes: seq<Node>)
    requires AgreeOn(d, e, AllBlocks(nodes))
    ensures View(e, nodes) == View(d, nodes)
  {
    hide Content;
    forall i | 0 <= i < |nodes| && nodes[i].used
      ensures ViewOf(e, nodes[i]) == ViewOf(d, nodes[i])
    {
      forall b | b in Blocks(nodes[i].list) && b < |d|
        ensures d[b] == e[b]
      {
        assert b in NodeBlocks(nodes[i]);
        assert b in AllBlocks(nodes);
      }
      ContentFrame(d, e, nodes[i].list, nodes[i].size);
    }
  }

  // ---- space ----

  function OwnedBy(n: Node): multiset<nat> {
    if n.used then multiset(Blocks(n.list)) + multiset(n.chain) else multiset{}
  }

  function Owned(nodes: seq<Node>): multiset<nat> {
    if nodes == [] then multiset{} else Owned(nodes[..|nodes| - 1]) + OwnedBy(nodes[|nodes| - 1])
  }

  /**
   Conservation: the used blocks are the disjoint union of the reserved ones,
   the extents and chain blocks of the files, and the deferred blocks.
   */
  ghost predicate Space(geo: GM.Geometry, nodes: seq<Node>, defer: seq<Extent>, used: set<nat>) {
    Owned(nodes) + multiset(Blocks(defer)) + multiset(GM.Reserved(geo)) == multiset(used)
  }

  lemma {:induction false} OwnedUpdate(nodes: seq<Node>, i: nat, n: Node)
    requires i < |nodes|
    ensures Owned(nodes[i := n]) + OwnedBy(nodes[i]) == Owned(nodes) + OwnedBy(n)
    decreases |nodes|
  {
    hide OwnedBy;
    var last := |nodes| - 1;
    if i < last {
      OwnedUpdate(nodes[..last], i, n);
      assert nodes[i := n][..last] == nodes[..last][i := n];
      var a, b, x := Owned(nodes[..last]), Owned(nodes[..last][i := n]), OwnedBy(nodes[last]);
      assert Owned(nodes) == a + x && Owned(nodes[i := n]) == b + x;
      assert b + x + OwnedBy(nodes[i]) == (b + OwnedBy(nodes[i])) + x;
      assert a + x + OwnedBy(n) == (a + OwnedBy(n)) + x;
    } else {
      assert nodes[i := n][..last] == nodes[..last];
    }
  }

  lemma {:induction false} OwnedHas(nodes: seq<Node>, i: nat)
    requires i < |nodes|
    ensures OwnedBy(nodes[i]) <= Owned(nodes)
    decreases |nodes|
  {
    hide OwnedBy;
    if i < |nodes| - 1 {
      OwnedHas(nodes[..|nodes| - 1], i);
    }
  }

  lemma ReservedUsed(geo: GM.Geometry, nodes: seq<Node>, defer: seq<Extent>, used: set<nat>)
    requires Space(geo, nodes, defer, used)
    ensures GM.Reserved(geo) <= used
  {
    hide GM.Reserved, Blocks, Owned;
    forall b | b in GM.Reserved(geo)
      ensures b in used
    {
      assert b in multiset(GM.Reserved(geo));
      assert b in multiset(used);
    }
  }

  /** Every block of a file is in use and not reserved. */
  lemma FileBlocksUsed(geo: GM.Geometry, nodes: seq<Node>, defer: seq<Extent>, used: set<nat>, i: nat)
    requires Space(geo, nodes, defer, used) && i < |nodes| && nodes[i].used
    ensures NodeBlocks(nodes[i]) <= used - GM.Reserved(geo)
  {
    hide GM.Reserved, Blocks, Owned;
    OwnedHas(nodes, i);
    forall b | b in NodeBlocks(nodes[i])
      ensures b in used - GM.Reserved(geo)
    {
      assert b in OwnedBy(nodes[i]);
      assert Owned(nodes)[b] >= 1;
      assert multiset(used)[b] >= 1 + multiset(GM.Reserved(geo))[b];
    }
  }

  lemma AllBlocksUsed(geo: GM.Geometry, nodes: seq<Node>, defer: seq<Extent>, used: set<nat>)
    requires Space(geo, nodes, defer, used)
    ensures AllBlocks(nodes) <= used - GM.Reserved(geo)
  {
    hide GM.Reserved, Owned, Space, NodeBlocks;
    forall b | b in AllBlocks(nodes)
      ensures b in used - GM.Reserved(geo)
    {
      var i :| 0 <= i < |nodes| && nodes[i].used && b in NodeBlocks(nodes[i]);
      FileBlocksUsed(geo, nodes, defer, used, i);
    }
  }

  /** Blocks a transaction may write: the pending map slots, and blocks that were free when it began. */
  ghost function Writable(geo: GM.Geometry, slots: seq<nat>, used: set<nat>): set<nat>
    requires GM.SlotsOk(slots, geo.groups)
  {
    GM.PendingBlocks(geo, slots) + (Run(0, geo.total) - used)
  }

  /** No block of the committed volume is ever writable. */
  lemma ProtectedUntouched(geo: GM.Geometry, img: Image, used: set<nat>)
    requires geo.WellFormed() && GM.SlotsOk(img.slots, geo.groups)
    requires img.itab == Sb.ITAB_AREA0 || img.itab == Sb.ITAB_AREA1
    requires GM.Reserved(geo) <= used && AllBlocks(img.nodes) <= used - GM.Reserved(geo)
    ensures forall b :: b in Protected(geo, img) && b < geo.total ==> b !in Writable(geo, img.slots, used)
  {
    hide AllBlocks, Run, GM.Reserved, Protected, GM.PendingBlocks;
    forall b | b in Protected(geo, img) && b < geo.total
      ensures b !in Writable(geo, img.slots, used)
    {
      ProtectedUsed(geo, img, used, b);
      PendingUnprotected(geo, img, used, b);
    }
  }

  lemma ProtectedUsed(geo: GM.Geometry, img: Image, used: set<nat>, b: nat)
    requires GM.SlotsOk(img.slots, geo.groups)
    requires img.itab == Sb.ITAB_AREA0 || img.itab == Sb.ITAB_AREA1
    requires GM.Reserved(geo) <= used && AllBlocks(img.nodes) <= used - GM.Reserved(geo)
    requires b in Protected(geo, img) && b < geo.total
    ensures b in used
  {
    hide AllBlocks, GM.Reserved;
    LowIsReserved(geo, b);
    if b in CommittedSlots(geo, img.slots) {
      var h :| 0 <= h < geo.groups && b == geo.SlotBlock(h, img.slots[h]);
      SlotIsReserved(geo, h, img.slots[h]);
    }
  }

  lemma PendingUnprotected(geo: GM.Geometry, img: Image, used: set<nat>, b: nat)
    requires geo.WellFormed() && GM.SlotsOk(img.slots, geo.groups)
    requires img.itab == Sb.ITAB_AREA0 || img.itab == Sb.ITAB_AREA1
    requires AllBlocks(img.nodes) <= used - GM.Reserved(geo)
    requires b in Protected(geo, img) && b < geo.total
    ensures b !in GM.PendingBlocks(geo, img.slots)
  {
    hide AllBlocks, GM.Reserved, GM.Start;
    if b in GM.PendingBlocks(geo, img.slots) {
      var g :| 0 <= g < geo.groups && b == geo.SlotBlock(g, 1 - img.slots[g]);
      PendingIsReserved(geo, img.slots, g);
      SlotPastTables(geo, g, 1 - img.slots[g]);
      assert b in CommittedSlots(geo, img.slots);
      var h :| 0 <= h < geo.groups && b == geo.SlotBlock(h, img.slots[h]);
      GM.SlotsDistinct(geo, g, 1 - img.slots[g], h, img.slots[h]);
    }
  }

  lemma SlotPastTables(geo: GM.Geometry, g: nat, s: nat)
    requires geo.WellFormed()
    ensures geo.SlotBlock(g, s) >= Sb.DATA_START
  {
    if g > 0 {
      GM.StartMono(geo.gb, 0, g);
    }
  }

  lemma SlotIsReserved(geo: GM.Geometry, g: nat, s: nat)
    requires g < geo.groups && s < 2 && geo.SlotBlock(g, s) < geo.total
    ensures geo.SlotBlock(g, s) in GM.Reserved(geo)
  {
    assert geo.SlotBlock(g, s) in GM.AllSlots(geo);
  }

  lemma PendingIsReserved(geo: GM.Geometry, slots: seq<nat>, g: nat)
    requires GM.SlotsOk(slots, geo.groups) && g < geo.groups && geo.SlotBlock(g, 1 - slots[g]) < geo.total
    ensures geo.SlotBlock(g, 1 - slots[g]) in GM.Reserved(geo)
  {
    SlotIsReserved(geo, g, 1 - slots[g]);
  }

  lemma LowIsReserved(geo: GM.Geometry, b: nat)
    requires b < geo.total
    ensures b < Sb.DATA_START ==> b in GM.Reserved(geo)
  {
    assert b < Sb.DATA_START ==> b in Run(0, GM.DATA_START);
  }

  // ---- consistent disks ----

  ghost predicate FileOk(d: Disk, n: Node) {
    && Typed(n)
    && (n.used ==>
          && (n.kind == FILE || (n.kind == DIR && n.size == 0))
          && Positive(n.list)
          && Stored(d, n.list, Content(d, n.list, n.size)))
  }

  ghost predicate FilesOk(d: Disk, nodes: seq<Node>) {
    |nodes| == INODES && forall i :: 0 <= i < INODES ==> FileOk(d, nodes[i])
  }

  ghost predicate ChainsOk(d: Disk, nodes: seq<Node>) {
    forall i :: 0 <= i < |nodes| ==> ChainStored(d, nodes[i].list, nodes[i].chain)
  }

  /** The disk holds a committed volume, consistent in every respect. */
  ghost predicate Good(d: Disk, img: Image) {
    && Sized(|d|) && Recover(d) == Some(img)
    && FilesOk(d, img.nodes) && ChainsOk(d, img.nodes) && Tree(img.nodes)
    && var geo := GeometryOf(|d|);
    && geo.WellFormed() && GM.SlotsOk(img.slots, geo.groups) && |img.counts| == geo.groups
    && GM.TablesFit(geo, d, img.slots, img.counts)
    && Space(geo, img.nodes, [], GM.UsedBlocks(geo, GM.DiskPages(geo, d, img.slots)))
  }

  lemma NodeInAll(nodes: seq<Node>, i: nat, b: nat)
    requires i < |nodes| && nodes[i].used && b in NodeBlocks(nodes[i])
    ensures b in AllBlocks(nodes)
  {
  }

  lemma FilesFrame(d: Disk, e: Disk, nodes: seq<Node>)
    requires AgreeOn(d, e, AllBlocks(nodes)) && FilesOk(d, nodes)
    ensures FilesOk(e, nodes)
  {
    hide Stored, Content, Typed, NodeBlocks;
    forall i | 0 <= i < INODES
      ensures FileOk(e, nodes[i])
    {
      var n := nodes[i];
      assert FileOk(d, n);
      if n.used {
        forall b | b in Blocks(n.list) && b < |d|
          ensures d[b] == e[b]
        {
          BlockOfNode(n, b);
          NodeInAll(nodes, i, b);
        }
        ContentFrame(d, e, n.list, n.size);
      }
    }
  }

  lemma BlockOfNode(n: Node, b: nat)
    ensures b in NodeBlocks(n) <==> b in Blocks(n.list) || b in n.chain
  {
  }

  lemma ChainFrame(d: Disk, e: Disk, list: seq<Extent>, chain: seq<nat>)
    requires ChainStored(d, list, chain) && |d| == |e|
    requires forall b :: b in chain && b < |d| ==> d[b] == e[b]
    ensures ChainStored(e, list, chain)
  {
    hide ChainPage;
    forall k | 0 <= k < |chain|
      ensures d[chain[k]] == e[chain[k]]
    {
      assert chain[k] in chain;
    }
  }

  lemma ChainsFrame(d: Disk, e: Disk, nodes: seq<Node>)
    requires AgreeOn(d, e, AllBlocks(nodes)) && ChainsOk(d, nodes) && FilesOk(d, nodes)
    ensures ChainsOk(e, nodes)
  {
    hide ChainStored, NodeBlocks, AllBlocks, Stored, Content;
    forall i | 0 <= i < |nodes|
      ensures ChainStored(e, nodes[i].list, nodes[i].chain)
    {
      var n := nodes[i];
      assert FileOk(d, n);
      forall b | b in n.chain && b < |d|
        ensures d[b] == e[b]
      {
        BlockOfNode(n, b);
        NodeInAll(nodes, i, b);
      }
      ChainFrame(d, e, n.list, n.chain);
    }
  }

  lemma TablesFrame(geo: GM.Geometry, d: Disk, e: Disk, slots: seq<nat>, counts: seq<nat>)
    requires geo.WellFormed() && GM.SlotsOk(slots, geo.groups) && |counts| == geo.groups
    requires AgreeOn(d, e, CommittedSlots(geo, slots)) && GM.TablesFit(geo, d, slots, counts)
    ensures GM.TablesFit(geo, e, slots, counts)
    ensures GM.DiskPages(geo, e, slots) == GM.DiskPages(geo, d, slots)
  {
    hide GM.Counted, Unpack;
    forall g | 0 <= g < geo.groups
      ensures d[geo.SlotBlock(g, slots[g])] == e[geo.SlotBlock(g, slots[g])]
    {
      assert geo.SlotBlock(g, slots[g]) in CommittedSlots(geo, slots);
    }
    assert GM.DiskPages(geo, e, slots) == GM.DiskPages(geo, d, slots);
  }

  lemma AgreeSubset(d: Disk, e: Disk, more: set<nat>, some: set<nat>)
    requires AgreeOn(d, e, more) && some <= more
    ensures AgreeOn(d, e, some)
  {
  }

  /** Whatever happens to the other blocks, the committed volume stays as it is. */
  lemma GoodFrame(d: Disk, e: Disk, img: Image)
    requires Good(d, img) && AgreeOn(d, e, Protected(GeometryOf(|d|), img))
    ensures Good(e, img) && View(e, img.nodes) == View(d, img.nodes)
    ensures GM.DiskPages(GeometryOf(|d|), e, img.slots) == GM.DiskPages(GeometryOf(|d|), d, img.slots)
  {
    hide Recover, FilesOk, ChainsOk, Tree, GM.TablesFit, Space, View, AllBlocks, Run, AgreeOn, GM.DiskPages,
         GM.UsedBlocks, CommittedSlots;
    var geo := GeometryOf(|d|);
    var p := Protected(geo, img);
    RecoverFrame(d, e);
    AgreeSubset(d, e, p, AllBlocks(img.nodes));
    AgreeSubset(d, e, p, CommittedSlots(geo, img.slots));
    FilesFrame(d, e, img.nodes);
    ChainsFrame(d, e, img.nodes);
    ViewFrame(d, e, img.nodes);
    TablesFrame(geo, d, e, img.slots, img.counts);
    assert |d| == |e| by { AgreeLen(d, e, p); }
  }

  lemma AgreeLen(d: Disk, e: Disk, blocks: set<nat>)
    requires AgreeOn(d, e, blocks)
    ensures |d| == |e|
  {
  }

  // ---- the disk a commit leaves ----

  function Records(nodes: seq<Node>): (p: seq<byte>)
    requires forall i :: 0 <= i < |nodes| ==> |nodes[i].name| == NAME
    ensures |p| == RECORD * |nodes|
  {
    if nodes == [] then [] else Records(nodes[..|nodes| - 1]) + Record(nodes[|nodes| - 1])
  }

  lemma {:induction false} RecordsAt(nodes: seq<Node>, i: nat)
    requires forall i :: 0 <= i < |nodes| ==> |nodes[i].name| == NAME
    requires i < |nodes|
    ensures Records(nodes)[RECORD * i..RECORD * i + RECORD] == Record(nodes[i])
    decreases |nodes|
  {
    hide Record;
    var last := |nodes| - 1;
    if i < last {
      RecordsAt(nodes[..last], i);
      assert Records(nodes)[RECORD * i..RECORD * i + RECORD] == Records(nodes[..last])[RECORD * i..RECORD * i + RECORD];
    }
  }

  /** Block b of the inode table: sixteen records. */
  function TablePage(nodes: seq<Node>, b: nat): (p: Page)
    requires |nodes| == INODES && b < Sb.ITAB_BLOCKS
    requires forall i :: 0 <= i < |nodes| ==> |nodes[i].name| == NAME
  {
    Records(nodes[PER_PAGE * b..PER_PAGE * b + PER_PAGE])
  }

  ghost predicate TableWritten(d: Disk, area: nat, nodes: seq<Node>) {
    && |nodes| == INODES && area + Sb.ITAB_BLOCKS <= |d|
    && (forall i :: 0 <= i < |nodes| ==> |nodes[i].name| == NAME)
    && forall b :: 0 <= b < Sb.ITAB_BLOCKS ==> d[area + b] == TablePage(nodes, b)
  }

  lemma RecordInTable(d: Disk, area: nat, nodes: seq<Node>, i: nat)
    requires TableWritten(d, area, nodes) && i < INODES
    ensures RecordAt(d, area, i) == Record(nodes[i])
  {
    hide Records, Record;
    var b, k := i / PER_PAGE, i % PER_PAGE;
    assert d[area + b] == TablePage(nodes, b);
    RecordsAt(nodes[PER_PAGE * b..PER_PAGE * b + PER_PAGE], k);
    assert nodes[PER_PAGE * b..PER_PAGE * b + PER_PAGE][k] == nodes[i];
  }

  lemma {:induction false} CapsPrefix(nodes: seq<Node>, k: nat)
    requires k <= |nodes|
    ensures Caps(nodes[..k]) <= Caps(nodes)
    decreases |nodes|
  {
    if k < |nodes| {
      CapsPrefix(nodes[..|nodes| - 1], k);
      assert nodes[..|nodes| - 1][..k] == nodes[..k];
    } else {
      assert nodes[..k] == nodes;
    }
  }

  lemma {:induction false} NodesReadBack(d: Disk, area: nat, nodes: seq<Node>, k: nat)
    requires TableWritten(d, area, nodes) && k <= INODES && |d| <= U64
    requires forall i :: 0 <= i < INODES ==> Typed(nodes[i]) && ChainStored(d, nodes[i].list, nodes[i].chain)
    requires forall i :: 0 <= i < INODES && nodes[i].used ==> NodeFits(nodes[i], |d|)
    requires Caps(nodes) <= EP.POOL
    ensures ReadNodes(d, area, k) == Some(nodes[..k])
  {
    hide ReadRecord, Caps, NodeFits, RecordAt, TableWritten, Typed, ChainStored;
    if k > 0 {
      TableSize(d, area, nodes);
      NodesReadBack(d, area, nodes, k - 1);
      RecordInTable(d, area, nodes, k - 1);
      RecordReadsBack(d, nodes[k - 1]);
      assert nodes[..k - 1] + [nodes[k - 1]] == nodes[..k];
      CapsPrefix(nodes, k);
    }
  }

  lemma TableSize(d: Disk, area: nat, nodes: seq<Node>)
    requires TableWritten(d, area, nodes)
    ensures |nodes| == INODES && area + Sb.ITAB_BLOCKS <= |d|
  {
  }

  /** The superblock fields of a commit. */
  function SbFor(gen: nat, total: nat, slots: seq<nat>, counts: seq<nat>): (f: Sb.Fields)
    requires |slots| == |counts| <= Sb.MAX_GROUPS && forall g :: 0 <= g < |slots| ==> slots[g] < 2
    ensures |f.slot| == |f.free| == Sb.MAX_GROUPS
  {
    Sb.Fields(gen, Sb.ItabArea(gen), Sb.ITAB_BLOCKS, INODES, total, |slots|,
              seq(Sb.MAX_GROUPS, g requires 0 <= g => if g < |slots| then slots[g] else 0),
              seq(Sb.MAX_GROUPS, g requires 0 <= g => if g < |slots| then counts[g] else 0))
  }

  lemma SbForOk(gen: nat, total: nat, slots: seq<nat>, counts: seq<nat>)
    requires 0 < |slots| == |counts| <= Sb.MAX_GROUPS && forall g :: 0 <= g < |slots| ==> slots[g] < 2 && counts[g] < U32
    requires gen < U64 && Sized(total)
    ensures Sb.Typed(SbFor(gen, total, slots, counts)) && Sb.FieldsOk(SbFor(gen, total, slots, counts))
    ensures Slots(SbFor(gen, total, slots, counts)) == slots
    ensures SbFor(gen, total, slots, counts).free[..|slots|] == counts
  {
  }

  /** The fields of a superblock are accepted exactly if they are what a commit of some state writes. */
  lemma AcceptedIsWritten(f: Sb.Fields)
    requires Sb.Typed(f)
    ensures Sb.FieldsOk(f) <==>
      && 0 < f.ngroups <= Sb.MAX_GROUPS && Sized(f.total) && (forall g :: 0 <= g < f.ngroups ==> f.slot[g] < 2)
      && f == SbFor(f.gen, f.total, f.slot[..f.ngroups], f.free[..f.ngroups])
    ensures Sb.FieldsOk(f) ==> f.itab == if f.gen % 2 == 0 then Sb.ITAB_AREA0 else Sb.ITAB_AREA1
  {
    if 0 < f.ngroups <= Sb.MAX_GROUPS && forall g :: 0 <= g < f.ngroups ==> f.slot[g] < 2 {
      var w := SbFor(f.gen, f.total, f.slot[..f.ngroups], f.free[..f.ngroups]);
      assert Sb.FieldsOk(f) ==> f.slot == w.slot && f.free == w.free;
    }
  }

  /** The disk after a commit: new superblock, new table, chain blocks in place. */
  ghost predicate CommitWritten(d: Disk, img: Image) {
    && Sized(|d|) && img.gen < U64 && img.itab == Sb.ItabArea(img.gen)
    && GM.SlotsOk(img.slots, GeometryOf(|d|).groups) && |img.counts| == |img.slots|
    && (forall g :: 0 <= g < |img.counts| ==> img.counts[g] < U32)
    && 0 < |img.slots| <= Sb.MAX_GROUPS
    && d[img.gen % 2] == Sb.Encode(SbFor(img.gen, |d|, img.slots, img.counts))
    && (Sb.Decode(d[1 - img.gen % 2]).Sb? ==> Sb.Decode(d[1 - img.gen % 2]).fields.gen < img.gen)
    && TableWritten(d, img.itab, img.nodes)
  }

  lemma NewestIsCommit(d: Disk, img: Image)
    requires CommitWritten(d, img)
    ensures Newest(d) == Some(SbFor(img.gen, |d|, img.slots, img.counts))
  {
    hide Sb.Decode, Sb.Encode, TableWritten, SbFor;
    var f := SbFor(img.gen, |d|, img.slots, img.counts);
    SbForOk(img.gen, |d|, img.slots, img.counts);
    Sb.DecodeEncode(f);
    assert f.gen == img.gen by { SbForGen(img.gen, |d|, img.slots, img.counts); }
  }

  lemma SbForGen(gen: nat, total: nat, slots: seq<nat>, counts: seq<nat>)
    requires |slots| == |counts| <= Sb.MAX_GROUPS && forall g :: 0 <= g < |slots| ==> slots[g] < 2
    ensures var f := SbFor(gen, total, slots, counts);
            f.gen == gen && f.total == total && f.ngroups == |slots| && f.itab == Sb.ItabArea(gen)
  {
  }

  lemma CommitRecovers(d: Disk, img: Image)
    requires CommitWritten(d, img)
    requires forall i :: 0 <= i < INODES ==> Typed(img.nodes[i]) && ChainStored(d, img.nodes[i].list, img.nodes[i].chain)
    requires forall i :: 0 <= i < INODES && img.nodes[i].used ==> NodeFits(img.nodes[i], |d|)
    requires Caps(img.nodes) <= EP.POOL
    ensures Recover(d) == Some(img)
  {
    hide Newest, Typed, ChainStored, NodeFits, Caps, ReadNodes, TableWritten, Slots, SbFor, Sb.Encode, Sb.Decode;
    NewestIsCommit(d, img);
    SbForOk(img.gen, |d|, img.slots, img.counts);
    SbForGen(img.gen, |d|, img.slots, img.counts);
    SbShape(d);
    NodesReadBack(d, img.itab, img.nodes, INODES);
    TableSize(d, img.itab, img.nodes);
    assert img.nodes[..INODES] == img.nodes;
  }
}
