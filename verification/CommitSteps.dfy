/**
 The steps of exfs_commit that touch the device: chain blocks for changed
 files, the inode table, and the facts that make the superblock the only
 commit point.
 */
module CommitSteps {
  import opened Bytes
  import opened BlockDevice
  import opened Extents
  import opened InodeTable
  import opened Namespace
  import opened Image
  import opened VolumeState
  import opened Transfer
  import opened ContentIO
  import opened Intervals
  import GM = GroupMap
  import EP = ExtentPool
  import Sb = Superblock

  // ---- step 1: chain blocks, from free blocks only ----

  method TakeChain(gm: GM.GMap, hint: nat, count: nat) returns (ok: bool, chain: seq<nat>, next: nat)
    requires gm.Valid() && gm.Intact() && hint <= gm.geo.total
    modifies gm`written, gm`cache, gm`clock, gm`faulted, gm`failed, gm`free, gm`pages, gm.dev
    ensures gm.Valid() && Through(old(gm.dev.trace), gm.dev.trace, gm.Pending())
    ensures ok ==> gm.Intact() && next <= gm.geo.total && |chain| == count && Adds(old(Used(gm)), Used(gm), chain)
    ensures old(gm.Sure()) ==> gm.Sure() && (|old(Used(gm))| + count <= gm.geo.total ==> ok)
  {
    hide GM.UsedBlocks, GM.Coherent, GM.Counted, Through, GM.PendingBlocks, Run, Adds, GM.Used, GM.Reserved, GM.Flushable;
    chain, next := [], hint;
    ThroughSelf(gm.dev.trace, gm.Pending());
    NoBlocks(Used(gm));
    while |chain| < count
      invariant gm.Valid() && gm.Intact() && (old(gm.Sure()) ==> gm.Sure()) && next <= gm.geo.total && |chain| <= count
      invariant Through(old(gm.dev.trace), gm.dev.trace, gm.Pending())
      invariant Adds(old(Used(gm)), Used(gm), chain)
    {
      label Before:
      var st, start, len := gm.Take(next, 1);
      ThroughTrans(old(gm.dev.trace), old@Before(gm.dev.trace), gm.dev.trace, gm.Pending());
      FullVolume(gm.geo, old(Used(gm)), old@Before(Used(gm)), chain);
      if !st.Ok? || len != 1 {
        ok := false;
        return;
      }
      TookFacts(gm.geo, old@Before(gm.pages), gm.pages, start, len, 1);
      AddsOne(old(Used(gm)), old@Before(Used(gm)), Used(gm), chain, start);
      chain := chain + [start];
      next := start + len;
    }
    ok := true;
  }

  lemma AddsOne(u0: set<nat>, u: set<nat>, u': set<nat>, chain: seq<nat>, b: nat)
    requires Adds(u0, u, chain) && Run(b, 1) !! u && u' == u + Run(b, 1)
    ensures Adds(u0, u', chain + [b])
  {
    hide Run;
    RunMultiset(b, 1);
    assert RunSeq(b, 1) == [b];
    assert multiset(u') == multiset(u) + multiset(Run(b, 1));
  }

  ghost function ChainSet(chain: seq<nat>): set<nat> { set b | b in chain }

  /** Writes the chain pages of one file. */
  method WriteChain(gm: GM.GMap, list: seq<Extent>, chain: seq<nat>, ghost u0: set<nat>) returns (ok: bool)
    requires gm.Valid() && |chain| == ChainLen(|list|) && 0 !in chain
    requires Adds(u0, Used(gm), chain) && ChainSet(chain) !! GM.AllSlots(gm.geo)
    modifies gm.dev
    ensures gm.Valid() && Through(old(gm.dev.trace), gm.dev.trace, ChainSet(chain))
    ensures ok ==> ChainStored(gm.dev.disk, list, chain)
    ensures gm.dev.reliable && gm.geo.total <= gm.dev.size ==> ok
  {
    hide GM.Coherent, GM.Counted, GM.AllSlots, Through, Adds, GM.UsedBlocks, GM.Used, ChainPage, ChainSet;
    ThroughSelf(gm.dev.trace, ChainSet(chain));
    AddsDistinct(u0, Used(gm), chain);
    var k := 0;
    while k < |chain|
      invariant k <= |chain| && gm.Valid()
      invariant Through(old(gm.dev.trace), gm.dev.trace, ChainSet(chain))
      invariant ChainWritten(gm.dev.disk, list, chain, k)
    {
      label Before:
      ChainPart(list, k);
      var page := ChainPage(list, if k + 1 < |chain| then chain[k + 1] else 0, k);
      InChainSet(chain, k);
      TakenInside(gm.geo, gm.pages, u0, chain, k);
      ok := PutBlock(gm, chain[k], page);
      ThroughWiden(old@Before(gm.dev.trace), gm.dev.trace, {chain[k]}, ChainSet(chain));
      ThroughTrans(old(gm.dev.trace), old@Before(gm.dev.trace), gm.dev.trace, ChainSet(chain));
      if !ok {
        return;
      }
      k := k + 1;
    }
    ok := true;
  }

  ghost predicate ChainWritten(d: Disk, list: seq<Extent>, chain: seq<nat>, n: nat) {
    && n <= |chain|
    && forall k :: 0 <= k < n ==>
         && 0 < chain[k] < |d| && ChainFirst(k) <= |list|
         && d[chain[k]] == ChainPage(list, if k + 1 < |chain| then chain[k + 1] else 0, k)
  }

  lemma ChainPart(list: seq<Extent>, k: nat)
    requires k < ChainLen(|list|)
    ensures ChainFirst(k) <= |list|
  {
  }

  lemma InChainSet(chain: seq<nat>, k: nat)
    requires k < |chain|
    ensures chain[k] in ChainSet(chain)
  {
  }

  /** Fresh chain blocks are writable, off the map slots, and past the tables. */
  lemma ChainWritable(geo: GM.Geometry, d: Disk, files: seq<Node>, pend: seq<bool>, defer: seq<Extent>,
                      used: set<nat>, now: set<nat>, chain: seq<nat>, slot: seq<nat>)
    requires Sound(geo, d, files, pend, defer, used) && GM.SlotsOk(slot, geo.groups) && 0 < geo.total
    requires Adds(used, now, chain) && now <= Run(0, geo.total)
    ensures ChainSet(chain) <= Writable(geo, slot, used) && ChainSet(chain) !! GM.AllSlots(geo) && 0 !in chain
    ensures used <= now
  {
    hide Space, FilesOk, Tree, GM.AllSlots, GM.PendingBlocks, ChainOrChanged;
    AddsDistinct(used, now, chain);
    ReservedUsed(geo, files, defer, used);
    LowIsReserved(geo, 0);
    forall b | b in GM.AllSlots(geo) && b < geo.total
      ensures b in used
    {
      assert b in GM.Reserved(geo);
    }
    forall b | b in used
      ensures b in now
    {
      assert b in multiset(now);
    }
  }

  /** A file whose chain has been written is settled. */
  lemma SoundChain(geo: GM.Geometry, d: Disk, files: seq<Node>, pend: seq<bool>, defer: seq<Extent>, used: set<nat>,
                   i: nat, chain: seq<nat>, now: set<nat>)
    requires Sound(geo, d, files, pend, defer, used) && i < INODES && files[i].chain == []
    requires ChainStored(d, files[i].list, chain) && Adds(used, now, chain) && (chain != [] ==> files[i].used)
    ensures Sound(geo, d, files[i := files[i].(chain := chain)], pend[i := false], defer, now)
    ensures View(d, files[i := files[i].(chain := chain)]) == View(d, files)
  {
    hide Space, Tree, Stored, Content, ChainStored, Owned, Blocks;
    var n := files[i].(chain := chain);
    assert FileOk(d, files[i]);
    TreeContent(files, i, n);
    assert OwnedBy(n) == OwnedBy(files[i]) + multiset(chain);
    SpaceReplace(geo, files, defer, used, i, n, defer, now);
    assert View(d, files[i := n]) == View(d, files);
  }

  lemma AlreadySettled(geo: GM.Geometry, d: Disk, files: seq<Node>, pend: seq<bool>, defer: seq<Extent>, used: set<nat>, i: nat)
    requires Sound(geo, d, files, pend, defer, used) && i < INODES && (!files[i].used || !pend[i])
    ensures Sound(geo, d, files, pend[i := false], defer, used)
  {
    hide Tree, Space, Stored, Content;
    assert FileOk(d, files[i]);
    assert ChainOrChanged(d, files[i], pend[i]);
  }

  lemma PendHasNoChain(geo: GM.Geometry, d: Disk, files: seq<Node>, pend: seq<bool>, defer: seq<Extent>, used: set<nat>, i: nat)
    requires Sound(geo, d, files, pend, defer, used) && i < INODES && pend[i]
    ensures files[i].chain == []
  {
    hide Tree, Space, FileOk;
    assert ChainOrChanged(d, files[i], pend[i]);
  }

  lemma ListsFit(d: Disk, files: seq<Node>, i: nat)
    requires FilesOk(d, files) && i < INODES
    ensures |files[i].list| <= MAX_EXT && ChainLen(|files[i].list|) <= MAX_CHAIN
  {
    hide Stored, Content;
    assert FileOk(d, files[i]);
    ChainFits(|files[i].list|);
  }

  // ---- step 2: the deferred blocks ----

  /** Once the deferred blocks are released, the files own everything that is not reserved. */
  lemma DeferredRest(geo: GM.Geometry, files: seq<Node>, defer: seq<Extent>, used: set<nat>) returns (rest: set<nat>)
    requires Space(geo, files, defer, used)
    ensures Adds(rest, used, Blocks(defer)) && Space(geo, files, [], rest) && rest <= used && GM.Reserved(geo) <= rest
  {
    hide Owned, GM.Reserved, Blocks;
    var m := multiset(Blocks(defer));
    rest := set b | b in used && b !in m;
    var keep := Owned(files) + multiset(GM.Reserved(geo));
    forall b
      ensures multiset(rest)[b] == keep[b]
    {
      assert keep[b] + m[b] == multiset(used)[b];
    }
    assert multiset(used) == keep + m;
    NoBlocks(rest);
    assert Owned(files) + multiset([]) + multiset(GM.Reserved(geo)) == keep;
    ReservedUsed(geo, files, [], rest);
  }

  lemma DeferInside(geo: GM.Geometry, defer: seq<Extent>, rest: set<nat>, used: set<nat>)
    requires Adds(rest, used, Blocks(defer)) && used <= Run(0, geo.total) && Positive(defer)
    ensures Inside(defer, geo.total)
  {
    hide Blocks;
    AddsDistinct(rest, used, Blocks(defer));
    InsideBlocks(defer, geo.total);
  }

  // ---- step 4: the inode table ----

  ghost function TableSet(area: nat): set<nat> { Run(area, Sb.ITAB_BLOCKS) }

  method WriteTable(gm: GM.GMap, area: nat, files: seq<Node>) returns (ok: bool)
    requires gm.Valid() && |files| == INODES && NamesTerminated(files)
    requires TableSet(area) !! GM.AllSlots(gm.geo) && area + Sb.ITAB_BLOCKS <= |gm.dev.disk|
    modifies gm.dev
    ensures gm.Valid() && Through(old(gm.dev.trace), gm.dev.trace, TableSet(area))
    ensures |gm.dev.disk| == |old(gm.dev.disk)|
    ensures ok ==> TableWritten(gm.dev.disk, area, files)
    ensures gm.dev.reliable ==> ok
  {
    hide GM.Coherent, GM.Counted, GM.AllSlots, Through, Run, TablePage;
    ThroughSelf(gm.dev.trace, TableSet(area));
    var b := 0;
    while b < Sb.ITAB_BLOCKS
      invariant b <= Sb.ITAB_BLOCKS && gm.Valid() && |gm.dev.disk| == |old(gm.dev.disk)|
      invariant Through(old(gm.dev.trace), gm.dev.trace, TableSet(area))
      invariant forall c :: 0 <= c < b ==> gm.dev.disk[area + c] == TablePage(files, c)
    {
      label Before:
      assert area + b in TableSet(area);
      ok := PutBlock(gm, area + b, TablePage(files, b));
      ThroughWiden(old@Before(gm.dev.trace), gm.dev.trace, {area + b}, TableSet(area));
      ThroughTrans(old(gm.dev.trace), old@Before(gm.dev.trace), gm.dev.trace, TableSet(area));
      if !ok {
        return;
      }
      b := b + 1;
    }
    ok := true;
  }

  /** The next generation's table area belongs to no committed file or map slot, nor to the table in force. */
  lemma TableUntouched(geo: GM.Geometry, state: Option<Image>, gen: nat, itab: nat, slot: seq<nat>, used: set<nat>)
    requires geo.WellFormed() && Sized(geo.total) && Anchored(geo, state, gen, itab, slot, used)
    ensures forall b :: b in ProtectedBy(geo, state) && b < geo.total ==> b !in TableSet(Sb.ItabArea(gen + 1))
  {
    hide AllBlocks, GM.Reserved, GM.Start;
    match state
    case None =>
    case Some(img) =>
      forall b | b in Protected(geo, img) && b < Sb.DATA_START
        ensures b < 2 || b in Run(img.itab, Sb.ITAB_BLOCKS)
      {
        if b in CommittedSlots(geo, img.slots) {
          var g :| 0 <= g < geo.groups && b == geo.SlotBlock(g, img.slots[g]);
          SlotPastTables(geo, g, img.slots[g]);
        }
        LowIsReserved(geo, b);
      }
  }

  lemma TableClear(geo: GM.Geometry, files: seq<Node>, defer: seq<Extent>, used: set<nat>, gen: nat)
    requires geo.WellFormed() && Sized(geo.total) && Space(geo, files, defer, used)
    ensures TableSet(Sb.ItabArea(gen)) !! AllBlocks(files) && TableSet(Sb.ItabArea(gen)) !! GM.AllSlots(geo)
    ensures {gen % 2} !! GM.AllSlots(geo)
  {
    hide AllBlocks, GM.Reserved, GM.Start, Space;
    AllBlocksUsed(geo, files, defer, used);
    forall b | b in AllBlocks(files)
      ensures b !in TableSet(Sb.ItabArea(gen))
    {
      if b < geo.total {
        LowIsReserved(geo, b);
      }
    }
    forall b | b in GM.AllSlots(geo)
      ensures b >= Sb.DATA_START
    {
      var g, t :| 0 <= g < geo.groups && 0 <= t < 2 && b == geo.SlotBlock(g, t);
      SlotPastTables(geo, g, t);
    }
  }

  lemma CountsSmall(geo: GM.Geometry, free: seq<nat>, pages: seq<seq<bool>>)
    requires geo.WellFormed() && GM.PagesOk(pages, geo.groups) && |free| == geo.groups && GM.Counted(geo, free, pages)
    ensures forall g :: 0 <= g < |free| ==> free[g] < U32
  {
    hide GM.CountFree, GM.Start;
  }

  // ---- step 5: the superblock ----

  function Settled(): (c: seq<bool>) { seq(INODES, i => false) }

  lemma SettledChains(geo: GM.Geometry, d: Disk, files: seq<Node>, used: set<nat>)
    requires Sound(geo, d, files, Settled(), [], used)
    ensures ChainsOk(d, files)
  {
    hide Tree, Space, ChainStored, FileOk;
    forall i | 0 <= i < INODES
      ensures ChainStored(d, files[i].list, files[i].chain)
    {
      assert ChainOrChanged(d, files[i], Settled()[i]);
    }
  }

  /** What the files own passes the checks of the next mount. */
  lemma NodesFit(geo: GM.Geometry, d: Disk, files: seq<Node>, defer: seq<Extent>, used: set<nat>, i: nat)
    requires FilesOk(d, files) && Space(geo, files, defer, used) && used <= Run(0, geo.total)
    requires i < INODES && files[i].used && Sized(geo.total)
    ensures NodeFits(files[i], geo.total)
  {
    hide Space, Stored, Content, Blocks, GM.Reserved;
    var n := files[i];
    assert FileOk(d, n);
    FileBlocksUsed(geo, files, defer, used, i);
    forall b | b in NodeBlocks(n)
      ensures Sb.DATA_START <= b < geo.total
    {
      LowIsReserved(geo, b);
    }
    forall k | 0 <= k < |n.chain|
      ensures Sb.DATA_START <= n.chain[k] < geo.total
    {
      assert n.chain[k] in NodeBlocks(n);
    }
    forall b | b in Blocks(n.list)
      ensures b in NodeBlocks(n)
    {
      BlockOfNode(n, b);
    }
    InsideBlocks(n.list, geo.total);
    forall k | 0 <= k < |n.list|
      ensures Sb.DATA_START <= n.list[k].start
    {
      StartInBlocks(n.list, k);
    }
  }

  lemma StartInBlocks(list: seq<Extent>, k: nat)
    requires Positive(list) && k < |list|
    ensures list[k].start in Blocks(list)
  {
    hide Blocks;
    BlocksStep(list, k);
    var l := |Blocks(list[..k])|;
    assert Blocks(list)[l] == Blocks(list[..k + 1])[l] == RunSeq(list[k].start, list[k].len)[0];
  }

  /** Both superblocks on disk are older than the next generation. */
  lemma OlderSuperblocks(d: Disk, ep: Epoch, gen: nat)
    requires Recovers(d, ep) && (match ep.state case None => gen == 0 case Some(img) => gen == img.gen)
    ensures forall b :: 0 <= b < 2 && Sb.Decode(d[b]).Sb? ==> Sb.Decode(d[b]).fields.gen < gen + 1
  {
    hide Sb.Decode, View, ReadNodes, FilesOk, ChainsOk, Tree, GM.TablesFit, Space, Slots;
  }

  /** The disk just before the superblock of generation `gen` is written. */
  ghost predicate ReadyToCommit(geo: GM.Geometry, d: Disk, img: Image, used: set<nat>) {
    && Sized(|d|) && geo == GeometryOf(|d|) && geo.WellFormed()
    && Sound(geo, d, img.nodes, Settled(), [], used) && used <= Run(0, geo.total)
    && 0 < img.gen < U64 && img.itab == Sb.ItabArea(img.gen) && TableWritten(d, img.itab, img.nodes)
    && GM.SlotsOk(img.slots, geo.groups) && |img.counts| == geo.groups
    && (forall g :: 0 <= g < |img.counts| ==> img.counts[g] < U32)
    && GM.TablesFit(geo, d, img.slots, img.counts) && GM.UsedBlocks(geo, GM.DiskPages(geo, d, img.slots)) == used
    && Caps(img.nodes) <= EP.POOL
  }

  function SbPage(img: Image, total: nat): (p: Page)
    requires |img.slots| == |img.counts| <= Sb.MAX_GROUPS && forall g :: 0 <= g < |img.slots| ==> img.slots[g] < 2
  {
    Sb.Encode(SbFor(img.gen, total, img.slots, img.counts))
  }

  lemma ReadyShape(geo: GM.Geometry, d: Disk, img: Image, used: set<nat>)
    requires ReadyToCommit(geo, d, img, used)
    ensures |img.slots| == |img.counts| <= Sb.MAX_GROUPS && forall g :: 0 <= g < |img.slots| ==> img.slots[g] < 2
    ensures |d| >= 2
  {
    hide Sound, TableWritten, GM.TablesFit, GM.UsedBlocks, Caps, GM.Start;
  }

  /** The one write that commits: with it on disk, mounting finds exactly the new files. */
  lemma CommitPoint(geo: GM.Geometry, d: Disk, img: Image, used: set<nat>, ep: Epoch)
    requires ReadyToCommit(geo, d, img, used) && Recovers(d, ep)
    requires match ep.state case None => img.gen == 1 case Some(old_) => img.gen == old_.gen + 1
    requires |img.slots| == |img.counts| <= Sb.MAX_GROUPS && forall g :: 0 <= g < |img.slots| ==> img.slots[g] < 2
    requires |d| >= 2
    ensures var e := d[img.gen % 2 := SbPage(img, |d|)];
            Good(e, img) && View(e, img.nodes) == View(d, img.nodes) && Sound(geo, e, img.nodes, Settled(), [], used)
  {
    hide Sound, Recovers, TableWritten, GM.TablesFit, GM.UsedBlocks, Caps, AllBlocks, View, Recover, FilesOk, ChainsOk, Tree,
         Space, CommitWritten, GM.DiskPages, Sb.Encode, Sb.Decode, NodeFits, GM.Start;
    var e := d[img.gen % 2 := SbPage(img, |d|)];
    LowBlockFree(geo, d, e, img, used);
    SoundFrame(geo, d, e, img.nodes, Settled(), [], used);
    SoundParts(geo, e, img.nodes, Settled(), [], used);
    SettledChains(geo, e, img.nodes, used);
    TablesFrame(geo, d, e, img.slots, img.counts);
    OlderSuperblocks(d, ep, img.gen - 1);
    assert CommitWritten(e, img) by { CommitIsWritten(geo, d, e, img); }
    forall i | 0 <= i < INODES
      ensures Typed(img.nodes[i]) && ChainStored(e, img.nodes[i].list, img.nodes[i].chain)
      ensures img.nodes[i].used ==> NodeFits(img.nodes[i], |e|)
    {
      NodeReady(geo, e, img.nodes, used, i);
    }
    CommitRecovers(e, img);
  }

  lemma SoundParts(geo: GM.Geometry, d: Disk, files: seq<Node>, pend: seq<bool>, defer: seq<Extent>, used: set<nat>)
    requires Sound(geo, d, files, pend, defer, used)
    ensures FilesOk(d, files) && Tree(files) && Space(geo, files, defer, used) && |files| == INODES
  {
    hide Tree, Space, FileOk;
  }

  lemma NodeReady(geo: GM.Geometry, d: Disk, files: seq<Node>, used: set<nat>, i: nat)
    requires FilesOk(d, files) && ChainsOk(d, files) && Space(geo, files, [], used) && used <= Run(0, geo.total)
    requires i < INODES && geo.total == |d| && Sized(|d|)
    ensures Typed(files[i]) && ChainStored(d, files[i].list, files[i].chain)
    ensures files[i].used ==> NodeFits(files[i], |d|)
  {
    hide Space, Stored, Content, ChainStored, NodeFits;
    assert FileOk(d, files[i]);
    if files[i].used {
      NodesFit(geo, d, files, [], used, i);
    }
  }

  /** The superblocks belong to no file and no map slot. */
  lemma LowBlockFree(geo: GM.Geometry, d: Disk, e: Disk, img: Image, used: set<nat>)
    requires |e| == |d| >= 2 && e == d[img.gen % 2 := e[img.gen % 2]] && geo == GeometryOf(|d|) && geo.WellFormed()
    requires Sound(geo, d, img.nodes, Settled(), [], used) && GM.SlotsOk(img.slots, geo.groups)
    ensures AgreeOn(d, e, AllBlocks(img.nodes)) && AgreeOn(d, e, CommittedSlots(geo, img.slots))
  {
    hide AllBlocks, FilesOk, Tree, Space, GM.Reserved, GM.Start;
    AllBlocksUsed(geo, img.nodes, [], used);
    var b := img.gen % 2;
    LowIsReserved(geo, b);
    assert b !in AllBlocks(img.nodes);
    if b in CommittedSlots(geo, img.slots) {
      var g :| 0 <= g < geo.groups && b == geo.SlotBlock(g, img.slots[g]);
      SlotPastTables(geo, g, img.slots[g]);
    }
  }

  lemma CommitIsWritten(geo: GM.Geometry, d: Disk, e: Disk, img: Image)
    requires Sized(|d|) && geo == GeometryOf(|d|) && geo.WellFormed()
    requires 0 < img.gen < U64 && img.itab == Sb.ItabArea(img.gen) && TableWritten(d, img.itab, img.nodes)
    requires GM.SlotsOk(img.slots, geo.groups) && |img.counts| == geo.groups <= Sb.MAX_GROUPS
    requires forall g :: 0 <= g < |img.counts| ==> img.counts[g] < U32
    requires e == d[img.gen % 2 := SbPage(img, |d|)]
    requires forall b :: 0 <= b < 2 && Sb.Decode(d[b]).Sb? ==> Sb.Decode(d[b]).fields.gen < img.gen
    ensures CommitWritten(e, img)
  {
    hide Sb.Encode, Sb.Decode, TablePage, SbFor, GM.Start;
    var o := 1 - img.gen % 2;
    assert e[o] == d[o];
  }

  lemma SoundReleased(geo: GM.Geometry, d: Disk, files: seq<Node>, pend: seq<bool>, defer: seq<Extent>,
                      used: set<nat>, rest: set<nat>)
    requires Sound(geo, d, files, pend, defer, used) && Space(geo, files, [], rest)
    ensures Sound(geo, d, files, pend, [], rest)
  {
    hide FilesOk, Tree, Space, ChainOrChanged;
  }

  lemma AnchoredSlots(geo: GM.Geometry, state: Option<Image>, gen: nat, itab: nat, slot: seq<nat>, used: set<nat>)
    requires Anchored(geo, state, gen, itab, slot, used)
    ensures state.Some? ==> GM.SlotsOk(state.value.slots, geo.groups)
    ensures match state case None => gen == 0 case Some(img) => gen == img.gen
  {
    hide AllBlocks, GM.Reserved;
  }

  lemma AgreeApart(d: Disk, e: Disk, blocks: set<nat>, keep: set<nat>)
    requires SameExcept(e, d, blocks) && blocks !! keep
    ensures AgreeOn(d, e, keep)
  {
  }

  lemma LastRecovers(trace: seq<Disk>, epochs: seq<Epoch>)
    requires CrashSafe(trace, epochs) && |trace| > 0
    ensures Recovers(trace[|trace| - 1], LastEpoch(epochs))
  {
    hide Recovers;
    assert EndOf(epochs, |epochs| - 1, |trace|) == |trace|;
  }

  lemma RecoversGood(d: Disk, img: Image, ep: Epoch)
    requires Good(d, img) && ep.state == Some(img) && ep.view == View(d, img.nodes)
    ensures Recovers(d, ep)
  {
    hide View, Recover, FilesOk, ChainsOk, Tree, Space, GM.TablesFit;
  }

  /** The lists held in the pool fit into it, so the next mount can reserve them all. */
  lemma PoolFits(own: seq<int>, parts: seq<EP.Part>, lists: seq<seq<Extent>>, files: seq<Node>)
    requires EP.Owners(own, parts, EP.NONE) && PoolMatches(parts, lists, files)
    ensures Caps(files) <= EP.POOL
  {
    hide EP.Owners, PoolMatches, Caps, EP.SumCap;
    PoolCaps(parts, lists, files, INODES);
    PoolList(parts, lists, files, 0);
    assert files[..INODES] == files by { PoolSize(parts, lists, files); }
    EP.FreeRunFits(own, parts, 0, 0);
  }

  lemma PoolSize(parts: seq<EP.Part>, lists: seq<seq<Extent>>, files: seq<Node>)
    requires PoolMatches(parts, lists, files)
    ensures |files| == INODES == |parts|
  {
  }

  lemma SoundAnchors(geo: GM.Geometry, d: Disk, files: seq<Node>, used: set<nat>, img: Image, slot: seq<nat>)
    requires Sound(geo, d, files, Settled(), [], used) && img.nodes == files && img.slots == slot
    requires GM.SlotsOk(slot, geo.groups) && img.itab == Sb.ItabArea(img.gen)
    ensures Anchored(geo, Some(img), img.gen, img.itab, slot, used)
  {
    hide FilesOk, Tree, Space, AllBlocks, GM.Reserved;
    AllBlocksUsed(geo, files, [], used);
  }

  // ---- a new volume ----

  /** "|user", "|root", "|bin", "|boot" */
  function SystemName(k: nat): seq<byte>
    requires k < 4
  {
    [[124, 117, 115, 101, 114], [124, 114, 111, 111, 116], [124, 98, 105, 110], [124, 98, 111, 111, 116]][k]
  }

  function SystemView(k: nat): (v: seq<Option<Entry>>)
    requires k <= 4
    ensures |v| == INODES
  {
    seq(INODES, i requires 0 <= i => if i < k then Some(Entry(SystemName(i), DIR, [])) else None)
  }

  lemma SystemFree(d: Disk, files: seq<Node>, k: nat)
    requires |files| == INODES && k < 4 && View(d, files) == SystemView(k)
    ensures NameOk(SystemName(k)) && 0 !in SystemName(k) && Parent(SystemName(k)) == []
    ensures forall j :: 0 <= j < INODES && files[j].used ==> Str(files[j].name) != SystemName(k)
  {
    hide Str, View, Content;
    forall j | 0 <= j < INODES && files[j].used
      ensures Str(files[j].name) != SystemName(k)
    {
      ViewAt(d, files, j);
    }
  }

  lemma SystemNext(before: seq<Option<Entry>>, after: seq<Option<Entry>>, k: nat, ok: bool)
    requires k < 4 && before == SystemView(k)
    requires if ok then Created(before, after, Entry(SystemName(k), DIR, []))
             else after == before && forall i :: 0 <= i < |after| ==> after[i].Some?
    ensures after == SystemView(k + 1)
  {
    hide SystemName;
    assert before[k].None?;
    var i :| 0 <= i < |before| && before[i].None? && after == before[i := Some(Entry(SystemName(k), DIR, []))] &&
             forall j :: 0 <= j < i ==> before[j].Some?;
    assert i == k;
  }

  function Blank(): (files: seq<Node>) { seq(INODES, i => Node(false, 0, 0, Zeros(NAME), [], [])) }

  lemma BlankSound(geo: GM.Geometry, d: Disk)
    ensures Sound(geo, d, Blank(), Settled(), [], GM.Reserved(geo))
    ensures View(d, Blank()) == SystemView(0)
  {
    hide GM.Reserved, Stored, ChainLen, Content;
    var files := Blank();
    assert ChainLen(0) == 0 by { NoChain(); }
    forall i | 0 <= i < INODES
      ensures FileOk(d, files[i]) && ChainOrChanged(d, files[i], Settled()[i])
    {
    }
    BlankOwned(INODES);
    assert files[..INODES] == files;
  }

  lemma NoChain()
    ensures ChainLen(0) == 0
  {
  }

  lemma {:induction false} BlankOwned(k: nat)
    requires k <= INODES
    ensures Owned(Blank()[..k]) == multiset{}
  {
    if k > 0 {
      BlankOwned(k - 1);
      assert Blank()[..k][..k - 1] == Blank()[..k - 1];
    }
  }

  lemma BlankPool(parts: seq<EP.Part>, lists: seq<seq<Extent>>)
    requires parts == seq(EP.INODES, i => EP.NONE) && lists == seq(EP.INODES, i => [])
    ensures PoolMatches(parts, lists, Blank())
  {
  }

  lemma FirstAnchor(geo: GM.Geometry, slot: seq<nat>, used: set<nat>)
    requires slot == seq(geo.groups, g => 0)
    ensures Anchored(geo, None, 0, 0, slot, used)
  {
  }

  lemma FirstSlotsHigh(geo: GM.Geometry)
    requires geo.WellFormed()
    ensures forall b :: b in ProtectedBy(geo, None) ==> b !in GM.FirstSlots(geo)
  {
    hide GM.Start;
    forall b | b in GM.FirstSlots(geo)
      ensures b >= Sb.DATA_START
    {
      var g :| 0 <= g < geo.groups && b == geo.SlotBlock(g, 0);
      SlotPastTables(geo, g, 0);
    }
  }

  lemma NoVolumeYet(trace: seq<Disk>, epochs: seq<Epoch>)
    requires |trace| > 0 && Sized(|trace[|trace| - 1]|) && Newest(trace[|trace| - 1]).None?
    requires epochs == [Epoch(|trace| - 1, None, [])]
    ensures CrashSafe(trace, epochs)
  {
    hide Newest;
  }

  lemma EpochAppended(before: seq<Epoch>, after: seq<Epoch>, gen: nat, view: seq<Option<Entry>>)
    requires NewEpoch(before, after, gen, view)
    ensures |after| == |before| + 1 && after[..|before|] == before && (|before| > 0 ==> after[0] == before[0])
  {
  }

  lemma EpochsKept(before: seq<Epoch>, after: seq<Epoch>, gen: nat, view: seq<Option<Entry>>)
    requires |before| > 0 && (after == before || NewEpoch(before, after, gen, view))
    ensures |after| > 0 && after[0] == before[0]
  {
    assert after[..|before|][0] == after[0];
  }
}
