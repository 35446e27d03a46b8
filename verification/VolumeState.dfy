/**
 What a mounted volume keeps true between operations, as predicates on values:
 files stored and named consistently, space conserved, and every disk content
 since each commit recovering to that commit.
 */
module VolumeState {
  import opened Bytes
  import opened BlockDevice
  import opened Extents
  import opened InodeTable
  import opened Namespace
  import opened Image
  import GM = GroupMap
  import EP = ExtentPool
  import opened Transfer
  import opened ContentIO
  import opened Intervals
  import Sb = Superblock

  const DEFER_MAX: nat := 8192

  // ---- files in memory ----

  ghost predicate ChainOrChanged(d: Disk, n: Node, changed: bool) {
    if changed then n.chain == [] else ChainStored(d, n.list, n.chain)
  }

  /** The files are well stored and named, changed ones await new chains, and space is conserved. */
  ghost predicate Sound(geo: GM.Geometry, d: Disk, files: seq<Node>, changed: seq<bool>,
                        defer: seq<Extent>, used: set<nat>)
  {
    && FilesOk(d, files) && Tree(files) && Space(geo, files, defer, used)
    && |changed| == INODES
    && forall i :: 0 <= i < INODES ==> ChainOrChanged(d, files[i], changed[i])
  }

  lemma FileFrame(d: Disk, e: Disk, n: Node)
    requires FileOk(d, n) && |d| == |e| && forall b :: b in NodeBlocks(n) && b < |d| ==> d[b] == e[b]
    ensures FileOk(e, n) && ViewOf(e, n) == ViewOf(d, n)
    ensures forall c :: ChainOrChanged(d, n, c) ==> ChainOrChanged(e, n, c)
  {
    hide Stored, Content, Typed, ChainStored, Blocks;
    if n.used {
      ContentFrame(d, e, n.list, n.size);
    }
    if ChainStored(d, n.list, n.chain) {
      ChainFrame(d, e, n.list, n.chain);
    }
  }

  /** Replacing one file, while the blocks of the others keep their content. */
  lemma SoundReplace(geo: GM.Geometry, d: Disk, e: Disk, files: seq<Node>, changed: seq<bool>,
                     defer: seq<Extent>, used: set<nat>, i: nat, n: Node, defer': seq<Extent>, used': set<nat>)
    requires Sound(geo, d, files, changed, defer, used) && i < INODES
    requires AgreeOn(d, e, AllBlocks(files))
    requires FileOk(e, n) && n.chain == [] && Tree(files[i := n])
    requires OwnedBy(n) + multiset(Blocks(defer')) + multiset(used) ==
             OwnedBy(files[i]) + multiset(Blocks(defer)) + multiset(used')
    ensures Sound(geo, e, files[i := n], changed[i := true], defer', used')
    ensures View(e, files[i := n]) == View(d, files)[i := ViewOf(e, n)]
  {
    hide FileOk, Tree, Space, OwnedBy, Owned, ViewOf, NodeBlocks, AllBlocks, ChainStored;
    forall j | 0 <= j < INODES && j != i
      ensures FileOk(e, files[j]) && ViewOf(e, files[j]) == ViewOf(d, files[j])
      ensures ChainOrChanged(e, files[j], changed[j])
    {
      assert FileOk(d, files[j]) && ChainOrChanged(d, files[j], changed[j]);
      OthersKept(d, e, files, j);
    }
    assert View(e, files[i := n]) == View(d, files)[i := ViewOf(e, n)];
    SpaceReplace(geo, files, defer, used, i, n, defer', used');
  }

  lemma OthersKept(d: Disk, e: Disk, files: seq<Node>, j: nat)
    requires AgreeOn(d, e, AllBlocks(files)) && j < |files| && FileOk(d, files[j])
    ensures FileOk(e, files[j]) && ViewOf(e, files[j]) == ViewOf(d, files[j])
    ensures forall c :: ChainOrChanged(d, files[j], c) ==> ChainOrChanged(e, files[j], c)
  {
    hide Stored, Content, ChainStored, Blocks, ChainOrChanged, ViewOf;
    var n := files[j];
    if n.used {
      forall b | b in NodeBlocks(n) && b < |d|
        ensures d[b] == e[b]
      {
        NodeInAll(files, j, b);
      }
    } else {
      NoOwnBlocks(n);
    }
    FileFrame(d, e, n);
  }

  lemma NoOwnBlocks(n: Node)
    requires n.list == [] && n.chain == []
    ensures NodeBlocks(n) == {}
  {
  }

  lemma SpaceReplace(geo: GM.Geometry, files: seq<Node>, defer: seq<Extent>, used: set<nat>,
                     i: nat, n: Node, defer': seq<Extent>, used': set<nat>)
    requires Space(geo, files, defer, used) && i < |files|
    requires OwnedBy(n) + multiset(Blocks(defer')) + multiset(used) ==
             OwnedBy(files[i]) + multiset(Blocks(defer)) + multiset(used')
    ensures Space(geo, files[i := n], defer', used')
  {
    hide Owned, OwnedBy, Blocks, GM.Reserved;
    OwnedUpdate(files, i, n);
    var a, b := Owned(files), Owned(files[i := n]);
    var x, y := multiset(Blocks(defer)), multiset(Blocks(defer'));
    var r := multiset(GM.Reserved(geo));
    forall v
      ensures (b + y + r)[v] == multiset(used')[v]
    {
      assert (b + OwnedBy(files[i]))[v] == (a + OwnedBy(n))[v];
      assert (a + x + r)[v] == multiset(used)[v];
      assert (OwnedBy(n) + y + multiset(used))[v] == (OwnedBy(files[i]) + x + multiset(used'))[v];
    }
  }

  // ---- the extent pool holds the lists ----

  ghost predicate PoolMatches(parts: seq<EP.Part>, lists: seq<seq<Extent>>, files: seq<Node>) {
    && |parts| == |lists| == |files| == INODES
    && forall i :: 0 <= i < INODES ==> lists[i] == files[i].list && parts[i].cap == CapOf(|files[i].list|)
  }

  lemma {:induction false} PoolCaps(parts: seq<EP.Part>, lists: seq<seq<Extent>>, files: seq<Node>, k: nat)
    requires PoolMatches(parts, lists, files) && k <= INODES
    ensures Caps(files[..k]) == EP.SumCap(parts, k)
  {
    if k > 0 {
      PoolCaps(parts, lists, files, k - 1);
      assert files[..k][..k - 1] == files[..k - 1];
    }
  }

  // ---- crash safety ----

  /** From disk content number `start` on, the disk recovers to `state`, showing `view`. */
  datatype Epoch = Epoch(start: nat, state: Option<Image>, view: seq<Option<Entry>>)

  /** Mounting this disk gives exactly the epoch's files; with no commit yet, it gives nothing. */
  ghost predicate Recovers(d: Disk, e: Epoch) {
    && Sized(|d|)
    && match e.state
       case None => Newest(d).None?
       case Some(img) => Good(d, img) && View(d, img.nodes) == e.view
  }

  function EndOf(epochs: seq<Epoch>, k: nat, n: nat): nat {
    if k + 1 < |epochs| then epochs[k + 1].start else n
  }

  /** Every disk content in the trace recovers to the commit in force when the disk had it. */
  ghost predicate CrashSafe(trace: seq<Disk>, epochs: seq<Epoch>) {
    && |epochs| > 0
    && (forall k :: 0 <= k < |epochs| ==> epochs[k].start < |trace| && epochs[k].start < EndOf(epochs, k, |trace|))
    && forall k, j :: 0 <= k < |epochs| && epochs[k].start <= j < EndOf(epochs, k, |trace|) && j < |trace| ==>
         Recovers(trace[j], epochs[k])
  }

  ghost function ProtectedBy(geo: GM.Geometry, state: Option<Image>): set<nat>
    requires state.Some? ==> GM.SlotsOk(state.value.slots, geo.groups)
  {
    match state
    case None => {0, 1}
    case Some(img) => Protected(geo, img)
  }

  lemma RecoversFrame(d: Disk, e: Disk, ep: Epoch)
    requires Recovers(d, ep)
    requires ep.state.Some? ==> GM.SlotsOk(ep.state.value.slots, GeometryOf(|d|).groups)
    requires AgreeOn(d, e, ProtectedBy(GeometryOf(|d|), ep.state))
    ensures Recovers(e, ep)
  {
    hide Good, View, Protected, Sb.Decode;
    match ep.state
    case None =>
    case Some(img) =>
      GoodFrame(d, e, img);
      AgreeLen(d, e, ProtectedBy(GeometryOf(|d|), ep.state));
  }

  ghost function LastEpoch(epochs: seq<Epoch>): Epoch
    requires |epochs| > 0
  {
    epochs[|epochs| - 1]
  }

  /** Writes that avoid the protected blocks open no new epoch. */
  lemma CrashSafeExtends(t0: seq<Disk>, t1: seq<Disk>, epochs: seq<Epoch>, blocks: set<nat>)
    requires |t0| > 0 && CrashSafe(t0, epochs) && Through(t0, t1, blocks)
    requires var d, ep := t0[|t0| - 1], LastEpoch(epochs);
             && (ep.state.Some? ==> GM.SlotsOk(ep.state.value.slots, GeometryOf(|d|).groups))
             && forall b :: b in ProtectedBy(GeometryOf(|d|), ep.state) && b < |d| ==> b !in blocks
    ensures CrashSafe(t1, epochs) && |t0| <= |t1|
  {
    hide Recovers, ProtectedBy;
    var d, ep := t0[|t0| - 1], LastEpoch(epochs);
    assert Recovers(d, ep);
    forall k, j | 0 <= k < |epochs| && epochs[k].start <= j < EndOf(epochs, k, |t1|) && j < |t1|
      ensures Recovers(t1[j], epochs[k])
    {
      if j < |t0| {
        assert t1[j] == t1[..|t0|][j];
        assert Recovers(t0[j], epochs[k]);
      } else {
        assert k == |epochs| - 1;
        assert SameExcept(t1[j], d, blocks);
        RecoversFrame(d, t1[j], ep);
      }
    }
  }

  /** One write that makes a new epoch: from that content on the disk recovers to it. */
  lemma CrashSafeCommits(t0: seq<Disk>, d: Disk, epochs: seq<Epoch>, ep: Epoch)
    requires CrashSafe(t0, epochs) && ep.start == |t0| && Recovers(d, ep)
    ensures CrashSafe(t0 + [d], epochs + [ep])
  {
    hide Recovers;
    var t1, es := t0 + [d], epochs + [ep];
    forall k, j | 0 <= k < |es| && es[k].start <= j < EndOf(es, k, |t1|) && j < |t1|
      ensures Recovers(t1[j], es[k])
    {
      if j < |t0| {
        assert k < |epochs| && es[k] == epochs[k];
        assert Recovers(t0[j], epochs[k]);
      }
    }
  }

  /** The committed state and the memory agree on the commit in force, and its blocks are in use. */
  ghost predicate Anchored(geo: GM.Geometry, state: Option<Image>, gen: nat, itab: nat, slot: seq<nat>, used: set<nat>) {
    && GM.SlotsOk(slot, geo.groups)
    && match state
       case None => gen == 0
       case Some(img) =>
         && gen == img.gen && itab == img.itab == Sb.ItabArea(gen) && slot == img.slots
         && AllBlocks(img.nodes) <= used - GM.Reserved(geo)
  }

  /** No write of a transaction hits a block of the committed state. */
  lemma CommittedUntouched(geo: GM.Geometry, state: Option<Image>, gen: nat, itab: nat, slot: seq<nat>, used: set<nat>)
    requires geo.WellFormed() && Anchored(geo, state, gen, itab, slot, used) && GM.Reserved(geo) <= used
    ensures forall b :: b in ProtectedBy(geo, state) && b < geo.total ==> b !in Writable(geo, slot, used)
  {
    hide GM.Reserved, Protected, Writable;
    match state
    case None =>
      forall b | b in {0, 1} && b < geo.total
        ensures b !in Writable(geo, slot, used)
      {
        LowIsReserved(geo, b);
        LowNotPending(geo, slot, used, b);
      }
    case Some(img) =>
      ProtectedUntouched(geo, img, used);
  }

  /** No content the disk passed through differs in a block of the last committed state. */
  ghost predicate SparesCommitted(geo: GM.Geometry, t0: seq<Disk>, t1: seq<Disk>, state: Option<Image>) {
    && (state.Some? ==> GM.SlotsOk(state.value.slots, geo.groups))
    && 0 < |t0| <= |t1| && t1[..|t0|] == t0
    && forall j, b :: |t0| <= j < |t1| && b in ProtectedBy(geo, state) && b < |t1[j]| && b < |t0[|t0| - 1]| && b < geo.total ==>
         t1[j][b] == t0[|t0| - 1][b]
  }

  lemma Spares(geo: GM.Geometry, t0: seq<Disk>, t1: seq<Disk>, state: Option<Image>, gen: nat, itab: nat, slot: seq<nat>,
               used: set<nat>)
    requires geo.WellFormed() && Anchored(geo, state, gen, itab, slot, used) && GM.Reserved(geo) <= used
    requires GM.SlotsOk(slot, geo.groups) && Through(t0, t1, Writable(geo, slot, used))
    ensures SparesCommitted(geo, t0, t1, state)
  {
    CommittedUntouched(geo, state, gen, itab, slot, used);
    hide Anchored, GM.Reserved, Writable, ProtectedBy;
    forall j, b | |t0| <= j < |t1| && b in ProtectedBy(geo, state) && b < |t1[j]| && b < |t0[|t0| - 1]| && b < geo.total
      ensures t1[j][b] == t0[|t0| - 1][b]
    {
      assert SameExcept(t1[j], t0[|t0| - 1], Writable(geo, slot, used));
    }
  }

  lemma SparesSelf(geo: GM.Geometry, t: seq<Disk>, state: Option<Image>, gen: nat, itab: nat, slot: seq<nat>,
                   used: set<nat>)
    requires |t| > 0 && Anchored(geo, state, gen, itab, slot, used)
    ensures SparesCommitted(geo, t, t, state)
  {
  }

  lemma LowNotPending(geo: GM.Geometry, slot: seq<nat>, used: set<nat>, b: nat)
    requires geo.WellFormed() && GM.SlotsOk(slot, geo.groups) && b < Sb.DATA_START && b in used
    ensures b !in Writable(geo, slot, used)
  {
    hide GM.Start;
    if b in GM.PendingBlocks(geo, slot) {
      var g :| 0 <= g < geo.groups && b == geo.SlotBlock(g, 1 - slot[g]);
      SlotPastTables(geo, g, 1 - slot[g]);
    }
  }

  // ---- facts the operations need ----

  lemma SoundShape(geo: GM.Geometry, d: Disk, files: seq<Node>, changed: seq<bool>, defer: seq<Extent>, used: set<nat>)
    requires Sound(geo, d, files, changed, defer, used)
    ensures |files| == |changed| == INODES && Tree(files) && NamesTerminated(files)
    ensures forall i :: 0 <= i < INODES ==> FileOk(d, files[i])
  {
    hide Tree, Space, Stored, Content, ChainOrChanged;
    forall i | 0 <= i < INODES
      ensures |files[i].name| == NAME && files[i].name[NAME - 1] == 0
    {
      assert FileOk(d, files[i]);
    }
  }

  ghost predicate Created(before: seq<Option<Entry>>, after: seq<Option<Entry>>, e: Entry) {
    exists i :: 0 <= i < |before| && before[i].None? && after == before[i := Some(e)] &&
      forall j :: 0 <= j < i ==> before[j].Some?
  }

  /** The first inode that is free takes the new entry. */
  lemma NewNodeOk(geo: GM.Geometry, d: Disk, files: seq<Node>, changed: seq<bool>, defer: seq<Extent>, used: set<nat>,
                  i: nat, n: Node, name: seq<byte>)
    requires Sound(geo, d, files, changed, defer, used) && i < INODES && !files[i].used
    requires forall j :: 0 <= j < i ==> files[j].used
    requires |files[i].name| == NAME && NameOk(name) && 0 !in name && (n.kind == FILE || n.kind == DIR)
    requires n == Node(true, n.kind, 0, Overwrite(files[i].name, name), [], [])
    requires forall j :: 0 <= j < INODES && files[j].used ==> Str(files[j].name) != name
    requires Parent(name) == [] || IsDir(files, Parent(name))
    ensures Sound(geo, d, files[i := n], changed[i := true], defer, used)
    ensures files[i].list == []
    ensures Created(View(d, files), View(d, files[i := n]), Entry(name, n.kind, []))
  {
    hide Sound, Tree, Str, Parent, IsDir, Stored, View, AllBlocks;
    SoundShape(geo, d, files, changed, defer, used);
    OverwriteReads(files[i].name, name);
    TreeAdd(files, i, n);
    EmptyFile(d, n);
    assert AgreeOn(d, d, AllBlocks(files));
    assert OwnedBy(n) == OwnedBy(files[i]) == multiset{} by { EmptyOwned(n); }
    SoundReplace(geo, d, d, files, changed, defer, used, i, n, defer, used);
    assert View(d, files)[i].None? by { ViewAt(d, files, i); }
    forall j | 0 <= j < i
      ensures View(d, files)[j].Some?
    {
      ViewAt(d, files, j);
    }
    assert ViewOf(d, n) == Some(Entry(name, n.kind, []));
  }

  lemma ViewAt(d: Disk, files: seq<Node>, i: nat)
    requires i < |files|
    ensures View(d, files)[i] == ViewOf(d, files[i])
  {
  }

  lemma EmptyOwned(n: Node)
    requires n.list == [] && n.chain == []
    ensures OwnedBy(n) == multiset{}
  {
  }

  lemma EmptyFile(d: Disk, n: Node)
    requires n.list == [] && n.size == 0
    ensures Stored(d, n.list, Content(d, n.list, 0)) && Content(d, n.list, 0) == []
  {
  }

  lemma PoolReplace(parts: seq<EP.Part>, lists: seq<seq<Extent>>, files: seq<Node>, i: nat, n: Node)
    requires PoolMatches(parts, lists, files) && i < INODES && n.list == files[i].list
    ensures PoolMatches(parts, lists, files[i := n])
  {
  }

  lemma AllInUse(d: Disk, files: seq<Node>)
    requires forall i :: 0 <= i < |files| ==> files[i].used
    ensures forall i :: 0 <= i < |files| ==> View(d, files)[i].Some?
  {
    hide Content;
  }

  ghost predicate HasName(v: seq<Option<Entry>>, name: seq<byte>) {
    exists i :: 0 <= i < |v| && v[i].Some? && v[i].value.name == name
  }

  ghost predicate HasDir(v: seq<Option<Entry>>, name: seq<byte>) {
    exists i :: 0 <= i < |v| && v[i].Some? && v[i].value.name == name && v[i].value.kind == DIR
  }

  lemma NamesInView(d: Disk, files: seq<Node>, name: seq<byte>)
    ensures HasName(View(d, files), name) <==> exists i :: 0 <= i < |files| && files[i].used && Str(files[i].name) == name
    ensures HasDir(View(d, files), name) <==> IsDir(files, name)
  {
    hide Str, Content;
    var v := View(d, files);
    if i :| 0 <= i < |files| && files[i].used && Str(files[i].name) == name {
      assert v[i].Some? && v[i].value.name == name;
    }
    if i :| 0 <= i < |files| && files[i].used && files[i].kind == DIR && Str(files[i].name) == name {
      assert v[i].Some? && v[i].value.name == name && v[i].value.kind == DIR;
    }
    if i :| 0 <= i < |v| && v[i].Some? && v[i].value.name == name && v[i].value.kind == DIR {
      assert files[i].used && files[i].kind == DIR && Str(files[i].name) == name;
    }
  }

  lemma DirHasName(v: seq<Option<Entry>>, name: seq<byte>)
    ensures HasDir(v, name) ==> HasName(v, name)
  {
  }

  ghost predicate HasBelow(v: seq<Option<Entry>>, name: seq<byte>) {
    exists i :: 0 <= i < |v| && v[i].Some? && Above(name, v[i].value.name)
  }

  lemma BelowInView(d: Disk, files: seq<Node>, name: seq<byte>)
    ensures HasBelow(View(d, files), name) <==>
      exists i :: 0 <= i < |files| && files[i].used && Above(name, Str(files[i].name))
  {
    hide Str, Content, Above;
    var v := View(d, files);
    if i :| 0 <= i < |files| && files[i].used && Above(name, Str(files[i].name)) {
      assert v[i].Some? && Above(name, v[i].value.name);
    }
  }

  /** The node Find returns is the only one with its name. */
  lemma DirOfName(d: Disk, files: seq<Node>, i: nat, name: seq<byte>)
    requires Tree(files) && i < |files| && files[i].used && Str(files[i].name) == name
    ensures HasName(View(d, files), name)
    ensures HasDir(View(d, files), name) <==> files[i].kind == DIR
  {
    hide Str, NameOk, Parent, View;
    NamesInView(d, files, name);
    assert IsDir(files, name) <==> files[i].kind == DIR;
  }

  lemma NameLength(files: seq<Node>, i: nat)
    requires Tree(files) && i < |files| && files[i].used
    ensures 0 < |Str(files[i].name)| <= NAME_MAX
  {
    hide Str, Parent;
  }

  ghost predicate Removed(before: seq<Option<Entry>>, after: seq<Option<Entry>>, name: seq<byte>) {
    exists i :: 0 <= i < |before| && before[i].Some? && before[i].value.name == name && after == before[i := None]
  }

  lemma DeletedOk(geo: GM.Geometry, d: Disk, files: seq<Node>, changed: seq<bool>, defer: seq<Extent>, used: set<nat>,
                  i: nat, n: Node, defer': seq<Extent>, name: seq<byte>)
    requires Sound(geo, d, files, changed, defer, used) && i < INODES && files[i].used
    requires n == files[i].(used := false, list := [], chain := []) && Str(files[i].name) == name
    requires Blocks(defer') == Blocks(defer) + Blocks(files[i].list) + files[i].chain
    requires files[i].kind != DIR ||
             !exists j :: 0 <= j < |files| && files[j].used && Above(name, Str(files[j].name))
    ensures Sound(geo, d, files[i := n], changed[i := true], defer', used)
    ensures Removed(View(d, files), View(d, files[i := n]), name)
  {
    hide Sound, Tree, Str, Above, View, AllBlocks, Blocks, Stored, Content;
    SoundShape(geo, d, files, changed, defer, used);
    assert FileOk(d, files[i]);
    TreeRemove(files, i, n);
    EmptyOwned(n);
    assert AgreeOn(d, d, AllBlocks(files));
    assert multiset(Blocks(defer')) == multiset(Blocks(defer)) + OwnedBy(files[i]);
    SoundReplace(geo, d, d, files, changed, defer, used, i, n, defer', used);
    ViewAt(d, files, i);
  }

  lemma PoolList(parts: seq<EP.Part>, lists: seq<seq<Extent>>, files: seq<Node>, i: nat)
    requires PoolMatches(parts, lists, files) && i < INODES
    ensures |parts| == |lists| == INODES && lists[i] == files[i].list
  {
  }

  lemma PoolRelease(parts: seq<EP.Part>, lists: seq<seq<Extent>>, files: seq<Node>, i: nat, n: Node)
    requires PoolMatches(parts, lists, files) && i < INODES && n.list == []
    ensures PoolMatches(parts[i := EP.NONE], lists[i := []], files[i := n])
  {
  }

  // ---- writes between commits ----

  lemma SoundFrame(geo: GM.Geometry, d: Disk, e: Disk, files: seq<Node>, changed: seq<bool>,
                   defer: seq<Extent>, used: set<nat>)
    requires Sound(geo, d, files, changed, defer, used) && AgreeOn(d, e, AllBlocks(files))
    ensures Sound(geo, e, files, changed, defer, used) && View(e, files) == View(d, files)
  {
    hide FileOk, Tree, Space, AllBlocks, ChainOrChanged, View;
    forall j | 0 <= j < INODES
      ensures FileOk(e, files[j]) && ChainOrChanged(e, files[j], changed[j])
    {
      assert FileOk(d, files[j]) && ChainOrChanged(d, files[j], changed[j]);
      OthersKept(d, e, files, j);
    }
    ViewFrame(d, e, files);
  }

  lemma WritableClear(geo: GM.Geometry, files: seq<Node>, defer: seq<Extent>, slot: seq<nat>, used: set<nat>)
    requires geo.WellFormed() && GM.SlotsOk(slot, geo.groups) && Space(geo, files, defer, used)
    ensures forall b :: b in AllBlocks(files) && b < geo.total ==> b !in Writable(geo, slot, used)
  {
    hide AllBlocks, GM.Reserved, Run, Space, GM.Start;
    AllBlocksUsed(geo, files, defer, used);
    forall b | b in AllBlocks(files) && b < geo.total
      ensures b !in Writable(geo, slot, used)
    {
      if b in GM.PendingBlocks(geo, slot) {
        var g :| 0 <= g < geo.groups && b == geo.SlotBlock(g, 1 - slot[g]);
        PendingIsReserved(geo, slot, g);
      }
    }
  }

  /** Writes to writable blocks disturb neither the files in memory nor any committed state. */
  lemma TransactionSpares(geo: GM.Geometry, t0: seq<Disk>, t1: seq<Disk>, files: seq<Node>, changed: seq<bool>,
                          defer: seq<Extent>, used: set<nat>, epochs: seq<Epoch>, gen: nat, itab: nat, slot: seq<nat>)
    requires |t0| > 0 && |epochs| > 0 && geo.WellFormed()
    requires Sound(geo, t0[|t0| - 1], files, changed, defer, used)
    requires Anchored(geo, LastEpoch(epochs).state, gen, itab, slot, used)
    requires Through(t0, t1, Writable(geo, slot, used))
    ensures SparesCommitted(geo, t0, t1, LastEpoch(epochs).state)
  {
    hide FilesOk, Tree, Space, AllBlocks, ChainOrChanged, Writable, Through, ProtectedBy, GM.Reserved, SparesCommitted;
    ReservedUsed(geo, files, defer, used);
    Spares(geo, t0, t1, LastEpoch(epochs).state, gen, itab, slot, used);
  }

  lemma TransactionWrites(geo: GM.Geometry, t0: seq<Disk>, t1: seq<Disk>, files: seq<Node>, changed: seq<bool>,
                          defer: seq<Extent>, used: set<nat>, epochs: seq<Epoch>, gen: nat, itab: nat, slot: seq<nat>)
    requires |t0| > 0 && |epochs| > 0 && geo.WellFormed() && geo == GeometryOf(|t0[|t0| - 1]|)
    requires Sound(geo, t0[|t0| - 1], files, changed, defer, used) && CrashSafe(t0, epochs)
    requires Anchored(geo, LastEpoch(epochs).state, gen, itab, slot, used)
    requires Through(t0, t1, Writable(geo, slot, used))
    ensures Sound(geo, t1[|t1| - 1], files, changed, defer, used) && CrashSafe(t1, epochs)
    ensures View(t1[|t1| - 1], files) == View(t0[|t0| - 1], files)
    ensures |t1[|t1| - 1]| == |t0[|t0| - 1]| && |t0| <= |t1|
  {
    hide FilesOk, Tree, Space, AllBlocks, ChainOrChanged, View, Writable, Through, CrashSafe, ProtectedBy, GM.Reserved;
    ThroughLast(t0, t1, Writable(geo, slot, used));
    var d, e := t0[|t0| - 1], t1[|t1| - 1];
    WritableClear(geo, files, defer, slot, used);
    SoundFrame(geo, d, e, files, changed, defer, used);
    ReservedUsed(geo, files, defer, used);
    CommittedUntouched(geo, LastEpoch(epochs).state, gen, itab, slot, used);
    CrashSafeExtends(t0, t1, epochs, Writable(geo, slot, used));
  }

  lemma PendingWritable(geo: GM.Geometry, slot: seq<nat>, used: set<nat>)
    requires GM.SlotsOk(slot, geo.groups)
    ensures GM.PendingBlocks(geo, slot) <= Writable(geo, slot, used)
  {
  }

  ghost predicate Rewritten(before: seq<Option<Entry>>, after: seq<Option<Entry>>, name: seq<byte>, bytes: seq<byte>) {
    exists i :: 0 <= i < |before| && before[i].Some? && before[i].value.name == name && before[i].value.kind == FILE &&
      after == before[i := Some(Entry(name, FILE, bytes))]
  }

  /** Blocks for len bytes; the rounding is done in 64 bits. */
  function BlocksFor(len: nat): nat { ((len + BLOCK - 1) % U64) / BLOCK }

  /** The rounding is right exactly up to 2^64 - 4096 bytes; beyond, it wraps to no block at all. */
  lemma BlocksForExact(len: nat)
    requires len < U64
    ensures BlocksFor(len) == CeilDiv(len) <==> len <= U64 - BLOCK
    ensures len > U64 - BLOCK ==> BlocksFor(len) == 0
  {
  }

  /** Fresh runs are writable and lie outside the map slots. */
  lemma RunsWritable(geo: GM.Geometry, d: Disk, files: seq<Node>, changed: seq<bool>, defer: seq<Extent>,
                     used: set<nat>, now: set<nat>, runs: seq<Extent>, slot: seq<nat>)
    requires Sound(geo, d, files, changed, defer, used) && GM.SlotsOk(slot, geo.groups)
    requires Adds(used, now, Blocks(runs)) && now <= Run(0, geo.total)
    ensures BlockSet(runs) <= Writable(geo, slot, used) && BlockSet(runs) !! GM.AllSlots(geo)
    ensures used <= now
  {
    hide Space, Blocks, FilesOk, Tree, GM.AllSlots, GM.PendingBlocks, ChainOrChanged;
    AddsDistinct(used, now, Blocks(runs));
    ReservedUsed(geo, files, defer, used);
    forall b | b in BlockSet(runs)
      ensures b in now && b !in used
    {
      var l :| 0 <= l < |Blocks(runs)| && Blocks(runs)[l] == b;
    }
    forall b | b in GM.AllSlots(geo) && b < geo.total
      ensures b in used
    {
      assert b in GM.Reserved(geo);
    }
    forall b | b in used
      ensures b in now
    {
      assert b in multiset(now);
    }
  }

  /** Putting n in place of file i accounts for every block. */
  ghost predicate Replaces(geo: GM.Geometry, d: Disk, files: seq<Node>, i: nat, n: Node,
                           defer: seq<Extent>, defer': seq<Extent>, used: set<nat>, used': set<nat>)
  {
    && i < |files| && FileOk(d, n) && n.chain == []
    && n.used == files[i].used && n.kind == files[i].kind && n.name == files[i].name
    && OwnedBy(n) + multiset(Blocks(defer')) + multiset(used) ==
       OwnedBy(files[i]) + multiset(Blocks(defer)) + multiset(used')
  }

  lemma Replaced(geo: GM.Geometry, d: Disk, files: seq<Node>, changed: seq<bool>, defer: seq<Extent>,
                 used: set<nat>, used': set<nat>, i: nat, n: Node, defer': seq<Extent>)
    requires Sound(geo, d, files, changed, defer, used) && i < INODES
    requires Replaces(geo, d, files, i, n, defer, defer', used, used')
    ensures Sound(geo, d, files[i := n], changed[i := true], defer', used')
    ensures View(d, files[i := n]) == View(d, files)[i := ViewOf(d, n)]
  {
    hide Sound, FileOk, Tree, OwnedBy, Blocks, AllBlocks, View, ViewOf;
    SoundShape(geo, d, files, changed, defer, used);
    TreeContent(files, i, n);
    assert AgreeOn(d, d, AllBlocks(files));
    SoundReplace(geo, d, d, files, changed, defer, used, i, n, defer', used');
  }

  lemma AnchoredGrows(geo: GM.Geometry, state: Option<Image>, gen: nat, itab: nat, slot: seq<nat>, used: set<nat>, used': set<nat>)
    requires Anchored(geo, state, gen, itab, slot, used) && used <= used'
    ensures Anchored(geo, state, gen, itab, slot, used')
  {
    hide AllBlocks, GM.Reserved;
  }

  lemma CapHolds(n: nat)
    ensures n <= CapOf(n)
  {
    hide EP.CapFor;
    EP.CapForHolds(n);
  }

  lemma PoolInstall(parts: seq<EP.Part>, lists: seq<seq<Extent>>, files: seq<Node>, i: nat, n: Node, spare: EP.Part)
    requires PoolMatches(parts, lists, files) && i < INODES && spare.cap == CapOf(|n.list|)
    ensures PoolMatches(parts[i := EP.NONE][i := EP.Part(spare.off, spare.cap, |n.list|)],
                        lists[i := []][i := n.list], files[i := n])
  {
    hide EP.CapFor;
  }

  lemma RewriteOk(geo: GM.Geometry, d: Disk, files: seq<Node>, changed: seq<bool>, defer: seq<Extent>,
                  used: set<nat>, used': set<nat>, i: nat, n: Node, defer': seq<Extent>, buf: seq<byte>)
    requires Sound(geo, d, files, changed, defer, used) && i < INODES && files[i].used && files[i].kind == FILE
    requires n == files[i].(size := |buf|, list := n.list, chain := [])
    requires Positive(n.list) && |n.list| <= MAX_EXT && Stored(d, n.list, buf) && |buf| < U64
    requires Inside(n.list, geo.total) && geo.total < U32
    requires Adds(used, used', Blocks(n.list))
    requires Blocks(defer') == Blocks(defer) + Blocks(files[i].list) + files[i].chain
    ensures Replaces(geo, d, files, i, n, defer, defer', used, used')
    ensures Rewritten(View(d, files), View(d, files)[i := ViewOf(d, n)], Str(files[i].name), buf)
  {
    hide Sound, Tree, Blocks, Stored, Content, ChainOrChanged, Str, View;
    SoundShape(geo, d, files, changed, defer, used);
    ViewAt(d, files, i);
    assert FileOk(d, files[i]);
    StoredIsContent(d, n.list, buf);
    assert forall k :: 0 <= k < |n.list| ==> Small(n.list[k]);
    assert multiset(Blocks(defer')) == multiset(Blocks(defer)) + OwnedBy(files[i]);
    assert OwnedBy(n) == multiset(Blocks(n.list));
  }

  ghost predicate Spliced(before: seq<Option<Entry>>, after: seq<Option<Entry>>, name: seq<byte>, off: nat, buf: seq<byte>) {
    exists i :: 0 <= i < |before| && before[i].Some? && before[i].value.name == name && before[i].value.kind == FILE &&
      after == if buf == [] then before
               else before[i := Some(Entry(name, FILE, Splice(before[i].value.bytes, off, buf)))]
  }

  ghost predicate ReadFrom(v: seq<Option<Entry>>, name: seq<byte>, off: nat, cap: nat, out: seq<byte>) {
    exists i :: 0 <= i < |v| && v[i].Some? && v[i].value.name == name && v[i].value.kind == FILE &&
      var bytes := v[i].value.bytes;
      out == if off < |bytes| then bytes[off..off + Least(|bytes| - off, cap)] else []
  }

  lemma NothingSpliced(d: Disk, files: seq<Node>, i: nat, name: seq<byte>, off: nat)
    requires i < |files| && files[i].used && files[i].kind == FILE && Str(files[i].name) == name
    ensures Spliced(View(d, files), View(d, files), name, off, [])
  {
    hide View, Str;
    ViewAt(d, files, i);
  }

  lemma ReadIs(d: Disk, files: seq<Node>, i: nat, name: seq<byte>, off: nat, cap: nat, out: seq<byte>)
    requires i < |files| && files[i].used && files[i].kind == FILE && Str(files[i].name) == name
    requires var bytes := Content(d, files[i].list, files[i].size);
             out == if off < |bytes| then bytes[off..off + Least(|bytes| - off, cap)] else []
    ensures ReadFrom(View(d, files), name, off, cap, out)
  {
    hide View, Str, Content;
    ViewAt(d, files, i);
  }

  lemma ContentSame(d: Disk, e: Disk, files: seq<Node>, i: nat)
    requires View(d, files) == View(e, files) && i < |files| && files[i].used
    ensures Content(d, files[i].list, files[i].size) == Content(e, files[i].list, files[i].size)
  {
    hide View, Content;
    ViewAt(d, files, i);
    ViewAt(e, files, i);
  }

  lemma SoundReserved(geo: GM.Geometry, d: Disk, files: seq<Node>, changed: seq<bool>, defer: seq<Extent>, used: set<nat>)
    requires Sound(geo, d, files, changed, defer, used)
    ensures GM.Reserved(geo) <= used
  {
    hide Space, FilesOk, Tree, GM.Reserved;
    ReservedUsed(geo, files, defer, used);
  }

  lemma FileOrDir(geo: GM.Geometry, d: Disk, files: seq<Node>, changed: seq<bool>, defer: seq<Extent>, used: set<nat>, i: nat)
    requires Sound(geo, d, files, changed, defer, used) && i < INODES && files[i].used
    ensures files[i].kind == FILE || files[i].kind == DIR
  {
    hide Stored, Content, Tree, Space, Blocks;
    assert FileOk(d, files[i]);
  }

  lemma FileFacts(geo: GM.Geometry, d: Disk, files: seq<Node>, changed: seq<bool>, defer: seq<Extent>, used: set<nat>, i: nat)
    requires Sound(geo, d, files, changed, defer, used) && i < INODES && files[i].used
    ensures Positive(files[i].list) && Stored(d, files[i].list, Content(d, files[i].list, files[i].size))
    ensures BlockSet(files[i].list) <= used
  {
    hide Stored, Content, Tree, Space, Blocks;
    assert FileOk(d, files[i]);
    FileBlocksUsed(geo, files, defer, used, i);
    forall b | b in BlockSet(files[i].list)
      ensures b in used
    {
      BlockOfNode(files[i], b);
    }
  }

  /** The state in which exfs_write_at changes memory: list built, fresh blocks written. */
  ghost predicate RangeWritten(geo: GM.Geometry, d: Disk, list: seq<Extent>, runs: seq<Extent>, stage: seq<Extent>,
                               before: seq<byte>, off: nat, buf: seq<byte>, first: nat, last: nat,
                               used: set<nat>, now: set<nat>)
  {
    && last == (off + |buf| - 1) / BLOCK && first == Least(off / BLOCK, |Blocks(list)|) && first <= last
    && |Blocks(runs)| == last + 1 - first && Stored(d, list, before)
    && WrittenTo(d, Blocks(runs), Splice(before, off, buf), first, last + 1 - first)
    && Blocks(stage) == Blocks(list)[..first] + Blocks(runs) + Slice(Blocks(list), last + 1, |Blocks(list)|)
    && Positive(stage) && |stage| <= MAX_EXT && Adds(used, now, Blocks(runs)) && now <= Run(0, geo.total)
  }

  lemma {:induction false} InsideBlocks(list: seq<Extent>, total: nat)
    requires Positive(list) && forall b :: b in Blocks(list) ==> b < total
    ensures Inside(list, total)
    decreases |list|
  {
    hide Blocks;
    forall i | 0 <= i < |list|
      ensures list[i].start + list[i].len <= total
    {
      BlocksStep(list, i);
      var b := Blocks(list[..i + 1]);
      assert b[|b| - 1] == list[i].start + list[i].len - 1;
      assert Blocks(list)[|b| - 1] == b[|b| - 1] && Blocks(list)[|b| - 1] in Blocks(list);
    }
  }

  lemma ListsInside(total: nat, list: seq<Extent>, runs: seq<Extent>, used: set<nat>, now: set<nat>)
    requires Positive(list) && BlockSet(list) <= used && now <= Run(0, total) && total < U32
    requires Inside(runs, total) && Adds(used, now, Blocks(runs))
    ensures Inside(list, U32_MAX) && Inside(runs, U32_MAX)
  {
    hide Blocks;
    forall b | b in Blocks(list)
      ensures b < total
    {
      assert b in BlockSet(list);
      assert b in multiset(used) && b in multiset(now);
    }
    InsideBlocks(list, total);
  }

  lemma StageInside(geo: GM.Geometry, list: seq<Extent>, runs: seq<Extent>, stage: seq<Extent>, first: nat, last: nat,
                    used: set<nat>, now: set<nat>)
    requires first <= |Blocks(list)| && Positive(stage)
    requires Blocks(stage) == Blocks(list)[..first] + Blocks(runs) + Slice(Blocks(list), last + 1, |Blocks(list)|)
    requires BlockSet(list) <= used <= now && now <= Run(0, geo.total) && Adds(used, now, Blocks(runs))
    ensures Inside(stage, geo.total)
  {
    hide Blocks;
    AddsDistinct(used, now, Blocks(runs));
    forall b | b in Blocks(stage)
      ensures b < geo.total
    {
      assert b in Blocks(list) ==> b in BlockSet(list);
    }
    InsideBlocks(stage, geo.total);
  }

  /** Every block of the file is kept, replaced by a fresh one, or deferred; none twice. */
  lemma Regrouped(a: seq<nat>, m: seq<nat>, z: seq<nat>, f: seq<nat>)
    ensures multiset(a + f + z) + multiset(m) == multiset(a + m + z) + multiset(f)
  {
  }

  lemma SpliceAccounts(b: seq<nat>, f: seq<nat>, s: seq<nat>, first: nat, last: nat)
    requires first <= |b| && first <= last
    requires s == b[..first] + f + Slice(b, last + 1, |b|)
    ensures multiset(s) + multiset(Slice(b, first, if last + 1 < |b| then last + 1 else |b|)) == multiset(b) + multiset(f)
  {
    var mid := if last + 1 < |b| then last + 1 else |b|;
    var a, m, z := b[..first], Slice(b, first, mid), Slice(b, last + 1, |b|);
    Regrouped(a, m, z, f);
    assert a + m + z == b;
  }

  lemma RangeOk(geo: GM.Geometry, d: Disk, files: seq<Node>, changed: seq<bool>, defer: seq<Extent>,
                used: set<nat>, now: set<nat>, i: nat, n: Node, more: seq<Extent>, runs: seq<Extent>,
                before: seq<byte>, off: nat, buf: seq<byte>, first: nat, last: nat)
    requires Sound(geo, d, files, changed, defer, used) && i < INODES && files[i].used && files[i].kind == FILE
    requires before == Content(d, files[i].list, files[i].size) && buf != [] && off + |buf| < U64 && geo.total < U32
    requires used <= now && RangeWritten(geo, d, files[i].list, runs, n.list, before, off, buf, first, last, used, now)
    requires n == files[i].(size := if off + |buf| > files[i].size then off + |buf| else files[i].size,
                            list := n.list, chain := [])
    requires Blocks(more) == Blocks(defer) +
               Slice(Blocks(files[i].list), first,
                     if last + 1 < |Blocks(files[i].list)| then last + 1 else |Blocks(files[i].list)|) + files[i].chain
    ensures Replaces(geo, d, files, i, n, defer, more, used, now)
    ensures Spliced(View(d, files), View(d, files)[i := ViewOf(d, n)], Str(files[i].name), off, buf)
  {
    hide Sound, Tree, Blocks, Stored, Content, Str, View, Splice, WrittenTo, Slice;
    SoundShape(geo, d, files, changed, defer, used);
    FileFacts(geo, d, files, changed, defer, used, i);
    assert FileOk(d, files[i]);
    ViewAt(d, files, i);
    var list := files[i].list;
    var s := Splice(before, off, buf);
    SpliceStored(d, list, runs, n.list, before, off, buf, first, last);
    assert |s| == n.size;
    StoredIsContent(d, n.list, s);
    StageInside(geo, list, runs, n.list, first, last, used, now);
    RangeTyped(n, geo.total);
    RangeSpace(list, runs, n, more, defer, files[i], first, last, used, now);
  }

  lemma RangeTyped(n: Node, total: nat)
    requires Inside(n.list, total) && total < U32
    ensures forall k :: 0 <= k < |n.list| ==> Small(n.list[k])
  {
  }

  lemma RangeSpace(list: seq<Extent>, runs: seq<Extent>, n: Node, more: seq<Extent>, defer: seq<Extent>, was: Node,
                   first: nat, last: nat, used: set<nat>, now: set<nat>)
    requires was.used && n.used && n.chain == [] && was.list == list && first <= |Blocks(list)| && first <= last
    requires Blocks(n.list) == Blocks(list)[..first] + Blocks(runs) + Slice(Blocks(list), last + 1, |Blocks(list)|)
    requires Blocks(more) == Blocks(defer) +
               Slice(Blocks(list), first, if last + 1 < |Blocks(list)| then last + 1 else |Blocks(list)|) + was.chain
    requires Adds(used, now, Blocks(runs))
    ensures OwnedBy(n) + multiset(Blocks(more)) + multiset(used) == OwnedBy(was) + multiset(Blocks(defer)) + multiset(now)
  {
    hide Blocks, Slice;
    var out := Slice(Blocks(list), first, if last + 1 < |Blocks(list)| then last + 1 else |Blocks(list)|);
    SpliceAccounts(Blocks(list), Blocks(runs), Blocks(n.list), first, last);
    assert multiset(Blocks(more)) == multiset(Blocks(defer)) + multiset(out) + multiset(was.chain);
    assert OwnedBy(n) == multiset(Blocks(n.list));
    forall v
      ensures (OwnedBy(n) + multiset(Blocks(more)) + multiset(used))[v] ==
              (OwnedBy(was) + multiset(Blocks(defer)) + multiset(now))[v]
    {
      assert (multiset(Blocks(n.list)) + multiset(out))[v] == (multiset(Blocks(list)) + multiset(Blocks(runs)))[v];
      assert multiset(now)[v] == (multiset(used) + multiset(Blocks(runs)))[v];
    }
  }

  lemma SoundReadable(geo: GM.Geometry, d: Disk, files: seq<Node>, changed: seq<bool>, defer: seq<Extent>, used: set<nat>)
    requires Sound(geo, d, files, changed, defer, used)
    ensures FilesOk(d, files) && Tree(files)
  {
    hide FileOk, Tree, Space, ChainOrChanged;
  }

  lemma ReadableShape(d: Disk, files: seq<Node>)
    requires FilesOk(d, files)
    ensures |files| == INODES && NamesTerminated(files)
  {
    hide Stored, Content;
    forall i | 0 <= i < INODES
      ensures |files[i].name| == NAME && files[i].name[NAME - 1] == 0
    {
      assert FileOk(d, files[i]);
    }
  }

  lemma StoredFile(d: Disk, files: seq<Node>, i: nat)
    requires FilesOk(d, files) && i < INODES && files[i].used
    ensures files[i].kind == FILE || files[i].kind == DIR
    ensures Positive(files[i].list) && Stored(d, files[i].list, Content(d, files[i].list, files[i].size))
  {
    hide Stored, Content;
    assert FileOk(d, files[i]);
  }

  /** One epoch was added: generation `gen`, showing `view`. */
  ghost predicate NewEpoch(before: seq<Epoch>, after: seq<Epoch>, gen: nat, view: seq<Option<Entry>>) {
    && |after| == |before| + 1 && after[..|before|] == before
    && LastEpoch(after).view == view && LastEpoch(after).state.Some? && LastEpoch(after).state.value.gen == gen
  }

  /** Epochs opened since start no earlier than the n-th content of the disk. */
  ghost predicate Later(before: seq<Epoch>, after: seq<Epoch>, n: nat) {
    forall k :: |before| <= k < |after| ==> after[k].start >= n
  }

  lemma EpochShows(before: seq<Epoch>, after: seq<Epoch>, gen: nat, view: seq<Option<Entry>>)
    requires NewEpoch(before, after, gen, view)
    ensures |after| > 0 && LastEpoch(after).view == view && LastEpoch(after).state.Some?
  {
  }

  lemma EpochView(trace: seq<Disk>, epochs: seq<Epoch>)
    requires CrashSafe(trace, epochs) && LastEpoch(epochs).state.Some?
    ensures |trace| > 0 && LastEpoch(epochs).view == View(trace[|trace| - 1], LastEpoch(epochs).state.value.nodes)
  {
    hide Good, View;
    var k := |epochs| - 1;
    assert EndOf(epochs, k, |trace|) == |trace|;
    assert Recovers(trace[|trace| - 1], epochs[k]);
  }
}
