/** Loads that fail although nothing else is wrong, and what they leave behind. */
module LoadLeftover {
  import opened Bytes
  import opened PhysMem
  import opened TokenLedger
  import opened FrameMemory
  import opened PageTables
  import opened Paging
  import opened Mappings
  import opened AddressSpaces
  import opened Syscalls
  import opened LoadRoom
  import opened LoadTables
  import opened Loader
  import E = Exb
  import X = ExbPack

  /** Room for the whole image, but something is mapped where one of its parts goes. */
  ghost predicate PlaceTaken(s: System, a: Aspace, owner: nat, img: seq<byte>, scratch: E.Info)
    reads s, s.k, s.k.pt, s.k.pt.memory, s.k.pt.memory.phys, s.k.pt.memory.ledger, a
  {
    && s.Valid() && s.k.Handle(a) && !s.k.pt.memory.smp && a.live && a.owner == owner && owner != OWNER_KERNEL
    && E.StatusOf(img) == E.ExbOk && |img| >= E.HEADER && E.TablesFit(E.TablesOf(img), |img|)
    && (var info, t, max := E.InfoOf(img, scratch), s.k.pt.memory.ledger.table, Limit(s.quota, owner);
        && FramesOf(t, owner) + info.imagePages + info.stackBytes / FRAME <= max.frames
        && TokensOf(t, owner) + |info.segs| + 1 <= max.tokens
        && RoomToLoad(s.k.pt.memory.phys.bits, t, s.k.recs, owner, info)
        && ClearParts(s.k.pt.leaf, a.root, info, |info.segs| + 1) <= |info.segs|)
  }

  /**
   Such a load fails, and it holds no frame afterwards exactly if all tables were there
   on the way to the parts before the first whose place is taken, and to that one's pages
   before the taken one.
   */
  method TablesStayBehind(s: System, a: Aspace, owner: nat, img: seq<byte>, scratch: E.Info) returns (rc: LoadStatus)
    requires PlaceTaken(s, a, owner, img, scratch)
    modifies s.k, s.k.pt, s.k.pt.memory, s.k.pt.memory.phys, s.k.pt.memory.ledger
    ensures s.Valid() && rc == LoadMap
    ensures s.k.pt.memory.phys.bits == old(s.k.pt.memory.phys.bits) <==>
      LoadWays(old(s.k.pt.leaf), a.root, E.InfoOf(img, scratch)) <= old(s.k.pt.dir).Keys
  {
    hide Kernel.Consistent, FramesOf, TokensOf, WithinAll, E.StatusOf, E.InfoOf, E.TablesFit, AsBefore, RoomToLoad, ClearParts,
         LoadWays, Going, UsedMore, SegLayers, StackLayer, Balanced, Tree, GrownTo, FreeAgain;
    ghost var info := E.InfoOf(img, scratch);
    ghost var k := s.k;
    ghost var d, bits, t := k.pt.dir, k.pt.memory.phys.bits, k.pt.memory.ledger.table;
    ghost var ways := LoadWays(k.pt.leaf, a.root, info);
    assert img != [] by { OkNotEmpty(img); }
    OneCpuBalance(k);
    ghost var tables := k.pt.memory.tables;
    var out;
    ghost var layers, leaves, mapped, cause;
    rc, out, layers, leaves, mapped, cause := Load(s, a, owner, img, scratch);
    GrownToSame(d, k.pt.dir, ways);
    if k.pt.dir == d {
      NoFrameHeld(bits, k.pt.memory.phys.bits, k.pt.memory.reserved, t, tables);
    } else {
      var f := NewTable(k, d, ways);
      TableHeld(bits, k.pt.memory.phys.bits, tables, k.pt.memory.tables, f);
    }
  }

  /** A table that was not there before is in a frame that held none. */
  lemma NewTable(k: Kernel, d: Dir, ways: set<Key>) returns (f: nat)
    requires k.Valid() && GrownTo(d, k.pt.dir, ways) && k.pt.dir != d
    ensures f in k.pt.dir.Values && f !in d.Values
  {
    hide Mapped, Roots, Capped, Memory.Valid;
    var x :| x in k.pt.dir && x !in d;
    f := k.pt.dir[x];
  }

  lemma TableHeld(was: seq<bool>, now: seq<bool>, before: set<nat>, tables: set<nat>, f: nat)
    requires FreeAgain(was, now, before, tables) && f in tables && f !in before
    ensures now != was
  {
    assert was[f] && !now[f];
  }

  lemma NoFrameHeld(was: seq<bool>, now: seq<bool>, reserved: set<nat>, t: seq<Entry>, tables: set<nat>)
    requires FreeAgain(was, now, tables, tables) && Balanced(was, reserved, t, tables, multiset{})
    ensures now == was
  {
    hide Balanced, TokenFrames;
    forall f | 0 <= f < |was|
      ensures now[f] == was[f]
    {
      InOnePlace(was, reserved, t, tables, multiset{}, f);
      assert multiset(tables)[f] == if f in tables then 1 else 0;
    }
  }

  lemma OkNotEmpty(img: seq<byte>)
    requires E.StatusOf(img) == E.ExbOk
    ensures img != []
  {
    hide E.SegsStatus, E.WantsOf;
  }

  const FRAMES: nat := 300
  const STACK_PAGE: nat := USER_END - 2 * FRAME

  lemma {:induction false} NoRecsLive(recs: seq<MapRec>, owner: nat)
    requires forall i :: 0 <= i < |recs| ==> !recs[i].live
    ensures LiveRecs(recs) == 0 && OwnerRecs(recs, owner) == 0
  {
    if recs != [] {
      NoRecsLive(recs[..|recs| - 1], owner);
    }
  }

  lemma {:induction false} NoneLiveCount(t: seq<Entry>)
    requires forall i :: 0 <= i < |t| ==> !t[i].live
    ensures LiveCount(t) == 0
  {
    if t != [] {
      NoneLiveCount(t[..|t| - 1]);
    }
  }

  lemma RoomAtFirst(bits: seq<bool>, t: seq<Entry>, recs: seq<MapRec>)
    requires bits == seq(FRAMES, i => i > 0)
    requires |t| == SLOTS && forall i :: 0 <= i < |t| ==> !t[i].live
    requires |recs| == MAX_MAPS && forall i :: 0 <= i < |recs| ==> !recs[i].live
    ensures Room(bits, t, recs, 1, FRAMES - 1, 3, 3)
  {
    NoRecsLive(recs, 1);
    NoneLiveCount(t);
    assert FreeRun(bits, 1, FRAMES - 1);
  }

  /** Taking a frame for the root. */
  lemma RoomAfterRoot(bits: seq<bool>, now: seq<bool>, t: seq<Entry>, recs: seq<MapRec>, n: nat)
    requires Room(bits, t, recs, 1, n + 1, 3, 3) && RunsKept(bits, now, 1)
    ensures Room(now, t, recs, 1, n, 3, 3)
  {
    var r: nat :| FreeRun(bits, r, n + 1);
    assert FreeRun(now, r + 1, n + 1 - 1);
  }

  lemma RoomIsFree(bits: seq<bool>, t: seq<Entry>, recs: seq<MapRec>, n: nat)
    requires Room(bits, t, recs, 1, n, 3, 3) && n > 0
    ensures CountFree(bits) > 0
  {
    hide CountFree;
    var r: nat :| FreeRun(bits, r, n);
    RunCounts(bits, r, n);
  }

  /** A kernel after boot, without a process. */
  method Booted() returns (s: System)
    ensures fresh(s.k) && fresh(s.k.pt) && fresh(s.k.pt.memory) && fresh(s.k.pt.memory.phys) && fresh(s.k.pt.memory.ledger)
    ensures s.Valid() && !s.k.pt.memory.smp && s.k.pt.leaf == map[] && s.k.pt.dir == map[]
    ensures s.k.kernelRoot == seq(ENTS, i => Absent)
    ensures Room(s.k.pt.memory.phys.bits, s.k.pt.memory.ledger.table, s.k.recs, 1, FRAMES - 1, 3, 3)
    ensures Limit(s.quota, 1) == Quota(DEFAULT_FRAMES, DEFAULT_TOKENS, false)
    ensures TokensOf(s.k.pt.memory.ledger.table, 1) == 0 && FramesOf(s.k.pt.memory.ledger.table, 1) == 0
  {
    hide Balanced, TokenFrames, Kernel.Consistent, Room, TokensOf, FramesOf, WithinAll, Roomier;
    var m := new Memory(seq(FRAMES, i => i > 0), seq(FRAMES, i => Zeros(FRAME)), false);
    LedgerOk(m);
    var p := new Paging(m, map[]);
    var k := new Kernel(p, seq(ENTS, i => Absent));
    s := new System(k);
    KernelFacts(k);
    RoomAtFirst(m.phys.bits, m.ledger.table, k.recs);
    NothingHeld(m.ledger.table, 1);
  }

  /** A kernel after boot with one process that holds nothing. */
  method OneProcess() returns (s: System, a: Aspace)
    ensures fresh(s.k) && fresh(s.k.pt) && fresh(s.k.pt.memory) && fresh(s.k.pt.memory.phys) && fresh(s.k.pt.memory.ledger)
    ensures s.Valid() && s.k.Handle(a) && !s.k.pt.memory.smp && a.live && a.owner == 1
    ensures s.k.pt.leaf == map[] && s.k.pt.dir == map[Key(a.root, 4, 0) := a.root]
    ensures Room(s.k.pt.memory.phys.bits, s.k.pt.memory.ledger.table, s.k.recs, 1, FRAMES - 2, 3, 3)
    ensures Limit(s.quota, 1) == Quota(DEFAULT_FRAMES, DEFAULT_TOKENS, false)
    ensures TokensOf(s.k.pt.memory.ledger.table, 1) == 0 && FramesOf(s.k.pt.memory.ledger.table, 1) == 0
  {
    hide Kernel.Consistent, Room, TokensOf, FramesOf, RunsKept, WithinAll, Roomier;
    s := Booted();
    var k := s.k;
    a := new Aspace();
    ghost var bits, t, recs := k.pt.memory.phys.bits, k.pt.memory.ledger.table, k.recs;
    var rc := k.Create(a, 1);
    RoomAfterRoot(bits, k.pt.memory.phys.bits, t, recs, FRAMES - 2);
    RoomIsFree(k.pt.memory.phys.bits, t, recs, FRAMES - 2);
    FreeFrames(k);
  }

  function PagePart(root: nat): LoadRoom.Part {
    LoadRoom.Part(root, 1, 1, StackRights(), STACK_PAGE, 3, FRAMES - 6, 2)
  }

  /** A page for the process. */
  method TakeToken(s: System, ghost root: nat) returns (tok: nat)
    requires s.Valid() && !s.k.pt.memory.smp
    requires Room(s.k.pt.memory.phys.bits, s.k.pt.memory.ledger.table, s.k.recs, 1, FRAMES - 2, 3, 3)
    requires Limit(s.quota, 1) == Quota(DEFAULT_FRAMES, DEFAULT_TOKENS, false)
    requires TokensOf(s.k.pt.memory.ledger.table, 1) == 0 && FramesOf(s.k.pt.memory.ledger.table, 1) == 0
    modifies s.k.pt.memory, s.k.pt.memory.phys, s.k.pt.memory.ledger
    ensures s.Valid() && TokenLedger.TableOk(old(s.k.pt.memory.ledger.table)) && IsLive(s.k.pt.memory.ledger.table, tok)
    ensures Minted(old(s.k.pt.memory.ledger.table), s.k.pt.memory.ledger.table, tok, 1,
                   At(s.k.pt.memory.ledger.table, tok).phys, 1, StackRights())
    ensures Placed(s.k.pt.memory.ledger.table, tok, PagePart(root))
    ensures CanMap(s.k.pt.memory.phys.bits, s.k.pt.memory.ledger.table, s.k.recs, PagePart(root))
  {
    hide Kernel.Consistent, Room, TokensOf, FramesOf, RunsKept, WithinAll, Minted, FreeRun, CountFree, Memory.Fresh, RamKept,
         ClearRun, Unheld, IsLive, Placed, TokenLedger.TableOk;
    var k := s.k;
    ghost var t, bits, recs := k.pt.memory.ledger.table, k.pt.memory.phys.bits, k.recs;
    KernelFacts(k);
    RoomForToken(bits, t, recs, 1, 1, FRAMES - 3, 2, 3);
    tok := k.AllocRam(1, 1, StackRights());
    ghost var u, cut := k.pt.memory.ledger.table, k.pt.memory.phys.bits;
    ghost var start := At(u, tok).phys;
    RoomAfterToken(bits, cut, t, u, recs, 1, 1, FRAMES - 3, 2, 3, tok, start, StackRights());
    MintedPart(t, u, tok, start, PagePart(root));
    WithinMint(s.quota, s.bound, t, u, tok, 1, start, 1, StackRights());
    PermsMatch(3);
  }

  /** The process takes one page and maps it just below the guard page. */
  method TakePage(s: System, a: Aspace)
    requires s.Valid() && s.k.Handle(a) && !s.k.pt.memory.smp && a.live && a.owner == 1 && s.k.pt.leaf == map[]
    requires Room(s.k.pt.memory.phys.bits, s.k.pt.memory.ledger.table, s.k.recs, 1, FRAMES - 2, 3, 3)
    requires Limit(s.quota, 1) == Quota(DEFAULT_FRAMES, DEFAULT_TOKENS, false)
    requires TokensOf(s.k.pt.memory.ledger.table, 1) == 0 && FramesOf(s.k.pt.memory.ledger.table, 1) == 0
    modifies s.k, s.k.pt, s.k.pt.memory, s.k.pt.memory.phys, s.k.pt.memory.ledger
    ensures s.Valid() && s.k.Handle(a)
    ensures forall p: (nat, nat) :: p in s.k.pt.leaf <==> p == (a.root, Vpn(STACK_PAGE))
    ensures GrownBy(old(s.k.pt.dir), s.k.pt.dir, Ways(a.root, Vpn(STACK_PAGE), 1))
    ensures Room(s.k.pt.memory.phys.bits, s.k.pt.memory.ledger.table, s.k.recs, 1, FRAMES - 6, 2, 2)
    ensures UsedMore(old(s.k.pt.memory.ledger.table), s.k.pt.memory.ledger.table, 1, 1, 1)
  {
    hide Kernel.Consistent, Room, TokensOf, FramesOf, WithinAll, Minted, GrownBy, Ways, UsedMore, PinAt, FirstFree, IsLive,
         CanMap, PartTables, Vacant, AddPages, TokenLedger.TableOk;
    var k := s.k;
    ghost var t, d := k.pt.memory.ledger.table, k.pt.dir;
    var tok := TakeToken(s, a.root);
    ghost var u, free := k.pt.memory.ledger.table, k.pt.memory.phys.free;
    ghost var start := At(u, tok).phys;
    NowVacant(map[], a.root, STACK_PAGE, 1);
    var rc;
    ghost var cause;
    rc, cause := MapPart(k, a, STACK_PAGE, tok, 3, PagePart(a.root), true);
    OkTables(d, k.pt.dir, map[], a.root, STACK_PAGE, 1, cause, free + 1, k.pt.memory.phys.free);
    PinnedEntry(u, tok);
    OnePage(a.root, start, ModeOf(3).write, ModeOf(3).exec);
    OnlyPinsAt(u, tok);
    WithinPins(s.bound, u, k.pt.memory.ledger.table);
    UsedMint(t, u, k.pt.memory.ledger.table, tok, 1, start, 1, StackRights());
  }

  lemma OnePage(root: nat, frame: nat, write: bool, exec: bool)
    ensures forall p: (nat, nat) ::
      p in AddPages(map[], root, Vpn(STACK_PAGE), 1, frame, write, exec) <==> p == (root, Vpn(STACK_PAGE))
  {
  }

  lemma OkTables(d: Dir, e: Dir, leaf: Leaves, root: nat, virt: nat, pages: nat, cause: Cause, free: nat, left: nat)
    requires PartTables(d, e, leaf, root, virt, pages, LoadOk, cause, free, left)
    ensures GrownBy(d, e, Ways(root, Vpn(virt), pages))
  {
  }

  lemma RoomLess(bits: seq<bool>, t: seq<Entry>, recs: seq<MapRec>, n: nat, m: nat)
    requires Room(bits, t, recs, 1, n, 2, 2) && m <= n
    ensures Room(bits, t, recs, 1, m, 2, 2)
  {
    hide LiveCount, OwnerRecs, LiveRecs;
    var r: nat :| FreeRun(bits, r, n);
    assert FreeRun(bits, r, m);
  }

  /** The tables of the segment are not those of the stack page. */
  lemma OtherWay(d: Dir, e: Dir, root: nat)
    requires d == map[Key(root, 4, 0) := root] && GrownBy(d, e, Ways(root, Vpn(STACK_PAGE), 1))
    ensures !(Ways(root, Vpn(E.VA_MIN), 1) <= e.Keys)
  {
    var k := Key(root, 1, Vpn(E.VA_MIN) / ENTS);
    assert Ways(root, Vpn(E.VA_MIN), 0) == {} && k in PathOf(root, Vpn(E.VA_MIN));
    assert k in Ways(root, Vpn(E.VA_MIN), 1);
    assert Ways(root, Vpn(STACK_PAGE), 1) == PathOf(root, Vpn(STACK_PAGE));
    assert k !in PathOf(root, Vpn(STACK_PAGE));
    assert k !in e.Keys;
  }

  /** A state in which tables stay: a fresh kernel whose one process holds a page just below the guard page. */
  method TakenStack() returns (s: System, a: Aspace, img: seq<byte>)
    ensures PlaceTaken(s, a, 1, img, E.ZEROED)
    ensures !(LoadWays(s.k.pt.leaf, a.root, E.InfoOf(img, E.ZEROED)) <= s.k.pt.dir.Keys)
  {
    hide Kernel.Consistent, Room, TokensOf, FramesOf, WithinAll, GrownBy, Ways, UsedMore, E.StatusOf, E.InfoOf, E.TablesFit,
         X.Typed, X.Packable, X.Image, E.PageSum, X.SegsOf, ClearParts, LoadWays;
    X.TinyPacks();
    X.ParseInvertsPack(X.TINY, [], E.VA_MIN, E.ZEROED);
    img := X.BuildImage(X.TINY, [], E.VA_MIN, 0);
    s, a := OneProcess();
    ghost var d, t := s.k.pt.dir, s.k.pt.memory.ledger.table;
    TakePage(s, a);
    ghost var info := E.InfoOf(img, E.ZEROED);
    UsedBy(t, s.k.pt.memory.ledger.table);
    RoomLess(s.k.pt.memory.phys.bits, s.k.pt.memory.ledger.table, s.k.recs, FRAMES - 6, 21);
    OtherWay(d, s.k.pt.dir, a.root);
    StackIsTaken(s.k.pt.leaf, a.root, info);
  }

  /** With a page just below the guard page mapped and nothing else, the segment's place is clear and the stack's taken. */
  lemma StackIsTaken(leaf: Leaves, root: nat, info: E.Info)
    requires forall p: (nat, nat) :: p in leaf <==> p == (root, Vpn(STACK_PAGE))
    requires |info.segs| == 1 && info.segs[0].vaddr == E.VA_MIN && info.segs[0].pages == 1 && info.stackBytes == 4 * FRAME
    ensures ClearParts(leaf, root, info, 2) == 1 && Ways(root, Vpn(E.VA_MIN), 1) <= LoadWays(leaf, root, info)
  {
    hide Ways, FirstTaken;
    FirstTakenIs(leaf, root, Vpn(E.VA_MIN), 1, 1);
    FirstTakenIs(leaf, root, Vpn(StackBase(info)), 4, 3);
    ClearPartsIs(leaf, root, info, 2, 1);
    assert PartWays(info, root, 0) == {};
  }

  lemma UsedBy(t: seq<Entry>, u: seq<Entry>)
    requires UsedMore(t, u, 1, 1, 1)
    ensures TokensOf(u, 1) == TokensOf(t, 1) + 1 && FramesOf(u, 1) == FramesOf(t, 1) + 1
  {
  }
}
