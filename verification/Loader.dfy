/** The program loader: all of an image's segments and a stack, or nothing. */
module Loader {
  import opened Bytes
  import opened TokenLedger
  import opened FrameMemory
  import opened PageTables
  import opened Mappings
  import opened AddressSpaces
  import opened Syscalls
  import opened LoadState
  import opened LoadRoom
  import opened LoadTables
  import PhysMem
  import E = Exb

  datatype Result = Result(entry: nat, stackTop: nat, stackBytes: nat, tokensGranted: nat)

  /** What the kernel held when the load began. */
  datatype Begin = Begin(table: seq<Entry>, live: set<MapRec>, leaf: Leaves, ram: seq<FrameBytes>)

  function SegRights(flags: nat): set<Right> {
    {Read, Map, Release} + (if E.Writable(flags) then {Write} else {}) + (if E.Executable(flags) then {Execute} else {})
  }

  function SegPerms(flags: nat): nat {
    1 + (if E.Writable(flags) then 2 else 0) + (if E.Executable(flags) then 4 else 0)
  }

  // ---- the state in between ----

  ghost predicate BeginOk(b: Begin) {
    forall r :: r in b.live ==> SlotOf(r.tok) < |b.table| && b.table[SlotOf(r.tok)].live
  }

  ghost predicate Filled(ram: seq<FrameBytes>, x: Layer) {
    HoldsBytes(ram, x.ent.phys, x.ent.frames, x.data)
  }

  /** The page table l2 is l with the layer mapped onto pages that were free. */
  ghost predicate Stacked(l: Leaves, l2: Leaves, root: nat, x: Layer) {
    && (forall p: (nat, nat) :: p in l ==> !InRange(p, root, Vpn(x.virt), x.ent.frames))
    && l2 == AddPages(l, root, Vpn(x.virt), x.ent.frames, x.ent.phys, x.mode.write, x.mode.exec)
  }

  /** The kernel holds what it held, plus the layers, the first m of them mapped one on the other. */
  ghost predicate Going(b: Begin, t: seq<Entry>, recs: seq<MapRec>, leaf: Leaves, ram: seq<FrameBytes>, root: nat,
                        owner: nat, layers: seq<Layer>, leaves: seq<Leaves>, m: nat) {
    && m <= |layers| && BeginOk(b)
    && Holding(b.table, t, layers, m)
    && |leaves| == m + 1 && leaves[0] == b.leaf && leaf == leaves[m]
    && (forall j :: 0 <= j < m ==> Stacked(leaves[j], leaves[j + 1], root, layers[j]))
    && LiveSet(recs) == b.live + RecSet(root, owner, layers, m)
    && (forall j :: 0 <= j < |layers| ==> Filled(ram, layers[j]))
    && RamKept(b.table, b.ram, ram)
  }

  lemma {:induction false} FramesInclude(t0: seq<Entry>, t: seq<Entry>)
    requires |t0| == |t| && forall s :: 0 <= s < |t0| && t0[s].live ==> t[s] == t0[s]
    ensures TokenFrames(t0) <= TokenFrames(t)
  {
    hide EntryFrames;
    if t0 != [] {
      var n := |t0| - 1;
      FramesInclude(t0[..n], t[..n]);
      DeadHoldsNothing(t0[n]);
    }
  }

  lemma DeadHoldsNothing(e: Entry)
    ensures !e.live ==> EntryFrames(e) == multiset{}
  {
  }

  lemma EarlierTokens(t0: seq<Entry>, t: seq<Entry>, layers: seq<Layer>, m: nat)
    requires Holding(t0, t, layers, m)
    ensures TokenFrames(t0) <= TokenFrames(t)
  {
    forall s | 0 <= s < |t0| && t0[s].live
      ensures t[s] == t0[s]
    {
      forall j | 0 <= j < |layers|
        ensures SlotOf(layers[j].tok) != s
      {
        assert OneHeld(t0, t, layers[j], if j < m then 1 else 0);
      }
      assert Avoids(layers, s);
    }
    FramesInclude(t0, t);
  }

  /** Writing frames no token holds keeps every layer and every older token. */
  lemma GoingRam(b: Begin, t: seq<Entry>, recs: seq<MapRec>, leaf: Leaves, ram: seq<FrameBytes>, root: nat, owner: nat,
                 layers: seq<Layer>, leaves: seq<Leaves>, m: nat, ram2: seq<FrameBytes>)
    requires Going(b, t, recs, leaf, ram, root, owner, layers, leaves, m) && RamKept(t, ram, ram2)
    ensures Going(b, t, recs, leaf, ram2, root, owner, layers, leaves, m)
  {
    hide Holding, TokenFrames, Stacked, LiveSet, RecSet, HoldsBytes, BeginOk;
    EarlierTokens(b.table, t, layers, m);
    forall j | 0 <= j < |layers|
      ensures Filled(ram2, layers[j])
    {
      var x := layers[j];
      assert Filled(ram, x);
      LayerLive(b.table, t, layers, m, j);
      FilledFits(ram, x);
      forall f | x.ent.phys <= f < x.ent.phys + x.ent.frames
        ensures ram2[f] == ram[f]
      {
        HeldFrame(t, x.tok, f - x.ent.phys);
      }
      SameBytes(ram, ram2, x.ent.phys, x.ent.frames, x.data);
    }
  }

  lemma FilledFits(ram: seq<FrameBytes>, x: Layer)
    requires Filled(ram, x)
    ensures x.ent.phys + x.ent.frames <= |ram|
  {
  }

  /** One token more, filled but not mapped. */
  lemma GoingToken(b: Begin, t: seq<Entry>, u: seq<Entry>, recs: seq<MapRec>, leaf: Leaves, ram: seq<FrameBytes>,
                   root: nat, owner: nat, layers: seq<Layer>, leaves: seq<Leaves>, x: Layer, holder: nat,
                   rights: set<Right>)
    requires Going(b, t, recs, leaf, ram, root, owner, layers, leaves, |layers|) && TokenLedger.TableOk(t)
    requires Minted(t, u, x.tok, holder, x.ent.phys, x.ent.frames, rights)
    requires x.ent == Sealed(t[SlotOf(x.tok)], holder, x.ent.phys, x.ent.frames, rights) && Filled(ram, x)
    ensures Going(b, u, recs, leaf, ram, root, owner, layers + [x], leaves, |layers|)
  {
    hide Holding, TokenFrames, Stacked, LiveSet, RecSet, HoldsBytes, BeginOk, RamKept, Filled, Minted;
    HoldMint(b.table, t, u, layers, |layers|, x, holder, x.ent.phys, x.ent.frames, rights);
    RecSetPrefix(root, owner, layers, [x], |layers|);
  }

  /** The last token mapped. */
  lemma GoingMapped(b: Begin, t: seq<Entry>, recs: seq<MapRec>, leaf: Leaves, ram: seq<FrameBytes>, root: nat,
                    owner: nat, layers: seq<Layer>, leaves: seq<Leaves>, i: nat, leaf2: Leaves)
    requires |layers| > 0 && Going(b, t, recs, leaf, ram, root, owner, layers, leaves, |layers| - 1)
    requires Stacked(leaf, leaf2, root, layers[|layers| - 1])
    requires i < |recs| && !recs[i].live
    ensures Going(b, PinAt(t, layers[|layers| - 1].tok), recs[i := RecOf(root, owner, layers[|layers| - 1])], leaf2, ram,
                  root, owner, layers, leaves + [leaf2], |layers|)
  {
    hide Holding, TokenFrames, Stacked, LiveSet, HoldsBytes, BeginOk, RamKept, Filled, PinAt;
    var m := |layers| - 1;
    HoldPin(b.table, t, layers, m);
    LiveAdd(recs, i, RecOf(root, owner, layers[m]));
    var more := leaves + [leaf2];
    forall j | 0 <= j < m + 1
      ensures Stacked(more[j], more[j + 1], root, layers[j])
    {
      if j < m {
        assert Stacked(leaves[j], leaves[j + 1], root, layers[j]);
      }
    }
    assert LiveSet(recs) + {RecOf(root, owner, layers[m])} == b.live + RecSet(root, owner, layers, m + 1);
  }

  lemma {:induction false} RecSetOther(root: nat, owner: nat, t0: seq<Entry>, t: seq<Entry>, layers: seq<Layer>,
                                       pinned: nat, m: nat, i: nat)
    requires Holding(t0, t, layers, pinned) && i <= m < |layers|
    ensures RecOf(root, owner, layers[m]) !in RecSet(root, owner, layers, i)
  {
    if i > 0 {
      RecSetOther(root, owner, t0, t, layers, pinned, m, i - 1);
      assert SlotOf(layers[i - 1].tok) != SlotOf(layers[m].tok);
    }
  }

  /** The top mapping gone again. */
  lemma GoingUnmapped(b: Begin, t: seq<Entry>, recs: seq<MapRec>, modes: seq<Mode>, leaf: Leaves,
                      via: map<(nat, nat), nat>, spaces: map<nat, nat>, ram: seq<FrameBytes>, root: nat, owner: nat,
                      layers: seq<Layer>, leaves: seq<Leaves>, m: nat, i: nat)
    requires Going(b, t, recs, leaf, ram, root, owner, layers, leaves, m + 1) && m < |layers|
    requires Mapped(recs, modes, leaf, via, t, spaces, {}) && i < |recs| && recs[i].live
    requires recs[i].root == root && recs[i].virt == layers[m].virt
    ensures recs[i].tok == layers[m].tok
    ensures Going(b, UnpinAt(t, layers[m].tok), Killed(recs, {i}), Kept(leaf, via, {i}), ram, root, owner, layers,
                  leaves[..m + 1], m)
  {
    hide Holding, TokenFrames, HoldsBytes, BeginOk, RamKept, Filled, UnpinAt, Mapped, Stacked, Killed, Kept;
    var rec := RecOf(root, owner, layers[m]);
    assert rec in LiveSet(recs);
    var j :| 0 <= j < |recs| && recs[j] == rec;
    UniqueRec(recs, modes, leaf, via, t, spaces, i, j);
    HoldUnpin(b.table, t, layers, m);
    LiveDrop(recs, modes, leaf, via, t, spaces, i);
    RecSetOther(root, owner, b.table, t, layers, m + 1, m, m);
    NotThere(b, t, layers, m + 1, m, rec);
    assert b.live + RecSet(root, owner, layers, m + 1) - {rec} == b.live + RecSet(root, owner, layers, m);
    assert Stacked(leaves[m], leaves[m + 1], root, layers[m]);
    PagesBack(recs, modes, leaf, via, t, spaces, i, leaves[m], layers[m]);
    var less := leaves[..m + 1];
    forall k | 0 <= k < m
      ensures Stacked(less[k], less[k + 1], root, layers[k])
    {
      assert Stacked(leaves[k], leaves[k + 1], root, layers[k]);
    }
  }

  lemma NotThere(b: Begin, t: seq<Entry>, layers: seq<Layer>, m: nat, i: nat, r: MapRec)
    requires BeginOk(b) && Holding(b.table, t, layers, m) && i < |layers| && r.tok == layers[i].tok
    ensures r !in b.live
  {
    assert OneHeld(b.table, t, layers[i], if i < m then 1 else 0);
  }

  lemma PagesBack(recs: seq<MapRec>, modes: seq<Mode>, leaf: Leaves, via: map<(nat, nat), nat>, t: seq<Entry>,
                  spaces: map<nat, nat>, i: nat, below: Leaves, x: Layer)
    requires Mapped(recs, modes, leaf, via, t, spaces, {}) && i < |recs| && recs[i].live
    requires recs[i].virt == x.virt && recs[i].pages == x.ent.frames && Stacked(below, leaf, recs[i].root, x)
    ensures Kept(leaf, via, {i}) == below
  {
    hide Shown, RecsOk, Pins, Kept, RemovePages, AddPages;
    KeptOne(recs, modes, leaf, via, t, i);
    RemoveAdded(below, recs[i].root, Vpn(x.virt), x.ent.frames, x.ent.phys, x.mode.write, x.mode.exec);
  }

  /** The top token gone, none mapped. */
  lemma GoingReleased(b: Begin, t: seq<Entry>, recs: seq<MapRec>, leaf: Leaves, ram: seq<FrameBytes>, root: nat,
                      owner: nat, layers: seq<Layer>, leaves: seq<Leaves>)
    requires Going(b, t, recs, leaf, ram, root, owner, layers, leaves, 0) && |layers| > 0
    ensures var last := |layers| - 1;
      && ReleaseStatus(t, layers[last].tok, false, false, 0) == RelOk
      && Going(b, KillAt(t, layers[last].tok), recs, leaf, ram, root, owner, layers[..last], leaves, 0)
  {
    hide Holding, TokenFrames, HoldsBytes, BeginOk, RamKept, Filled, KillAt, ReleaseStatus, LiveSet;
    HoldKill(b.table, t, layers);
  }

  // ---- the loader ----

  /** Copies bytes of the image into a token's frames, through their physical addresses. */
  method CopyIn(k: Kernel, start: nat, n: nat, img: seq<byte>, off: nat, size: nat)
    requires k.Valid() && HoldsBytes(k.pt.memory.ram, start, n, []) && off + size <= |img| && size <= n * FRAME
    modifies k.pt.memory`ram
    ensures k.Valid() && |k.pt.memory.ram| == |old(k.pt.memory.ram)|
    ensures HoldsBytes(k.pt.memory.ram, start, n, img[off..off + size])
    ensures forall f :: 0 <= f < |k.pt.memory.ram| && !(start <= f < start + n) ==>
      k.pt.memory.ram[f] == old(k.pt.memory.ram)[f]
  {
    hide HoldsBytes, Balanced, FlightFrames, TokenLedger.TableOk, LiveCount, Tree, Mapped, Roots, Capped;
    var m := k.pt.memory;
    var b: nat := 0;
    assert img[off..off] == [];
    while b < size
      invariant b <= size && k.Valid() && |m.ram| == |old(m.ram)|
      invariant HoldsBytes(m.ram, start, n, img[off..off + b])
      invariant forall f :: 0 <= f < |m.ram| && !(start <= f < start + n) ==> m.ram[f] == old(m.ram)[f]
    {
      OneByte(m.ram, start, n, img[off..off + b], img[off + b]);
      assert img[off..off + b] + [img[off + b]] == img[off..off + (b + 1)];
      var f := start + b / FRAME;
      m.ram := m.ram[f := m.ram[f][b % FRAME := img[off + b]]];
      b := b + 1;
    }
  }

  lemma CopyKeeps(t: seq<Entry>, r: seq<FrameBytes>, q: seq<FrameBytes>, start: nat, n: nat)
    requires |q| == |r| && Unheld(t, start, n)
    requires forall f :: 0 <= f < |r| && !(start <= f < start + n) ==> q[f] == r[f]
    ensures RamKept(t, r, q)
  {
    hide TokenFrames;
  }

  lemma KernelFacts(k: Kernel)
    requires k.Valid()
    ensures k.pt.memory.Valid() && TokenLedger.TableOk(k.pt.memory.ledger.table) && |k.recs| == MAX_MAPS
    ensures Mapped(k.recs, k.modes, k.pt.leaf, k.via, k.pt.memory.ledger.table, k.spaces, {})
  {
  }

  lemma MintedLayer(t: seq<Entry>, u: seq<Entry>, tok: nat, owner: nat, start: nat, n: nat, rights: set<Right>)
    requires Minted(t, u, tok, owner, start, n, rights) && TokenLedger.TableOk(t)
    ensures u[SlotOf(tok)] == Sealed(t[SlotOf(tok)], owner, start, n, rights) && IsLive(u, tok)
    ensures At(u, tok) == u[SlotOf(tok)]
  {
  }

  lemma MintedPart(t: seq<Entry>, u: seq<Entry>, tok: nat, start: nat, x: Part)
    requires Minted(t, u, tok, x.owner, start, x.pages, x.rights) && TokenLedger.TableOk(t)
    ensures Placed(u, tok, x)
  {
  }

  /** A zeroed token of the owner, holding some bytes of the image; nothing is mapped yet. */
  method Grant(k: Kernel, owner: nat, pages: nat, rights: set<Right>, img: seq<byte>, off: nat, size: nat,
               ghost virt: nat, ghost mode: Mode, ghost b: Begin, ghost root: nat, ghost holder: nat,
               ghost layers: seq<Layer>, ghost leaves: seq<Leaves>)
    returns (tok: nat, ghost x: Layer)
    requires k.Valid() && !k.pt.memory.smp && off + size <= |img| && size <= pages * FRAME
    requires Going(b, k.pt.memory.ledger.table, k.recs, k.pt.leaf, k.pt.memory.ram, root, holder, layers, leaves, |layers|)
    modifies k.pt.memory, k.pt.memory.phys, k.pt.memory.ledger
    ensures k.Valid()
    ensures PhysMem.RunsKept(old(k.pt.memory.phys.bits), k.pt.memory.phys.bits, pages)
    ensures k.pt.memory.phys.free + (if tok == INVALID then 0 else pages) == old(k.pt.memory.phys.free)
    ensures tok == INVALID ==>
      || pages == 0
      || (forall s :: 0 <= s ==> !PhysMem.FreeRun(old(k.pt.memory.phys.bits), s, pages))
      || forall s :: 0 <= s < SLOTS ==> old(k.pt.memory.ledger.table)[s].live
    ensures tok == INVALID ==>
      && k.pt.memory.ledger.table == old(k.pt.memory.ledger.table)
      && Going(b, k.pt.memory.ledger.table, k.recs, k.pt.leaf, k.pt.memory.ram, root, holder, layers, leaves, |layers|)
    ensures tok != INVALID ==>
      && Made(x, tok, owner, pages, rights, virt, mode, img[off..off + size])
      && Minted(old(k.pt.memory.ledger.table), k.pt.memory.ledger.table, tok, owner, x.ent.phys, pages, rights)
      && Going(b, k.pt.memory.ledger.table, k.recs, k.pt.leaf, k.pt.memory.ram, root, holder, layers + [x], leaves, |layers|)
  {
    hide Kernel.Consistent, Going, IsLive, Minted, Memory.Fresh, RamKept, Unheld, HoldsBytes, ClearRun, TokenLedger.TableOk,
         Memory.Valid, Mapped, PhysMem.RunsKept;
    ghost var t, ram := k.pt.memory.ledger.table, k.pt.memory.ram;
    KernelFacts(k);
    tok := k.AllocRam(owner, pages, rights);
    ghost var u, cleared := k.pt.memory.ledger.table, k.pt.memory.ram;
    GoingRam(b, t, k.recs, k.pt.leaf, ram, root, holder, layers, leaves, |layers|, cleared);
    if tok == INVALID {
      x := Layer(0, Dead(t[0]), 0, mode, []);
      return;
    }
    var ok, start, n := k.pt.memory.ledger.RamInfo(tok);
    KernelFacts(k);
    MintedLayer(t, u, tok, owner, At(u, tok).phys, pages, rights);
    x := Layer(tok, At(u, tok), virt, mode, img[off..off + size]);
    ClearedZero(ram, start, pages);
    CopyIn(k, start, pages, img, off, size);
    CopyKeeps(t, cleared, k.pt.memory.ram, start, pages);
    GoingRam(b, t, k.recs, k.pt.leaf, cleared, root, holder, layers, leaves, |layers|, k.pt.memory.ram);
    GoingToken(b, t, u, k.recs, k.pt.leaf, k.pt.memory.ram, root, holder, layers, leaves, x, owner, rights);
  }

  predicate Made(x: Layer, tok: nat, owner: nat, pages: nat, rights: set<Right>, virt: nat, mode: Mode, data: seq<byte>) {
    && x.tok == tok && x.virt == virt && x.mode == mode && x.data == data
    && x.ent.owner == owner && x.ent.frames == pages && x.ent.rights == rights
  }

  lemma ClearedZero(r: seq<FrameBytes>, start: nat, n: nat)
    requires start + n <= |r|
    ensures HoldsBytes(ClearRun(r, start, n), start, n, [])
  {
    ZeroBytes(ClearRun(r, start, n), start, n);
  }

  /** One owner uses one token and some frames more; nobody else anything. */
  ghost predicate UsedMore(t: seq<Entry>, u: seq<Entry>, owner: nat, tokens: nat, frames: nat) {
    forall who ::
      && TokensOf(u, who) == TokensOf(t, who) + (if who == owner then tokens else 0)
      && FramesOf(u, who) == FramesOf(t, who) + (if who == owner then frames else 0)
  }

  lemma UsedTrans(t: seq<Entry>, u: seq<Entry>, v: seq<Entry>, owner: nat, a: nat, b: nat, c: nat, d: nat)
    requires UsedMore(t, u, owner, a, b) && UsedMore(u, v, owner, c, d)
    ensures UsedMore(t, v, owner, a + c, b + d)
  {
    hide TokensOf, FramesOf;
    forall who
      ensures TokensOf(v, who) == TokensOf(t, who) + (if who == owner then a + c else 0)
      ensures FramesOf(v, who) == FramesOf(t, who) + (if who == owner then b + d else 0)
    {
      assert TokensOf(u, who) == TokensOf(t, who) + (if who == owner then a else 0);
    }
  }

  lemma UsedMint(t: seq<Entry>, u: seq<Entry>, v: seq<Entry>, tok: nat, owner: nat, start: nat, n: nat,
                 rights: set<Right>)
    requires Minted(t, u, tok, owner, start, n, rights) && (v == u || v == PinAt(u, tok))
    ensures UsedMore(t, v, owner, 1, n)
  {
    hide TokensOf, FramesOf;
    OnlyPinsAt(u, tok);
    forall who
      ensures TokensOf(v, who) == TokensOf(t, who) + (if who == owner then 1 else 0)
      ensures FramesOf(v, who) == FramesOf(t, who) + (if who == owner then n else 0)
    {
      MintUses(t, u, tok, owner, start, n, rights, who);
      PinsUseNothing(u, PinAt(u, tok), who);
    }
  }

  lemma PinnedEntry(t: seq<Entry>, tok: nat)
    requires IsLive(t, tok)
    ensures IsLive(PinAt(t, tok), tok) && At(PinAt(t, tok), tok) == Pinned(At(t, tok))
  {
  }

  lemma FreeFrames(k: Kernel)
    requires k.Valid()
    ensures k.pt.memory.phys.free == PhysMem.CountFree(k.pt.memory.phys.bits)
  {
    hide Tree, Mapped, Roots, Capped, Balanced, FlightFrames, LiveCount, PhysMem.CountFree, TokenLedger.TableOk;
  }

  lemma NowVacant(leaf: Leaves, root: nat, virt: nat, pages: nat)
    requires forall p: (nat, nat) :: p in leaf ==> !InRange(p, root, Vpn(virt), pages)
    ensures Vacant(leaf, root, virt, pages)
  {
    FirstTakenIs(leaf, root, Vpn(virt), pages, pages);
  }

  /** Only the owner of a live space has its tokens mapped there. */
  lemma OwnerMaps(recs: seq<MapRec>, t: seq<Entry>, live: bool, owner: nat, virt: nat, tok: nat, perms: nat)
    requires Refusal(recs, t, live, owner, virt, tok, perms) == XasOk
    ensures live && IsLive(t, tok) && At(t, tok).owner == owner
  {
    hide OwnerRecs, FirstFree, Need, ModeOf;
  }

  /** Maps a part's token; where there is room only a page mapped already stands in the way. */
  method MapPart(k: Kernel, a: Aspace, virt: nat, tok: nat, perms: nat, ghost x: Part, ghost room: bool)
    returns (m: XasStatus, ghost cause: Cause)
    requires k.Valid() && k.Handle(a) && !k.pt.memory.smp
    requires x.root == a.root && x.virt == virt && x.perms == perms && PagesOf(k.pt.memory.ledger.table, tok) == x.pages
    requires room ==>
      && a.live && a.owner == x.owner && Placed(k.pt.memory.ledger.table, tok, x)
      && CanMap(k.pt.memory.phys.bits, k.pt.memory.ledger.table, k.recs, x)
    modifies k, k.pt, k.pt.memory, k.pt.memory.phys, k.pt.memory.ledger
    ensures k.Valid() && k.Handle(a) && k.spaces == old(k.spaces)
    ensures m != XasOk ==> k.Untouched()
    ensures m == XasOk ==> a.live && k.Added(a.root, a.owner, virt, tok, ModeOf(perms)) && k.OnePin(tok)
    ensures PartTables(old(k.pt.dir), k.pt.dir, old(k.pt.leaf), a.root, virt, x.pages, if m == XasOk then LoadOk else LoadMap,
                       cause, old(k.pt.memory.phys.free) + x.pages, k.pt.memory.phys.free)
    ensures m == XasOk || cause != Refused ==>
      var t := old(k.pt.memory.ledger.table);
      a.live && IsLive(t, tok) && At(t, tok).owner == a.owner
    ensures room ==>
      if old(Vacant(k.pt.leaf, a.root, virt, x.pages)) then
        && m == XasOk
        && RoomAfter(k.pt.memory.phys.bits, k.pt.memory.ledger.table, k.recs, x)
      else m == XasBusy && cause == Taken
  {
    hide Kernel.Consistent, Refusal, AddPages, PinAt, FirstFree, ModeOf, IsLive, Vacant, CanMap, RoomAfter, PhysMem.CountFree,
         PartTables, MapAnswer, MapTables, Grown, Placed;
    ghost var t, recs, leaf, bits, d, free :=
      k.pt.memory.ledger.table, k.recs, k.pt.leaf, k.pt.memory.phys.bits, k.pt.dir, k.pt.memory.phys.free;
    ghost var why := Refusal(recs, t, a.live, a.owner, virt, tok, perms);
    ghost var seen;
    m, seen := k.Map(a, virt, tok, perms);
    cause := CauseOf(why, m);
    if why == XasOk {
      OwnerMaps(recs, t, a.live, a.owner, virt, tok, perms);
    }
    PartDone(d, k.pt.dir, leaf, a.root, virt, x.pages, m, why, bits, k.pt.memory.phys.bits, free + x.pages, k.pt.memory.phys.free);
    if m == XasOk {
      PinnedEntry(t, tok);
      NowVacant(leaf, a.root, virt, x.pages);
    }
    if room {
      FreeFrames(k);
      MapWorks(m, bits, k.pt.memory.phys.bits, t, recs, leaf, x, tok);
    }
  }

  /** Maps the newest layer's token. */
  method MapLayer(k: Kernel, a: Aspace, virt: nat, tok: nat, perms: nat, ghost part: Part, ghost room: bool, ghost x: Layer,
                  ghost b: Begin, ghost layers: seq<Layer>, ghost leaves: seq<Leaves>)
    returns (m: XasStatus, ghost cause: Cause, ghost leaves2: seq<Leaves>)
    requires k.Valid() && k.Handle(a) && !k.pt.memory.smp
    requires part.root == a.root && part.virt == virt && part.perms == perms
    requires x.tok == tok && x.virt == virt && x.mode == ModeOf(perms) && x.ent.frames == part.pages
    requires room ==>
      && a.live && a.owner == part.owner && Placed(k.pt.memory.ledger.table, tok, part)
      && CanMap(k.pt.memory.phys.bits, k.pt.memory.ledger.table, k.recs, part)
    requires Going(b, k.pt.memory.ledger.table, k.recs, k.pt.leaf, k.pt.memory.ram, a.root, a.owner, layers + [x], leaves,
                   |layers|)
    modifies k, k.pt, k.pt.memory, k.pt.memory.phys, k.pt.memory.ledger
    ensures k.Valid() && k.Handle(a) && k.spaces == old(k.spaces)
    ensures PartTables(old(k.pt.dir), k.pt.dir, old(k.pt.leaf), a.root, virt, part.pages,
                       if m == XasOk then LoadOk else LoadMap, cause, old(k.pt.memory.phys.free) + part.pages,
                       k.pt.memory.phys.free)
    ensures m == XasOk || cause != Refused ==> a.live && x.ent.owner == a.owner
    ensures room ==>
      if old(Vacant(k.pt.leaf, a.root, virt, part.pages)) then
        && m == XasOk
        && RoomAfter(k.pt.memory.phys.bits, k.pt.memory.ledger.table, k.recs, part)
      else m == XasBusy && cause == Taken
    ensures m != XasOk ==>
      Going(b, k.pt.memory.ledger.table, k.recs, k.pt.leaf, k.pt.memory.ram, a.root, a.owner, layers + [x], leaves, |layers|)
    ensures m == XasOk ==>
      && k.pt.memory.ledger.table == PinAt(old(k.pt.memory.ledger.table), tok)
      && Going(b, k.pt.memory.ledger.table, k.recs, k.pt.leaf, k.pt.memory.ram, a.root, a.owner, layers + [x], leaves2,
               |layers| + 1)
  {
    hide Kernel.Consistent, Going, AddPages, PinAt, FirstFree, ModeOf, IsLive, Vacant, CanMap, RoomAfter, PartTables, Placed;
    ghost var u, recs, leaf := k.pt.memory.ledger.table, k.recs, k.pt.leaf;
    LastLayer(b, u, recs, leaf, k.pt.memory.ram, a.root, a.owner, layers, leaves, x);
    m, cause := MapPart(k, a, virt, tok, perms, part, room);
    leaves2 := leaves;
    if m == XasOk {
      PinnedEntry(u, tok);
      FreeIndex(recs, FirstFree(recs));
      GoingMapped(b, u, recs, leaf, k.pt.memory.ram, a.root, a.owner, layers + [x], leaves, FirstFree(recs), k.pt.leaf);
      leaves2 := leaves + [k.pt.leaf];
    }
  }

  /** One segment, or the stack: a filled token, mapped. */
  method LoadPart(k: Kernel, a: Aspace, owner: nat, pages: nat, rights: set<Right>, virt: nat, perms: nat,
                  img: seq<byte>, off: nat, size: nat, ghost b: Begin, ghost layers: seq<Layer>,
                  ghost leaves: seq<Leaves>, ghost room: bool, ghost rest: nat, ghost parts: nat)
    returns (rc: LoadStatus, tok: nat, ghost x: Layer, ghost leaves2: seq<Leaves>, ghost cause: Cause)
    requires k.Valid() && k.Handle(a) && !k.pt.memory.smp && off + size <= |img| && size <= pages * FRAME
    requires Going(b, k.pt.memory.ledger.table, k.recs, k.pt.leaf, k.pt.memory.ram, a.root, a.owner, layers, leaves,
                   |layers|)
    requires room ==>
      && a.live && a.owner == owner
      && CanGrant(k.pt.memory.phys.bits, k.pt.memory.ledger.table, k.recs,
                  Part(a.root, owner, pages, rights, virt, perms, rest, parts))
    modifies k, k.pt, k.pt.memory, k.pt.memory.phys, k.pt.memory.ledger
    ensures k.Valid() && k.Handle(a) && k.spaces == old(k.spaces)
    ensures PartTables(old(k.pt.dir), k.pt.dir, old(k.pt.leaf), a.root, virt, pages, rc, cause,
                       old(k.pt.memory.phys.free), k.pt.memory.phys.free)
    ensures rc == LoadMap && cause != Refused ==> a.live && a.owner == owner
    ensures rc == LoadOk || rc == LoadNoMem || rc == LoadMap
    ensures rc == LoadNoMem ==>
      Going(b, k.pt.memory.ledger.table, k.recs, k.pt.leaf, k.pt.memory.ram, a.root, a.owner, layers, leaves, |layers|)
    ensures rc != LoadNoMem ==> Made(x, tok, owner, pages, rights, virt, ModeOf(perms), img[off..off + size])
    ensures rc == LoadMap ==>
      Going(b, k.pt.memory.ledger.table, k.recs, k.pt.leaf, k.pt.memory.ram, a.root, a.owner, layers + [x], leaves, |layers|)
    ensures rc == LoadOk ==>
      && a.live && a.owner == owner
      && Going(b, k.pt.memory.ledger.table, k.recs, k.pt.leaf, k.pt.memory.ram, a.root, a.owner, layers + [x], leaves2,
               |layers| + 1)
      && UsedMore(old(k.pt.memory.ledger.table), k.pt.memory.ledger.table, owner, 1, pages)
    ensures room && !old(Vacant(k.pt.leaf, a.root, virt, pages)) ==> rc == LoadMap && cause == Taken
    ensures room && old(Vacant(k.pt.leaf, a.root, virt, pages)) ==>
      && rc == LoadOk
      && RoomAfter(k.pt.memory.phys.bits, k.pt.memory.ledger.table, k.recs,
                   Part(a.root, owner, pages, rights, virt, perms, rest, parts))
  {
    hide Kernel.Consistent, Going, Minted, HoldsBytes, Refusal, AddPages, PinAt, UsedMore, FirstFree, ModeOf, IsLive,
         TokenLedger.TableOk, Mapped, Vacant, CanGrant, CanMap, RoomAfter, PhysMem.RunsKept, PhysMem.FreeRun, PartTables,
         Placed;
    ghost var t, bits, d, free := k.pt.memory.ledger.table, k.pt.memory.phys.bits, k.pt.dir, k.pt.memory.phys.free;
    ghost var part := Part(a.root, owner, pages, rights, virt, perms, rest, parts);
    leaves2, cause := leaves, Refused;
    KernelFacts(k);
    tok, x := Grant(k, owner, pages, rights, img, off, size, virt, ModeOf(perms), b, a.root, a.owner, layers, leaves);
    if tok == INVALID {
      if room {
        GrantWorks(bits, t, k.recs, part);
      }
      NoTables(d, k.pt.leaf, a.root, virt, pages, LoadNoMem, free, free);
      return LoadNoMem, tok, x, leaves, Refused;
    }
    ghost var u, recs := k.pt.memory.ledger.table, k.recs;
    KernelFacts(k);
    MintedLayer(t, u, tok, owner, x.ent.phys, pages, rights);
    ghost var cut := k.pt.memory.phys.bits;
    if room {
      Granted(bits, cut, t, u, recs, part, tok, x.ent.phys);
      MintedPart(t, u, tok, x.ent.phys, part);
    }
    var m;
    m, cause, leaves2 := MapLayer(k, a, virt, tok, perms, part, room, x, b, layers, leaves);
    if m != XasOk {
      return LoadMap, tok, x, leaves, cause;
    }
    UsedMint(t, u, k.pt.memory.ledger.table, tok, owner, x.ent.phys, pages, rights);
    rc := LoadOk;
  }

  /** The newest layer's entry is in the ledger, unpinned. */
  lemma LastLayer(b: Begin, t: seq<Entry>, recs: seq<MapRec>, leaf: Leaves, ram: seq<FrameBytes>, root: nat, owner: nat,
                  layers: seq<Layer>, leaves: seq<Leaves>, x: Layer)
    requires Going(b, t, recs, leaf, ram, root, owner, layers + [x], leaves, |layers|)
    ensures IsLive(t, x.tok) && At(t, x.tok) == x.ent.(mapCount := 0)
  {
    hide Holding;
    LayerLive(b.table, t, layers + [x], |layers|, |layers|);
  }

  /** Undoes a load: unmaps in reverse, then releases in reverse, and nothing refuses. */
  method Rollback(k: Kernel, a: Aspace, toks: seq<nat>, vas: seq<nat>, ghost b: Begin, ghost layers: seq<Layer>,
                  ghost leaves: seq<Leaves>)
    requires k.Valid() && k.Handle(a) && !k.pt.memory.smp && |toks| == |layers| && |vas| <= |layers|
    requires forall j :: 0 <= j < |layers| ==> toks[j] == layers[j].tok && (j < |vas| ==> vas[j] == layers[j].virt)
    requires |vas| > 0 ==> a.live
    requires Going(b, k.pt.memory.ledger.table, k.recs, k.pt.leaf, k.pt.memory.ram, a.root, a.owner, layers, leaves, |vas|)
    modifies k, k.pt, k.pt.memory, k.pt.memory.phys, k.pt.memory.ledger
    ensures k.Valid() && k.Handle(a) && k.spaces == old(k.spaces) && k.pt.dir == old(k.pt.dir)
    ensures Going(b, k.pt.memory.ledger.table, k.recs, k.pt.leaf, k.pt.memory.ram, a.root, a.owner, [], [b.leaf], 0)
  {
    hide Kernel.Consistent, Going, IsLive, UnpinAt, HasPin, Killed, Kept, Mapped, KillAt, ReleaseStatus, TokenLedger.TableOk,
         Memory.Valid;
    var i := |vas|;
    ghost var left := leaves;
    while i > 0
      invariant 0 <= i <= |vas| && k.Valid() && k.Handle(a) && k.spaces == old(k.spaces) && k.pt.dir == old(k.pt.dir)
      invariant Going(b, k.pt.memory.ledger.table, k.recs, k.pt.leaf, k.pt.memory.ram, a.root, a.owner, layers, left, i)
    {
      i := i - 1;
      ghost var t, recs, modes, leaf, via := k.pt.memory.ledger.table, k.recs, k.modes, k.pt.leaf, k.via;
      KernelFacts(k);
      TopRecord(b, t, recs, leaf, k.pt.memory.ram, a.root, a.owner, layers, left, i);
      var rc, at := k.Unmap(a, vas[i]);
      GoingUnmapped(b, t, recs, modes, leaf, via, k.spaces, k.pt.memory.ram, a.root, a.owner, layers, left, i, at);
      left := left[..i + 1];
    }
    FirstLeaf(b, k.pt.memory.ledger.table, k.recs, k.pt.leaf, k.pt.memory.ram, a.root, a.owner, layers, left);
    i := |toks|;
    while i > 0
      invariant 0 <= i <= |toks| && k.Valid() && k.Handle(a) && k.spaces == old(k.spaces) && k.pt.dir == old(k.pt.dir)
      invariant Going(b, k.pt.memory.ledger.table, k.recs, k.pt.leaf, k.pt.memory.ram, a.root, a.owner, layers[..i],
                      [b.leaf], 0)
    {
      i := i - 1;
      GoingReleased(b, k.pt.memory.ledger.table, k.recs, k.pt.leaf, k.pt.memory.ram, a.root, a.owner, layers[..i + 1],
                    [b.leaf]);
      assert layers[..i + 1][..i] == layers[..i];
      var rc, seen := k.Release(toks[i], false, false, 0);
    }
  }

  /** The top layer's record is live. */
  lemma TopRecord(b: Begin, t: seq<Entry>, recs: seq<MapRec>, leaf: Leaves, ram: seq<FrameBytes>, root: nat, owner: nat,
                  layers: seq<Layer>, leaves: seq<Leaves>, m: nat)
    requires Going(b, t, recs, leaf, ram, root, owner, layers, leaves, m + 1)
    ensures m < |layers| && |leaves| == m + 2
    ensures exists j :: 0 <= j < |recs| && recs[j].live && recs[j].root == root && recs[j].virt == layers[m].virt
  {
    hide Holding, HoldsBytes, RamKept;
    var rec := RecOf(root, owner, layers[m]);
    assert rec in LiveSet(recs);
    var j :| 0 <= j < |recs| && recs[j] == rec;
    assert recs[j].live && recs[j].root == root && recs[j].virt == layers[m].virt;
  }

  lemma FirstLeaf(b: Begin, t: seq<Entry>, recs: seq<MapRec>, leaf: Leaves, ram: seq<FrameBytes>, root: nat, owner: nat,
                  layers: seq<Layer>, leaves: seq<Leaves>)
    requires Going(b, t, recs, leaf, ram, root, owner, layers, leaves, 0)
    ensures leaves == [b.leaf] && layers[..|layers|] == layers
  {
  }

  // ---- what an accepted image promises ----

  /** Segments lie inside the file, the user half and each other's gaps, below the stack. */
  lemma SegmentBounds(img: seq<byte>, scratch: E.Info, i: nat)
    requires E.StatusOf(img) == E.ExbOk
    requires |img| >= E.HEADER && E.TablesFit(E.TablesOf(img), |img|) && i < |E.InfoOf(img, scratch).segs|
    ensures var g := E.InfoOf(img, scratch).segs[i];
      && g.off + g.size <= |img| && g.size <= g.pages * FRAME && g.pages > 0 && g.flags in {1, 3, 5}
      && g.vaddr % FRAME == 0 && USER_BASE * FRAME <= g.vaddr && g.vaddr + g.pages * FRAME <= E.VA_LIMIT
    ensures forall j :: 0 <= j < i ==>
      var g, h := E.InfoOf(img, scratch).segs[i], E.InfoOf(img, scratch).segs[j];
      g.vaddr + g.pages * FRAME <= h.vaddr || h.vaddr + h.pages * FRAME <= g.vaddr
  {
    hide E.StatusOf, E.HeaderStatus, E.TablesStatus, E.CapsGood, E.RawSeg, E.PageSum, E.WantsOf, E.SegPad, E.Holds;
    E.PassesExactly(img);
    var t := E.TablesOf(img);
    assert E.SegOk(img, t, i);
    SegPages(img, t, i);
    forall j | 0 <= j < i
      ensures !E.Clash(E.RawSeg(img, t, i), E.RawSeg(img, t, j)) && E.RawSeg(img, t, j).pages >= 1
    {
      assert E.SegOk(img, t, j);
      SegPages(img, t, j);
    }
  }

  lemma SegPages(img: seq<byte>, t: E.Tables, i: nat)
    requires i < t.segCnt && E.SegEnd(t) <= |img|
    ensures var g := E.RawSeg(img, t, i);
      g.pages == E.PagesOf(g.mem) && g.mem <= g.pages * FRAME && (g.mem > 0 ==> g.pages >= 1)
  {
    hide E.F32, E.F64;
  }

  lemma {:induction false} StackBounds(img: seq<byte>, t: E.Tables, scratch: E.Info, n: nat)
    requires n <= t.capCnt && E.CapEnd(t) <= |img|
    ensures var w := E.WantsOf(img, t, scratch, n); w.stack % FRAME == 0 && FRAME <= w.stack <= E.MAX_STACK
  {
    hide E.RawCap, E.Base;
    if n > 0 {
      StackBounds(img, t, scratch, n - 1);
    }
  }

  // ---- the whole load ----

  /** May the owner take this much more? */
  method QuotaOk(s: System, owner: nat, frames: nat, tokens: nat) returns (ok: bool)
    requires s.Valid()
    ensures var t, max := s.k.pt.memory.ledger.table, Limit(s.quota, owner);
      ok <==> FramesOf(t, owner) + frames <= max.frames && TokensOf(t, owner) + tokens <= max.tokens
  {
    hide Kernel.Consistent, FramesOf, TokensOf, WithinAll;
    KernelLedger(s.k);
    var max := Limit(s.quota, owner);
    var usedFrames, usedTokens := s.k.pt.memory.ledger.OwnerUsage(owner);
    ok := !(usedFrames > max.frames || usedTokens > max.tokens)
          && frames <= max.frames - usedFrames && tokens <= max.tokens - usedTokens;
  }

  function StackRights(): set<Right> {
    {Read, Write, Map, Release}
  }

  /** Layer i is segment i, as the image describes it. */
  predicate SegLayer(x: Layer, g: E.Seg, owner: nat, img: seq<byte>)
    requires g.off + g.size <= |img|
  {
    Made(x, x.tok, owner, g.pages, SegRights(g.flags), g.vaddr, ModeOf(SegPerms(g.flags)), img[g.off..g.off + g.size])
  }

  predicate SegLayers(layers: seq<Layer>, segs: seq<E.Seg>, n: nat, owner: nat, img: seq<byte>) {
    && n <= |layers| && n <= |segs|
    && forall i :: 0 <= i < n ==> segs[i].off + segs[i].size <= |img| && SegLayer(layers[i], segs[i], owner, img)
  }

  /** The stack: zeroed and writable; the last user page above it stays unmapped. */
  predicate StackLayer(x: Layer, info: E.Info, owner: nat) {
    StackBase(info) >= 0 && Made(x, x.tok, owner, info.stackBytes / FRAME, StackRights(), StackBase(info), ModeOf(3), [])
  }

  lemma {:induction false} PagePrefix(s: seq<E.Seg>, i: nat)
    requires i < |s|
    ensures E.PageSum(s[..i + 1]) == E.PageSum(s[..i]) + s[i].pages
  {
    assert s[..i + 1][..i] == s[..i];
  }

  lemma BeginWell(k: Kernel)
    requires k.Valid()
    ensures var t := k.pt.memory.ledger.table;
      var b := Begin(t, LiveSet(k.recs), k.pt.leaf, k.pt.memory.ram);
      BeginOk(b) && Going(b, t, k.recs, k.pt.leaf, k.pt.memory.ram, 0, 0, [], [k.pt.leaf], 0)
  {
    hide Shown, Roots, Capped, Memory.Valid, RecOk, Pins;
    var t := k.pt.memory.ledger.table;
    forall r | r in LiveSet(k.recs)
      ensures SlotOf(r.tok) < |t| && t[SlotOf(r.tok)].live
    {
      var i :| 0 <= i < |k.recs| && k.recs[i] == r;
      RecLive(k.recs, k.modes, t, k.spaces, i);
    }
    HoldingNone(t);
    RamSelf(t, k.pt.memory.ram);
  }

  lemma NoLayers(b: Begin, t: seq<Entry>, recs: seq<MapRec>, leaf: Leaves, ram: seq<FrameBytes>, root: nat, owner: nat,
                 root2: nat, owner2: nat, leaves: seq<Leaves>)
    requires Going(b, t, recs, leaf, ram, root, owner, [], leaves, 0)
    ensures Going(b, t, recs, leaf, ram, root2, owner2, [], leaves, 0)
  {
  }

  /** The ledger, the records, the pages and the memory of tokens are as they were. */
  ghost predicate AsBefore(b: Begin, t: seq<Entry>, recs: seq<MapRec>, leaf: Leaves, ram: seq<FrameBytes>) {
    && |t| == |b.table| && (forall s :: 0 <= s < |t| ==> SameOrDead(b.table[s], t[s]))
    && LiveSet(recs) == b.live && leaf == b.leaf && RamKept(b.table, b.ram, ram)
  }

  lemma BackAgain(b: Begin, t: seq<Entry>, recs: seq<MapRec>, leaf: Leaves, ram: seq<FrameBytes>, root: nat,
                  owner: nat, leaves: seq<Leaves>)
    requires Going(b, t, recs, leaf, ram, root, owner, [], leaves, 0)
    ensures AsBefore(b, t, recs, leaf, ram)
    ensures UsedMore(b.table, t, 0, 0, 0)
  {
    hide TokenFrames, TokensOf, FramesOf;
    forall s | 0 <= s < |t|
      ensures SameOrDead(b.table[s], t[s])
    {
      assert Avoids([], s);
    }
    forall who
      ensures TokensOf(t, who) == TokensOf(b.table, who) && FramesOf(t, who) == FramesOf(b.table, who)
    {
      SameUse(b.table, t, who);
    }
  }

  lemma WithinUse(quota: seq<Quota>, bound: seq<Quota>, t: seq<Entry>, u: seq<Entry>, owner: nat, tokens: nat, frames: nat)
    requires WithinAll(bound, t) && Roomier(quota, bound) && UsedMore(t, u, owner, tokens, frames)
    requires FramesOf(t, owner) + frames <= Limit(quota, owner).frames || frames == 0
    requires TokensOf(t, owner) + tokens <= Limit(quota, owner).tokens || tokens == 0
    ensures WithinAll(bound, u)
  {
    hide TokensOf, FramesOf;
    forall who | who > 0
      ensures WithinOne(bound, u, who)
    {
      assert WithinOne(bound, t, who);
      assert Limit(quota, who).frames <= Limit(bound, who).frames;
      assert TokensOf(u, who) == TokensOf(t, who) + (if who == owner then tokens else 0);
    }
  }

  lemma InfoShape(img: seq<byte>, scratch: E.Info)
    requires |img| >= E.HEADER && E.TablesFit(E.TablesOf(img), |img|)
    ensures var info := E.InfoOf(img, scratch);
      && info.imagePages == E.PageSum(info.segs)
      && info.stackBytes % FRAME == 0 && FRAME <= info.stackBytes <= E.MAX_STACK
  {
    hide E.PageSum, E.WantsOf;
    StackBounds(img, E.TablesOf(img), scratch, E.TablesOf(img).capCnt);
  }

  lemma SegLayersNone(segs: seq<E.Seg>, owner: nat, img: seq<byte>)
    ensures SegLayers([], segs, 0, owner, img)
  {
  }

  lemma SegLayersMore(layers: seq<Layer>, x: Layer, segs: seq<E.Seg>, n: nat, owner: nat, img: seq<byte>)
    requires SegLayers(layers, segs, n, owner, img) && |layers| == n < |segs|
    requires segs[n].off + segs[n].size <= |img| && SegLayer(x, segs[n], owner, img)
    ensures SegLayers(layers + [x], segs, n + 1, owner, img)
  {
    hide SegLayer;
  }

  lemma SegLayersStack(layers: seq<Layer>, x: Layer, segs: seq<E.Seg>, n: nat, owner: nat, img: seq<byte>)
    requires SegLayers(layers, segs, n, owner, img)
    ensures SegLayers(layers + [x], segs, n, owner, img)
  {
    hide SegLayer;
  }

  lemma UsedNothing(t: seq<Entry>, owner: nat)
    ensures UsedMore(t, t, owner, 0, E.PageSum([]))
  {
  }

  // ---- when a load cannot fail ----

  /** A segment's permissions are its flags, and its token carries the rights they need and the right to release it. */
  lemma PermsMatch(flags: nat)
    requires flags in {1, 3, 5}
    ensures SegPerms(flags) == flags && ModeOf(flags) == Mode(E.Writable(flags), E.Executable(flags))
    ensures SegRights(flags) == Need(flags) + {Release} && StackRights() == Need(3) + {Release}
  {
    assert flags == 1 || flags == 3 || flags == 5;
  }

  /** Memory, ledger and records have room for every part of the image. */
  ghost predicate RoomToLoad(bits: seq<bool>, t: seq<Entry>, recs: seq<MapRec>, owner: nat, info: E.Info) {
    Room(bits, t, recs, owner, 4 * (info.imagePages + info.stackBytes / FRAME) + 1, |info.segs| + 1, |info.segs| + 1)
  }

  function PagesFrom(segs: seq<E.Seg>, i: nat): nat
    decreases |segs| - i
  {
    if i >= |segs| then 0 else segs[i].pages + PagesFrom(segs, i + 1)
  }

  lemma {:induction false} PagesSplit(segs: seq<E.Seg>, i: nat)
    requires i <= |segs|
    ensures E.PageSum(segs[..i]) + PagesFrom(segs, i) == E.PageSum(segs)
    decreases |segs| - i
  {
    if i == |segs| {
      assert segs[..i] == segs;
    } else {
      PagePrefix(segs, i);
      PagesSplit(segs, i + 1);
    }
  }

  /** Frames that suffice for the segments from the i-th on and the stack, with their page tables, and one more. */
  function FramesFrom(info: E.Info, i: nat): nat {
    4 * (PagesFrom(info.segs, i) + info.stackBytes / FRAME) + 1
  }

  ghost predicate RoomFrom(bits: seq<bool>, t: seq<Entry>, recs: seq<MapRec>, owner: nat, info: E.Info, i: nat) {
    i <= |info.segs| && Room(bits, t, recs, owner, FramesFrom(info, i), |info.segs| + 1 - i, |info.segs| + 1 - i)
  }

  lemma RoomFirst(bits: seq<bool>, t: seq<Entry>, recs: seq<MapRec>, owner: nat, info: E.Info)
    requires RoomToLoad(bits, t, recs, owner, info) && info.imagePages == E.PageSum(info.segs)
    ensures RoomFrom(bits, t, recs, owner, info, 0)
  {
    hide Room, E.PageSum, PagesFrom;
    PagesSplit(info.segs, 0);
    assert info.segs[..0] == [];
    NoPages();
  }

  lemma NoPages()
    ensures E.PageSum([]) == 0
  {
  }

  /** The i-th segment as a part. */
  function SegPart(info: E.Info, i: nat, root: nat, owner: nat): Part
    requires i < |info.segs|
  {
    var g := info.segs[i];
    Part(root, owner, g.pages, SegRights(g.flags), g.vaddr, SegPerms(g.flags), FramesFrom(info, i + 1), |info.segs| - i)
  }

  function StackPart(info: E.Info, root: nat, owner: nat): Part
    requires StackBase(info) >= 0
  {
    Part(root, owner, info.stackBytes / FRAME, StackRights(), StackBase(info), 3, 1, 0)
  }

  lemma RoomNext(bits: seq<bool>, t: seq<Entry>, recs: seq<MapRec>, owner: nat, info: E.Info, i: nat, root: nat)
    requires i < |info.segs| && RoomAfter(bits, t, recs, SegPart(info, i, root, owner))
    ensures RoomFrom(bits, t, recs, owner, info, i + 1)
  {
    hide Room, SegRights, SegPerms, PagesFrom;
  }

  /** Layers apart from a range change none of its pages. */
  lemma {:induction false} RangeStays(leaves: seq<Leaves>, root: nat, layers: seq<Layer>, m: nat, virt: nat, pages: nat)
    requires m < |leaves| && m <= |layers| && virt % FRAME == 0
    requires forall j :: 0 <= j < m ==> Stacked(leaves[j], leaves[j + 1], root, layers[j])
    requires forall j :: 0 <= j < m ==>
      layers[j].virt % FRAME == 0 && Apart(virt, pages, layers[j].virt, layers[j].ent.frames)
    ensures SamePages(leaves[0], leaves[m], root, virt, pages)
  {
    hide Apart, AddPages;
    if m > 0 {
      RangeStays(leaves, root, layers, m - 1, virt, pages);
      var x := layers[m - 1];
      assert Stacked(leaves[m - 1], leaves[m], root, x);
      PagesStay(leaves[m - 1], root, virt, pages, x.virt, x.ent.frames, x.ent.phys, x.mode.write, x.mode.exec);
    }
  }

  lemma LayerPlace(layers: seq<Layer>, segs: seq<E.Seg>, n: nat, owner: nat, img: seq<byte>, j: nat)
    requires SegLayers(layers, segs, n, owner, img) && j < n
    ensures layers[j].virt == segs[j].vaddr && layers[j].ent.frames == segs[j].pages
  {
    hide SegRights, SegPerms, ModeOf;
    assert SegLayer(layers[j], segs[j], owner, img);
  }

  /** Part i's turn: what is mapped in its place was mapped there before the load. */
  lemma PartUntouched(img: seq<byte>, scratch: E.Info, i: nat, b: Begin, t: seq<Entry>, recs: seq<MapRec>, leaf: Leaves,
                      ram: seq<FrameBytes>, root: nat, holder: nat, owner: nat, layers: seq<Layer>, leaves: seq<Leaves>)
    requires E.StatusOf(img) == E.ExbOk
    requires |img| >= E.HEADER && E.TablesFit(E.TablesOf(img), |img|) && i <= |E.InfoOf(img, scratch).segs|
    requires SegLayers(layers, E.InfoOf(img, scratch).segs, i, owner, img)
    requires Going(b, t, recs, leaf, ram, root, holder, layers, leaves, i)
    ensures var info := E.InfoOf(img, scratch);
      && PartVirt(info, i) >= 0
      && ClearPages(leaf, root, info, i) == ClearPages(b.leaf, root, info, i)
      && (PartClear(b.leaf, root, info, i) <==> Vacant(leaf, root, PartVirt(info, i), PartPages(info, i)))
  {
    hide E.StatusOf, E.InfoOf, E.TablesFit, SegLayers, Holding, Stacked, Filled, RamKept, LiveSet, RecSet, BeginOk, FirstTaken;
    var info := E.InfoOf(img, scratch);
    var virt, pages := PartVirt(info, i), PartPages(info, i);
    InfoShape(img, scratch);
    if i < |info.segs| {
      SegmentBounds(img, scratch, i);
    }
    forall j | 0 <= j < i
      ensures layers[j].virt % FRAME == 0 && Apart(virt, pages, layers[j].virt, layers[j].ent.frames)
    {
      SegmentBounds(img, scratch, j);
      LayerPlace(layers, info.segs, i, owner, img, j);
    }
    RangeStays(leaves, root, layers, i, virt, pages);
    SameTaken(b.leaf, leaf, root, virt, pages);
  }

  /** Where there was room for the image there is room for the i-th segment. */
  lemma SegmentReady(img: seq<byte>, scratch: E.Info, i: nat, bits: seq<bool>, t: seq<Entry>, recs: seq<MapRec>, root: nat,
                     owner: nat)
    requires E.StatusOf(img) == E.ExbOk
    requires |img| >= E.HEADER && E.TablesFit(E.TablesOf(img), |img|) && i < |E.InfoOf(img, scratch).segs|
    requires RoomFrom(bits, t, recs, owner, E.InfoOf(img, scratch), i)
    ensures CanGrant(bits, t, recs, SegPart(E.InfoOf(img, scratch), i, root, owner))
  {
    hide E.StatusOf, E.InfoOf, E.TablesFit, SegRights, SegPerms, Need, Room;
    SegmentBounds(img, scratch, i);
    PermsMatch(E.InfoOf(img, scratch).segs[i].flags);
  }

  /** And for the stack. */
  lemma StackReady(img: seq<byte>, scratch: E.Info, bits: seq<bool>, t: seq<Entry>, recs: seq<MapRec>, root: nat, owner: nat)
    requires E.StatusOf(img) == E.ExbOk && |img| >= E.HEADER && E.TablesFit(E.TablesOf(img), |img|)
    requires RoomFrom(bits, t, recs, owner, E.InfoOf(img, scratch), |E.InfoOf(img, scratch).segs|)
    ensures var info := E.InfoOf(img, scratch);
      StackBase(info) >= 0 && CanGrant(bits, t, recs, StackPart(info, root, owner))
  {
    hide E.StatusOf, E.InfoOf, E.TablesFit, Need, Room, StackRights;
    InfoShape(img, scratch);
    PermsMatch(3);
  }

  /** Tokens and addresses of the parts loaded so far. */
  predicate Listed(toks: seq<nat>, vas: seq<nat>, layers: seq<Layer>) {
    && |toks| == |layers| && |vas| <= |layers|
    && forall j :: 0 <= j < |layers| ==> toks[j] == layers[j].tok && (j < |vas| ==> vas[j] == layers[j].virt)
  }

  /** The segments in order; the first failure undoes everything. */
  method LoadSegs(k: Kernel, a: Aspace, owner: nat, img: seq<byte>, ghost scratch: E.Info, info: E.Info, ghost b: Begin,
                  ghost room: bool)
    returns (rc: LoadStatus, toks: seq<nat>, vas: seq<nat>, ghost layers: seq<Layer>, ghost leaves: seq<Leaves>,
             ghost mapped: nat, ghost cause: Cause)
    requires k.Valid() && k.Handle(a) && !k.pt.memory.smp
    requires E.StatusOf(img) == E.ExbOk && |img| >= E.HEADER && E.TablesFit(E.TablesOf(img), |img|)
    requires info == E.InfoOf(img, scratch)
    requires b.table == k.pt.memory.ledger.table && b.leaf == k.pt.leaf
    requires Going(b, k.pt.memory.ledger.table, k.recs, k.pt.leaf, k.pt.memory.ram, a.root, a.owner, [], [b.leaf], 0)
    requires room ==>
      a.live && a.owner == owner && RoomToLoad(k.pt.memory.phys.bits, k.pt.memory.ledger.table, k.recs, owner, info)
    modifies k, k.pt, k.pt.memory, k.pt.memory.phys, k.pt.memory.ledger
    ensures k.Valid() && k.Handle(a) && k.spaces == old(k.spaces)
    ensures rc == LoadOk || rc == LoadNoMem || rc == LoadMap
    ensures TablesAfter(old(k.pt.dir), k.pt.dir, b.leaf, old(k.pt.memory.phys.free), info, a.root, rc, mapped, cause)
    ensures room ==> Foreseen(b.leaf, a.root, info, |info.segs|, rc, mapped, cause)
    ensures rc == LoadOk && room ==>
      RoomFrom(k.pt.memory.phys.bits, k.pt.memory.ledger.table, k.recs, owner, info, |info.segs|)
    ensures !(a.live && a.owner == owner) ==> mapped == 0 && (rc == LoadMap ==> cause == Refused)
    ensures rc != LoadOk ==>
      Going(b, k.pt.memory.ledger.table, k.recs, k.pt.leaf, k.pt.memory.ram, a.root, a.owner, [], [b.leaf], 0)
    ensures rc == LoadOk ==>
      && mapped == |info.segs| == |layers| == |vas| && cause == Refused
      && |k.pt.dir| + k.pt.memory.phys.free + PagesTo(info, mapped) == |old(k.pt.dir)| + old(k.pt.memory.phys.free)
      && Listed(toks, vas, layers) && SegLayers(layers, info.segs, |info.segs|, owner, img)
      && UsedMore(b.table, k.pt.memory.ledger.table, owner, |info.segs|, info.imagePages)
      && Going(b, k.pt.memory.ledger.table, k.recs, k.pt.leaf, k.pt.memory.ram, a.root, a.owner, layers, leaves, |layers|)
  {
    hide Kernel.Consistent, Going, FramesOf, TokensOf, UsedMore, E.StatusOf, E.InfoOf, E.TablesFit, SegRights, SegPerms,
         E.PageSum, SegLayers, ModeOf, TablesAfter, PartTables, RoomToLoad, CanGrant, RoomAfter, RoomFrom, FramesFrom, Vacant,
         Listed, PagesTo, PartClear, ClearPages;
    InfoShape(img, scratch);
    if room {
      RoomFirst(k.pt.memory.phys.bits, k.pt.memory.ledger.table, k.recs, owner, info);
    }
    layers, leaves, toks, vas, mapped, cause := [], [b.leaf], [], [], 0, Refused;
    ghost var d, free := k.pt.dir, k.pt.memory.phys.free;
    TablesFirst(d, b.leaf, free, info, a.root);
    UsedNothing(b.table, owner);
    SegLayersNone(info.segs, owner, img);
    ListedNone();
    while |vas| < |info.segs|
      invariant mapped <= |info.segs| && k.Valid() && k.Handle(a) && k.spaces == old(k.spaces)
      invariant |vas| == |layers| == mapped && (mapped > 0 ==> a.live && a.owner == owner)
      invariant TablesAfter(d, k.pt.dir, b.leaf, free, info, a.root, LoadOk, mapped, Refused) && Listed(toks, vas, layers)
      invariant |k.pt.dir| + k.pt.memory.phys.free + PagesTo(info, mapped) == |d| + free
      invariant Going(b, k.pt.memory.ledger.table, k.recs, k.pt.leaf, k.pt.memory.ram, a.root, a.owner, layers, leaves, mapped)
      invariant SegLayers(layers, info.segs, mapped, owner, img)
      invariant UsedMore(b.table, k.pt.memory.ledger.table, owner, mapped, E.PageSum(info.segs[..mapped]))
      invariant room ==>
        && RoomFrom(k.pt.memory.phys.bits, k.pt.memory.ledger.table, k.recs, owner, info, mapped)
        && forall j :: 0 <= j < mapped ==> PartClear(b.leaf, a.root, info, j)
    {
      var g := info.segs[|vas|];
      SegmentBounds(img, scratch, mapped);
      PartUntouched(img, scratch, mapped, b, k.pt.memory.ledger.table, k.recs, k.pt.leaf, k.pt.memory.ram, a.root, a.owner,
                    owner, layers, leaves);
      if room {
        SegmentReady(img, scratch, mapped, k.pt.memory.phys.bits, k.pt.memory.ledger.table, k.recs, a.root, owner);
      }
      ghost var t, dir, leaf, spare := k.pt.memory.ledger.table, k.pt.dir, k.pt.leaf, k.pt.memory.phys.free;
      var tok;
      ghost var x, more;
      rc, tok, x, more, cause := LoadPart(k, a, owner, g.pages, SegRights(g.flags), g.vaddr, SegPerms(g.flags), img, g.off, g.size,
                                          b, layers, leaves, room, FramesFrom(info, mapped + 1), |info.segs| - mapped);
      TablesNext(d, dir, k.pt.dir, b.leaf, leaf, free, spare, k.pt.memory.phys.free, info, a.root, rc, mapped, cause);
      if rc != LoadOk {
        if room {
          ClearPartsIs(b.leaf, a.root, info, |info.segs|, mapped);
        }
        Undo(k, a, rc, toks, vas, tok, b, layers, leaves, x);
        return;
      }
      SegLayersMore(layers, x, info.segs, mapped, owner, img);
      UsedTrans(b.table, t, k.pt.memory.ledger.table, owner, mapped, E.PageSum(info.segs[..mapped]), 1, g.pages);
      PagePrefix(info.segs, mapped);
      if room {
        RoomNext(k.pt.memory.phys.bits, k.pt.memory.ledger.table, k.recs, owner, info, mapped, a.root);
      }
      ListedMore(toks, vas, layers, tok, g.vaddr, x);
      toks, vas, layers, leaves := toks + [tok], vas + [g.vaddr], layers + [x], more;
      mapped := mapped + 1;
    }
    assert info.segs[..|info.segs|] == info.segs;
    if room {
      ClearPartsIs(b.leaf, a.root, info, |info.segs|, mapped);
    }
    rc, cause := LoadOk, Refused;
  }

  lemma ListedNone()
    ensures Listed([], [], [])
  {
  }

  lemma ListedMore(toks: seq<nat>, vas: seq<nat>, layers: seq<Layer>, tok: nat, virt: nat, x: Layer)
    requires Listed(toks, vas, layers) && |vas| == |layers| && tok == x.tok && virt == x.virt
    ensures Listed(toks + [tok], vas + [virt], layers + [x]) && Listed(toks + [tok], vas, layers + [x])
  {
  }

  /** Takes back what was loaded, and the token of the part that failed to map. */
  method Undo(k: Kernel, a: Aspace, rc: LoadStatus, toks: seq<nat>, vas: seq<nat>, tok: nat, ghost b: Begin,
              ghost layers: seq<Layer>, ghost leaves: seq<Leaves>, ghost x: Layer)
    requires k.Valid() && k.Handle(a) && !k.pt.memory.smp && (rc == LoadNoMem || rc == LoadMap)
    requires Listed(toks, vas, layers) && |vas| == |layers| && (|vas| > 0 ==> a.live)
    requires rc == LoadNoMem ==>
      Going(b, k.pt.memory.ledger.table, k.recs, k.pt.leaf, k.pt.memory.ram, a.root, a.owner, layers, leaves, |layers|)
    requires rc == LoadMap ==>
      && x.tok == tok
      && Going(b, k.pt.memory.ledger.table, k.recs, k.pt.leaf, k.pt.memory.ram, a.root, a.owner, layers + [x], leaves, |layers|)
    modifies k, k.pt, k.pt.memory, k.pt.memory.phys, k.pt.memory.ledger
    ensures k.Valid() && k.Handle(a) && k.spaces == old(k.spaces) && k.pt.dir == old(k.pt.dir)
    ensures Going(b, k.pt.memory.ledger.table, k.recs, k.pt.leaf, k.pt.memory.ram, a.root, a.owner, [], [b.leaf], 0)
  {
    hide Kernel.Consistent, Going;
    if rc == LoadMap {
      ListedMore(toks, vas, layers, tok, x.virt, x);
      Rollback(k, a, toks + [tok], vas, b, layers + [x], leaves);
    } else {
      Rollback(k, a, toks, vas, b, layers, leaves);
    }
  }

  /** The segments, then the stack; the first failure undoes everything. */
  method LoadParts(k: Kernel, a: Aspace, owner: nat, img: seq<byte>, ghost scratch: E.Info, info: E.Info, ghost b: Begin,
                   ghost room: bool)
    returns (rc: LoadStatus, ghost layers: seq<Layer>, ghost leaves: seq<Leaves>, ghost mapped: nat, ghost cause: Cause)
    requires k.Valid() && k.Handle(a) && !k.pt.memory.smp
    requires E.StatusOf(img) == E.ExbOk && |img| >= E.HEADER && E.TablesFit(E.TablesOf(img), |img|)
    requires info == E.InfoOf(img, scratch)
    requires b.table == k.pt.memory.ledger.table && b.leaf == k.pt.leaf
    requires Going(b, k.pt.memory.ledger.table, k.recs, k.pt.leaf, k.pt.memory.ram, a.root, a.owner, [], [b.leaf], 0)
    requires room ==>
      a.live && a.owner == owner && RoomToLoad(k.pt.memory.phys.bits, k.pt.memory.ledger.table, k.recs, owner, info)
    modifies k, k.pt, k.pt.memory, k.pt.memory.phys, k.pt.memory.ledger
    ensures k.Valid() && k.Handle(a) && k.spaces == old(k.spaces)
    ensures rc == LoadOk || rc == LoadNoMem || rc == LoadMap
    ensures TablesAfter(old(k.pt.dir), k.pt.dir, b.leaf, old(k.pt.memory.phys.free), info, a.root, rc, mapped, cause)
    ensures room ==> Foreseen(b.leaf, a.root, info, |info.segs| + 1, rc, mapped, cause)
    ensures !(a.live && a.owner == owner) ==> mapped == 0 && (rc == LoadMap ==> cause == Refused)
    ensures rc != LoadOk ==>
      Going(b, k.pt.memory.ledger.table, k.recs, k.pt.leaf, k.pt.memory.ram, a.root, a.owner, [], [b.leaf], 0)
    ensures rc == LoadOk ==>
      && a.live && a.owner == owner
      && |layers| == |info.segs| + 1
      && SegLayers(layers, info.segs, |info.segs|, owner, img)
      && StackLayer(layers[|info.segs|], info, owner)
      && UsedMore(b.table, k.pt.memory.ledger.table, owner, |info.segs| + 1, info.imagePages + info.stackBytes / FRAME)
      && Going(b, k.pt.memory.ledger.table, k.recs, k.pt.leaf, k.pt.memory.ram, a.root, owner, layers, leaves, |layers|)
  {
    hide Kernel.Consistent, Going, FramesOf, TokensOf, UsedMore, E.StatusOf, E.InfoOf, E.TablesFit, SegRights, SegPerms,
         E.PageSum, SegLayers, ModeOf, TablesAfter, PartTables, RoomToLoad, CanGrant, RoomAfter, RoomFrom, FramesFrom, Vacant,
         Listed, PagesTo, PartClear, ClearPages;
    ghost var d, free := k.pt.dir, k.pt.memory.phys.free;
    InfoShape(img, scratch);
    var toks, vas;
    rc, toks, vas, layers, leaves, mapped, cause := LoadSegs(k, a, owner, img, scratch, info, b, room);
    if rc != LoadOk {
      if room {
        ClearPartsIs(b.leaf, a.root, info, |info.segs| + 1, mapped);
      }
      return;
    }
    var base := USER_END - FRAME - info.stackBytes;
    ghost var t, dir, leaf, spare := k.pt.memory.ledger.table, k.pt.dir, k.pt.leaf, k.pt.memory.phys.free;
    PartUntouched(img, scratch, mapped, b, t, k.recs, leaf, k.pt.memory.ram, a.root, a.owner, owner, layers, leaves);
    if room {
      StackReady(img, scratch, k.pt.memory.phys.bits, t, k.recs, a.root, owner);
    }
    var tok;
    ghost var x, more;
    assert img[0..0] == [];
    rc, tok, x, more, cause := LoadPart(k, a, owner, info.stackBytes / FRAME, StackRights(), base, 3, img, 0, 0, b, layers,
                                        leaves, room, 1, 0);
    TablesNext(d, dir, k.pt.dir, b.leaf, leaf, free, spare, k.pt.memory.phys.free, info, a.root, rc, mapped, cause);
    if room {
      ClearPartsIs(b.leaf, a.root, info, |info.segs| + 1, if rc == LoadOk then mapped + 1 else mapped);
    }
    if rc != LoadOk {
      Undo(k, a, rc, toks, vas, tok, b, layers, leaves, x);
      return;
    }
    SegLayersStack(layers, x, info.segs, |info.segs|, owner, img);
    UsedTrans(b.table, t, k.pt.memory.ledger.table, owner, |info.segs|, info.imagePages, 1, info.stackBytes / FRAME);
    layers, leaves, mapped := layers + [x], more, mapped + 1;
  }

  /** Exactly the frames that were free and became no page table are free; new tables lie in frames that were free. */
  ghost predicate FreeAgain(was: seq<bool>, now: seq<bool>, before: set<nat>, tables: set<nat>) {
    && |was| == |now| && (forall f :: 0 <= f < |now| ==> now[f] == (was[f] && f !in tables))
    && forall f :: f in tables && f !in before ==> f < |was| && was[f]
  }

  lemma {:induction false} SameTokens(t0: seq<Entry>, t: seq<Entry>)
    requires |t0| == |t| && forall s :: 0 <= s < |t| ==> SameOrDead(t0[s], t[s])
    ensures TokenFrames(t) == TokenFrames(t0)
  {
    hide EntryFrames;
    if t != [] {
      var n := |t| - 1;
      SameTokens(t0[..n], t[..n]);
      DeadHoldsNothing(t0[n]);
      DeadHoldsNothing(t[n]);
    }
  }

  /** With the tokens as before, the frames in use are those in use before and the new tables. */
  lemma FramesBack(was: seq<bool>, now: seq<bool>, reserved: set<nat>, t0: seq<Entry>, t: seq<Entry>, tables0: set<nat>,
                   tables: set<nat>)
    requires Balanced(was, reserved, t0, tables0, multiset{}) && Balanced(now, reserved, t, tables, multiset{})
    requires |was| == |now| && TokenFrames(t) == TokenFrames(t0) && tables0 <= tables
    ensures FreeAgain(was, now, tables0, tables)
  {
    hide Balanced, TokenFrames;
    forall f | 0 <= f < |now|
      ensures now[f] == (was[f] && f !in tables)
    {
      InOnePlace(was, reserved, t0, tables0, multiset{}, f);
      InOnePlace(now, reserved, t, tables, multiset{}, f);
      assert multiset(tables)[f] == if f in tables then 1 else 0;
      assert multiset(tables0)[f] == if f in tables0 then 1 else 0;
    }
    forall f | f in tables && f !in tables0
      ensures f < |was| && was[f]
    {
      InOnePlace(was, reserved, t0, tables0, multiset{}, f);
      InOnePlace(now, reserved, t, tables, multiset{}, f);
      assert multiset(tables)[f] == 1 && multiset(tables0)[f] == 0;
    }
  }

  lemma OneCpuBalance(k: Kernel)
    requires k.Valid() && !k.pt.memory.smp
    ensures var m := k.pt.memory;
      && Balanced(m.phys.bits, m.reserved, m.ledger.table, m.tables, multiset{})
      && |m.ram| == |m.phys.bits| && m.tables == k.pt.dir.Values
  {
    hide Tree, Mapped, Roots, Capped, Balanced, PhysMem.CountFree, LiveCount;
    NoFlight(k.pt.memory.mine, k.pt.memory.others);
  }

  lemma NoFlight(mine: multiset<nat>, others: seq<Flight>)
    requires mine == multiset{} && others == []
    ensures mine + FlightFrames(others) == multiset{}
  {
  }

  /**
   Loads an image: on any failure the kernel is as before but for page tables that stay
   in the space; on success exactly one mapping per segment and one stack were added.
   `scratch` is what the validator's record held beforehand, `mapped` how many parts were
   mapped at the end or when one failed, `cause` why one was not mapped.
   */
  method Load(s: System, a: Aspace, owner: nat, img: seq<byte>, scratch: E.Info)
    returns (rc: LoadStatus, out: Result, ghost layers: seq<Layer>, ghost leaves: seq<Leaves>, ghost mapped: nat,
             ghost cause: Cause)
    requires s.Valid() && s.k.Handle(a) && !s.k.pt.memory.smp
    modifies s.k, s.k.pt, s.k.pt.memory, s.k.pt.memory.phys, s.k.pt.memory.ledger
    ensures s.Valid() && s.k.Handle(a) && s.k.spaces == old(s.k.spaces)
    ensures rc == LoadArg <==> img == [] || owner == OWNER_KERNEL
    ensures rc == LoadImage <==> rc != LoadArg && E.StatusOf(img) != E.ExbOk
    ensures rc == LoadArg || rc == LoadImage || rc == LoadQuota ==>
      s.k.Untouched() && s.k.pt.dir == old(s.k.pt.dir) && s.k.pt.memory.phys.bits == old(s.k.pt.memory.phys.bits)
    ensures rc != LoadOk ==>
      && AsBefore(old(Begin(s.k.pt.memory.ledger.table, LiveSet(s.k.recs), s.k.pt.leaf, s.k.pt.memory.ram)),
                  s.k.pt.memory.ledger.table, s.k.recs, s.k.pt.leaf, s.k.pt.memory.ram)
      && s.k.pt.memory.tables == s.k.pt.dir.Values
      && FreeAgain(old(s.k.pt.memory.phys.bits), s.k.pt.memory.phys.bits, old(s.k.pt.memory.tables), s.k.pt.memory.tables)
    ensures rc == LoadOk || rc == LoadQuota || rc == LoadNoMem || rc == LoadMap ==>
      && E.StatusOf(img) == E.ExbOk && |img| >= E.HEADER && E.TablesFit(E.TablesOf(img), |img|)
      && (var info, t, max := E.InfoOf(img, scratch), old(s.k.pt.memory.ledger.table), Limit(s.quota, owner);
          && (rc == LoadQuota <==>
                || FramesOf(t, owner) + info.imagePages + info.stackBytes / FRAME > max.frames
                || TokensOf(t, owner) + |info.segs| + 1 > max.tokens)
          && (rc != LoadQuota ==>
                && TablesAfter(old(s.k.pt.dir), s.k.pt.dir, old(s.k.pt.leaf), old(s.k.pt.memory.phys.free), info, a.root, rc,
                               mapped, cause)
                && (a.live && a.owner == owner && RoomToLoad(old(s.k.pt.memory.phys.bits), t, old(s.k.recs), owner, info) ==>
                      AsForeseen(old(s.k.pt.dir), s.k.pt.dir, old(s.k.pt.leaf), a.root, info, rc))))
    ensures !(a.live && a.owner == owner) ==> rc != LoadOk && s.k.pt.dir == old(s.k.pt.dir)
    ensures rc == LoadOk ==>
      && a.live && a.owner == owner
      && (var info := E.InfoOf(img, scratch);
          && out == Result(info.entry, USER_END - FRAME, info.stackBytes, info.extraTokens)
          && |layers| == |info.segs| + 1
          && SegLayers(layers, info.segs, |info.segs|, owner, img)
          && StackLayer(layers[|info.segs|], info, owner)
          && UsedMore(old(s.k.pt.memory.ledger.table), s.k.pt.memory.ledger.table, owner, |info.segs| + 1,
                      info.imagePages + info.stackBytes / FRAME))
      && Going(old(Begin(s.k.pt.memory.ledger.table, LiveSet(s.k.recs), s.k.pt.leaf, s.k.pt.memory.ram)),
               s.k.pt.memory.ledger.table, s.k.recs, s.k.pt.leaf, s.k.pt.memory.ram, a.root, owner, layers, leaves,
               |layers|)
  {
    hide Kernel.Consistent, Going, FramesOf, TokensOf, WithinAll, UsedMore, E.StatusOf, E.InfoOf, E.TablesFit, AsBefore,
         LiveSet, SegRights, SegPerms, E.PageSum, SegLayer, RoomToLoad, TablesAfter, FreeAgain, Balanced,
         TokenFrames, ClearParts, Foreseen, AsForeseen, LoadWays, Grown, SegLayers, StackLayer, Limit, Roomier;
    out, layers, mapped, cause := Result(0, 0, 0, 0), [], 0, Refused;
    ghost var k := s.k;
    ghost var t := k.pt.memory.ledger.table;
    ghost var b := Begin(t, LiveSet(k.recs), k.pt.leaf, k.pt.memory.ram);
    leaves := [k.pt.leaf];
    BeginWell(k);
    NoLayers(b, t, k.recs, k.pt.leaf, k.pt.memory.ram, 0, 0, a.root, a.owner, leaves);
    BackAgain(b, t, k.recs, k.pt.leaf, k.pt.memory.ram, a.root, a.owner, leaves);
    OneCpuBalance(k);
    FramesBack(k.pt.memory.phys.bits, k.pt.memory.phys.bits, k.pt.memory.reserved, t, t, k.pt.memory.tables,
               k.pt.memory.tables);
    if img == [] || owner == OWNER_KERNEL {
      return LoadArg, out, layers, leaves, 0, cause;
    }
    var status, info := E.Parse(img, scratch);
    if status != E.ExbOk {
      return LoadImage, out, layers, leaves, 0, cause;
    }
    var stackPages := info.stackBytes / FRAME;
    var ok := QuotaOk(s, owner, info.imagePages + stackPages, |info.segs| + 1);
    if !ok {
      return LoadQuota, out, layers, leaves, 0, cause;
    }
    ghost var room := a.live && a.owner == owner && RoomToLoad(k.pt.memory.phys.bits, t, k.recs, owner, info);
    rc, layers, leaves, mapped, cause := LoadParts(s.k, a, owner, img, scratch, info, b, room);
    TablesGrown(old(k.pt.dir), k.pt.dir, b.leaf, old(k.pt.memory.phys.free), info, a.root, rc, mapped, cause);
    if room {
      TablesForeseen(old(k.pt.dir), k.pt.dir, b.leaf, old(k.pt.memory.phys.free), info, a.root, rc, mapped, cause);
    }
    if rc == LoadOk {
      out := Result(info.entry, USER_END - FRAME, info.stackBytes, info.extraTokens);
      WithinUse(s.quota, s.bound, t, k.pt.memory.ledger.table, owner, |info.segs| + 1, info.imagePages + stackPages);
    } else {
      BackAgain(b, k.pt.memory.ledger.table, k.recs, k.pt.leaf, k.pt.memory.ram, a.root, a.owner, [b.leaf]);
      WithinUse(s.quota, s.bound, t, k.pt.memory.ledger.table, 0, 0, 0);
      FramesLeft(k, b, old(k.pt.memory.phys.bits), old(k.pt.memory.tables), old(k.pt.dir));
    }
  }

  /** After a failure the only frames in use that were free are the tables that stay. */
  lemma FramesLeft(k: Kernel, b: Begin, bits: seq<bool>, tables: set<nat>, d: Dir)
    requires k.Valid() && !k.pt.memory.smp && |b.ram| == |bits| && tables == d.Values
    requires Balanced(bits, k.pt.memory.reserved, b.table, tables, multiset{})
    requires AsBefore(b, k.pt.memory.ledger.table, k.recs, k.pt.leaf, k.pt.memory.ram)
    requires Grown(d, k.pt.dir)
    ensures FreeAgain(bits, k.pt.memory.phys.bits, tables, k.pt.memory.tables) && k.pt.memory.tables == k.pt.dir.Values
  {
    hide Kernel.Consistent, Balanced, TokenFrames, LiveSet, FreeAgain;
    OneCpuBalance(k);
    SameTokens(b.table, k.pt.memory.ledger.table);
    ValuesStay(d, k.pt.dir);
    FramesBack(bits, k.pt.memory.phys.bits, k.pt.memory.reserved, b.table, k.pt.memory.ledger.table, tables,
               k.pt.memory.tables);
  }

  lemma ValuesStay(d: Dir, e: Dir)
    requires Grown(d, e)
    ensures d.Values <= e.Values
  {
    forall f | f in d.Values
      ensures f in e.Values
    {
      var k :| k in d && d[k] == f;
      assert e[k] == f;
    }
  }
}
