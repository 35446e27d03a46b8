/**
 Address spaces: creating them, mapping, unmapping and revoking tokens in them,
 and tearing them down, each under the page-table lock.
 */
module AddressSpaces {
  import PhysMem
  import opened TokenLedger
  import opened FrameMemory
  import opened PageTables
  import opened Paging
  import opened Mappings

  const OWNER_KERNEL: nat := 0
  const PERM_LIMIT: nat := 8

  datatype XasStatus =
    | XasOk | XasArg | XasWx | XasRange | XasToken | XasOwner | XasRights | XasBusy | XasNoMem | XasNotMapped

  function ModeOf(perms: nat): Mode {
    Mode(perms / 2 % 2 == 1, perms / 4 % 2 == 1)
  }

  /** The rights a token must carry to be mapped with these permissions. */
  function Need(perms: nat): set<Right> {
    {Map, Read} + (if ModeOf(perms).write then {Write} else {}) + (if ModeOf(perms).exec then {Execute} else {})
  }

  function MapErr(rc: MapStatus): XasStatus {
    match rc
    case MapOk => XasOk
    case MapStale => XasToken
    case MapKind => XasToken
    case MapOwner => XasOwner
    case MapRights => XasRights
    case MapBusy => XasBusy
  }

  /** What xas_map answers before it looks at page tables. */
  function Refusal(recs: seq<MapRec>, t: seq<Entry>, live: bool, owner: nat, virt: nat, tok: nat, perms: nat): XasStatus {
    if !live || perms == 0 || perms >= PERM_LIMIT then XasArg
    else if ModeOf(perms).write && ModeOf(perms).exec then XasWx
    else if virt % FRAME != 0 || virt < USER_BASE * FRAME || virt >= USER_TOP * FRAME then XasRange
    else if OwnerRecs(recs, owner) >= MAX_PER_OWNER then XasNoMem
    else
      var got := AcquireStatus(t, tok, owner, Need(perms));
      if got != MapOk then MapErr(got)
      else if At(t, tok).frames > (USER_TOP * FRAME - virt) / FRAME then XasRange
      else if FirstFree(recs) == |recs| then XasNoMem
      else XasOk
  }

  /** The refusals, by what the call asks for and what the ledger and the records say. */
  lemma RefusalExactly(recs: seq<MapRec>, t: seq<Entry>, live: bool, owner: nat, virt: nat, tok: nat, perms: nat)
    ensures var rc := Refusal(recs, t, live, owner, virt, tok, perms);
      var inUser := virt % FRAME == 0 && USER_BASE * FRAME <= virt < USER_TOP * FRAME;
      var fits := virt + PagesOf(t, tok) * FRAME <= USER_TOP * FRAME;
      var mine := IsLive(t, tok) && At(t, tok).kind == Ram && At(t, tok).owner == owner;
      var asked := live && 1 <= perms <= 5;
      var room := asked && inUser && OwnerRecs(recs, owner) < 64;
      var may := room && mine && Suffices(At(t, tok).rights, perms);
      var pins := may && At(t, tok).mapCount != 0xFFFF;
      && (rc == XasArg <==> !live || perms == 0 || perms > 7)
      && (rc == XasWx <==> live && (perms == 6 || perms == 7))
      && (rc == XasToken <==> room && (!IsLive(t, tok) || At(t, tok).kind != Ram))
      && (rc == XasOwner <==> room && IsLive(t, tok) && At(t, tok).kind == Ram && At(t, tok).owner != owner)
      && (rc == XasRights <==> room && mine && !may)
      && (rc == XasBusy <==> may && !pins)
      && (rc == XasRange <==> (asked && !inUser) || (pins && !fits))
      && (rc == XasNoMem <==>
            || (asked && inUser && !room)
            || (pins && fits && forall i :: 0 <= i < |recs| ==> recs[i].live))
      && (rc == XasOk <==> pins && fits && exists i :: 0 <= i < |recs| && !recs[i].live)
      && rc != XasNotMapped
  {
    hide IsLive, OwnerRecs;
    FirstFreeIs(recs, FirstFree(recs));
  }

  /** A token with these rights may be mapped readable, and writable or executable if the permissions say so. */
  predicate Suffices(rights: set<Right>, perms: nat) {
    && Map in rights && Read in rights
    && (perms in {2, 3, 6, 7} ==> Write in rights)
    && (perms in {4, 5, 6, 7} ==> Execute in rights)
  }

  function OwnerRecs(recs: seq<MapRec>, owner: nat): nat {
    if recs == [] then 0
    else OwnerRecs(recs[..|recs| - 1], owner) + if recs[|recs| - 1].live && recs[|recs| - 1].owner == owner then 1 else 0
  }

  lemma {:induction false} OwnerRecsSet(recs: seq<MapRec>, i: nat, r: MapRec, owner: nat)
    requires i < |recs|
    ensures OwnerRecs(recs[i := r], owner) + (if recs[i].live && recs[i].owner == owner then 1 else 0)
         == OwnerRecs(recs, owner) + if r.live && r.owner == owner then 1 else 0
    decreases |recs|
  {
    var last := |recs| - 1;
    if i < last {
      OwnerRecsSet(recs[..last], i, r, owner);
      assert recs[i := r][..last] == recs[..last][i := r];
    } else {
      assert recs[i := r][..last] == recs[..last];
    }
  }

  /** No owner takes more than its share of the records. */
  ghost predicate Capped(recs: seq<MapRec>) {
    forall owner :: OwnerRecs(recs, owner) <= MAX_PER_OWNER
  }

  lemma CappedSet(recs: seq<MapRec>, i: nat, r: MapRec)
    requires Capped(recs) && i < |recs|
    requires r.live ==> !recs[i].live && OwnerRecs(recs, r.owner) < MAX_PER_OWNER
    ensures Capped(recs[i := r])
  {
    var after := recs[i := r];
    forall owner
      ensures OwnerRecs(after, owner) <= MAX_PER_OWNER
    {
      OwnerRecsSet(recs, i, r, owner);
    }
  }

  function FirstFree(recs: seq<MapRec>): (i: nat)
    ensures i <= |recs|
    ensures i < |recs| ==> !recs[i].live
    ensures forall j :: 0 <= j < i ==> recs[j].live
  {
    if recs == [] then 0
    else
      var i := FirstFree(recs[..|recs| - 1]);
      if i < |recs| - 1 || !recs[|recs| - 1].live then i else |recs|
  }

  lemma FirstFreeIs(recs: seq<MapRec>, i: nat)
    requires i <= |recs| && (i < |recs| ==> !recs[i].live) && forall j :: 0 <= j < i ==> recs[j].live
    ensures FirstFree(recs) == i
  {
  }

  function PagesOf(t: seq<Entry>, tok: nat): nat {
    if IsLive(t, tok) then At(t, tok).frames else 0
  }

  /**
   What mapping n pages answers on one CPU when nothing speaks against it: it took at
   most three page tables for each page, and `left` frames are free afterwards.
   */
  ghost predicate MapAnswer(rc: XasStatus, leaf: Leaves, root: nat, virt: nat, n: nat, was: seq<bool>, now: seq<bool>,
                            left: nat) {
    && (rc == XasOk || rc == XasNoMem || rc == XasBusy)
    && (rc == XasNoMem ==> left == 0)
    && (rc == XasBusy ==> FirstTaken(leaf, root, Vpn(virt), n) < n)
    && PhysMem.RunsKept(was, now, 3 * n)
  }

  /** The tables it makes: those on the way to the pages, or to the pages before the first one mapped already. */
  ghost predicate MapTables(rc: XasStatus, d: Dir, e: Dir, leaf: Leaves, root: nat, virt: nat, n: nat) {
    && (rc == XasOk || rc == XasNoMem || rc == XasBusy)
    && GrownBy(d, e, Ways(root, Vpn(virt), n))
    && (rc == XasOk ==> Ways(root, Vpn(virt), n) <= e.Keys && FirstTaken(leaf, root, Vpn(virt), n) == n)
    && (rc == XasBusy ==> FirstTaken(leaf, root, Vpn(virt), n) < n)
    && (rc == XasBusy ==> e.Keys == d.Keys + Ways(root, Vpn(virt), FirstTaken(leaf, root, Vpn(virt), n)))
  }

  ghost predicate Roots(dir: Dir, spaces: map<nat, nat>) {
    forall r :: r in spaces <==> Key(r, 4, 0) in dir
  }

  lemma GrownKeys(d: Dir, e: Dir, w: set<Key>)
    requires GrownBy(d, e, w)
    ensures Grown(d, e)
  {
  }

  lemma RootsGrown(d: Dir, e: Dir, spaces: map<nat, nat>)
    requires Roots(d, spaces) && Grown(d, e)
    ensures Roots(e, spaces)
  {
    forall r
      ensures Key(r, 4, 0) in e <==> Key(r, 4, 0) in d
    {
    }
  }

  /** The handle the kernel keeps per process. */
  class Aspace {
    var root: nat
    var owner: nat
    var live: bool

    constructor ()
      ensures !live
    {
      root, owner, live := 0, 0, false;
    }
  }

  class Kernel {
    const pt: Paging
    /** The kernel's own PML4. */
    const kernelRoot: seq<Pte>
    var recs: seq<MapRec>
    ghost var modes: seq<Mode>
    ghost var via: map<(nat, nat), nat>
    /** The owner of each live address space, by root. */
    ghost var spaces: map<nat, nat>

    ghost predicate Consistent(extra: set<nat>)
      reads this, pt, pt.memory, pt.memory.phys, pt.memory.ledger
    {
      && |recs| == |modes| == MAX_MAPS && |kernelRoot| == ENTS
      && pt.Valid() && pt.memory.mine == multiset{}
      && Mapped(recs, modes, pt.leaf, via, pt.memory.ledger.table, spaces, extra)
      && Roots(pt.dir, spaces) && Capped(recs)
    }

    ghost predicate Valid()
      reads this, pt, pt.memory, pt.memory.phys, pt.memory.ledger
    {
      Consistent({})
    }

    /** After boot: no address space, no mapping, no pinned token. */
    constructor (p: Paging, kernel: seq<Pte>)
      requires p.Valid() && p.memory.mine == multiset{} && p.dir == map[] && p.leaf == map[] && |kernel| == ENTS
      requires forall s :: 0 <= s < SLOTS ==> p.memory.ledger.table[s].mapCount == 0
      ensures Valid() && pt == p && kernelRoot == kernel && spaces == map[]
      ensures forall i :: 0 <= i < |recs| ==> !recs[i].live
    {
      pt, kernelRoot, via, spaces := p, kernel, map[], map[];
      recs := seq(MAX_MAPS, i => MapRec(0, 0, 0, 0, 0, false));
      modes := seq(MAX_MAPS, i => Mode(false, false));
      new;
      forall s: nat
        ensures PinCount(recs, s) == 0
      {
        PinCountNone(recs, s);
      }
      NoRecs(recs);
    }

    ghost predicate Handle(a: Aspace)
      reads this, a
    {
      a.live ==> a.root in spaces && spaces[a.root] == a.owner
    }

    /** Nothing a process can see has changed: records, pages, and with one CPU tokens and memory. */
    twostate predicate Untouched()
      reads this, pt, pt.memory, pt.memory.phys, pt.memory.ledger
    {
      && recs == old(recs) && modes == old(modes) && via == old(via) && spaces == old(spaces)
      && pt.leaf == old(pt.leaf)
      && (!pt.memory.smp ==> pt.memory.ledger.table == old(pt.memory.ledger.table) && pt.memory.ram == old(pt.memory.ram))
    }

    /** One record more, mapping the whole token onto pages that were free. */
    twostate predicate Added(root: nat, owner: nat, virt: nat, tok: nat, m: Mode)
      reads this, pt, pt.memory, pt.memory.ledger
    {
      && IsLive(pt.memory.ledger.table, tok)
      && FirstFree(old(recs)) < |old(recs)| == |old(modes)|
      && spaces == old(spaces)
      && (var e := At(pt.memory.ledger.table, tok);
          && e.owner == owner
          && recs == old(recs)[FirstFree(old(recs)) := MapRec(root, owner, virt, tok, e.frames, true)]
          && modes == old(modes)[FirstFree(old(recs)) := m]
          && (forall p: (nat, nat) :: p in old(pt.leaf) ==> !InRange(p, root, Vpn(virt), e.frames))
          && pt.leaf == AddPages(old(pt.leaf), root, Vpn(virt), e.frames, e.phys, m.write, m.exec))
    }

    /** With one CPU the ledger changed by one pin. */
    twostate predicate OnePin(tok: nat)
      reads this, pt, pt.memory, pt.memory.ledger
    {
      !pt.memory.smp ==>
        && pt.memory.ram == old(pt.memory.ram)
        && pt.memory.ledger.table == PinAt(old(pt.memory.ledger.table), tok)
    }

    /** With one CPU the ledger changed by one pin less. */
    twostate predicate OneUnpin(tok: nat)
      reads this, pt, pt.memory, pt.memory.ledger
    {
      !pt.memory.smp ==>
        && pt.memory.ram == old(pt.memory.ram)
        && pt.memory.ledger.table == UnpinAt(old(pt.memory.ledger.table), tok)
    }

    twostate lemma SameStock()
      requires pt.dir == old(pt.dir) && (!pt.memory.smp ==> pt.memory.phys.free == old(pt.memory.phys.free))
      ensures !pt.memory.smp ==> pt.Stock() == old(pt.Stock())
    {
    }

    method CountOwner(owner: nat) returns (n: nat)
      ensures n == OwnerRecs(recs, owner)
    {
      n := 0;
      var i: nat := 0;
      while i < |recs|
        invariant i <= |recs| && n == OwnerRecs(recs[..i], owner)
      {
        assert recs[..i + 1][..i] == recs[..i];
        if recs[i].live && recs[i].owner == owner {
          n := n + 1;
        }
        i := i + 1;
      }
      assert recs[..|recs|] == recs;
    }

    method FindFree() returns (i: nat)
      ensures i == FirstFree(recs)
    {
      i := 0;
      while i < |recs|
        invariant i <= |recs| && forall j :: 0 <= j < i ==> recs[j].live
      {
        if !recs[i].live {
          break;
        }
        i := i + 1;
      }
      FirstFreeIs(recs, i);
    }

    /** Takes back the pin of a mapping that was not made. */
    method Unpin(tok: nat)
      requires Consistent({SlotOf(tok)}) && IsLive(pt.memory.ledger.table, tok)
      modifies pt.memory, pt.memory.phys, pt.memory.ledger
      ensures Valid() && pt.memory.tables == old(pt.memory.tables)
      ensures OneUnpin(tok)
      ensures !pt.memory.smp ==> pt.memory.phys.bits == old(pt.memory.phys.bits) && pt.memory.phys.free == old(pt.memory.phys.free)
    {
      hide Tree, Memory.Valid, Mapped, IsLive, PinsKept, Roots, Capped, UnpinAt;
      PinnedStays(recs, modes, pt.leaf, via, pt.memory.ledger.table, spaces, tok);
      var seen := pt.memory.MapRelease(tok);
      StillPinned(old(pt.memory.ledger.table), seen, tok);
      OthersKeep(recs, modes, pt.leaf, via, old(pt.memory.ledger.table), seen, spaces, {SlotOf(tok)});
      UnpinKeep(recs, modes, pt.leaf, via, seen, tok, spaces);
    }

    /** Maps a token; `seen` is the ledger it found when it pinned the token. */
    method Map(a: Aspace, virt: nat, tok: nat, perms: nat) returns (rc: XasStatus, ghost seen: seq<Entry>)
      requires Valid() && Handle(a)
      modifies this, pt, pt.memory, pt.memory.phys, pt.memory.ledger
      ensures Valid() && Handle(a) && Grown(old(pt.dir), pt.dir)
      ensures rc != XasOk ==> Untouched()
      ensures rc == XasOk ==> a.live && Added(a.root, a.owner, virt, tok, ModeOf(perms)) && OnePin(tok)
      ensures PinsKept(old(pt.memory.ledger.table), seen)
      ensures !pt.memory.smp ==> seen == old(pt.memory.ledger.table) && pt.Stock() == old(pt.Stock())
      ensures var why := Refusal(old(recs), seen, a.live, a.owner, virt, tok, perms);
        && (why != XasOk ==> rc == why && pt.dir == old(pt.dir))
        && (why == XasOk ==> MapTables(rc, old(pt.dir), pt.dir, old(pt.leaf), a.root, virt, PagesOf(seen, tok)))
        && (why == XasOk && !pt.memory.smp ==>
              MapAnswer(rc, old(pt.leaf), a.root, virt, PagesOf(seen, tok), old(pt.memory.phys.bits), pt.memory.phys.bits,
                        pt.memory.phys.free))
    {
      hide Tree, Memory.Valid, Mapped, IsLive, PinsKept, Roots, Capped, AcquireStatus, OwnerRecs, FirstFree, Grown, GrownBy, Ways, PhysMem.RunsKept,
           FirstTaken, Paging.Stock, MapTables, MapAnswer;
      GrownSelf(pt.dir);
      seen := pt.memory.ledger.table;
      PinsKeptSelf(seen);
      if !a.live || perms == 0 || perms >= PERM_LIMIT {
        return XasArg, seen;
      }
      if ModeOf(perms).write && ModeOf(perms).exec {
        return XasWx, seen;
      }
      if virt % FRAME != 0 || virt < USER_BASE * FRAME || virt >= USER_TOP * FRAME {
        return XasRange, seen;
      }
      var mine := CountOwner(a.owner);
      if mine >= MAX_PER_OWNER {
        return XasNoMem, seen;
      }
      var got, start, n;
      got, start, n, seen := pt.memory.MapAcquire(tok, a.owner, Need(perms));
      OthersKeep(recs, modes, pt.leaf, via, old(pt.memory.ledger.table), seen, spaces, {});
      SameStock();
      if got != MapOk {
        return MapErr(got), seen;
      }
      Acquired(recs, modes, pt.leaf, via, seen, tok, a.owner, Need(perms), spaces);
      label Locked:
      rc := Place(a.root, a.owner, virt, tok, ModeOf(perms), start, n);
      PinBack(seen, tok);
    }

    /** The rest of xas_map, with the token pinned. */
    method Place(root: nat, owner: nat, virt: nat, tok: nat, m: Mode, start: nat, n: nat) returns (rc: XasStatus)
      requires Consistent({SlotOf(tok)}) && Placeable(root, owner, virt, tok, m, start, n)
      modifies this, pt, pt.memory, pt.memory.phys, pt.memory.ledger
      ensures Valid() && Grown(old(pt.dir), pt.dir)
      ensures rc == XasRange || FirstFree(old(recs)) == |old(recs)| ==> pt.dir == old(pt.dir)
      ensures rc != XasOk ==>
        && recs == old(recs) && modes == old(modes) && via == old(via) && spaces == old(spaces) && pt.leaf == old(pt.leaf)
        && OneUnpin(tok)
      ensures rc == XasOk ==> Added(root, owner, virt, tok, m)
      ensures rc == XasOk && !pt.memory.smp ==>
        pt.memory.ledger.table == old(pt.memory.ledger.table) && pt.memory.ram == old(pt.memory.ram)
      ensures n > (USER_TOP * FRAME - virt) / FRAME <==> rc == XasRange
      ensures rc != XasRange && FirstFree(old(recs)) == |old(recs)| ==> rc == XasNoMem
      ensures rc == XasOk || rc == XasRange || rc == XasNoMem || rc == XasBusy
      ensures rc != XasRange && FirstFree(old(recs)) < |old(recs)| ==>
        && MapTables(rc, old(pt.dir), pt.dir, old(pt.leaf), root, virt, n)
        && (!pt.memory.smp ==>
              MapAnswer(rc, old(pt.leaf), root, virt, n, old(pt.memory.phys.bits), pt.memory.phys.bits, pt.memory.phys.free))
      ensures !pt.memory.smp ==> pt.Stock() == old(pt.Stock())
    {
      hide FirstTaken, Paging.Stock, Tree, Memory.Valid, Mapped, IsLive, PinsKept, Roots, Capped, OwnerRecs, FirstFree,
           AddPages, Grown, GrownBy, Ways, PhysMem.RunsKept, PhysMem.FreeRun, UnpinAt, ViaWith, HasPin;
      GrownSelf(pt.dir);
      ghost var t := pt.memory.ledger.table;
      if n == 0 || n > (USER_TOP * FRAME - virt) / FRAME {
        Unpin(tok);
        SameStock();
        return XasRange;
      }
      var i := FindFree();
      if i == |recs| {
        Unpin(tok);
        SameStock();
        return XasNoMem;
      }
      Fits(virt, n);
      SpaceIn(pt.dir, spaces, root);
      PinnedStays(recs, modes, pt.leaf, via, t, spaces, tok);
      var r := pt.MapRange(root, Vpn(virt), n, start, m.write, m.exec);
      StillPinned(t, pt.memory.ledger.table, tok);
      LedgerOk(pt.memory);
      GrownKeys(old(pt.dir), pt.dir, Ways(root, Vpn(virt), n));
      RootsGrown(old(pt.dir), pt.dir, spaces);
      if r == PageOk {
        FirstTakenIs(old(pt.leaf), root, Vpn(virt), n, n);
      }
      if r != PageOk {
        OthersKeep(recs, modes, pt.leaf, via, t, pt.memory.ledger.table, spaces, {SlotOf(tok)});
        label Undone:
        Unpin(tok);
        SameStock@Undone();
        return if r == PageBusy then XasBusy else XasNoMem;
      }
      ghost var rec := MapRec(root, owner, virt, tok, n, true);
      OthersKeep(recs, modes, old(pt.leaf), via, t, pt.memory.ledger.table, spaces, {SlotOf(tok)});
      NewRecord(recs, modes, old(pt.leaf), via, pt.memory.ledger.table, spaces, i, rec, m, pt.leaf);
      CappedSet(recs, i, rec);
      FreeIndex(recs, i);
      via := ViaWith(via, pt.leaf, rec, i);
      recs := recs[i := MapRec(root, owner, virt, tok, n, true)];
      modes := modes[i := m];
      rc := XasOk;
    }

    /** Exactly the records in `gone` were dropped, with exactly their pages. */
    twostate predicate Dropped(gone: set<nat>)
      reads this, pt
    {
      && recs == Killed(old(recs), gone)
      && pt.leaf == Kept(old(pt.leaf), old(via), gone)
      && via == Kept(old(via), old(via), gone)
      && modes == old(modes)
    }

    /** Unmaps one record's pages and takes its pin off the token. */
    method DropRecord(i: nat)
      requires Valid() && i < MAX_MAPS && recs[i].live
      modifies this`recs, this`via, pt`mem, pt`leaf, pt.memory, pt.memory.phys, pt.memory.ledger
      ensures Valid() && Dropped({i})
      ensures OneUnpin(old(recs)[i].tok) && HasPin(old(pt.memory.ledger.table), old(recs)[i].tok)
    {
      hide Tree, Memory.Valid, Mapped, IsLive, PinsKept, Roots, Capped, Kept, RemovePages, ViaWithout, UnpinAt, Killed,
           HasPin;
      var r := recs[i];
      ghost var leaf, t := pt.leaf, pt.memory.ledger.table;
      RecPlace(recs, modes, leaf, via, t, spaces, i);
      SpaceIn(pt.dir, spaces, r.root);
      pt.UnmapPages(r.root, Vpn(r.virt), r.pages);
      var seen := pt.memory.MapRelease(r.tok);
      StillPinned(t, seen, r.tok);
      OthersKeep(recs, modes, leaf, via, t, seen, spaces, {});
      GoneRecord(recs, modes, leaf, via, seen, spaces, i);
      CappedSet(recs, i, r.(live := false));
      KilledOne(recs, i);
      recs := recs[i := r.(live := false)];
      via := ViaWithout(via, r);
    }

    method Unmap(a: Aspace, virt: nat) returns (rc: XasStatus, ghost i: nat)
      requires Valid() && Handle(a)
      modifies this`recs, this`via, pt`mem, pt`leaf, pt.memory, pt.memory.phys, pt.memory.ledger
      ensures Valid() && Handle(a)
      ensures rc == XasOk || rc == XasArg || rc == XasNotMapped
      ensures rc == XasArg <==> !a.live
      ensures rc == XasOk ==>
        && i < MAX_MAPS && old(recs)[i].live && old(recs)[i].root == a.root && old(recs)[i].virt == virt
        && Dropped({i}) && OneUnpin(old(recs)[i].tok) && HasPin(old(pt.memory.ledger.table), old(recs)[i].tok)
      ensures rc != XasOk ==> Untouched()
      ensures rc == XasNotMapped ==>
        forall j :: 0 <= j < MAX_MAPS && recs[j].live && recs[j].root == a.root ==> recs[j].virt != virt
    {
      hide Tree, Memory.Valid, Mapped, IsLive, PinsKept, Roots, Capped, Kept;
      i := 0;
      if !a.live {
        return XasArg, 0;
      }
      var k: nat := 0;
      while k < MAX_MAPS
        invariant k <= MAX_MAPS
        invariant forall j :: 0 <= j < k && recs[j].live && recs[j].root == a.root ==> recs[j].virt != virt
      {
        if recs[k].live && recs[k].root == a.root && recs[k].virt == virt {
          DropRecord(k);
          return XasOk, k;
        }
        k := k + 1;
      }
      rc := XasNotMapped;
    }

    /** Drops every mapping of a token, in every address space. */
    method Revoke(tok: nat) returns (n: nat)
      requires Valid()
      modifies this`recs, this`via, pt`mem, pt`leaf, pt.memory, pt.memory.phys, pt.memory.ledger
      ensures Valid() && Dropped(ByToken(old(recs), tok, MAX_MAPS))
      ensures n == |ByToken(old(recs), tok, MAX_MAPS)|
      ensures !pt.memory.smp ==> pt.memory.ram == old(pt.memory.ram)
      ensures !pt.memory.smp ==>
        && Lowered(old(pt.memory.ledger.table), pt.memory.ledger.table, tok, n)
        && (IsLive(pt.memory.ledger.table, tok) ==> At(pt.memory.ledger.table, tok).mapCount == 0)
    {
      hide Tree, Memory.Valid, Mapped, IsLive, PinsKept, Roots, Capped, Kept, ByToken, Killed, UnpinAt, Lowered, HasPin;
      ghost var t := pt.memory.ledger.table;
      n := 0;
      var i: nat := 0;
      NothingDropped(recs, pt.leaf, via);
      ByTokenNone(recs, tok);
      LoweredNone(t, tok);
      while i < MAX_MAPS
        invariant i <= MAX_MAPS && Valid() && Dropped(ByToken(old(recs), tok, i))
        invariant n == |ByToken(old(recs), tok, i)|
        invariant !pt.memory.smp ==> pt.memory.ram == old(pt.memory.ram)
        invariant !pt.memory.smp ==> Lowered(t, pt.memory.ledger.table, tok, n)
      {
        ghost var gone := ByToken(old(recs), tok, i);
        ByTokenStep(old(recs), tok, i);
        if recs[i].live && recs[i].tok == tok {
          DroppedMore(old(recs), old(modes), old(pt.leaf), old(via), t, spaces, gone, i);
          ghost var u := pt.memory.ledger.table;
          DropRecord(i);
          if !pt.memory.smp {
            LoweredMore(t, u, tok, n);
          }
          n := n + 1;
        }
        i := i + 1;
      }
      NoneLeft(old(recs), modes, pt.leaf, via, pt.memory.ledger.table, spaces, tok);
    }

    method Create(a: Aspace, owner: nat) returns (rc: XasStatus)
      requires Valid() && Handle(a)
      modifies a, this`spaces, pt`mem, pt`dir, pt.memory, pt.memory.phys, pt.memory.ledger
      ensures Valid() && Handle(a)
      ensures rc == XasOk || rc == XasArg || rc == XasNoMem
      ensures rc == XasOk ==>
        && owner != OWNER_KERNEL && (forall i :: 1 <= i < 256 ==> kernelRoot[i].Absent?)
        && a.live && a.owner == owner && a.root !in old(spaces) && spaces == old(spaces)[a.root := owner]
        && a.root in pt.mem && pt.mem[a.root] == kernelRoot && pt.dir == old(pt.dir)[Key(a.root, 4, 0) := a.root]
        && (forall p :: p in pt.leaf ==> p.0 != a.root)
      ensures rc == XasNoMem && !pt.memory.smp ==> pt.memory.phys.free == 0
      ensures (rc == XasOk || rc == XasNoMem) && !pt.memory.smp ==> PhysMem.RunsKept(old(pt.memory.phys.bits), pt.memory.phys.bits, 1)
      ensures owner == OWNER_KERNEL ==> rc == XasArg
      ensures rc == XasArg ==> owner == OWNER_KERNEL || exists i :: 1 <= i < 256 && kernelRoot[i].Present?
      ensures rc != XasOk ==> spaces == old(spaces) && a.live == old(a.live) && a.root == old(a.root)
      ensures !pt.memory.smp ==>
        pt.memory.ledger.table == old(pt.memory.ledger.table) && pt.memory.ram == old(pt.memory.ram)
    {
      hide Tree, Memory.Valid, Mapped, PinsKept, Roots, Capped, PhysMem.RunsKept;
      if owner == OWNER_KERNEL {
        return XasArg;
      }
      ghost var t := pt.memory.ledger.table;
      var root, clean := pt.NewRoot(kernelRoot);
      LedgerOk(pt.memory);
      OthersKeep(recs, modes, pt.leaf, via, t, pt.memory.ledger.table, spaces, {});
      if root == 0 {
        return XasNoMem;
      }
      if !clean {
        return XasArg;
      }
      RootsMore(pt.mem, old(pt.dir), pt.dir, spaces, root, owner);
      SpacesMore(recs, modes, pt.leaf, via, pt.memory.ledger.table, spaces, root, owner);
      spaces := spaces[root := owner];
      a.root, a.owner, a.live := root, owner, true;
      rc := XasOk;
    }

    /** Drops every mapping of a space and frees its tables; kernel tables stay. */
    method Destroy(a: Aspace)
      requires Valid() && Handle(a)
      modifies a`live, this`recs, this`via, this`spaces, pt, pt.memory, pt.memory.phys, pt.memory.ledger
      ensures Valid() && !a.live
      ensures !old(a.live) ==> Untouched() && spaces == old(spaces)
      ensures old(a.live) ==>
        && Dropped(ByRoot(old(recs), a.root, MAX_MAPS))
        && spaces == old(spaces) - {a.root}
        && pt.dir == WithoutSpace(old(pt.dir), a.root)
        && forall p :: p in pt.leaf ==> p.0 != a.root
      ensures !pt.memory.smp ==>
        pt.memory.ram == old(pt.memory.ram) && OnlyPins(old(pt.memory.ledger.table), pt.memory.ledger.table)
    {
      hide Tree, Memory.Valid, Mapped, IsLive, PinsKept, Roots, Capped, Kept, ByRoot, Killed, UnpinAt, HasPin, WithoutSpace,
           OnlyPins;
      ghost var t := pt.memory.ledger.table;
      OnlyPinsSelf(t);
      if !a.live {
        return;
      }
      var i: nat := 0;
      NothingDropped(recs, pt.leaf, via);
      ByRootNone(recs, a.root);
      while i < MAX_MAPS
        invariant i <= MAX_MAPS && Valid() && Dropped(ByRoot(old(recs), a.root, i))
        invariant spaces == old(spaces) && pt.dir == old(pt.dir) && a.live
        invariant !pt.memory.smp ==> pt.memory.ram == old(pt.memory.ram) && OnlyPins(t, pt.memory.ledger.table)
      {
        ghost var gone := ByRoot(old(recs), a.root, i);
        ByRootStep(old(recs), a.root, i);
        if recs[i].live && recs[i].root == a.root {
          DroppedMore(old(recs), old(modes), old(pt.leaf), old(via), t, spaces, gone, i);
          ghost var u, tok := pt.memory.ledger.table, recs[i].tok;
          DropRecord(i);
          if !pt.memory.smp {
            OnlyPinsUnpin(t, u, tok);
          }
        }
        i := i + 1;
      }
      NoPages(old(recs), modes, pt.leaf, via, pt.memory.ledger.table, spaces, a.root);
      SpaceIn(pt.dir, spaces, a.root);
      ghost var u := pt.memory.ledger.table;
      SpacesLess(old(recs), modes, pt.leaf, via, u, spaces, a.root);
      pt.FreeSpace(a.root);
      LedgerOk(pt.memory);
      OthersKeep(recs, modes, pt.leaf, via, u, pt.memory.ledger.table, spaces - {a.root}, {});
      RootsLess(old(pt.dir), spaces, a.root);
      spaces := spaces - {a.root};
      a.live := false;
    }

    /** A token for an owner: no mapping changes. */
    method AllocRam(owner: nat, n: nat, rights: set<Right>) returns (tok: nat)
      requires Valid()
      modifies pt.memory, pt.memory.phys, pt.memory.ledger
      ensures Valid() && pt.memory.tables == old(pt.memory.tables)
      ensures |pt.memory.ram| == |old(pt.memory.ram)|
      ensures !pt.memory.smp ==> RamKept(old(pt.memory.ledger.table), old(pt.memory.ram), pt.memory.ram)
      ensures tok != INVALID ==> exists start :: pt.memory.Fresh(tok, owner, start, n, rights)
      ensures !pt.memory.smp && tok == INVALID ==> pt.memory.ledger.table == old(pt.memory.ledger.table)
      ensures !pt.memory.smp ==> PhysMem.RunsKept(old(pt.memory.phys.bits), pt.memory.phys.bits, n)
      ensures !pt.memory.smp ==> pt.memory.phys.free + (if tok == INVALID then 0 else n) == old(pt.memory.phys.free)
      ensures !pt.memory.smp && tok == INVALID ==>
        || n == 0
        || (forall s :: 0 <= s ==> !PhysMem.FreeRun(old(pt.memory.phys.bits), s, n))
        || forall s :: 0 <= s < SLOTS ==> old(pt.memory.ledger.table)[s].live
      ensures !pt.memory.smp && tok != INVALID ==>
        && n > 0 && IsLive(pt.memory.ledger.table, tok)
        && Minted(old(pt.memory.ledger.table), pt.memory.ledger.table, tok, owner,
                  At(pt.memory.ledger.table, tok).phys, n, rights)
        && pt.memory.ram == ClearRun(old(pt.memory.ram), At(pt.memory.ledger.table, tok).phys, n)
        && Unheld(old(pt.memory.ledger.table), At(pt.memory.ledger.table, tok).phys, n)
        && At(pt.memory.ledger.table, tok).phys + n <= |pt.memory.ram|
    {
      hide Tree, Mapped, IsLive, PinsKept, Roots, Capped, Balanced, FlightFrames, PhysMem.CountFree, LiveCount, RamKept,
           ClearRun, Minted, Unheld, PhysMem.RunsKept;
      ghost var m, t, flight := pt.memory, pt.memory.ledger.table, pt.memory.mine + FlightFrames(pt.memory.others);
      tok := pt.memory.AllocRam(owner, n, rights);
      if !m.smp && tok != INVALID {
        FreeIsUnheld(old(m.phys.bits), m.reserved, t, m.tables, flight, At(m.ledger.table, tok).phys, n);
      }
      OthersKeep(recs, modes, pt.leaf, via, old(pt.memory.ledger.table), pt.memory.ledger.table, spaces, {});
    }

    /** Releases a token, unless it is mapped: no mapping changes. */
    method Release(tok: nat, byRight: bool, byOwner: bool, owner: nat) returns (rc: RelStatus, ghost seen: seq<Entry>)
      requires Valid()
      modifies pt.memory, pt.memory.phys, pt.memory.ledger
      ensures Valid() && pt.memory.tables == old(pt.memory.tables)
      ensures PinsKept(old(pt.memory.ledger.table), seen) && rc == ReleaseStatus(seen, tok, byRight, byOwner, owner)
      ensures PinsKept(if rc == RelOk then KillAt(seen, tok) else seen, pt.memory.ledger.table)
      ensures !pt.memory.smp ==>
        && pt.memory.ram == old(pt.memory.ram) && seen == old(pt.memory.ledger.table)
        && pt.memory.ledger.table == if rc == RelOk then KillAt(old(pt.memory.ledger.table), tok)
                                     else old(pt.memory.ledger.table)
    {
      hide Tree, Memory.Valid, Mapped, PinsKept, Roots, Capped;
      rc, seen := pt.memory.Release(tok, byRight, byOwner, owner);
      LedgerOk(pt.memory);
      OthersKeep(recs, modes, pt.leaf, via, old(pt.memory.ledger.table), pt.memory.ledger.table, spaces, {});
    }

    ghost predicate Placeable(root: nat, owner: nat, virt: nat, tok: nat, m: Mode, start: nat, n: nat)
      reads this, pt, pt.memory, pt.memory.ledger
    {
      && virt % FRAME == 0 && USER_BASE * FRAME <= virt < USER_TOP * FRAME
      && root in spaces && spaces[root] == owner
      && OwnerRecs(recs, owner) < MAX_PER_OWNER
      && IsLive(pt.memory.ledger.table, tok)
      && (var e := At(pt.memory.ledger.table, tok);
          e.owner == owner && e.phys == start && e.frames == n && n > 0 && Allowed(m, e.rights))
    }
  }

  lemma RecPlace(recs: seq<MapRec>, modes: seq<Mode>, leaf: Leaves, via: map<(nat, nat), nat>, t: seq<Entry>,
                 spaces: map<nat, nat>, i: nat)
    requires Mapped(recs, modes, leaf, via, t, spaces, {}) && i < |recs| && recs[i].live
    ensures recs[i].root in spaces && HasPin(t, recs[i].tok)
    ensures USER_BASE <= Vpn(recs[i].virt) && Vpn(recs[i].virt) + recs[i].pages <= USER_TOP
    ensures RemovePages(leaf, recs[i].root, Vpn(recs[i].virt), recs[i].pages) == Kept(leaf, via, {i})
    ensures ViaWithout(via, recs[i]) == Kept(via, via, {i})
  {
    hide Shown, RecOk, IsLive;
    RecLive(recs, modes, t, spaces, i);
    GoneRecord(recs, modes, leaf, via, t, spaces, i);
    KeptOne(recs, modes, leaf, via, t, i);
  }

  lemma KilledOne(recs: seq<MapRec>, i: nat)
    requires i < |recs|
    ensures recs[i := recs[i].(live := false)] == Killed(recs, {i})
  {
  }

  lemma NothingDropped(recs: seq<MapRec>, leaf: Leaves, via: map<(nat, nat), nat>)
    ensures Killed(recs, {}) == recs && Kept(leaf, via, {}) == leaf && Kept(via, via, {}) == via
  {
  }

  lemma ByTokenNone(recs: seq<MapRec>, tok: nat)
    ensures ByToken(recs, tok, 0) == {}
  {
  }

  lemma ByTokenStep(recs: seq<MapRec>, tok: nat, i: nat)
    requires i < |recs|
    ensures i !in ByToken(recs, tok, i)
    ensures ByToken(recs, tok, i + 1)
         == if recs[i].live && recs[i].tok == tok then ByToken(recs, tok, i) + {i} else ByToken(recs, tok, i)
    ensures Killed(recs, ByToken(recs, tok, i))[i] == recs[i]
  {
  }

  lemma DroppedMore(recs: seq<MapRec>, modes: seq<Mode>, leaf: Leaves, via: map<(nat, nat), nat>, t: seq<Entry>,
                    spaces: map<nat, nat>, gone: set<nat>, i: nat)
    requires Mapped(recs, modes, leaf, via, t, spaces, {}) && i < |recs|
    ensures Killed(Killed(recs, gone), {i}) == Killed(recs, gone + {i})
    ensures Kept(Kept(leaf, via, gone), Kept(via, via, gone), {i}) == Kept(leaf, via, gone + {i})
    ensures Kept(Kept(via, via, gone), Kept(via, via, gone), {i}) == Kept(via, via, gone + {i})
  {
    hide Kept, PageShown, Whole;
    KeptMore(leaf, via, gone, {i});
    KeptMore(via, via, gone, {i});
  }

  predicate HasPin(t: seq<Entry>, tok: nat) {
    IsLive(t, tok) && At(t, tok).mapCount >= 1
  }

  /** u is t with n pins taken off the token. */
  ghost predicate Lowered(t: seq<Entry>, u: seq<Entry>, tok: nat, n: nat) {
    if IsLive(t, tok) then
      n <= At(t, tok).mapCount && u == t[SlotOf(tok) := At(t, tok).(mapCount := At(t, tok).mapCount - n)]
    else n == 0 && u == t
  }

  /** With its records gone, a token has no pin left. */
  lemma NoneLeft(recs: seq<MapRec>, modes: seq<Mode>, leaf: Leaves, via: map<(nat, nat), nat>, t: seq<Entry>,
                 spaces: map<nat, nat>, tok: nat)
    requires Mapped(Killed(recs, ByToken(recs, tok, |recs|)), modes, leaf, via, t, spaces, {})
    ensures IsLive(t, tok) ==> At(t, tok).mapCount == 0
  {
    hide Shown, RecOk, IsLive;
    var rest := Killed(recs, ByToken(recs, tok, |recs|));
    if IsLive(t, tok) {
      forall i | 0 <= i < |rest| && rest[i].live
        ensures SlotOf(rest[i].tok) != SlotOf(tok)
      {
        RecLive(rest, modes, t, spaces, i);
        if SlotOf(rest[i].tok) == SlotOf(tok) {
          OneTokenPerSlot(t, rest[i].tok, tok);
        }
      }
      PinCountNone(rest, SlotOf(tok));
      LiveIndex(t, tok);
    }
  }

  lemma LiveIndex(t: seq<Entry>, tok: nat)
    requires IsLive(t, tok)
    ensures SlotOf(tok) < |t|
  {
  }

  lemma LoweredNone(t: seq<Entry>, tok: nat)
    ensures Lowered(t, t, tok, 0)
  {
  }

  lemma LoweredMore(t: seq<Entry>, u: seq<Entry>, tok: nat, n: nat)
    requires Lowered(t, u, tok, n) && HasPin(u, tok)
    ensures Lowered(t, UnpinAt(u, tok), tok, n + 1)
  {
  }

  lemma RootsMore(mem: Tables, d: Dir, e: Dir, spaces: map<nat, nat>, root: nat, owner: nat)
    requires Roots(d, spaces) && root !in d.Values && e == d[Key(root, 4, 0) := root] && Key(root, 4, 0) !in d
    ensures root !in spaces && Roots(e, spaces[root := owner])
  {
  }

  lemma RootsLess(d: Dir, spaces: map<nat, nat>, root: nat)
    requires Roots(d, spaces)
    ensures Roots(WithoutSpace(d, root), spaces - {root})
  {
    var rest := WithoutSpace(d, root);
    forall r
      ensures r in spaces - {root} <==> Key(r, 4, 0) in rest
    {
    }
  }

  lemma SpacesMore(recs: seq<MapRec>, modes: seq<Mode>, leaf: Leaves, via: map<(nat, nat), nat>, t: seq<Entry>,
                   spaces: map<nat, nat>, root: nat, owner: nat)
    requires Mapped(recs, modes, leaf, via, t, spaces, {}) && root !in spaces
    ensures Mapped(recs, modes, leaf, via, t, spaces[root := owner], {})
    ensures forall p :: p in leaf ==> p.0 != root
  {
    hide Whole, IsLive;
    var more := spaces[root := owner];
    forall i | 0 <= i < |recs|
      ensures RecOk(recs[i], modes[i], t, more)
    {
      assert RecOk(recs[i], modes[i], t, spaces);
    }
    forall p | p in leaf
      ensures p.0 != root
    {
      assert PageShown(recs, modes, leaf, via, t, p);
      assert RecOk(recs[via[p]], modes[via[p]], t, spaces);
    }
  }

  lemma SpacesLess(recs: seq<MapRec>, modes: seq<Mode>, leaf: Leaves, via: map<(nat, nat), nat>, t: seq<Entry>,
                   spaces: map<nat, nat>, root: nat)
    requires Mapped(Killed(recs, ByRoot(recs, root, |recs|)), modes, leaf, via, t, spaces, {})
    ensures Mapped(Killed(recs, ByRoot(recs, root, |recs|)), modes, leaf, via, t, spaces - {root}, {})
  {
    hide Shown, IsLive;
    var rest, less := Killed(recs, ByRoot(recs, root, |recs|)), spaces - {root};
    forall i | 0 <= i < |rest|
      ensures RecOk(rest[i], modes[i], t, less)
    {
      assert RecOk(rest[i], modes[i], t, spaces);
    }
  }

  lemma NoPages(recs: seq<MapRec>, modes: seq<Mode>, leaf: Leaves, via: map<(nat, nat), nat>, t: seq<Entry>,
                spaces: map<nat, nat>, root: nat)
    requires Mapped(Killed(recs, ByRoot(recs, root, |recs|)), modes, leaf, via, t, spaces, {})
    ensures forall p :: p in leaf ==> p.0 != root
  {
    hide RecsOk, IsLive, Whole;
    var rest := Killed(recs, ByRoot(recs, root, |recs|));
    forall p | p in leaf
      ensures p.0 != root
    {
      assert PageShown(rest, modes, leaf, via, t, p);
    }
  }

  lemma ByRootNone(recs: seq<MapRec>, root: nat)
    ensures ByRoot(recs, root, 0) == {}
  {
  }

  lemma ByRootStep(recs: seq<MapRec>, root: nat, i: nat)
    requires i < |recs|
    ensures i !in ByRoot(recs, root, i)
    ensures ByRoot(recs, root, i + 1)
         == if recs[i].live && recs[i].root == root then ByRoot(recs, root, i) + {i} else ByRoot(recs, root, i)
    ensures Killed(recs, ByRoot(recs, root, i))[i] == recs[i]
  {
  }

  /** The entries differ in their mapping counts at most. */
  predicate OnlyPins(t: seq<Entry>, u: seq<Entry>) {
    |t| == |u| && forall s :: 0 <= s < |t| ==> u[s] == t[s].(mapCount := u[s].mapCount)
  }

  lemma OnlyPinsSelf(t: seq<Entry>)
    ensures OnlyPins(t, t)
  {
  }

  lemma OnlyPinsUnpin(t: seq<Entry>, u: seq<Entry>, tok: nat)
    requires OnlyPins(t, u)
    ensures OnlyPins(t, UnpinAt(u, tok))
  {
  }

  lemma {:induction false} NoRecs(recs: seq<MapRec>)
    requires forall i :: 0 <= i < |recs| ==> !recs[i].live
    ensures forall owner :: OwnerRecs(recs, owner) == 0
  {
    if recs != [] {
      NoRecs(recs[..|recs| - 1]);
    }
  }

  lemma Fits(virt: nat, n: nat)
    requires virt % FRAME == 0 && USER_BASE * FRAME <= virt < USER_TOP * FRAME && n <= (USER_TOP * FRAME - virt) / FRAME
    ensures USER_BASE <= Vpn(virt) && Vpn(virt) + n <= USER_TOP
  {
  }

  lemma SpaceIn(dir: Dir, spaces: map<nat, nat>, root: nat)
    requires Roots(dir, spaces) && root in spaces
    ensures Key(root, 4, 0) in dir
  {
  }

  lemma LedgerOk(m: Memory)
    requires m.Valid()
    ensures TokenLedger.TableOk(m.ledger.table)
  {
  }

  lemma FreeIndex(recs: seq<MapRec>, i: nat)
    requires i == FirstFree(recs) && i < |recs|
    ensures !recs[i].live
  {
  }

  /** A token that may be mapped, pinned. */
  lemma Acquired(recs: seq<MapRec>, modes: seq<Mode>, leaf: Leaves, via: map<(nat, nat), nat>, t: seq<Entry>,
                 tok: nat, owner: nat, need: set<Right>, spaces: map<nat, nat>)
    requires Mapped(recs, modes, leaf, via, t, spaces, {}) && AcquireStatus(t, tok, owner, need) == MapOk
    ensures IsLive(t, tok) && At(t, tok).owner == owner && need <= At(t, tok).rights && At(t, tok).frames > 0
    ensures var u := PinAt(t, tok);
      && IsLive(u, tok) && At(u, tok) == Pinned(At(t, tok))
      && Mapped(recs, modes, leaf, via, u, spaces, {SlotOf(tok)})
  {
    hide RecsOk, Shown;
    RepinKeep(recs, modes, leaf, via, t, tok, At(t, tok).mapCount + 1, spaces, {}, {SlotOf(tok)});
  }

  lemma PinBack(t: seq<Entry>, tok: nat)
    requires IsLive(t, tok)
    ensures UnpinAt(PinAt(t, tok), tok) == t
  {
  }

  lemma PinnedStays(recs: seq<MapRec>, modes: seq<Mode>, leaf: Leaves, via: map<(nat, nat), nat>, t: seq<Entry>,
                    spaces: map<nat, nat>, tok: nat)
    requires Mapped(recs, modes, leaf, via, t, spaces, {SlotOf(tok)}) && IsLive(t, tok)
    ensures HasPin(t, tok)
  {
  }

  lemma StillPinned(t: seq<Entry>, u: seq<Entry>, tok: nat)
    requires HasPin(t, tok) && PinsKept(t, u)
    ensures IsLive(u, tok) && IsLive(t, tok) && At(u, tok) == At(t, tok)
  {
  }

  lemma UnpinKeep(recs: seq<MapRec>, modes: seq<Mode>, leaf: Leaves, via: map<(nat, nat), nat>, t: seq<Entry>,
                  tok: nat, spaces: map<nat, nat>)
    requires Mapped(recs, modes, leaf, via, t, spaces, {SlotOf(tok)}) && IsLive(t, tok)
    ensures Mapped(recs, modes, leaf, via, UnpinAt(t, tok), spaces, {})
  {
    hide RecsOk, Shown;
    RepinKeep(recs, modes, leaf, via, t, tok, At(t, tok).mapCount - 1, spaces, {SlotOf(tok)}, {});
  }

  // ---- what holds in every state the kernel reaches ----

  /** A page translates exactly when a live record covers it, and then as that record says. */
  lemma TranslationIsRecords(k: Kernel, root: nat, vpn: nat)
    requires k.Valid() && root in k.spaces && UserVpn(vpn)
    ensures Walk(k.pt.mem, root, vpn).Present? <==> exists i :: 0 <= i < |k.recs| && Covers(k.recs[i], (root, vpn))
    ensures forall i :: 0 <= i < |k.recs| && Covers(k.recs[i], (root, vpn)) ==>
      && IsLive(k.pt.memory.ledger.table, k.recs[i].tok)
      && Walk(k.pt.mem, root, vpn)
         == Page(At(k.pt.memory.ledger.table, k.recs[i].tok).phys + (vpn - Vpn(k.recs[i].virt)),
                 k.modes[i].write, k.modes[i].exec)
  {
    hide Tree, Roots, Capped, Memory.Valid, Walk, IsLive, RecOk, Pins;
    SpaceIn(k.pt.dir, k.spaces, root);
    WalkIsLeaf(k.pt.mem, k.pt.dir, k.pt.leaf, root, vpn);
    var p := (root, vpn);
    if p in k.pt.leaf {
      assert PageShown(k.recs, k.modes, k.pt.leaf, k.via, k.pt.memory.ledger.table, p);
      assert Covers(k.recs[k.via[p]], p);
    }
    forall i | 0 <= i < |k.recs| && Covers(k.recs[i], p)
      ensures p in k.pt.leaf && k.via[p] == i
    {
      assert Whole(k.recs[i], i, k.via);
      assert p in k.via.Keys;
    }
  }

  /**
   A process reaches only frames of its owner's live tokens, within their rights
   and never writable and executable at once; so never a free frame, a page table,
   a frame in flight or reserved; and spaces of different owners share no frame.
   */
  lemma Isolated(k: Kernel, root: nat, vpn: nat, root2: nat, vpn2: nat)
    requires k.Valid() && root in k.spaces && UserVpn(vpn) && root2 in k.spaces && UserVpn(vpn2)
    requires Walk(k.pt.mem, root, vpn).Present?
    ensures var e := Walk(k.pt.mem, root, vpn);
      && e.user && !(e.write && !e.nx)
      && e.frame < |k.pt.memory.phys.bits| && !k.pt.memory.phys.bits[e.frame]
      && e.frame !in k.pt.memory.tables && e.frame !in k.pt.memory.reserved
      && exists tok :: Grants(k.pt.memory.ledger.table, tok, k.spaces[root], e)
    ensures Walk(k.pt.mem, root2, vpn2).Present?
         && Walk(k.pt.mem, root2, vpn2).frame == Walk(k.pt.mem, root, vpn).frame
         ==> k.spaces[root2] == k.spaces[root]
  {
    hide Tree, Roots, Capped, Mapped, Balanced, Walk, IsLive, FlightFrames, PhysMem.CountFree, LiveCount;
    SpaceIn(k.pt.dir, k.spaces, root);
    SpaceIn(k.pt.dir, k.spaces, root2);
    WalkIsLeaf(k.pt.mem, k.pt.dir, k.pt.leaf, root, vpn);
    WalkIsLeaf(k.pt.mem, k.pt.dir, k.pt.leaf, root2, vpn2);
    var m, t, p, q := k.pt.memory, k.pt.memory.ledger.table, (root, vpn), (root2, vpn2);
    var flight := m.mine + FlightFrames(m.others);
    PageIsolated(k.recs, k.modes, k.pt.leaf, k.via, t, k.spaces, m.phys.bits, m.reserved, m.tables, flight, p);
    assert Grants(t, k.recs[k.via[p]].tok, k.spaces[root], k.pt.leaf[p]);
    if Walk(k.pt.mem, root2, vpn2).Present? && Walk(k.pt.mem, root2, vpn2).frame == Walk(k.pt.mem, root, vpn).frame {
      NoSharing(k.recs, k.modes, k.pt.leaf, k.via, t, k.spaces, m.phys.bits, m.reserved, m.tables, flight, p, q);
    }
  }

  /** The token is the owner's, pinned, holds the frame, and allows what the entry allows. */
  ghost predicate Grants(t: seq<Entry>, tok: nat, owner: nat, e: Pte) {
    && IsLive(t, tok) && e.Present?
    && (var x := At(t, tok);
        && x.owner == owner && x.mapCount >= 1 && e.frame in EntryFrames(x)
        && {Map, Read} <= x.rights && (e.write ==> Write in x.rights) && (!e.nx ==> Execute in x.rights))
  }
}
