/**
 The page-table code, under the page-table lock: other CPUs may allocate and
 release frames and tokens meanwhile, but leave the tables alone.
 */
module Paging {
  import opened Intervals
  import opened PhysMem
  import L = TokenLedger
  import opened FrameMemory
  import opened PageTables

  datatype PageStatus = PageOk | PageBusy | PageNoMem

  /** Where a page's entry lives. */
  datatype Spot = Nowhere | Spot(frame: nat, slot: nat)

  class Paging {
    const memory: Memory
    var mem: Tables
    ghost var dir: Dir
    ghost var leaf: Leaves

    ghost predicate Valid()
      reads this, memory, memory.phys, memory.ledger
    {
      memory.Valid() && Tree(mem, dir, leaf) && memory.tables == dir.Values && 0 !in dir.Values
    }

    constructor (m: Memory, tables: Tables)
      requires m.Valid() && m.tables == {}
      ensures Valid() && memory == m && mem == tables && dir == map[] && leaf == map[]
    {
      memory, mem, dir, leaf := m, tables, map[], map[];
    }

    /** With one CPU the ledger and the bytes of RAM stand still. */
    ghost predicate Quiet(table: seq<L.Entry>, ram: seq<FrameBytes>)
      reads memory, memory.ledger
    {
      !memory.smp ==> memory.ledger.table == table && memory.ram == ram
    }

    /** Frames that are free or page tables. */
    ghost function Stock(): nat
      reads this`dir, memory.phys
    {
      memory.phys.free + |dir|
    }

    /** A frame for a table, all entries absent. */
    method AllocZeroTable() returns (f: nat)
      requires Valid()
      modifies this`mem, memory, memory.phys, memory.ledger
      ensures memory.Valid() && Tree(mem, dir, leaf) && memory.tables == old(memory.tables)
      ensures PinsKept(old(memory.ledger.table), memory.ledger.table)
      ensures Quiet(old(memory.ledger.table), old(memory.ram))
      ensures f == 0 && !memory.smp ==> memory.phys.free == 0
      ensures !memory.smp ==> memory.phys.free == if f == 0 then old(memory.phys.free) else old(memory.phys.free) - 1
      ensures !memory.smp ==> RunsKept(old(memory.phys.bits), memory.phys.bits, 1)
      ensures f == 0 ==> Valid() && memory.mine == old(memory.mine) && mem == old(mem)
      ensures f != 0 ==>
        && f !in dir.Values && f in memory.mine
        && memory.mine == old(memory.mine) + multiset{f}
        && mem == old(mem)[f := seq(ENTS, i => Absent)]
    {
      hide Tree, Memory.Valid, L.TableOk, PinsKept, RunsKept;
      f := memory.AllocFrames(1);
      if f != 0 {
        OneFrame(f);
        assert memory.mine == old(memory.mine) + multiset{f};
        NotATable(memory, f);
        var entries: seq<Pte> := [];
        while |entries| < ENTS
          invariant |entries| <= ENTS && entries == seq(|entries|, i => Absent)
        {
          entries := entries + [Absent];
        }
        OtherFrame(mem, dir, leaf, f, entries);
        mem := mem[f := entries];
      }
    }

    /** The table one level down, created when missing. */
    method NextLevel(table: nat, idx: nat, ghost k: Key) returns (f: nat)
      requires Valid() && KeyOk(k) && k.level < 4 && Parent(k) in dir && dir[Parent(k)] == table && idx == k.idx % ENTS
      modifies this`mem, this`dir, memory, memory.phys, memory.ledger
      ensures Valid() && memory.mine == old(memory.mine)
      ensures PinsKept(old(memory.ledger.table), memory.ledger.table)
      ensures Quiet(old(memory.ledger.table), old(memory.ram))
      ensures GrownBy(old(dir), dir, {k})
      ensures f != 0 ==> k in dir && dir[k] == f
      ensures k in old(dir) ==> f != 0
      ensures f == 0 && !memory.smp ==> memory.phys.free == 0
      ensures !memory.smp ==> Stock() == old(Stock())
      ensures !memory.smp ==> RunsKept(old(memory.phys.bits), memory.phys.bits, 1)
    {
      hide Tree, Memory.Valid, L.TableOk, PinsKept, KeyOk, OwnSlot, Grown, RunsKept;
      RunsKeptSelf(memory.phys.bits, 1);
      ChildSlot(k);
      GrownSelf(dir);
      StepDown(mem, dir, leaf, Parent(k), k.idx);
      if mem[table][idx].Absent? {
        assert k !in dir;
        f := AllocZeroTable();
        if f == 0 {
          return;
        }
        memory.Adopt(f);
        AddTable(old(mem), dir, leaf, k, f, mem[f]);
        mem := mem[table := mem[table][idx := Upper(f)]];
        dir := dir[k := f];
        Adopted(old(dir), k, f);
        assert memory.mine == old(memory.mine);
      } else {
        PinsKeptSelf(memory.ledger.table);
        f := mem[table][idx].frame;
        assert dir[k] in dir.Values;
      }
    }

    /** The last table on the way to a page, made with the others when missing. */
    method WayTo(root: nat, vpn: nat) returns (pt: nat)
      requires Valid() && Key(root, 4, 0) in dir && UserVpn(vpn)
      modifies this`mem, this`dir, memory, memory.phys, memory.ledger
      ensures Valid() && memory.mine == old(memory.mine) && GrownBy(old(dir), dir, PathOf(root, vpn))
      ensures pt != 0 ==> PathOf(root, vpn) <= dir.Keys && Key(root, 1, vpn / ENTS) in dir && dir[Key(root, 1, vpn / ENTS)] == pt
      ensures PinsKept(old(memory.ledger.table), memory.ledger.table)
      ensures Quiet(old(memory.ledger.table), old(memory.ram))
      ensures PathOf(root, vpn) <= old(dir).Keys ==> pt != 0
      ensures pt == 0 && !memory.smp ==> memory.phys.free == 0
      ensures !memory.smp ==> Stock() == old(Stock())
      ensures !memory.smp ==> RunsKept(old(memory.phys.bits), memory.phys.bits, 3)
    {
      hide Tree, Memory.Valid, L.TableOk, PinsKept, GrownBy, UserVpn, KeyOk, RunsKept, Paging.Stock;
      ghost var k3, k2, k1 := Key(root, 3, vpn / ENTS / ENTS / ENTS), Key(root, 2, vpn / ENTS / ENTS), Key(root, 1, vpn / ENTS);
      PathKeys(root, vpn);
      RootFrame(mem, dir, leaf, root);
      var pdpt := NextLevel(root, vpn / ENTS / ENTS / ENTS % ENTS, Key(root, 3, vpn / ENTS / ENTS / ENTS));
      RunsUpTo(old(memory.phys.bits), memory.phys.bits, 1, 3);
      GrownByMore(old(dir), dir, {k3}, PathOf(root, vpn));
      WayKept(old(dir), dir, {k3});
      if pdpt == 0 {
        return 0;
      }
      label L3:
      var pd := NextLevel(pdpt, vpn / ENTS / ENTS % ENTS, Key(root, 2, vpn / ENTS / ENTS));
      PinsKeptTrans(old(memory.ledger.table), old@L3(memory.ledger.table), memory.ledger.table);
      GrownByTrans(old(dir), old@L3(dir), dir, {k3}, {k2});
      GrownByMore(old(dir), dir, {k3} + {k2}, PathOf(root, vpn));
      WayKept(old@L3(dir), dir, {k2});
      RunsOn(old(memory.phys.bits), old@L3(memory.phys.bits), memory.phys.bits, 1, 1);
      RunsUpTo(old(memory.phys.bits), memory.phys.bits, 2, 3);
      if pd == 0 {
        return 0;
      }
      label L2:
      pt := NextLevel(pd, vpn / ENTS % ENTS, Key(root, 1, vpn / ENTS));
      PinsKeptTrans(old(memory.ledger.table), old@L2(memory.ledger.table), memory.ledger.table);
      GrownByTrans(old(dir), old@L2(dir), dir, {k3} + {k2}, {k1});
      GrownByMore(old(dir), dir, {k3} + {k2} + {k1}, PathOf(root, vpn));
      WayKept(old@L2(dir), dir, {k1});
      RunsOn(old(memory.phys.bits), old@L2(memory.phys.bits), memory.phys.bits, 2, 1);
    }

    /** Maps one page, unless it is mapped already; tables made on the way stay. */
    method MapPage(root: nat, vpn: nat, e: Pte) returns (rc: PageStatus)
      requires Valid() && Key(root, 4, 0) in dir && UserVpn(vpn) && e.Present?
      modifies this`mem, this`dir, this`leaf, memory, memory.phys, memory.ledger
      ensures Valid() && memory.mine == old(memory.mine) && GrownBy(old(dir), dir, PathOf(root, vpn))
      ensures rc != PageNoMem ==> PathOf(root, vpn) <= dir.Keys
      ensures PinsKept(old(memory.ledger.table), memory.ledger.table)
      ensures Quiet(old(memory.ledger.table), old(memory.ram))
      ensures rc == PageOk ==> (root, vpn) !in old(leaf) && leaf == old(leaf)[(root, vpn) := e]
      ensures rc != PageOk ==> leaf == old(leaf)
      ensures rc == PageBusy <==> (root, vpn) in old(leaf)
      ensures PathOf(root, vpn) <= old(dir).Keys ==> rc != PageNoMem
      ensures rc == PageBusy ==> dir == old(dir)
      ensures rc == PageNoMem && !memory.smp ==> memory.phys.free == 0
      ensures !memory.smp ==> Stock() == old(Stock())
      ensures !memory.smp ==> RunsKept(old(memory.phys.bits), memory.phys.bits, 3)
    {
      hide Tree, Memory.Valid, L.TableOk, PinsKept, GrownBy, UserVpn, KeyOk, RunsKept, Paging.Stock;
      NoLeaf(mem, dir, leaf, root, vpn);
      PathKeys(root, vpn);
      var pt := WayTo(root, vpn);
      if pt == 0 {
        return PageNoMem;
      }
      StepDown(mem, dir, leaf, Key(root, 1, vpn / ENTS), vpn);
      LeafPresent(mem, dir, leaf, root, vpn);
      if mem[pt][vpn % ENTS].Present? {
        NoneAdded(old(dir), dir, PathOf(root, vpn));
        return PageBusy;
      }
      SetLeaf(mem, dir, leaf, root, vpn, e, leaf[(root, vpn) := e]);
      mem := mem[pt := mem[pt][vpn % ENTS := e]];
      leaf := leaf[(root, vpn) := e];
      rc := PageOk;
    }

    /** Where the entry of a page is, or Nowhere when a table on the way is missing. */
    method WalkPte(root: nat, vpn: nat) returns (at: Spot)
      requires Valid() && Key(root, 4, 0) in dir && UserVpn(vpn)
      ensures at.Nowhere? ==> (root, vpn) !in leaf
      ensures at.Spot? ==>
        && Key(root, 1, vpn / ENTS) in dir && at.frame == dir[Key(root, 1, vpn / ENTS)] && at.slot == vpn % ENTS
        && at.frame in mem && at.slot < |mem[at.frame]| && mem[at.frame][at.slot] == Leaf(leaf, root, vpn)
    {
      hide Tree, Memory.Valid, UserVpn, KeyOk;
      PathKeys(root, vpn);
      UserSlots(vpn);
      NoLeaf(mem, dir, leaf, root, vpn);
      RootFrame(mem, dir, leaf, root);
      StepDown(mem, dir, leaf, Key(root, 4, 0), vpn / ENTS / ENTS / ENTS);
      var e := mem[root][vpn / ENTS / ENTS / ENTS % ENTS];
      if e.Absent? {
        return Nowhere;
      }
      StepDown(mem, dir, leaf, Key(root, 3, vpn / ENTS / ENTS / ENTS), vpn / ENTS / ENTS);
      e := mem[e.frame][vpn / ENTS / ENTS % ENTS];
      if e.Absent? {
        return Nowhere;
      }
      StepDown(mem, dir, leaf, Key(root, 2, vpn / ENTS / ENTS), vpn / ENTS);
      e := mem[e.frame][vpn / ENTS % ENTS];
      if e.Absent? || e.huge {
        return Nowhere;
      }
      StepDown(mem, dir, leaf, Key(root, 1, vpn / ENTS), vpn);
      at := Spot(e.frame, vpn % ENTS);
    }

    /** Clears the entries of n pages, mapped or not. */
    method UnmapPages(root: nat, vpn: nat, n: nat)
      requires Valid() && Key(root, 4, 0) in dir && USER_BASE <= vpn && vpn + n <= USER_TOP
      modifies this`mem, this`leaf
      ensures Valid() && leaf == RemovePages(old(leaf), root, vpn, n)
    {
      hide Tree, Memory.Valid, KeyOk;
      var i: nat := 0;
      assert leaf == RemovePages(leaf, root, vpn, 0);
      while i < n
        invariant i <= n && Valid() && leaf == RemovePages(old(leaf), root, vpn, i)
      {
        var at := WalkPte(root, vpn + i);
        RemoveOne(old(leaf), root, vpn, i);
        LeafPresent(mem, dir, leaf, root, vpn + i);
        if at.Spot? && mem[at.frame][at.slot].Present? {
          SetLeaf(mem, dir, leaf, root, vpn + i, Absent, leaf - {(root, vpn + i)});
          mem := mem[at.frame := mem[at.frame][at.slot := Absent]];
          leaf := leaf - {(root, vpn + i)};
        } else {
          assert leaf - {(root, vpn + i)} == leaf;
        }
        i := i + 1;
      }
    }

    /** Maps n pages onto n frames, or none: a failure takes back what this call mapped. */
    method MapRange(root: nat, vpn: nat, n: nat, frame: nat, write: bool, exec: bool) returns (rc: PageStatus)
      requires Valid() && Key(root, 4, 0) in dir && USER_BASE <= vpn && vpn + n <= USER_TOP
      modifies this`mem, this`dir, this`leaf, memory, memory.phys, memory.ledger
      ensures Valid() && memory.mine == old(memory.mine) && GrownBy(old(dir), dir, Ways(root, vpn, n))
      ensures rc == PageOk ==> Ways(root, vpn, n) <= dir.Keys
      ensures PinsKept(old(memory.ledger.table), memory.ledger.table)
      ensures Quiet(old(memory.ledger.table), old(memory.ram))
      ensures rc == PageOk ==>
        && (forall p: (nat, nat) :: p in old(leaf) ==> !InRange(p, root, vpn, n))
        && leaf == AddPages(old(leaf), root, vpn, n, frame, write, exec)
      ensures rc != PageOk ==> leaf == old(leaf)
      ensures rc == PageNoMem && !memory.smp ==> memory.phys.free == 0
      ensures !memory.smp ==> Stock() == old(Stock())
      ensures !memory.smp ==> RunsKept(old(memory.phys.bits), memory.phys.bits, 3 * n)
      ensures rc == PageBusy ==>
        var i := FirstTaken(old(leaf), root, vpn, n);
        i < n && dir.Keys == old(dir).Keys + Ways(root, vpn, i)
    {
      hide Tree, Memory.Valid, L.TableOk, PinsKept, GrownBy, PathOf, AddPages, RemovePages, KeyOk, RunsKept, FirstTaken, Ways, Paging.Stock;
      RunsKeptSelf(memory.phys.bits, 0);
      var i: nat := 0;
      AddNone(leaf, root, vpn, frame, write, exec);
      GrownBySelf(dir, {});
      NoWays(root, vpn);
      PinsKeptSelf(memory.ledger.table);
      while i < n
        invariant i <= n && Valid() && memory.mine == old(memory.mine)
        invariant GrownBy(old(dir), dir, Ways(root, vpn, i)) && Ways(root, vpn, i) <= dir.Keys
        invariant PinsKept(old(memory.ledger.table), memory.ledger.table)
        invariant Quiet(old(memory.ledger.table), old(memory.ram))
        invariant !memory.smp ==> RunsKept(old(memory.phys.bits), memory.phys.bits, 3 * i)
        invariant !memory.smp ==> Stock() == old(Stock())
        invariant forall p: (nat, nat) :: p in old(leaf) ==> !InRange(p, root, vpn, i)
        invariant leaf == AddPages(old(leaf), root, vpn, i, frame, write, exec)
      {
        label Before:
        SpaceStays(old(dir), dir, root, Ways(root, vpn, i));
        rc := MapPage(root, vpn + i, Page(frame + i, write, exec));
        RangeStep(old(dir), old@Before(dir), dir, old(leaf), root, vpn, i, n, rc);
        PinsKeptTrans(old(memory.ledger.table), old@Before(memory.ledger.table), memory.ledger.table);
        RunsOn(old(memory.phys.bits), old@Before(memory.phys.bits), memory.phys.bits, 3 * i, 3);
        AddMember(old(leaf), root, vpn, i, frame, write, exec);
        if rc != PageOk {
          RunsUpTo(old(memory.phys.bits), memory.phys.bits, 3 * (i + 1), 3 * n);
          UnmapPages(root, vpn, i);
          RemoveAdded(old(leaf), root, vpn, i, frame, write, exec);
          return;
        }
        AddOne(old(leaf), root, vpn, i, frame, write, exec);
        i := i + 1;
      }
      rc := PageOk;
    }

    /** Frees every table below entries lo..hi of one table; the space is out of `dir` already. */
    method FreeBelow(level: nat, table: nat, lo: nat, hi: nat, ghost d: Dir, ghost k: Key)
      requires memory.Valid() && Tree(mem, d, leaf) && 2 <= level <= 4 && lo <= hi <= ENTS && 0 !in d.Values
      requires k in d && k.level == level && d[k] == table && forall j :: lo <= j < hi ==> OwnSlot(k, j)
      requires multiset(Sub(d, k.root, level - 1, k.idx * ENTS + lo, k.idx * ENTS + hi)) <= memory.mine
      modifies memory, memory.phys, memory.ledger
      ensures memory.Valid() && memory.tables == old(memory.tables)
      ensures memory.mine == old(memory.mine)
                             - multiset(Sub(d, k.root, level - 1, k.idx * ENTS + lo, k.idx * ENTS + hi))
      ensures PinsKept(old(memory.ledger.table), memory.ledger.table)
      ensures Quiet(old(memory.ledger.table), old(memory.ram))
      decreases level
    {
      hide Tree, Memory.Valid, L.TableOk, PinsKept, OwnSlot, Sub, KeyOk;
      ghost var root, base := k.root, k.idx * ENTS;
      var j := lo;
      PinsKeptSelf(memory.ledger.table);
      SubEmpty(d, root, level - 1, base + lo);
      assert memory.mine == old(memory.mine) - multiset(Sub(d, root, level - 1, base + lo, base + lo));
      while j < hi
        invariant lo <= j <= hi && memory.Valid() && memory.tables == old(memory.tables)
        invariant memory.mine == old(memory.mine) - multiset(Sub(d, root, level - 1, base + lo, base + j))
        invariant PinsKept(old(memory.ledger.table), memory.ledger.table)
        invariant Quiet(old(memory.ledger.table), old(memory.ram))
      {
        label Before:
        Numbered(k.idx, j);
        StepDown(mem, d, leaf, k, base + j);
        SubMore(mem, d, leaf, root, level - 1, base + lo, base + j);
        SubWithin(d, root, level - 1, base + lo, base + j + 1, base + hi);
        if mem[table][j].Present? {
          ghost var child := Key(root, level - 1, base + j);
          Enough(old(memory.mine), Sub(d, root, level - 1, base + lo, base + j),
                 Sub(d, root, level - 1, base + j, base + j + 1));
          FreeChild(level, mem[table][j].frame, d, child);
          PinsKeptTrans(old(memory.ledger.table), old@Before(memory.ledger.table), memory.ledger.table);
        } else {
          SubNone(mem, d, leaf, root, level - 1, base + j);
        }
        TakenTogether(old(memory.mine), Sub(d, root, level - 1, base + lo, base + j),
                      Sub(d, root, level - 1, base + j, base + j + 1));
        j := j + 1;
      }
    }

    /** Frees one child table and what is below it. */
    method FreeChild(level: nat, frame: nat, ghost d: Dir, ghost child: Key)
      requires memory.Valid() && Tree(mem, d, leaf) && 2 <= level <= 4 && 0 !in d.Values
      requires child in d && child.level == level - 1 && d[child] == frame
      requires multiset(Sub(d, child.root, level - 1, child.idx, child.idx + 1)) <= memory.mine
      modifies memory, memory.phys, memory.ledger
      ensures memory.Valid() && memory.tables == old(memory.tables)
      ensures memory.mine == old(memory.mine) - multiset(Sub(d, child.root, level - 1, child.idx, child.idx + 1))
      ensures PinsKept(old(memory.ledger.table), memory.ledger.table)
      ensures Quiet(old(memory.ledger.table), old(memory.ram))
      decreases level, 0
    {
      hide Tree, Memory.Valid, L.TableOk, PinsKept, OwnSlot, Sub, KeyOk, Run;
      assert frame in d.Values && frame > 0;
      ghost var below := Sub(d, child.root, level - 2, child.idx * ENTS, child.idx * ENTS + ENTS);
      SubStep(mem, d, leaf, child.root, level - 1, child.idx);
      Enough2(memory.mine, below, frame);
      PinsKeptSelf(memory.ledger.table);
      if level > 2 {
        AllSlots(child);
        FreeBelow(level - 1, frame, 0, ENTS, d, child);
      } else {
        SubBottom(mem, d, leaf, child.root, child.idx * ENTS, child.idx * ENTS + ENTS);
        TakenNone(memory.mine);
      }
      label Below:
      FreeTable(frame);
      PinsKeptTrans(old(memory.ledger.table), old@Below(memory.ledger.table), memory.ledger.table);
    }

    method FreeTable(frame: nat)
      requires memory.Valid() && frame > 0 && frame in memory.mine
      modifies memory, memory.phys, memory.ledger
      ensures memory.Valid() && memory.tables == old(memory.tables)
      ensures memory.mine == old(memory.mine) - multiset{frame}
      ensures PinsKept(old(memory.ledger.table), memory.ledger.table)
      ensures Quiet(old(memory.ledger.table), old(memory.ram))
    {
      hide Memory.Valid, L.TableOk, PinsKept, Run;
      OneFrame(frame);
      memory.FreeFrames(frame, 1);
    }

    /** Adds a root whose user half is empty. */
    method NewRoot(kernel: seq<Pte>) returns (root: nat, clean: bool)
      requires Valid() && |kernel| == ENTS
      modifies this`mem, this`dir, memory, memory.phys, memory.ledger
      ensures Valid() && memory.mine == old(memory.mine)
      ensures PinsKept(old(memory.ledger.table), memory.ledger.table)
      ensures Quiet(old(memory.ledger.table), old(memory.ram))
      ensures root != 0 ==> (clean <==> forall i :: 1 <= i < 256 ==> kernel[i].Absent?)
      ensures root == 0 || !clean ==> dir == old(dir)
      ensures root == 0 && !memory.smp ==> memory.phys.free == 0
      ensures (root == 0 || clean) && !memory.smp ==> RunsKept(old(memory.phys.bits), memory.phys.bits, 1)
      ensures root != 0 && clean ==>
        && root !in old(dir).Values && Key(root, 4, 0) !in old(dir) && dir == old(dir)[Key(root, 4, 0) := root]
        && root in mem && mem[root] == kernel
    {
      hide Tree, Memory.Valid, L.TableOk, PinsKept, RunsKept;
      clean := false;
      root := AllocZeroTable();
      if root == 0 {
        return;
      }
      label Got:
      var i := 1;
      while i < 256
        invariant 1 <= i <= 256 && forall j :: 1 <= j < i ==> kernel[j].Absent?
      {
        if kernel[i].Present? {
          FreeTable(root);
          PinsKeptTrans(old(memory.ledger.table), old@Got(memory.ledger.table), memory.ledger.table);
          assert memory.mine == old(memory.mine);
          return;
        }
        i := i + 1;
      }
      clean := true;
      var np := mem[root][0 := kernel[0]];
      i := 256;
      while i < ENTS
        invariant 256 <= i <= ENTS && |np| == ENTS
        invariant forall j :: 1 <= j < 256 ==> np[j].Absent?
        invariant np[0] == kernel[0] && forall j :: 256 <= j < i ==> np[j] == kernel[j]
      {
        np := np[i := kernel[i]];
        i := i + 1;
      }
      assert np == kernel;
      memory.Adopt(root);
      assert memory.mine == old(memory.mine);
      NewSpace(mem, dir, leaf, root, np);
      FreshKey(mem, dir, leaf, root);
      Rooted(dir, Key(root, 4, 0), root);
      mem := mem[root := np];
      dir := dir[Key(root, 4, 0) := root];
    }

    /** Frees the tables of a space with nothing mapped; shared kernel tables are not touched. */
    method FreeSpace(root: nat)
      requires Valid() && Key(root, 4, 0) in dir && forall p :: p in leaf ==> p.0 != root
      modifies this`dir, memory, memory.phys, memory.ledger
      ensures Valid() && memory.mine == old(memory.mine) && dir == WithoutSpace(old(dir), root)
      ensures PinsKept(old(memory.ledger.table), memory.ledger.table)
      ensures Quiet(old(memory.ledger.table), old(memory.ram))
    {
      hide Tree, Memory.Valid, L.TableOk, PinsKept, OwnSlot, Sub, KeyOk, SpaceFrames, WithoutSpace;
      ghost var d, k := dir, Key(root, 4, 0);
      DropSpace(mem, dir, leaf, root);
      WholeSpace(mem, dir, leaf, root);
      RootFrame(mem, dir, leaf, root);
      assert d[k] in d.Values;
      ghost var below := Sub(d, root, 3, 1, 256);
      memory.Disown(SpaceFrames(dir, root));
      dir := WithoutSpace(dir, root);
      Enough2(memory.mine, below, root);
      UserHalf(root);
      FreeBelow(4, root, 1, 256, d, k);
      label Below:
      FreeTable(root);
      PinsKeptTrans(old(memory.ledger.table), old@Below(memory.ledger.table), memory.ledger.table);
      AddedGone(old(memory.mine), below + {root});
    }
  }

  lemma AddedGone(all: multiset<nat>, some: set<nat>)
    ensures all + multiset(some) - multiset(some) == all
  {
  }

  lemma UserHalf(root: nat)
    ensures forall j :: 1 <= j < 256 ==> OwnSlot(Key(root, 4, 0), j)
  {
  }

  lemma FreshKey(mem: Tables, dir: Dir, leaf: Leaves, root: nat)
    requires Tree(mem, dir, leaf) && root !in dir.Values
    ensures Key(root, 4, 0) !in dir
  {
    hide Tree;
    if Key(root, 4, 0) in dir {
      RootFrame(mem, dir, leaf, root);
    }
  }

  lemma NotATable(memory: Memory, f: nat)
    requires memory.Valid() && f in memory.mine
    ensures f !in memory.tables
  {
    hide FlightFrames, L.TableOk, CountFree;
    InOnePlace(memory.phys.bits, memory.reserved, memory.ledger.table, memory.tables,
               memory.mine + FlightFrames(memory.others), f);
    assert (memory.mine + FlightFrames(memory.others))[f] >= 1;
    assert multiset(memory.tables)[f] == if f in memory.tables then 1 else 0;
  }

  lemma ChildSlot(k: Key)
    requires KeyOk(k) && k.level < 4
    ensures k.level >= 1 && k.idx % ENTS < ENTS && OwnSlot(Parent(k), k.idx % ENTS)
  {
  }

  lemma Adopted(dir: Dir, k: Key, f: nat)
    requires k !in dir && k.level < 4
    ensures dir[k := f].Values == dir.Values + {f} && Grown(dir, dir[k := f])
  {
    Rooted(dir, k, f);
  }

  lemma Rooted(dir: Dir, k: Key, f: nat)
    requires k !in dir
    ensures dir[k := f].Values == dir.Values + {f}
  {
    var more := dir[k := f];
    forall v | v in dir.Values
      ensures v in more.Values
    {
      var m :| m in dir && dir[m] == v;
      assert more[m] == v;
    }
    assert more[k] == f;
  }

  lemma PathKeys(root: nat, vpn: nat)
    requires UserVpn(vpn)
    ensures KeyOk(Key(root, 3, vpn / ENTS / ENTS / ENTS)) && Parent(Key(root, 3, vpn / ENTS / ENTS / ENTS)) == Key(root, 4, 0)
    ensures KeyOk(Key(root, 2, vpn / ENTS / ENTS)) && KeyOk(Key(root, 1, vpn / ENTS))
    ensures OwnSlot(Key(root, 4, 0), vpn / ENTS / ENTS / ENTS % ENTS)
  {
    UserSlots(vpn);
  }

  lemma NoWays(root: nat, vpn: nat)
    ensures Ways(root, vpn, 0) == {}
  {
  }

  /** Page i of a range was tried: the tables so far are those of the pages before it, and of it unless it was mapped. */
  lemma RangeStep(d: Dir, e: Dir, f: Dir, leaf: Leaves, root: nat, vpn: nat, i: nat, n: nat, rc: PageStatus)
    requires i < n && GrownBy(d, e, Ways(root, vpn, i)) && Ways(root, vpn, i) <= e.Keys
    requires GrownBy(e, f, PathOf(root, vpn + i)) && (rc != PageNoMem ==> PathOf(root, vpn + i) <= f.Keys)
    requires rc == PageBusy ==> f == e && (root, vpn + i) in leaf
    requires forall p: (nat, nat) :: p in leaf ==> !InRange(p, root, vpn, i)
    ensures GrownBy(d, f, Ways(root, vpn, i + 1)) && GrownBy(d, f, Ways(root, vpn, n))
    ensures rc == PageOk ==> Ways(root, vpn, i + 1) <= f.Keys
    ensures Key(root, 4, 0) in d <==> Key(root, 4, 0) in f
    ensures rc == PageBusy ==> FirstTaken(leaf, root, vpn, n) == i && f.Keys == d.Keys + Ways(root, vpn, i)
  {
    hide PathOf, FirstTaken;
    GrownByTrans(d, e, f, Ways(root, vpn, i), PathOf(root, vpn + i));
    WayKept(e, f, PathOf(root, vpn + i));
    WaysWithin(root, vpn, i + 1, n);
    SpaceStays(d, f, root, Ways(root, vpn, n));
    if rc == PageBusy {
      FirstTakenIs(leaf, root, vpn, n, i);
    }
  }

  lemma WayKept(d: Dir, e: Dir, w: set<Key>)
    requires GrownBy(d, e, w)
    ensures forall k :: k in d ==> k in e && e[k] == d[k]
  {
  }

  lemma SpaceStays(d: Dir, e: Dir, root: nat, w: set<Key>)
    requires GrownBy(d, e, w)
    ensures Key(root, 4, 0) in d <==> Key(root, 4, 0) in e
  {
  }

  lemma AddNone(leaf: Leaves, root: nat, vpn: nat, frame: nat, write: bool, exec: bool)
    ensures AddPages(leaf, root, vpn, 0, frame, write, exec) == leaf
  {
  }

  lemma AddOne(leaf: Leaves, root: nat, vpn: nat, n: nat, frame: nat, write: bool, exec: bool)
    ensures AddPages(leaf, root, vpn, n + 1, frame, write, exec)
         == AddPages(leaf, root, vpn, n, frame, write, exec)[(root, vpn + n) := Page(frame + n, write, exec)]
  {
  }

  lemma RunsOn(a: seq<bool>, b: seq<bool>, d: seq<bool>, m: nat, n: nat)
    ensures RunsKept(a, b, m) && RunsKept(b, d, n) ==> RunsKept(a, d, m + n)
  {
    hide RunsKept;
    if RunsKept(a, b, m) && RunsKept(b, d, n) {
      RunsKeptTrans(a, b, d, m, n);
    }
  }

  lemma RunsUpTo(a: seq<bool>, b: seq<bool>, m: nat, n: nat)
    requires m <= n
    ensures RunsKept(a, b, m) ==> RunsKept(a, b, n)
  {
    hide RunsKept;
    if RunsKept(a, b, m) {
      RunsKeptMore(a, b, m, n);
    }
  }

  lemma AddMember(leaf: Leaves, root: nat, vpn: nat, n: nat, frame: nat, write: bool, exec: bool)
    ensures (root, vpn + n) in AddPages(leaf, root, vpn, n, frame, write, exec) <==> (root, vpn + n) in leaf
  {
  }

  lemma SubEmpty(d: Dir, root: nat, level: nat, i: nat)
    ensures Sub(d, root, level, i, i) == {}
  {
  }

  lemma SubWithin(d: Dir, root: nat, level: nat, lo: nat, mid: nat, hi: nat)
    requires lo <= mid <= hi
    ensures Sub(d, root, level, lo, mid) <= Sub(d, root, level, lo, hi)
  {
  }

  /** There is no table below level 1. */
  lemma SubBottom(mem: Tables, d: Dir, leaf: Leaves, root: nat, lo: nat, hi: nat)
    requires Tree(mem, d, leaf)
    ensures Sub(d, root, 0, lo, hi) == {}
  {
    hide Tree;
    forall k | k in d && Within(k, root, 0, lo, hi)
      ensures false
    {
      ParentIn(mem, d, leaf, k);
    }
  }

  lemma AllSlots(k: Key)
    requires k.level < 4
    ensures forall j :: 0 <= j < ENTS ==> OwnSlot(k, j)
  {
  }

  lemma Enough(all: multiset<nat>, gone: set<nat>, whole: set<nat>)
    requires multiset(gone + whole) <= all && gone !! whole
    ensures multiset(whole) <= all - multiset(gone)
  {
    assert multiset(gone + whole) == multiset(gone) + multiset(whole);
  }

  lemma Enough2(mine: multiset<nat>, below: set<nat>, frame: nat)
    requires multiset(below + {frame}) <= mine && frame !in below
    ensures multiset(below) <= mine && frame in mine - multiset(below)
    ensures mine - multiset(below) - multiset{frame} == mine - multiset(below + {frame})
  {
    assert multiset(below + {frame}) == multiset(below) + multiset{frame};
  }

  lemma TakenNone(all: multiset<nat>)
    ensures all - multiset({}) == all
  {
  }

  lemma TakenTogether(all: multiset<nat>, gone: set<nat>, more: set<nat>)
    requires gone !! more
    ensures all - multiset(gone) - multiset(more) == all - multiset(gone + more)
  {
    assert multiset(gone + more) == multiset(gone) + multiset(more);
  }
}
