/**
 Four-level page tables.  `mem` holds the tables by frame number.  Ghost state
 gives their meaning: `dir` names the frame of every table of every live address
 space, and `leaf` is the flat page table, from (space, page number) to entry.
 */
module PageTables {

  const ENTS: nat := 512
  /** The user half: page numbers under PML4 entries 1..255. */
  const USER_BASE: nat := 0x800_0000
  const USER_TOP: nat := 0x8_0000_0000

  datatype Pte = Absent | Present(frame: nat, write: bool, user: bool, nx: bool, huge: bool)

  type Tables = map<nat, seq<Pte>>

  /** A table: level 4 is the root, level 1 holds leaves; idx is the number of the region it maps. */
  datatype Key = Key(root: nat, level: nat, idx: nat)

  type Dir = map<Key, nat>
  type Leaves = map<(nat, nat), Pte>

  function Upper(frame: nat): Pte {
    Present(frame, true, true, false, false)
  }

  function Parent(k: Key): Key {
    Key(k.root, k.level + 1, k.idx / ENTS)
  }

  predicate UserVpn(v: nat) {
    USER_BASE <= v < USER_TOP
  }

  predicate KeyOk(k: Key) {
    if k.level == 4 then k.idx == 0
    else if k.level == 3 then 1 <= k.idx < 256
    else if k.level == 2 then 1 <= k.idx / ENTS < 256
    else k.level == 1 && 1 <= k.idx / ENTS / ENTS < 256
  }

  /** The entries of a table that belong to its address space. */
  predicate OwnSlot(k: Key, j: nat) {
    if k.level == 4 then 1 <= j < 256 else j < ENTS
  }

  /** What entry j of table k must hold. */
  function SlotValue(dir: Dir, leaf: Leaves, k: Key, j: nat): Pte {
    if k.level <= 1 then Leaf(leaf, k.root, k.idx * ENTS + j)
    else if Key(k.root, k.level - 1, k.idx * ENTS + j) in dir then Upper(dir[Key(k.root, k.level - 1, k.idx * ENTS + j)])
    else Absent
  }

  function Leaf(leaf: Leaves, root: nat, vpn: nat): Pte {
    if (root, vpn) in leaf then leaf[(root, vpn)] else Absent
  }

  ghost predicate NodeOk(mem: Tables, dir: Dir, leaf: Leaves, k: Key)
    requires k in dir
  {
    && KeyOk(k)
    && dir[k] in mem && |mem[dir[k]]| == ENTS
    && (k.level == 4 ==> dir[k] == k.root)
    && (k.level < 4 ==> Parent(k) in dir)
    && forall j: nat :: OwnSlot(k, j) ==> mem[dir[k]][j] == SlotValue(dir, leaf, k, j)
  }

  predicate LeafOk(dir: Dir, leaf: Leaves, p: (nat, nat))
    requires p in leaf
  {
    UserVpn(p.1) && Key(p.0, 1, p.1 / ENTS) in dir && leaf[p].Present?
  }

  /** The tables form a tree without sharing, and hold exactly the flat page table. */
  ghost predicate Tree(mem: Tables, dir: Dir, leaf: Leaves) {
    && (forall k :: k in dir ==> NodeOk(mem, dir, leaf, k))
    && (forall k, m :: k in dir && m in dir && dir[k] == dir[m] ==> k == m)
    && (forall p :: p in leaf ==> LeafOk(dir, leaf, p))
  }

  lemma Numbered(i: nat, j: nat)
    requires j < ENTS
    ensures (i * ENTS + j) / ENTS == i && (i * ENTS + j) % ENTS == j
  {
  }

  // ---- the walk the processor does ----

  function Look(mem: Tables, frame: nat, j: nat): Pte {
    if frame in mem && j < |mem[frame]| then mem[frame][j] else Absent
  }

  /** Permissions combine along the way down. */
  function Under(up: Pte, down: Pte): Pte {
    if up.Present? && down.Present? then
      down.(write := up.write && down.write, user := up.user && down.user, nx := up.nx || down.nx)
    else Absent
  }

  function Walk(mem: Tables, root: nat, vpn: nat): Pte {
    var e4 := Look(mem, root, vpn / ENTS / ENTS / ENTS % ENTS);
    if e4.Absent? then Absent
    else
      var e3 := Look(mem, e4.frame, vpn / ENTS / ENTS % ENTS);
      if e3.Absent? then Absent
      else
        var e2 := Look(mem, e3.frame, vpn / ENTS % ENTS);
        if e2.Absent? || e2.huge then Under(e4, Under(e3, e2))
        else Under(e4, Under(e3, Under(e2, Look(mem, e2.frame, vpn % ENTS))))
  }

  /** One step down the tree: the entry of table k for the region idx. */
  lemma StepDown(mem: Tables, dir: Dir, leaf: Leaves, k: Key, idx: nat)
    requires Tree(mem, dir, leaf) && k in dir && idx / ENTS == k.idx && OwnSlot(k, idx % ENTS)
    ensures dir[k] in mem && |mem[dir[k]]| == ENTS
    ensures Look(mem, dir[k], idx % ENTS) ==
      if k.level == 1 then Leaf(leaf, k.root, idx)
      else if Key(k.root, k.level - 1, idx) in dir then Upper(dir[Key(k.root, k.level - 1, idx)])
      else Absent
  {
    assert NodeOk(mem, dir, leaf, k);
    assert k.idx * ENTS + idx % ENTS == idx;
  }

  lemma UserSlots(vpn: nat)
    requires UserVpn(vpn)
    ensures vpn / ENTS / ENTS / ENTS / ENTS == 0 && 1 <= vpn / ENTS / ENTS / ENTS < 256
  {
  }

  /** What the processor finds is what the flat page table says. */
  lemma WalkIsLeaf(mem: Tables, dir: Dir, leaf: Leaves, root: nat, vpn: nat)
    requires Tree(mem, dir, leaf) && Key(root, 4, 0) in dir && UserVpn(vpn)
    ensures Walk(mem, root, vpn) == Leaf(leaf, root, vpn)
  {
    hide Tree, NodeOk;
    UserSlots(vpn);
    var v1 := vpn / ENTS;
    var v2 := v1 / ENTS;
    var v3 := v2 / ENTS;
    RootFrame(mem, dir, leaf, root);
    StepDown(mem, dir, leaf, Key(root, 4, 0), v3);
    if Key(root, 3, v3) in dir {
      StepDown(mem, dir, leaf, Key(root, 3, v3), v2);
      if Key(root, 2, v2) in dir {
        StepDown(mem, dir, leaf, Key(root, 2, v2), v1);
        if Key(root, 1, v1) in dir {
          StepDown(mem, dir, leaf, Key(root, 1, v1), vpn);
          LeafPresent(mem, dir, leaf, root, vpn);
        } else {
          NoLeaf(mem, dir, leaf, root, vpn);
        }
      } else {
        NoLeaf(mem, dir, leaf, root, vpn);
      }
    } else {
      NoLeaf(mem, dir, leaf, root, vpn);
    }
  }

  lemma RootFrame(mem: Tables, dir: Dir, leaf: Leaves, root: nat)
    requires Tree(mem, dir, leaf) && Key(root, 4, 0) in dir
    ensures dir[Key(root, 4, 0)] == root
  {
    assert NodeOk(mem, dir, leaf, Key(root, 4, 0));
  }

  lemma LeafPresent(mem: Tables, dir: Dir, leaf: Leaves, root: nat, vpn: nat)
    requires Tree(mem, dir, leaf)
    ensures (root, vpn) in leaf ==> UserVpn(vpn) && leaf[(root, vpn)].Present?
  {
    if (root, vpn) in leaf {
      assert LeafOk(dir, leaf, (root, vpn));
    }
  }

  /** A missing table on the way means a page that is not mapped. */
  lemma NoLeaf(mem: Tables, dir: Dir, leaf: Leaves, root: nat, vpn: nat)
    requires Tree(mem, dir, leaf)
    ensures (root, vpn) in leaf ==>
      && Key(root, 1, vpn / ENTS) in dir
      && Key(root, 2, vpn / ENTS / ENTS) in dir
      && Key(root, 3, vpn / ENTS / ENTS / ENTS) in dir
      && Key(root, 4, 0) in dir
  {
    if (root, vpn) in leaf {
      assert LeafOk(dir, leaf, (root, vpn));
      assert NodeOk(mem, dir, leaf, Key(root, 1, vpn / ENTS));
      assert NodeOk(mem, dir, leaf, Key(root, 2, vpn / ENTS / ENTS));
      assert NodeOk(mem, dir, leaf, Key(root, 3, vpn / ENTS / ENTS / ENTS));
      UserSlots(vpn);
    }
  }

  // ---- changing the tree ----

  /** Hanging an empty table under its parent. */
  lemma AddTable(mem: Tables, dir: Dir, leaf: Leaves, k: Key, f: nat, empty: seq<Pte>)
    requires Tree(mem, dir, leaf) && KeyOk(k) && k.level < 4 && k !in dir && Parent(k) in dir && f !in dir.Values
    requires |empty| == ENTS && forall j :: 0 <= j < ENTS ==> empty[j] == Absent
    ensures dir[Parent(k)] in mem && k.idx % ENTS < |mem[dir[Parent(k)]]|
    ensures var t := dir[Parent(k)];
      Tree(mem[f := empty][t := mem[t][k.idx % ENTS := Upper(f)]], dir[k := f], leaf)
  {
    hide SlotValue, OwnSlot;
    var up := Parent(k);
    assert NodeOk(mem, dir, leaf, up);
    var t := dir[up];
    var mem2 := mem[f := empty][t := mem[t][k.idx % ENTS := Upper(f)]];
    var dir2 := dir[k := f];
    forall m | m in dir2
      ensures NodeOk(mem2, dir2, leaf, m)
    {
      if m == k {
        NewNodeOk(mem, dir, leaf, k, f, empty, mem2);
      } else {
        assert NodeOk(mem, dir, leaf, m);
        assert dir[m] in dir.Values;
        OldNodeOk(mem, dir, leaf, k, f, m, mem2);
      }
    }
    forall m, n | m in dir2 && n in dir2 && dir2[m] == dir2[n]
      ensures m == n
    {
      assert m != k ==> dir[m] in dir.Values;
      assert n != k ==> dir[n] in dir.Values;
    }
    forall p | p in leaf
      ensures LeafOk(dir2, leaf, p)
    {
      assert LeafOk(dir, leaf, p);
    }
  }

  lemma NewNodeOk(mem: Tables, dir: Dir, leaf: Leaves, k: Key, f: nat, empty: seq<Pte>, mem2: Tables)
    requires Tree(mem, dir, leaf) && KeyOk(k) && k.level < 4 && k !in dir && Parent(k) in dir && f !in dir.Values
    requires |empty| == ENTS && forall j :: 0 <= j < ENTS ==> empty[j] == Absent
    requires f in mem2 && mem2[f] == empty
    ensures NodeOk(mem2, dir[k := f], leaf, k)
  {
    hide Tree;
    var dir2 := dir[k := f];
    forall j: nat | OwnSlot(k, j)
      ensures SlotValue(dir2, leaf, k, j) == Absent
    {
      Numbered(k.idx, j);
      if k.level == 1 {
        NoLeaf(mem, dir, leaf, k.root, k.idx * ENTS + j);
      } else {
        ParentIn(mem, dir, leaf, Key(k.root, k.level - 1, k.idx * ENTS + j));
      }
    }
  }

  lemma ParentIn(mem: Tables, dir: Dir, leaf: Leaves, k: Key)
    requires Tree(mem, dir, leaf)
    ensures k in dir ==> KeyOk(k) && (k.level < 4 ==> Parent(k) in dir)
  {
    assert k in dir ==> NodeOk(mem, dir, leaf, k);
  }

  lemma OldNodeOk(mem: Tables, dir: Dir, leaf: Leaves, k: Key, f: nat, m: Key, mem2: Tables)
    requires k !in dir && Parent(k) in dir && f !in dir.Values && m in dir && NodeOk(mem, dir, leaf, m)
    requires dir[m] in dir.Values && 1 <= k.level < 4 && (dir[m] == dir[Parent(k)] ==> m == Parent(k))
    requires dir[m] in mem2 && dir[Parent(k)] in mem && |mem[dir[Parent(k)]]| == ENTS
    requires mem2[dir[m]] == if m == Parent(k) then mem[dir[m]][k.idx % ENTS := Upper(f)] else mem[dir[m]]
    ensures NodeOk(mem2, dir[k := f], leaf, m)
  {
    var dir2 := dir[k := f];
    forall j: nat | OwnSlot(m, j)
      ensures mem2[dir[m]][j] == SlotValue(dir2, leaf, m, j)
    {
      assert mem[dir[m]][j] == SlotValue(dir, leaf, m, j);
      Numbered(m.idx, j);
      if m.level > 1 {
        var child := Key(m.root, m.level - 1, m.idx * ENTS + j);
        assert child == k <==> m == Parent(k) && j == k.idx % ENTS;
      }
    }
  }

  /** Setting or clearing one leaf entry. */
  lemma SetLeaf(mem: Tables, dir: Dir, leaf: Leaves, root: nat, vpn: nat, e: Pte, leaf2: Leaves)
    requires Tree(mem, dir, leaf) && UserVpn(vpn) && Key(root, 1, vpn / ENTS) in dir
    requires leaf2 == if e.Absent? then leaf - {(root, vpn)} else leaf[(root, vpn) := e]
    ensures var t := dir[Key(root, 1, vpn / ENTS)];
      t in mem && |mem[t]| == ENTS && Tree(mem[t := mem[t][vpn % ENTS := e]], dir, leaf2)
  {
    hide SlotValue;
    var k := Key(root, 1, vpn / ENTS);
    assert NodeOk(mem, dir, leaf, k);
    var t := dir[k];
    var mem2 := mem[t := mem[t][vpn % ENTS := e]];
    forall m | m in dir
      ensures NodeOk(mem2, dir, leaf2, m)
    {
      assert NodeOk(mem, dir, leaf, m);
      assert dir[m] == t ==> m == k;
      LeafNodeOk(mem, dir, leaf, root, vpn, e, leaf2, m, mem2);
    }
    forall p | p in leaf2
      ensures LeafOk(dir, leaf2, p)
    {
      if p != (root, vpn) {
        assert LeafOk(dir, leaf, p);
      }
    }
  }

  lemma LeafNodeOk(mem: Tables, dir: Dir, leaf: Leaves, root: nat, vpn: nat, e: Pte, leaf2: Leaves, m: Key,
                    mem2: Tables)
    requires m in dir && NodeOk(mem, dir, leaf, m)
    requires leaf2 == if e.Absent? then leaf - {(root, vpn)} else leaf[(root, vpn) := e]
    requires dir[m] in mem2
    requires mem2[dir[m]] ==
      if m == Key(root, 1, vpn / ENTS) then mem[dir[m]][vpn % ENTS := e] else mem[dir[m]]
    ensures NodeOk(mem2, dir, leaf2, m)
  {
    forall j: nat | OwnSlot(m, j)
      ensures mem2[dir[m]][j] == SlotValue(dir, leaf2, m, j)
    {
      assert mem[dir[m]][j] == SlotValue(dir, leaf, m, j);
      Numbered(m.idx, j);
      assert m.level == 1 ==>
        ((m.root == root && m.idx * ENTS + j == vpn) <==> (m == Key(root, 1, vpn / ENTS) && j == vpn % ENTS));
    }
  }

  /** A frame that is no table can hold anything. */
  lemma OtherFrame(mem: Tables, dir: Dir, leaf: Leaves, f: nat, t: seq<Pte>)
    requires Tree(mem, dir, leaf) && f !in dir.Values
    ensures Tree(mem[f := t], dir, leaf)
  {
    hide SlotValue, OwnSlot, KeyOk;
    forall k | k in dir
      ensures NodeOk(mem[f := t], dir, leaf, k)
    {
      assert NodeOk(mem, dir, leaf, k);
      assert dir[k] in dir.Values;
    }
  }

  // ---- whole address spaces ----

  /** The number, at a higher level, of the region a table lies in. */
  function Anc(k: Key, level: nat): nat
    requires k.level <= level
    decreases level - k.level
  {
    if k.level == level then k.idx else Anc(Parent(k), level)
  }

  lemma {:induction false} AncUp(k: Key, level: nat)
    requires k.level < level
    ensures Anc(k, level) == Anc(k, level - 1) / ENTS
    decreases level - k.level
  {
    if k.level < level - 1 {
      AncUp(Parent(k), level);
    }
  }

  lemma {:induction false} AncIn(mem: Tables, dir: Dir, leaf: Leaves, k: Key, level: nat)
    requires Tree(mem, dir, leaf) && k in dir && k.level <= level <= 4
    ensures Key(k.root, level, Anc(k, level)) in dir
    decreases level - k.level
  {
    hide Tree;
    if k.level < level {
      ParentIn(mem, dir, leaf, k);
      AncIn(mem, dir, leaf, Parent(k), level);
    }
  }

  lemma RootIn(mem: Tables, dir: Dir, leaf: Leaves, k: Key)
    requires Tree(mem, dir, leaf) && k in dir
    ensures 1 <= k.level <= 4 && Key(k.root, 4, 0) in dir && dir[Key(k.root, 4, 0)] == k.root
  {
    hide Tree, Anc;
    ParentIn(mem, dir, leaf, k);
    AncIn(mem, dir, leaf, k, 4);
    ParentIn(mem, dir, leaf, Key(k.root, 4, Anc(k, 4)));
    RootFrame(mem, dir, leaf, k.root);
  }

  ghost predicate Within(k: Key, root: nat, level: nat, lo: nat, hi: nat) {
    k.root == root && k.level <= level && lo <= Anc(k, level) < hi
  }

  /** The frames of the tables at or below `level` in regions lo..hi of an address space. */
  ghost function Sub(dir: Dir, root: nat, level: nat, lo: nat, hi: nat): set<nat> {
    set k | k in dir && Within(k, root, level, lo, hi) :: dir[k]
  }

  lemma SubNone(mem: Tables, dir: Dir, leaf: Leaves, root: nat, level: nat, i: nat)
    requires Tree(mem, dir, leaf) && level <= 4 && Key(root, level, i) !in dir
    ensures Sub(dir, root, level, i, i + 1) == {}
  {
    hide Tree, Anc;
    forall k | k in dir && Within(k, root, level, i, i + 1)
      ensures false
    {
      AncIn(mem, dir, leaf, k, level);
    }
  }

  lemma SubMore(mem: Tables, dir: Dir, leaf: Leaves, root: nat, level: nat, lo: nat, hi: nat)
    requires Tree(mem, dir, leaf) && lo <= hi
    ensures Sub(dir, root, level, lo, hi + 1) == Sub(dir, root, level, lo, hi) + Sub(dir, root, level, hi, hi + 1)
    ensures Sub(dir, root, level, lo, hi) !! Sub(dir, root, level, hi, hi + 1)
  {
    hide NodeOk, LeafOk, Anc;
    forall f | f in Sub(dir, root, level, lo, hi) && f in Sub(dir, root, level, hi, hi + 1)
      ensures false
    {
    }
    forall k | k in dir
      ensures Within(k, root, level, lo, hi + 1) <==> Within(k, root, level, lo, hi) || Within(k, root, level, hi, hi + 1)
    {
    }
  }

  lemma SubStep(mem: Tables, dir: Dir, leaf: Leaves, root: nat, level: nat, i: nat)
    requires Tree(mem, dir, leaf) && level >= 1 && Key(root, level, i) in dir
    ensures Sub(dir, root, level, i, i + 1)
         == Sub(dir, root, level - 1, i * ENTS, i * ENTS + ENTS) + {dir[Key(root, level, i)]}
    ensures dir[Key(root, level, i)] !in Sub(dir, root, level - 1, i * ENTS, i * ENTS + ENTS)
  {
    hide NodeOk, LeafOk, Anc;
    var top := Key(root, level, i);
    forall k | k in dir
      ensures Within(k, root, level, i, i + 1) <==> k == top || Within(k, root, level - 1, i * ENTS, i * ENTS + ENTS)
    {
      StepWithin(k, root, level, i);
    }
    assert Within(top, root, level, i, i + 1);
  }

  lemma StepWithin(k: Key, root: nat, level: nat, i: nat)
    requires level >= 1
    ensures Within(k, root, level, i, i + 1)
      <==> k == Key(root, level, i) || Within(k, root, level - 1, i * ENTS, i * ENTS + ENTS)
  {
    if k.level < level {
      AncUp(k, level);
      var x := Anc(k, level - 1);
      assert x / ENTS == i <==> i * ENTS <= x < i * ENTS + ENTS;
    }
  }

  ghost function SpaceFrames(dir: Dir, root: nat): set<nat> {
    set k | k in dir && k.root == root :: dir[k]
  }

  /** An address space is its root and the tables under entries 1..255. */
  lemma WholeSpace(mem: Tables, dir: Dir, leaf: Leaves, root: nat)
    requires Tree(mem, dir, leaf) && Key(root, 4, 0) in dir
    ensures SpaceFrames(dir, root) == Sub(dir, root, 3, 1, 256) + {root} && root !in Sub(dir, root, 3, 1, 256)
  {
    hide Tree, Anc;
    RootFrame(mem, dir, leaf, root);
    forall k | k in dir
      ensures k.root == root <==> k == Key(root, 4, 0) || Within(k, root, 3, 1, 256)
    {
      if k.root == root {
        ParentIn(mem, dir, leaf, k);
        if k.level < 4 {
          AncIn(mem, dir, leaf, k, 3);
          ParentIn(mem, dir, leaf, Key(root, 3, Anc(k, 3)));
        }
      }
    }
    forall f
      ensures f in SpaceFrames(dir, root) <==> f in Sub(dir, root, 3, 1, 256) + {root}
    {
      if f in SpaceFrames(dir, root) {
        var k :| k in dir && k.root == root && dir[k] == f;
      }
    }
    if root in Sub(dir, root, 3, 1, 256) {
      var k :| k in dir && Within(k, root, 3, 1, 256) && dir[k] == root;
      SameFrame(mem, dir, leaf, k, Key(root, 4, 0));
    }
  }

  lemma SameFrame(mem: Tables, dir: Dir, leaf: Leaves, k: Key, m: Key)
    requires Tree(mem, dir, leaf) && k in dir && m in dir && dir[k] == dir[m]
    ensures k == m
  {
  }

  function WithoutSpace(dir: Dir, root: nat): Dir {
    map k | k in dir && k.root != root :: dir[k]
  }

  lemma DropSpace(mem: Tables, dir: Dir, leaf: Leaves, root: nat)
    requires Tree(mem, dir, leaf) && forall p :: p in leaf ==> p.0 != root
    ensures Tree(mem, WithoutSpace(dir, root), leaf)
    ensures WithoutSpace(dir, root).Values == dir.Values - SpaceFrames(dir, root)
    ensures SpaceFrames(dir, root) <= dir.Values
  {
    hide KeyOk, OwnSlot, UserVpn, SlotValue, SpaceFrames;
    var rest := WithoutSpace(dir, root);
    forall k | k in rest
      ensures NodeOk(mem, rest, leaf, k)
    {
      assert NodeOk(mem, dir, leaf, k);
      SameSlots(dir, rest, leaf, k);
    }
    forall p | p in leaf
      ensures LeafOk(rest, leaf, p)
    {
      assert LeafOk(dir, leaf, p);
    }
    forall k, m | k in dir && m in dir && dir[k] == dir[m]
      ensures k == m
    {
    }
    FramesLess(dir, root);
  }

  lemma FramesLess(dir: Dir, root: nat)
    requires forall k, m :: k in dir && m in dir && dir[k] == dir[m] ==> k == m
    ensures WithoutSpace(dir, root).Values == dir.Values - SpaceFrames(dir, root)
    ensures SpaceFrames(dir, root) <= dir.Values
  {
    var rest := WithoutSpace(dir, root);
    forall f | f in dir.Values && f !in SpaceFrames(dir, root)
      ensures f in rest.Values
    {
      var k :| k in dir && dir[k] == f;
      assert k in rest;
    }
  }

  lemma SameSlots(dir: Dir, rest: Dir, leaf: Leaves, k: Key)
    requires forall m: Key :: m.root == k.root ==> (m in rest <==> m in dir) && (m in dir ==> rest[m] == dir[m])
    ensures forall j: nat :: SlotValue(rest, leaf, k, j) == SlotValue(dir, leaf, k, j)
  {
  }

  /** A root with an empty user half is a space with nothing mapped. */
  lemma NewSpace(mem: Tables, dir: Dir, leaf: Leaves, root: nat, t: seq<Pte>)
    requires Tree(mem, dir, leaf) && root !in dir.Values
    requires |t| == ENTS && forall j :: 1 <= j < 256 ==> t[j] == Absent
    ensures Tree(mem[root := t], dir[Key(root, 4, 0) := root], leaf)
  {
    hide SlotValue, OwnSlot, KeyOk, UserVpn;
    var top := Key(root, 4, 0);
    var dir2 := dir[top := root];
    OtherFrame(mem, dir, leaf, root, t);
    forall k | k in dir
      ensures k.root != root
    {
      RootIn(mem, dir, leaf, k);
      assert dir[Key(k.root, 4, 0)] in dir.Values;
    }
    forall k | k in dir2
      ensures NodeOk(mem[root := t], dir2, leaf, k)
    {
      if k == top {
        EmptyRoot(mem[root := t], dir2, leaf, root);
      } else {
        assert NodeOk(mem[root := t], dir, leaf, k);
        SameSlots(dir, dir2, leaf, k);
      }
    }
    forall k, m | k in dir2 && m in dir2 && dir2[k] == dir2[m]
      ensures k == m
    {
      assert k != top ==> dir[k] in dir.Values;
      assert m != top ==> dir[m] in dir.Values;
    }
    forall p | p in leaf
      ensures LeafOk(dir2, leaf, p)
    {
      assert LeafOk(dir, leaf, p);
    }
  }

  lemma EmptyRoot(mem: Tables, dir: Dir, leaf: Leaves, root: nat)
    requires Key(root, 4, 0) in dir && dir[Key(root, 4, 0)] == root
    requires forall k :: k in dir && k.root == root ==> k.level == 4
    requires root in mem && |mem[root]| == ENTS && forall j :: 1 <= j < 256 ==> mem[root][j] == Absent
    ensures NodeOk(mem, dir, leaf, Key(root, 4, 0))
  {
  }

  // ---- ranges of pages ----

  predicate InRange(p: (nat, nat), root: nat, vpn: nat, n: nat) {
    p.0 == root && vpn <= p.1 < vpn + n
  }

  /** A user page: readable, and at most one of writable and executable. */
  function Page(frame: nat, write: bool, exec: bool): Pte {
    Present(frame, write, true, !exec, false)
  }

  function AddPages(leaf: Leaves, root: nat, vpn: nat, n: nat, frame: nat, write: bool, exec: bool): (r: Leaves)
    ensures forall p: (nat, nat) :: p in r <==> p in leaf || InRange(p, root, vpn, n)
    ensures forall p: (nat, nat) :: p in r ==>
      r[p] == if InRange(p, root, vpn, n) then Page(frame + (p.1 - vpn), write, exec) else leaf[p]
  {
    if n == 0 then leaf
    else AddPages(leaf, root, vpn, n - 1, frame, write, exec)[(root, vpn + n - 1) := Page(frame + n - 1, write, exec)]
  }

  function RemovePages(leaf: Leaves, root: nat, vpn: nat, n: nat): Leaves {
    map p | p in leaf && !InRange(p, root, vpn, n) :: leaf[p]
  }

  /** Undoing what was added to unmapped pages gives the page table back. */
  lemma RemoveAdded(leaf: Leaves, root: nat, vpn: nat, n: nat, frame: nat, write: bool, exec: bool)
    requires forall p: (nat, nat) :: p in leaf ==> !InRange(p, root, vpn, n)
    ensures RemovePages(AddPages(leaf, root, vpn, n, frame, write, exec), root, vpn, n) == leaf
  {
    hide AddPages;
    var r := RemovePages(AddPages(leaf, root, vpn, n, frame, write, exec), root, vpn, n);
    assert forall p: (nat, nat) :: p in r <==> p in leaf;
  }

  lemma RemoveOne(leaf: Leaves, root: nat, vpn: nat, n: nat)
    ensures RemovePages(leaf, root, vpn, n + 1) == RemovePages(leaf, root, vpn, n) - {(root, vpn + n)}
    ensures (root, vpn + n) !in leaf ==> RemovePages(leaf, root, vpn, n + 1) == RemovePages(leaf, root, vpn, n)
  {
    assert RemovePages(leaf, root, vpn, n + 1) == RemovePages(leaf, root, vpn, n) - {(root, vpn + n)};
  }

  /** The first of n pages that is mapped, or n. */
  function FirstTaken(leaf: Leaves, root: nat, vpn: nat, n: nat): (i: nat)
    ensures i <= n && (i < n ==> (root, vpn + i) in leaf)
    ensures forall p: (nat, nat) :: p in leaf ==> !InRange(p, root, vpn, i)
  {
    if n == 0 then 0
    else
      var i := FirstTaken(leaf, root, vpn, n - 1);
      if i < n - 1 || (root, vpn + n - 1) in leaf then i else n
  }

  lemma FirstTakenIs(leaf: Leaves, root: nat, vpn: nat, n: nat, i: nat)
    requires i <= n && (i < n ==> (root, vpn + i) in leaf)
    requires forall p: (nat, nat) :: p in leaf ==> !InRange(p, root, vpn, i)
    ensures FirstTaken(leaf, root, vpn, n) == i
  {
  }

  /** e has every table of d, and no address space more. */
  ghost predicate Grown(d: Dir, e: Dir) {
    && (forall k :: k in d ==> k in e && e[k] == d[k])
    && (forall k :: k in e && k.level == 4 ==> k in d)
  }

  /** The tables on the way to a page, below the root. */
  function PathOf(root: nat, vpn: nat): set<Key> {
    {Key(root, 3, vpn / ENTS / ENTS / ENTS), Key(root, 2, vpn / ENTS / ENTS), Key(root, 1, vpn / ENTS)}
  }

  /** The tables on the way to n pages. */
  function Ways(root: nat, vpn: nat, n: nat): set<Key> {
    if n == 0 then {} else Ways(root, vpn, n - 1) + PathOf(root, vpn + n - 1)
  }

  lemma {:induction false} WaysWithin(root: nat, vpn: nat, i: nat, n: nat)
    requires i <= n
    ensures Ways(root, vpn, i) <= Ways(root, vpn, n)
    ensures i < n ==> PathOf(root, vpn + i) <= Ways(root, vpn, n)
    decreases n
  {
    hide PathOf;
    if i < n {
      WaysWithin(root, vpn, i, n - 1);
    }
  }

  /** e is d with no tables but some of `ways` more. */
  ghost predicate GrownBy(d: Dir, e: Dir, ways: set<Key>) {
    Grown(d, e) && e.Keys <= d.Keys + ways
  }

  lemma GrownByTrans(d: Dir, e: Dir, f: Dir, v: set<Key>, w: set<Key>)
    requires GrownBy(d, e, v) && GrownBy(e, f, w)
    ensures GrownBy(d, f, v + w)
  {
    GrownTrans(d, e, f);
  }

  lemma GrownByMore(d: Dir, e: Dir, v: set<Key>, w: set<Key>)
    requires GrownBy(d, e, v) && v <= w
    ensures GrownBy(d, e, w)
  {
  }

  lemma GrownBySelf(d: Dir, w: set<Key>)
    ensures GrownBy(d, d, w)
  {
  }

  /** No table is added when all that might be were there. */
  lemma NoneAdded(d: Dir, e: Dir, w: set<Key>)
    requires GrownBy(d, e, w)
    ensures w <= d.Keys ==> e == d
  {
    if w <= d.Keys {
      assert e.Keys == d.Keys;
    }
  }

  lemma GrownSelf(d: Dir)
    ensures Grown(d, d)
  {
  }

  lemma GrownTrans(d: Dir, e: Dir, f: Dir)
    requires Grown(d, e) && Grown(e, f)
    ensures Grown(d, f)
  {
  }
}
