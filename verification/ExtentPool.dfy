/**
 The shared extent pool: one array of which each file owns a slice, holding its
 extent list.  When no free run is long enough the slices are packed to
 the front, in place.

 `own[s]` says who holds slot s: an inode, the slice reserved by the write in
 progress (SPARE), or nobody (FREE).
 */
module ExtentPool {
  import opened Bytes
  import opened Extents

  const POOL: nat := 16384
  const INODES: nat := 128
  const MIN_CAP: nat := 8
  const FREE: int := -1
  const SPARE: int := INODES

  /** A slice of the pool: `cap` slots from `off`, the first `n` in use. */
  datatype Part = Part(off: nat, cap: nat, n: nat) {
    predicate Has(s: int) { off <= s < off + cap }
    predicate Fits() { off + cap <= POOL && n <= cap }
  }

  const NONE: Part := Part(0, 0, 0)

  ghost predicate Owners(own: seq<int>, parts: seq<Part>, spare: Part) {
    && |own| == POOL && |parts| == INODES && spare.Fits()
    && (forall i :: 0 <= i < INODES ==> parts[i].Fits())
    && (forall s :: 0 <= s < POOL ==> OwnerAt(own[s], parts, spare, s))
  }

  ghost predicate OwnerAt(who: int, parts: seq<Part>, spare: Part, s: int)
    requires |parts| == INODES
  {
    && FREE <= who <= SPARE
    && (forall i :: 0 <= i < INODES ==> (who == i <==> parts[i].Has(s)))
    && (who == SPARE <==> spare.Has(s))
  }

  ghost predicate Lists(slots: seq<Extent>, parts: seq<Part>, lists: seq<seq<Extent>>) {
    && |slots| == POOL && |parts| == |lists| == INODES
    && forall i :: 0 <= i < INODES ==> parts[i].Fits() && slots[parts[i].off..parts[i].off + parts[i].n] == lists[i]
  }

  ghost predicate FreeRun(own: seq<int>, off: nat, cap: nat) {
    off + cap <= |own| && forall s :: off <= s < off + cap ==> own[s] == FREE
  }

  /** Least power of two, at least MIN_CAP, that holds n. */
  method SliceCapFor(n: nat) returns (c: nat)
    ensures c == CapFor(n)
  {
    c := MIN_CAP;
    while c < n
      invariant CapFrom(c, n) == CapFor(n)
      invariant c > 0
    {
      c := 2 * c;
    }
  }

  function CapFrom(c: nat, n: nat): nat
    requires c > 0
    decreases if c < n then n - c else 0
  {
    if c < n then CapFrom(2 * c, n) else c
  }

  function CapFor(n: nat): nat { CapFrom(MIN_CAP, n) }

  lemma {:induction false} CapFromHolds(c: nat, n: nat)
    requires c > 0
    ensures CapFrom(c, n) >= n && CapFrom(c, n) >= c
    ensures CapFrom(c, n) == c || CapFrom(c, n) < 2 * n
    decreases if c < n then n - c else 0
  {
    if c < n {
      CapFromHolds(2 * c, n);
    }
  }

  /** Slots reserved, counting a list of n extents as its rounded capacity. */
  function SumCap(parts: seq<Part>, k: nat): nat
    requires k <= |parts|
  {
    if k == 0 then 0 else SumCap(parts, k - 1) + parts[k - 1].cap
  }

  ghost function Held(own: seq<int>, k: int): (h: set<int>) {
    set s | 0 <= s < |own| && 0 <= own[s] < k
  }

  ghost function Span(off: nat, cap: nat): (r: set<int>)
    ensures forall s :: s in r <==> off <= s < off + cap
    ensures |r| == cap
  {
    if cap == 0 then {} else Span(off, cap - 1) + {off + cap - 1}
  }

  lemma {:induction false} HeldSize(own: seq<int>, parts: seq<Part>, spare: Part, k: nat)
    requires Owners(own, parts, spare) && k <= INODES
    ensures |Held(own, k)| == SumCap(parts, k)
  {
    if k == 0 {
      assert Held(own, 0) == {};
    } else {
      HeldSize(own, parts, spare, k - 1);
      var p := parts[k - 1];
      assert p.Fits();
      assert Held(own, k) == Held(own, k - 1) + Span(p.off, p.cap);
      assert Held(own, k - 1) !! Span(p.off, p.cap);
    }
  }

  /** A free run fits beside everything reserved. */
  lemma FreeRunFits(own: seq<int>, parts: seq<Part>, off: nat, cap: nat)
    requires Owners(own, parts, NONE) && off + cap <= POOL
    requires FreeRun(own, off, cap)
    ensures SumCap(parts, INODES) + cap <= POOL
  {
    HeldSize(own, parts, NONE, INODES);
    var held, run, all := Held(own, INODES), Span(off, cap), Span(0, POOL);
    assert held !! run && held + run <= all;
    Subset(held + run, all);
  }

  lemma Subset(a: set<int>, b: set<int>)
    requires a <= b
    ensures |a| <= |b|
  {
    var c := b - a;
    assert b == a + c;
  }

  ghost predicate Sorted(parts: seq<Part>, order: seq<nat>)
    requires |parts| == INODES
  {
    && (forall k :: 0 <= k < |order| ==> order[k] < INODES && parts[order[k]].cap > 0)
    && (forall k, l :: 0 <= k < l < |order| ==> order[k] != order[l] && parts[order[k]].off <= parts[order[l]].off)
  }

  lemma SortedInsert(parts: seq<Part>, order: seq<nat>, b: nat, x: nat)
    requires |parts| == INODES && Sorted(parts, order) && b <= |order|
    requires x < INODES && parts[x].cap > 0 && x !in order
    requires forall k :: b <= k < |order| ==> parts[order[k]].off > parts[x].off
    requires b > 0 ==> parts[order[b - 1]].off <= parts[x].off
    ensures Sorted(parts, order[..b] + [x] + order[b..])
  {
    var out := order[..b] + [x] + order[b..];
    forall k | 0 <= k < |out|
      ensures out[k] == if k < b then order[k] else if k == b then x else order[k - 1]
    {
    }
    forall k, l | 0 <= k < l < |out|
      ensures out[k] != out[l] && parts[out[k]].off <= parts[out[l]].off
    {
      var k2, l2 := if k < b then k else k - 1, if l < b then l else l - 1;
      if k == b {
        assert order[l2] in order;
      } else if l == b {
        assert order[k2] in order && (k2 < b - 1 ==> parts[order[k2]].off <= parts[order[b - 1]].off);
      }
    }
  }

  function Fill(own: seq<int>, off: nat, cap: nat, v: int): (r: seq<int>)
    ensures |r| == |own|
    ensures forall s :: 0 <= s < |own| ==> r[s] == if off <= s < off + cap then v else own[s]
  {
    seq(|own|, s requires 0 <= s < |own| => if off <= s < off + cap then v else own[s])
  }

  /** A free run may be handed to an inode that holds nothing. */
  lemma OwnersAdd(own: seq<int>, parts: seq<Part>, spare: Part, x: nat, p: Part)
    requires Owners(own, parts, spare) && x < INODES && parts[x].cap == 0
    requires p.Fits() && FreeRun(own, p.off, p.cap)
    ensures Owners(Fill(own, p.off, p.cap, x), parts[x := p], spare)
  {
    forall s | 0 <= s < POOL
      ensures OwnerAt(Fill(own, p.off, p.cap, x)[s], parts[x := p], spare, s)
    {
      assert OwnerAt(own[s], parts, spare, s);
    }
  }

  ghost predicate SameCaps(parts: seq<Part>, old_: seq<Part>) {
    |parts| == |old_| && forall i :: 0 <= i < |parts| ==> parts[i].cap == old_[i].cap && parts[i].n == old_[i].n
  }

  lemma SameCapsMove(parts: seq<Part>, old_: seq<Part>, x: nat, off: nat)
    requires SameCaps(parts, old_) && x < |parts|
    ensures SameCaps(parts[x := parts[x].(off := off)], old_)
  {
  }

  lemma {:induction false} SameSum(parts: seq<Part>, old_: seq<Part>, k: nat)
    requires SameCaps(parts, old_) && k <= |parts|
    ensures SumCap(parts, k) == SumCap(old_, k)
  {
    if k > 0 {
      SameSum(parts, old_, k - 1);
    }
  }

  lemma ListsShape(slots: seq<Extent>, parts: seq<Part>, lists: seq<seq<Extent>>)
    requires Lists(slots, parts, lists)
    ensures |parts| == |lists| == INODES
    ensures forall i :: 0 <= i < INODES ==> parts[i].Fits() && |lists[i]| == parts[i].n
  {
  }

  /** The extents of p stay clear of n slots from `at`. */
  ghost predicate Clear(p: Part, at: nat, n: nat) {
    p.n == 0 || p.off + p.n <= at || at + n <= p.off
  }

  /** Slices order[..a] sit below the cursor; the others follow it in order, apart from each other. */
  ghost predicate Apart(parts: seq<Part>, order: seq<nat>, a: nat, cursor: nat)
    requires |parts| == INODES
  {
    && (forall k :: 0 <= k < |order| ==> order[k] < INODES)
    && (forall k, l :: 0 <= k < l < |order| ==> order[k] != order[l])
    && (forall i :: 0 <= i < INODES && i !in order ==> parts[i].cap == 0)
    && (forall i :: 0 <= i < INODES ==> parts[i].Fits())
    && (forall k :: 0 <= k < |order| && k < a ==> parts[order[k]].off + parts[order[k]].cap <= cursor)
    && (forall k :: 0 <= k < |order| && a <= k ==> cursor <= parts[order[k]].off)
    && (forall k, l :: 0 <= k < l < |order| && a <= k ==> parts[order[k]].off + parts[order[k]].cap <= parts[order[l]].off)
  }

  /** Exactly the first a slices are recorded as placed, and they fill the slots below the cursor. */
  ghost predicate Packed(own: seq<int>, parts: seq<Part>, placed: seq<Part>, order: seq<nat>, a: nat, cursor: nat)
    requires |parts| == |placed| == INODES && |own| == POOL
  {
    && Owners(own, placed, NONE) && cursor <= POOL
    && (forall s :: 0 <= s < POOL ==> (own[s] == FREE <==> cursor <= s))
    && (forall i :: 0 <= i < INODES ==> if i in order[..Least(a, |order|)] then placed[i] == parts[i] else placed[i] == NONE)
  }

  lemma StartPacking(own: seq<int>, parts: seq<Part>, order: seq<nat>)
    requires Owners(own, parts, NONE) && Sorted(parts, order)
    requires forall i :: 0 <= i < INODES && parts[i].cap > 0 ==> i in order
    ensures Apart(parts, order, 0, 0)
    ensures Packed(seq(POOL, s => FREE), parts, seq(INODES, i => NONE), order, 0, 0)
    ensures SameCaps(parts, parts)
  {
    forall k, l | 0 <= k < l < |order|
      ensures parts[order[k]].off + parts[order[k]].cap <= parts[order[l]].off
    {
      var p, q := parts[order[k]], parts[order[l]];
      assert OwnerAt(own[q.off], parts, NONE, q.off);
    }
  }

  /** The next slice may move to the cursor without running over another. */
  lemma NextIsClear(parts: seq<Part>, order: seq<nat>, a: nat, cursor: nat)
    requires |parts| == INODES && a < |order| && Apart(parts, order, a, cursor)
    ensures order[a] < INODES && cursor + parts[order[a]].cap <= POOL && cursor <= parts[order[a]].off
    ensures parts[order[a]].Fits()
    ensures forall i :: 0 <= i < INODES && i != order[a] ==> Clear(parts[i], cursor, parts[order[a]].n)
  {
    forall i | 0 <= i < INODES && i != order[a]
      ensures Clear(parts[i], cursor, parts[order[a]].n)
    {
      if i in order {
        var k :| 0 <= k < |order| && order[k] == i;
        assert k < a || a < k;
      }
    }
  }

  lemma ApartStep(parts: seq<Part>, order: seq<nat>, a: nat, cursor: nat)
    requires |parts| == INODES && a < |order| && Apart(parts, order, a, cursor)
    requires order[a] < INODES && cursor <= parts[order[a]].off
    ensures var p := parts[order[a]].(off := cursor);
            Apart(parts[order[a] := p], order, a + 1, cursor + p.cap)
  {
    var x, p := order[a], parts[order[a]].(off := cursor);
    var next := parts[x := p];
    assert forall k :: 0 <= k < |order| && k != a ==> next[order[k]] == parts[order[k]];
  }

  lemma PackedStep(own: seq<int>, parts: seq<Part>, placed: seq<Part>, order: seq<nat>, a: nat, cursor: nat)
    requires |parts| == |placed| == INODES && |own| == POOL && a < |order|
    requires Apart(parts, order, a, cursor) && Packed(own, parts, placed, order, a, cursor)
    requires order[a] < INODES && cursor + parts[order[a]].cap <= POOL && parts[order[a]].Fits()
    ensures var x, p := order[a], parts[order[a]].(off := cursor);
            Packed(Fill(own, cursor, p.cap, x), parts[x := p], placed[x := p], order, a + 1, cursor + p.cap)
  {
    hide Owners;
    var x, p := order[a], parts[order[a]].(off := cursor);
    assert order[..a + 1] == order[..a] + [x];
    assert x !in order[..a];
    OwnersAdd(own, placed, NONE, x, p);
  }

  lemma PackDone(own: seq<int>, parts: seq<Part>, placed: seq<Part>, order: seq<nat>, cursor: nat)
    requires |parts| == |placed| == INODES && |own| == POOL
    requires Apart(parts, order, |order|, cursor) && Packed(own, parts, placed, order, |order|, cursor)
    ensures Owners(own, parts, NONE)
    ensures SumCap(parts, INODES) <= POOL && FreeRun(own, SumCap(parts, INODES), POOL - SumCap(parts, INODES))
  {
    assert order[..|order|] == order;
    assert Owners(own, parts, NONE) by {
      assert forall i :: 0 <= i < INODES && i !in order ==> parts[i].cap == 0 && placed[i] == NONE;
    }
    HeldSize(own, parts, NONE, INODES);
    assert Held(own, INODES) == Span(0, cursor);
  }

  lemma SameCapsSelf(parts: seq<Part>)
    ensures SameCaps(parts, parts)
  {
  }

  lemma CapForHolds(n: nat)
    ensures CapFor(n) >= n && CapFor(n) >= MIN_CAP
  {
    CapFromHolds(MIN_CAP, n);
  }

  lemma OwnersSpare(own: seq<int>, parts: seq<Part>, p: Part)
    requires Owners(own, parts, NONE) && p.Fits() && FreeRun(own, p.off, p.cap)
    ensures Owners(Fill(own, p.off, p.cap, SPARE), parts, p)
  {
    forall s | 0 <= s < POOL
      ensures OwnerAt(Fill(own, p.off, p.cap, SPARE)[s], parts, p, s)
    {
      assert OwnerAt(own[s], parts, NONE, s);
    }
  }

  lemma OwnersRemove(own: seq<int>, parts: seq<Part>, spare: Part, i: nat)
    requires Owners(own, parts, spare) && i < INODES
    ensures Owners(Fill(own, parts[i].off, parts[i].cap, FREE), parts[i := NONE], spare)
  {
    forall s | 0 <= s < POOL
      ensures OwnerAt(Fill(own, parts[i].off, parts[i].cap, FREE)[s], parts[i := NONE], spare, s)
    {
      assert OwnerAt(own[s], parts, spare, s);
    }
  }

  lemma OwnersDrop(own: seq<int>, parts: seq<Part>, spare: Part)
    requires Owners(own, parts, spare)
    ensures Owners(Fill(own, spare.off, spare.cap, FREE), parts, NONE)
  {
    forall s | 0 <= s < POOL
      ensures OwnerAt(Fill(own, spare.off, spare.cap, FREE)[s], parts, NONE, s)
    {
      assert OwnerAt(own[s], parts, spare, s);
    }
  }

  lemma OwnersAttach(own: seq<int>, parts: seq<Part>, spare: Part, i: nat, n: nat)
    requires Owners(own, parts, spare) && i < INODES && parts[i].cap == 0 && n <= spare.cap
    ensures Owners(Fill(own, spare.off, spare.cap, i), parts[i := Part(spare.off, spare.cap, n)], NONE)
  {
    forall s | 0 <= s < POOL
      ensures OwnerAt(Fill(own, spare.off, spare.cap, i)[s], parts[i := Part(spare.off, spare.cap, n)], NONE, s)
    {
      assert OwnerAt(own[s], parts, spare, s);
    }
  }

  lemma SpareClear(own: seq<int>, parts: seq<Part>, spare: Part)
    requires Owners(own, parts, spare)
    ensures spare.Fits() && |parts| == INODES && |own| == POOL
    ensures forall s :: 0 <= s < POOL && spare.Has(s) ==> own[s] == SPARE
    ensures spare.cap > 0 ==> forall i :: 0 <= i < INODES ==> Clear(parts[i], spare.off, spare.cap)
  {
    forall i | 0 <= i < INODES
      ensures spare.cap > 0 ==> Clear(parts[i], spare.off, spare.cap)
    {
      var p := parts[i];
      assert p.Fits();
      if p.n > 0 && spare.cap > 0 {
        var s := if p.off < spare.off then spare.off else p.off;
        if s < POOL {
          assert OwnerAt(own[s], parts, spare, s);
        }
      }
    }
  }

  lemma ListsMove(before: seq<Extent>, after: seq<Extent>, parts: seq<Part>, lists: seq<seq<Extent>>, x: nat, to: nat)
    requires Lists(before, parts, lists) && |after| == POOL && x < INODES && to <= parts[x].off
    requires after[to..to + parts[x].n] == before[parts[x].off..parts[x].off + parts[x].n]
    requires forall i :: 0 <= i < INODES && i != x ==> Clear(parts[i], to, parts[x].n)
    requires forall s :: 0 <= s < POOL && !(to <= s < to + parts[x].n) ==> after[s] == before[s]
    ensures Lists(after, parts[x := parts[x].(off := to)], lists)
  {
    forall j | 0 <= j < INODES && j != x
      ensures after[parts[j].off..parts[j].off + parts[j].n] == lists[j]
    {
      assert Clear(parts[j], to, parts[x].n);
      assert before[parts[j].off..parts[j].off + parts[j].n] == lists[j];
    }
  }

  lemma ListsAdd(before: seq<Extent>, after: seq<Extent>, parts: seq<Part>, lists: seq<seq<Extent>>,
                 i: nat, p: Part, list: seq<Extent>)
    requires Lists(before, parts, lists) && |after| == POOL && i < INODES
    requires p.Fits() && p.n == |list| && after[p.off..p.off + p.n] == list
    requires p.n > 0 ==> forall j :: 0 <= j < INODES ==> Clear(parts[j], p.off, p.cap)
    requires forall s :: 0 <= s < POOL && !(p.off <= s < p.off + p.n) ==> after[s] == before[s]
    ensures Lists(after, parts[i := p], lists[i := list])
  {
    forall j | 0 <= j < INODES && j != i
      ensures after[parts[j].off..parts[j].off + parts[j].n] == lists[j]
    {
      assert p.n > 0 ==> Clear(parts[j], p.off, p.cap);
      assert before[parts[j].off..parts[j].off + parts[j].n] == lists[j];
    }
  }

  class Pool {
    const slots: array<Extent>
    const inUse: array<bool>
    var parts: seq<Part>        // the slice of each inode
    ghost var lists: seq<seq<Extent>>
    ghost var own: seq<int>
    var spare: Part             // reserved by the write in progress, not yet attached

    ghost predicate Valid()
      reads this, slots, inUse
    {
      && slots.Length == POOL && inUse.Length == POOL
      && Owners(own, parts, spare)
      && Lists(slots[..], parts, lists)
      && forall s :: 0 <= s < POOL ==> (inUse[s] <==> own[s] != FREE)
    }

    constructor ()
      ensures Valid() && fresh(slots) && fresh(inUse)
      ensures lists == seq(INODES, i => []) && parts == seq(INODES, i => NONE) && spare == NONE
    {
      slots := new Extent[POOL](i => Extent(0, 0));
      inUse := new bool[POOL](i => false);
      parts := seq(INODES, i => NONE);
      lists := seq(INODES, i => []);
      own := seq(POOL, i => FREE);
      spare := NONE;
    }

    /** The lowest free run of cap slots. */
    method Find(cap: nat) returns (found: bool, off: nat)
      requires Valid() && cap > 0
      ensures found ==> off + cap <= POOL && FreeRun(own, off, cap)
      ensures found ==> forall o: nat :: o < off ==> !FreeRun(own, o, cap)
      ensures !found ==> forall o: nat :: o + cap <= POOL ==> !FreeRun(own, o, cap)
    {
      var run, i := 0, 0;
      found, off := false, 0;
      while i < POOL
        invariant run <= i <= POOL && run < cap
        invariant FreeRun(own, i - run, run)
        invariant run < i ==> own[i - run - 1] != FREE
        invariant forall o: nat :: o + cap <= i ==> !FreeRun(own, o, cap)
      {
        ghost var before := i;
        if inUse[i] {
          run := 0;
        } else {
          run := run + 1;
          if run == cap {
            off, found := i + 1 - cap, true;
            return;
          }
        }
        i := i + 1;
        forall o: nat | o + cap <= i
          ensures !FreeRun(own, o, cap)
        {
          if o + cap == i {
            assert own[i - run - 1] != FREE;
          }
        }
      }
    }

    /** Empties the pool. */
    method Reset()
      requires slots.Length == POOL && inUse.Length == POOL
      modifies this, inUse
      ensures Valid() && lists == seq(INODES, i => []) && parts == seq(INODES, i => NONE) && spare == NONE
    {
      ClearFlags();
      parts, lists := seq(INODES, i => NONE), seq(INODES, i => []);
      own, spare := seq(POOL, i => FREE), NONE;
    }

    /** The extents in the slice of inode i. */
    method List(i: nat) returns (list: seq<Extent>)
      requires Valid() && i < INODES
      ensures list == lists[i]
    {
      list := slots[parts[i].off..parts[i].off + parts[i].n];
      assert list == slots[..][parts[i].off..parts[i].off + parts[i].n];
    }

    /** pool_mark: sets or clears the in-use flags of a slice. */
    method Mark(off: nat, cap: nat, on: bool)
      requires inUse.Length == POOL && off + cap <= POOL
      modifies inUse
      ensures forall s :: 0 <= s < POOL ==> inUse[s] == if off <= s < off + cap then on else old(inUse[s])
    {
      var i := 0;
      while i < cap
        invariant i <= cap
        invariant forall s :: 0 <= s < POOL ==> inUse[s] == if off <= s < off + i then on else old(inUse[s])
      {
        inUse[off + i] := on;
        i := i + 1;
      }
    }

    /** The inodes that hold a slice, by ascending offset (insertion sort). */
    method Order() returns (order: seq<nat>)
      requires |parts| == INODES
      ensures Sorted(parts, order)
      ensures forall i :: 0 <= i < INODES && parts[i].cap > 0 ==> i in order
    {
      var all: seq<nat> := [];
      var i := 0;
      while i < INODES
        invariant i <= INODES
        invariant forall k :: 0 <= k < |all| ==> all[k] < i && parts[all[k]].cap > 0
        invariant forall k, l :: 0 <= k < l < |all| ==> all[k] != all[l]
        invariant forall j :: 0 <= j < i && parts[j].cap > 0 ==> j in all
      {
        if parts[i].cap > 0 {
          all := all + [i];
        }
        i := i + 1;
      }
      order := [];
      var a := 0;
      while a < |all|
        invariant a <= |all| && Sorted(parts, order)
        invariant forall j :: j in order <==> j in all[..a]
      {
        order := Insert(order, all[a]);
        a := a + 1;
      }
      assert all[..a] == all;
    }

    /** Places x behind every slice that starts no later. */
    method Insert(order: seq<nat>, x: nat) returns (out: seq<nat>)
      requires |parts| == INODES && Sorted(parts, order)
      requires x < INODES && parts[x].cap > 0 && x !in order
      ensures Sorted(parts, out)
      ensures forall j :: j in out <==> j in order || j == x
    {
      var b := |order|;
      while b > 0 && parts[order[b - 1]].off > parts[x].off
        invariant 0 <= b <= |order|
        invariant forall k :: b <= k < |order| ==> parts[order[k]].off > parts[x].off
      {
        b := b - 1;
      }
      out := order[..b] + [x] + order[b..];
      SortedInsert(parts, order, b, x);
      assert order == order[..b] + order[b..];
    }

    /** Copies a slice down to `to`; a forward copy, so it may overlap itself. */
    method CopyDown(from: nat, to: nat, n: nat)
      requires slots.Length == POOL && to <= from && from + n <= POOL
      modifies slots
      ensures slots[to..to + n] == old(slots[from..from + n])
      ensures forall s :: 0 <= s < POOL && !(to <= s < to + n) ==> slots[s] == old(slots[s])
    {
      var k := 0;
      while k < n
        invariant k <= n
        invariant forall s :: to <= s < to + k ==> slots[s] == old(slots[s + (from - to)])
        invariant forall s :: 0 <= s < POOL && !(to <= s < to + k) ==> slots[s] == old(slots[s])
      {
        slots[to + k] := slots[from + k];
        k := k + 1;
      }
    }

    method ClearFlags()
      requires inUse.Length == POOL
      modifies inUse
      ensures forall s :: 0 <= s < POOL ==> !inUse[s]
    {
      var i := 0;
      while i < POOL
        invariant i <= POOL
        invariant forall s :: 0 <= s < i ==> !inUse[s]
      {
        inUse[i] := false;
        i := i + 1;
      }
    }

    /** Moves one slice down to `cursor`, past no other slice. */
    method Place(x: nat, cursor: nat)
      requires slots.Length == POOL && Lists(slots[..], parts, lists)
      requires x < INODES && cursor <= parts[x].off
      requires forall i :: 0 <= i < INODES && i != x ==> Clear(parts[i], cursor, parts[x].n)
      modifies this`parts, slots
      ensures parts == old(parts)[x := old(parts)[x].(off := cursor)]
      ensures Lists(slots[..], parts, lists)
    {
      hide Lists;
      ListsShape(slots[..], parts, lists);
      var p := parts[x];
      assert parts[x := p] == parts;
      if p.off != cursor {
        CopyDown(p.off, cursor, p.n);
        parts := parts[x := p.(off := cursor)];
        ListsMove(old(slots[..]), slots[..], old(parts), lists, x, cursor);
      }
    }

    /**
     Moves the slices down until no gap is left between them; their order stays.
     Every list survives, and what is free is one run at the end.
     */
    method Compact()
      requires Valid() && spare == NONE
      modifies this`parts, this`own, slots, inUse
      ensures Valid() && SameCaps(parts, old(parts))
      ensures SumCap(parts, INODES) <= POOL && FreeRun(own, SumCap(parts, INODES), POOL - SumCap(parts, INODES))
    {
      hide Owners, Lists, Sorted, SumCap, Held, Apart, Packed, SameCaps;
      ListsShape(slots[..], parts, lists);
      var order := Order();
      ClearFlags();
      StartPacking(own, parts, order);
      ghost var placed := seq(INODES, i => NONE);
      own := seq(POOL, s => FREE);
      var cursor: nat, a: nat := 0, 0;
      while a < |order|
        invariant a <= |order| && |placed| == |parts| == INODES && |own| == POOL
        invariant Lists(slots[..], parts, lists) && SameCaps(parts, old(parts))
        invariant Apart(parts, order, a, cursor) && Packed(own, parts, placed, order, a, cursor)
        invariant forall s :: 0 <= s < POOL ==> (inUse[s] <==> own[s] != FREE)
      {
        var x := order[a];
        var p := parts[x];
        NextIsClear(parts, order, a, cursor);
        ApartStep(parts, order, a, cursor);
        PackedStep(own, parts, placed, order, a, cursor);
        assert SameCaps(parts[x := p.(off := cursor)], old(parts)) by { SameCapsMove(parts, old(parts), x, cursor); }
        Place(x, cursor);
        Mark(cursor, p.cap, true);
        placed, own := placed[x := parts[x]], Fill(own, cursor, p.cap, x);
        cursor := cursor + p.cap;
        a := a + 1;
      }
      PackDone(own, parts, placed, order, cursor);
    }

    /**
     Reserves a slice for n extents, compacting once if the pool is fragmented.
     It fails exactly when the rounded capacity exceeds the unreserved slots.
     */
    method Reserve(n: nat) returns (ok: bool)
      requires Valid() && spare == NONE
      modifies this`parts, this`own, this`spare, slots, inUse
      ensures Valid() && SameCaps(parts, old(parts))
      ensures ok <==> n == 0 || SumCap(old(parts), INODES) + CapFor(n) <= POOL
      ensures ok ==> spare.n == 0 && spare.cap == if n == 0 then 0 else CapFor(n)
      ensures !ok ==> spare == NONE
    {
      hide Owners, Lists, SumCap, CapFor, SameCaps;
      assert SameCaps(parts, parts) by { SameCapsSelf(parts); }
      ok := true;
      if n == 0 {
        return;
      }
      CapForHolds(n);
      var cap := SliceCapFor(n);
      var found, off := Find(cap);
      if !found {
        Compact();
        ListsShape(slots[..], parts, lists);
        SameSum(parts, old(parts), INODES);
        assert SumCap(parts, INODES) + cap <= POOL ==> FreeRun(own, SumCap(parts, INODES), cap);
        found, off := Find(cap);
        if !found {
          ok := false;
          return;
        }
      }
      ListsShape(slots[..], parts, lists);
      assert SumCap(parts, INODES) + cap <= POOL by { FreeRunFits(own, parts, off, cap); }
      SameSum(parts, old(parts), INODES);
      OwnersSpare(own, parts, Part(off, cap, 0));
      Mark(off, cap, true);
      own, spare := Fill(own, off, cap, SPARE), Part(off, cap, 0);
    }

    /** Frees the slice reserved by a write that failed. */
    method Drop()
      requires Valid()
      modifies this`own, this`spare, inUse
      ensures Valid() && spare == NONE
    {
      hide Lists;
      OwnersDrop(own, parts, spare);
      Mark(spare.off, spare.cap, false);
      own, spare := Fill(own, spare.off, spare.cap, FREE), NONE;
    }

    /** Frees the slice of inode i; its list becomes empty. */
    method Release(i: nat)
      requires Valid() && i < INODES
      modifies this`own, this`parts, this`lists, inUse
      ensures Valid() && lists == old(lists)[i := []] && parts == old(parts)[i := NONE]
    {
      var p := parts[i];
      OwnersRemove(own, parts, spare, i);
      Mark(p.off, p.cap, false);
      own, parts, lists := Fill(own, p.off, p.cap, FREE), parts[i := NONE], lists[i := []];
    }

    /** Fills the reserved slice with `list` and gives it to inode i, which holds none. */
    method Attach(i: nat, list: seq<Extent>)
      requires Valid() && i < INODES && parts[i].cap == 0 && |list| <= spare.cap
      modifies this`own, this`parts, this`lists, this`spare, slots
      ensures Valid() && spare == NONE && lists == old(lists)[i := list]
      ensures parts == old(parts)[i := Part(old(spare).off, old(spare).cap, |list|)]
    {
      hide Owners;
      SpareClear(own, parts, spare);
      ListsShape(slots[..], parts, lists);
      CopyIn(spare.off, list);
      var p := Part(spare.off, spare.cap, |list|);
      ListsAdd(old(slots[..]), slots[..], parts, lists, i, p, list);
      OwnersAttach(own, parts, spare, i, |list|);
      own, parts, lists, spare := Fill(own, spare.off, spare.cap, i), parts[i := p], lists[i := list], NONE;
    }

    method CopyIn(off: nat, list: seq<Extent>)
      requires slots.Length == POOL && off + |list| <= POOL
      modifies slots
      ensures slots[off..off + |list|] == list
      ensures forall s :: 0 <= s < POOL && !(off <= s < off + |list|) ==> slots[s] == old(slots[s])
    {
      var k := 0;
      while k < |list|
        invariant k <= |list|
        invariant slots[off..off + k] == list[..k]
        invariant forall s :: 0 <= s < POOL && !(off <= s < off + k) ==> slots[s] == old(slots[s])
      {
        slots[off + k] := list[k];
        k := k + 1;
      }
    }
  }
}
