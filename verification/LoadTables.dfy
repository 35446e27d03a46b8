/** The page tables a load makes, and which of them a load that fails leaves behind. */
module LoadTables {
  import opened FrameMemory
  import opened PageTables
  import opened Mappings
  import opened AddressSpaces
  import E = Exb

  const USER_END: nat := 0x8000_0000_0000

  datatype LoadStatus = LoadOk | LoadArg | LoadImage | LoadQuota | LoadNoMem | LoadMap

  /** Why a part could not be mapped: it was refused, one of its pages is mapped already, or frames ran out. */
  datatype Cause = Refused | Taken | Dry

  // ---- the parts of an image: its segments, then the stack ----

  function StackBase(info: E.Info): int {
    USER_END - FRAME - info.stackBytes
  }

  function PartVirt(info: E.Info, i: nat): int {
    if i < |info.segs| then info.segs[i].vaddr else StackBase(info)
  }

  function PartPages(info: E.Info, i: nat): nat {
    if i < |info.segs| then info.segs[i].pages else info.stackBytes / FRAME
  }

  /** Pages of the first n parts. */
  function PagesTo(info: E.Info, n: nat): nat {
    if n == 0 then 0 else PagesTo(info, n - 1) + PartPages(info, n - 1)
  }

  /** The tables on the way to the pages of the first n parts. */
  function PartWays(info: E.Info, root: nat, n: nat): set<Key> {
    if n == 0 then {}
    else PartWays(info, root, n - 1)
         + (if PartVirt(info, n - 1) >= 0 then Ways(root, Vpn(PartVirt(info, n - 1)), PartPages(info, n - 1)) else {})
  }

  /** Pages of part i before the first one that is mapped already. */
  function ClearPages(leaf: Leaves, root: nat, info: E.Info, i: nat): nat {
    if PartVirt(info, i) >= 0 then FirstTaken(leaf, root, Vpn(PartVirt(info, i)), PartPages(info, i)) else 0
  }

  /** The tables on the way to these pages. */
  function ClearWays(leaf: Leaves, root: nat, info: E.Info, i: nat): set<Key> {
    if PartVirt(info, i) >= 0 then Ways(root, Vpn(PartVirt(info, i)), ClearPages(leaf, root, info, i)) else {}
  }

  /** Nothing is mapped where part i goes. */
  predicate PartClear(leaf: Leaves, root: nat, info: E.Info, i: nat) {
    ClearPages(leaf, root, info, i) == PartPages(info, i)
  }

  /** The first of n parts whose place is taken, or n. */
  function ClearParts(leaf: Leaves, root: nat, info: E.Info, n: nat): (m: nat)
    ensures m <= n && (m < n ==> !PartClear(leaf, root, info, m))
    ensures forall j :: 0 <= j < m ==> PartClear(leaf, root, info, j)
  {
    if n == 0 then 0
    else
      var m := ClearParts(leaf, root, info, n - 1);
      if m < n - 1 || !PartClear(leaf, root, info, n - 1) then m else n
  }

  lemma ClearPartsIs(leaf: Leaves, root: nat, info: E.Info, n: nat, m: nat)
    requires m <= n && (m < n ==> !PartClear(leaf, root, info, m))
    requires forall j :: 0 <= j < m ==> PartClear(leaf, root, info, j)
    ensures ClearParts(leaf, root, info, n) == m
  {
    hide PartClear;
  }

  /** The tables of all parts before the first one whose place is taken, and of that one's pages before the taken one. */
  function LoadWays(leaf: Leaves, root: nat, info: E.Info): set<Key> {
    var m := ClearParts(leaf, root, info, |info.segs| + 1);
    if m <= |info.segs| then PartWays(info, root, m) + ClearWays(leaf, root, info, m) else PartWays(info, root, m)
  }

  // ---- one part ----

  /** Why a part that was not mapped was not. */
  function CauseOf(why: XasStatus, rc: XasStatus): Cause {
    if why != XasOk then Refused else if rc == XasBusy then Taken else Dry
  }

  /** e is d with exactly the tables `ways` more. */
  ghost predicate GrownTo(d: Dir, e: Dir, ways: set<Key>) {
    Grown(d, e) && e.Keys == d.Keys + ways
  }

  lemma GrownToTrans(d: Dir, e: Dir, f: Dir, v: set<Key>, w: set<Key>)
    requires GrownTo(d, e, v) && GrownTo(e, f, w)
    ensures GrownTo(d, f, v + w)
  {
    GrownTrans(d, e, f);
  }

  /** e is d with at least the tables v and at most the tables w more. */
  ghost predicate GrownBetween(d: Dir, e: Dir, v: set<Key>, w: set<Key>) {
    Grown(d, e) && v <= e.Keys <= d.Keys + w
  }

  lemma GrownToSame(d: Dir, e: Dir, w: set<Key>)
    requires GrownTo(d, e, w)
    ensures e == d <==> w <= d.Keys
  {
    SameKeys(d, e);
  }

  lemma SameKeys(d: Dir, e: Dir)
    requires Grown(d, e)
    ensures e == d <==> e.Keys == d.Keys
    ensures e == d <==> |e| == |d|
  {
    assert d.Keys <= e.Keys && e.Keys == d.Keys + (e.Keys - d.Keys);
    assert |e.Keys| == |d.Keys| + |e.Keys - d.Keys|;
  }

  /**
   The tables before and after a part was tried, with `free` frames free before and
   `left` after: a part that got its token holds `pages` of them.
   */
  ghost predicate PartTables(d: Dir, e: Dir, leaf: Leaves, root: nat, virt: nat, pages: nat, rc: LoadStatus, cause: Cause,
                             free: nat, left: nat) {
    && |e| + left + (if rc == LoadNoMem then 0 else pages) == |d| + free
    && if rc == LoadOk then GrownTo(d, e, Ways(root, Vpn(virt), pages))
       else if rc == LoadNoMem || cause == Refused then e == d
       else if cause == Taken then
         var i := FirstTaken(leaf, root, Vpn(virt), pages);
         i < pages && GrownTo(d, e, Ways(root, Vpn(virt), i))
       else GrownBetween(d, e, {}, Ways(root, Vpn(virt), pages)) && left == 0
  }

  lemma NoTables(d: Dir, leaf: Leaves, root: nat, virt: nat, pages: nat, rc: LoadStatus, free: nat, left: nat)
    requires rc == LoadNoMem && free == left
    ensures PartTables(d, d, leaf, root, virt, pages, rc, Refused, free, left)
  {
  }

  /** What mapping a part's token answered one CPU, as what it did to the tables. */
  lemma PartDone(d: Dir, e: Dir, leaf: Leaves, root: nat, virt: nat, pages: nat, rc: XasStatus, why: XasStatus,
                 was: seq<bool>, now: seq<bool>, free: nat, left: nat)
    requires |e| + left + pages == |d| + free
    requires why != XasOk ==> rc == why && e == d
    requires why == XasOk ==>
      MapAnswer(rc, leaf, root, virt, pages, was, now, left) && MapTables(rc, d, e, leaf, root, virt, pages)
    ensures PartTables(d, e, leaf, root, virt, pages, if rc == XasOk then LoadOk else LoadMap, CauseOf(why, rc), free, left)
  {
    hide Ways, FirstTaken;
  }

  // ---- all parts ----

  /**
   The tables after the first `mapped` parts were mapped and then one failed or none
   did; `free` frames were free at the beginning.
   */
  ghost predicate TablesAfter(d: Dir, e: Dir, leaf: Leaves, free: nat, info: E.Info, root: nat, rc: LoadStatus, mapped: nat,
                              cause: Cause) {
    && mapped <= |info.segs| + 1 && (rc == LoadOk || mapped <= |info.segs|)
    && if rc != LoadMap || cause == Refused then GrownTo(d, e, PartWays(info, root, mapped))
       else if cause == Taken then
         && !PartClear(leaf, root, info, mapped)
         && GrownTo(d, e, PartWays(info, root, mapped) + ClearWays(leaf, root, info, mapped))
       else
         && GrownBetween(d, e, PartWays(info, root, mapped), PartWays(info, root, mapped + 1))
         && |e| + PagesTo(info, mapped + 1) == |d| + free
  }

  lemma TablesFirst(d: Dir, leaf: Leaves, free: nat, info: E.Info, root: nat)
    ensures TablesAfter(d, d, leaf, free, info, root, LoadOk, 0, Refused) && PagesTo(info, 0) == 0
  {
  }

  lemma PartStep(info: E.Info, root: nat, i: nat)
    requires PartVirt(info, i) >= 0
    ensures PartWays(info, root, i + 1) == PartWays(info, root, i) + Ways(root, Vpn(PartVirt(info, i)), PartPages(info, i))
    ensures PagesTo(info, i + 1) == PagesTo(info, i) + PartPages(info, i)
  {
  }

  lemma TakenPart(leaf: Leaves, now: Leaves, root: nat, info: E.Info, i: nat)
    requires PartVirt(info, i) >= 0 && ClearPages(now, root, info, i) == ClearPages(leaf, root, info, i)
    ensures var n := FirstTaken(now, root, Vpn(PartVirt(info, i)), PartPages(info, i));
      && ClearWays(leaf, root, info, i) == Ways(root, Vpn(PartVirt(info, i)), n)
      && (PartClear(leaf, root, info, i) <==> n == PartPages(info, i))
  {
    hide Ways, FirstTaken;
  }

  lemma TablesNext(d: Dir, e: Dir, f: Dir, leaf: Leaves, now: Leaves, free: nat, spare: nat, left: nat, info: E.Info,
                   root: nat, rc: LoadStatus, i: nat, cause: Cause)
    requires TablesAfter(d, e, leaf, free, info, root, LoadOk, i, Refused) && i <= |info.segs| && PartVirt(info, i) >= 0
    requires |e| + spare + PagesTo(info, i) == |d| + free
    requires PartTables(e, f, now, root, PartVirt(info, i), PartPages(info, i), rc, cause, spare, left)
    requires ClearPages(now, root, info, i) == ClearPages(leaf, root, info, i)
    requires rc == LoadOk || rc == LoadMap || rc == LoadNoMem
    ensures TablesAfter(d, f, leaf, free, info, root, rc, if rc == LoadOk then i + 1 else i, cause)
    ensures rc == LoadOk ==>
      TablesAfter(d, f, leaf, free, info, root, rc, i + 1, Refused) && |f| + left + PagesTo(info, i + 1) == |d| + free
  {
    hide Ways, PartVirt, PartPages, FirstTaken, GrownTo, GrownBetween, PartWays, PagesTo, ClearWays, PartClear, ClearPages;
    PartStep(info, root, i);
    var v, w := PartWays(info, root, i), Ways(root, Vpn(PartVirt(info, i)), PartPages(info, i));
    if rc == LoadOk {
      GrownToTrans(d, e, f, v, w);
    } else if rc == LoadMap && cause == Taken {
      TakenPart(leaf, now, root, info, i);
      GrownToTrans(d, e, f, v, ClearWays(leaf, root, info, i));
    } else if rc == LoadMap && cause == Dry {
      GrownOn(d, e, f, v, w);
    }
  }

  lemma GrownOn(d: Dir, e: Dir, f: Dir, v: set<Key>, w: set<Key>)
    requires GrownTo(d, e, v) && GrownBetween(e, f, {}, w)
    ensures GrownBetween(d, f, v, v + w)
  {
    GrownTrans(d, e, f);
  }

  /**
   Exactly when tables stay.  If frames ran out, all that the tokens left became tables,
   so none stays if the tokens left nothing.
   */
  lemma TablesStay(d: Dir, e: Dir, leaf: Leaves, free: nat, info: E.Info, root: nat, rc: LoadStatus, mapped: nat,
                   cause: Cause)
    requires TablesAfter(d, e, leaf, free, info, root, rc, mapped, cause)
    ensures rc != LoadMap || cause == Refused ==> (e == d <==> PartWays(info, root, mapped) <= d.Keys)
    ensures rc == LoadMap && cause == Taken ==>
      (e == d <==> PartWays(info, root, mapped) + ClearWays(leaf, root, info, mapped) <= d.Keys)
    ensures rc == LoadMap && cause == Dry ==> (e == d <==> free == PagesTo(info, mapped + 1))
  {
    hide PartWays, ClearWays, PartClear, PagesTo, GrownTo;
    if rc != LoadMap || cause == Refused {
      GrownToSame(d, e, PartWays(info, root, mapped));
    } else if cause == Taken {
      GrownToSame(d, e, PartWays(info, root, mapped) + ClearWays(leaf, root, info, mapped));
    } else {
      SameKeys(d, e);
    }
  }

  lemma TablesGrown(d: Dir, e: Dir, leaf: Leaves, free: nat, info: E.Info, root: nat, rc: LoadStatus, mapped: nat,
                    cause: Cause)
    requires TablesAfter(d, e, leaf, free, info, root, rc, mapped, cause)
    ensures Grown(d, e)
    ensures mapped == 0 && (rc == LoadMap ==> cause == Refused) ==> e == d
  {
    hide PartClear, ClearWays, Ways;
    TablesStay(d, e, leaf, free, info, root, rc, mapped, cause);
  }

  /** Of n parts, all were mapped, or those before the first one whose place is taken. */
  ghost predicate Foreseen(leaf: Leaves, root: nat, info: E.Info, n: nat, rc: LoadStatus, mapped: nat, cause: Cause) {
    && mapped == ClearParts(leaf, root, info, n)
    && if mapped < n then rc == LoadMap && cause == Taken else rc == LoadOk
  }

  /** A load with room succeeds exactly if all places are clear, and the tables it makes are known beforehand. */
  ghost predicate AsForeseen(d: Dir, e: Dir, leaf: Leaves, root: nat, info: E.Info, rc: LoadStatus) {
    && rc == (if ClearParts(leaf, root, info, |info.segs| + 1) == |info.segs| + 1 then LoadOk else LoadMap)
    && GrownTo(d, e, LoadWays(leaf, root, info))
  }

  lemma TablesForeseen(d: Dir, e: Dir, leaf: Leaves, free: nat, info: E.Info, root: nat, rc: LoadStatus, mapped: nat,
                       cause: Cause)
    requires TablesAfter(d, e, leaf, free, info, root, rc, mapped, cause)
    requires Foreseen(leaf, root, info, |info.segs| + 1, rc, mapped, cause)
    ensures AsForeseen(d, e, leaf, root, info, rc)
    ensures e == d <==> LoadWays(leaf, root, info) <= d.Keys
  {
    hide PartWays, ClearWays, PartClear, ClearParts, GrownTo;
    GrownToSame(d, e, LoadWays(leaf, root, info));
  }
}
