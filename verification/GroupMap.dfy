/**
 The EXFS group map: the free-block bitmap, kept on disk in two slots per group
 and cached in RAM behind a small write-back cache.

 `pages[g]` is the bitmap of group g as the operations see it.  Coherence says
 where its newest copy lives: in the cache if cached, else in the slot written
 since the last commit, or in the committed one if none was.  `faulted` records that this was lost: a dirty entry was evicted although
 its write failed, or the imported tables did not describe the disk.  Coherence
 is claimed while it is false.
 */
module GroupMap {
  import opened Bytes
  import opened BlockDevice
  import opened Intervals

  const DATA_START: nat := 18
  const BITS: nat := 32768      // bits in one 4 KiB page
  const CACHE: nat := 8
  const MAX_GROUPS: nat := 512
  const GROUP_MIN: nat := 64

  datatype Status = Ok | IoError | NoSpace | AlreadyFree

  /** g * gb, by addition. */
  function Start(gb: nat, g: nat): nat {
    if g == 0 then 0 else Start(gb, g - 1) + gb
  }

  /** b / gb, by subtraction. */
  function Group(gb: nat, b: nat): nat
    requires gb > 0
  {
    if b < gb then 0 else 1 + Group(gb, b - gb)
  }

  lemma {:induction false} StartIsProduct(gb: nat, g: nat)
    ensures Start(gb, g) == g * gb
  {
    if g > 0 {
      StartIsProduct(gb, g - 1);
    }
  }

  lemma {:induction false} StartShift(gb: nat, g: nat)
    ensures Start(gb, g + 1) == Start(gb, g) + gb
  {
  }

  lemma {:induction false} StartMono(gb: nat, g: nat, h: nat)
    requires g < h
    ensures Start(gb, g) + gb <= Start(gb, h)
    decreases h
  {
    if g < h - 1 {
      StartMono(gb, g, h - 1);
    }
  }

  lemma {:induction false} GroupBounds(gb: nat, b: nat)
    requires gb > 0
    ensures Start(gb, Group(gb, b)) <= b < Start(gb, Group(gb, b)) + gb
  {
    if b >= gb {
      GroupBounds(gb, b - gb);
      StartShift(gb, Group(gb, b - gb));
    }
  }

  lemma Locate(gb: nat, g: nat, i: nat)
    requires i < gb
    ensures Group(gb, Start(gb, g) + i) == g
  {
    var b := Start(gb, g) + i;
    GroupBounds(gb, b);
    var q := Group(gb, b);
    if q < g {
      StartMono(gb, q, g);
    } else if g < q {
      StartMono(gb, g, q);
    }
  }

  /** `total` blocks cut into `groups` groups of `gb` blocks; the last may be short. */
  datatype Geometry = Geometry(total: nat, gb: nat, groups: nat) {
    ghost predicate WellFormed() {
      && GROUP_MIN <= gb <= BITS
      && 0 < groups <= MAX_GROUPS
      && Start(gb, groups - 1) < total <= Start(gb, groups)
    }

    /** Where slot s of group g lies: at the start of the group, which for group 0 is past superblocks and tables. */
    function SlotBlock(g: nat, s: nat): nat {
      (if g == 0 then DATA_START else Start(gb, g)) + s
    }

    function ValidBits(g: nat): (n: nat)
      ensures n <= gb
    {
      var lo := Start(gb, g);
      if total <= lo then 0 else if total - lo < gb then total - lo else gb
    }
  }

  lemma GroupOf(geo: Geometry, b: nat)
    requires geo.WellFormed() && b < geo.total
    ensures Group(geo.gb, b) < geo.groups
    ensures Start(geo.gb, Group(geo.gb, b)) <= b < Start(geo.gb, Group(geo.gb, b)) + geo.ValidBits(Group(geo.gb, b))
  {
    GroupBounds(geo.gb, b);
    var q := Group(geo.gb, b);
    if q >= geo.groups {
      StartMono(geo.gb, geo.groups - 1, q);
    }
  }

  lemma GroupStarts(geo: Geometry, g: nat)
    requires geo.WellFormed() && g < geo.groups
    ensures Start(geo.gb, g) < geo.total
    ensures geo.ValidBits(g) > 0 && Start(geo.gb, g) + geo.ValidBits(g) <= geo.total
    ensures geo.ValidBits(g) < geo.gb ==> Start(geo.gb, g) + geo.ValidBits(g) == geo.total
  {
    if g < geo.groups - 1 {
      StartMono(geo.gb, g, geo.groups - 1);
    }
  }

  lemma SlotsDistinct(geo: Geometry, g: nat, s: nat, h: nat, t: nat)
    requires geo.WellFormed() && s < 2 && t < 2
    requires geo.SlotBlock(g, s) == geo.SlotBlock(h, t)
    ensures g == h && s == t
  {
    if g < h {
      StartMono(geo.gb, g, h);
    } else if h < g {
      StartMono(geo.gb, h, g);
    }
  }

  datatype Entry = Entry(valid: bool, g: nat, dirty: bool, stamp: nat, bits: seq<bool>)

  const EMPTY: Entry := Entry(false, 0, false, 0, [])

  /** Zero bits among the first n. */
  function CountFree(bits: seq<bool>, n: nat): (c: nat)
    requires n <= |bits|
    ensures c <= n
  {
    if n == 0 then 0 else CountFree(bits, n - 1) + (if bits[n - 1] then 0 else 1)
  }

  lemma {:induction false} CountFreeUpdate(bits: seq<bool>, n: nat, i: nat, v: bool)
    requires n <= |bits| && i < |bits| && bits[i] != v
    ensures CountFree(bits[i := v], n) ==
            CountFree(bits, n) + (if i >= n then 0 else if v then -1 else 1)
  {
    if n > 0 {
      CountFreeUpdate(bits, n - 1, i, v);
    }
  }

  lemma {:induction false} CountFreeZero(bits: seq<bool>, n: nat)
    requires n <= |bits|
    ensures CountFree(bits, n) == 0 <==> forall i :: 0 <= i < n ==> bits[i]
  {
    if n > 0 {
      CountFreeZero(bits, n - 1);
    }
  }

  function SetRange(bits: seq<bool>, i: nat, j: nat, v: bool): (r: seq<bool>)
    requires i <= j <= |bits|
    ensures |r| == |bits|
    ensures forall k :: 0 <= k < |bits| ==> r[k] == if i <= k < j then v else bits[k]
  {
    bits[..i] + seq(j - i, k => v) + bits[j..]
  }

  lemma {:induction false} CountFreeRun(bits: seq<bool>, n: nat, i: nat, j: nat)
    requires i <= j <= n <= |bits|
    requires forall k :: i <= k < j ==> !bits[k]
    ensures CountFree(SetRange(bits, i, j, true), n) == CountFree(bits, n) - (j - i)
    decreases j
  {
    if i == j {
      assert SetRange(bits, i, j, true) == bits;
    } else {
      CountFreeRun(bits, n, i, j - 1);
      var mid := SetRange(bits, i, j - 1, true);
      assert SetRange(bits, i, j, true) == mid[j - 1 := true];
      CountFreeUpdate(mid, n, j - 1, true);
    }
  }

  ghost predicate EntriesOk(cache: seq<Entry>, groups: nat) {
    && |cache| == CACHE
    && (forall i :: 0 <= i < CACHE && cache[i].valid ==> cache[i].g < groups && |cache[i].bits| == BITS)
    && (forall i, j :: 0 <= i < j < CACHE && cache[i].valid && cache[j].valid ==> cache[i].g != cache[j].g)
  }

  /** No cached copy of g is newer than the disk. */
  ghost predicate Clean(cache: seq<Entry>, g: nat) {
    forall i :: 0 <= i < |cache| && cache[i].valid && cache[i].g == g ==> !cache[i].dirty
  }

  function Src(slot: seq<nat>, written: seq<bool>, g: nat): nat
    requires g < |slot| == |written| && slot[g] < 2
  {
    if written[g] then 1 - slot[g] else slot[g]
  }

  ghost predicate Holds(d: Disk, b: nat, bits: seq<bool>) {
    b < |d| && Unpack(d[b]) == bits
  }

  ghost predicate SlotsOk(slot: seq<nat>, groups: nat) {
    |slot| == groups && forall g :: 0 <= g < groups ==> slot[g] < 2
  }

  ghost predicate PagesOk(pages: seq<seq<bool>>, groups: nat) {
    |pages| == groups && forall g :: 0 <= g < groups ==> |pages[g]| == BITS
  }

  ghost function PendingBlocks(geo: Geometry, slot: seq<nat>): set<nat>
    requires SlotsOk(slot, geo.groups)
  {
    set g | 0 <= g < geo.groups :: geo.SlotBlock(g, 1 - slot[g])
  }

  ghost predicate Used(geo: Geometry, pages: seq<seq<bool>>, b: nat)
    requires geo.WellFormed() && PagesOk(pages, geo.groups)
  {
    && b < geo.total
    && var g := Group(geo.gb, b);
       g < geo.groups && 0 <= b - Start(geo.gb, g) < geo.gb && pages[g][b - Start(geo.gb, g)]
  }

  ghost function UsedBlocks(geo: Geometry, pages: seq<seq<bool>>): set<nat>
    requires geo.WellFormed() && PagesOk(pages, geo.groups)
  {
    set b | 0 <= b < geo.total && Used(geo, pages, b)
  }

  lemma UsedInside(geo: Geometry, pages: seq<seq<bool>>)
    requires geo.WellFormed() && PagesOk(pages, geo.groups)
    ensures UsedBlocks(geo, pages) <= Run(0, geo.total)
  {
  }

  /** Setting bits [i, j) of one group takes exactly that run of blocks. */
  lemma SetRangeTakes(geo: Geometry, pages: seq<seq<bool>>, g: nat, i: nat, j: nat)
    requires geo.WellFormed() && PagesOk(pages, geo.groups) && g < geo.groups
    requires i <= j <= geo.ValidBits(g)
    requires forall k :: i <= k < j ==> !pages[g][k]
    ensures Start(geo.gb, g) + j <= geo.total
    ensures Run(Start(geo.gb, g) + i, j - i) !! UsedBlocks(geo, pages)
    ensures PagesOk(pages[g := SetRange(pages[g], i, j, true)], geo.groups)
    ensures UsedBlocks(geo, pages[g := SetRange(pages[g], i, j, true)])
         == UsedBlocks(geo, pages) + Run(Start(geo.gb, g) + i, j - i)
  {
    GroupStarts(geo, g);
    var after := pages[g := SetRange(pages[g], i, j, true)];
    forall b | 0 <= b < geo.total
      ensures Used(geo, after, b) <==> Used(geo, pages, b) || b in Run(Start(geo.gb, g) + i, j - i)
      ensures b in Run(Start(geo.gb, g) + i, j - i) ==> !Used(geo, pages, b)
    {
      GroupOf(geo, b);
      if b in Run(Start(geo.gb, g) + i, j - i) {
        Locate(geo.gb, g, b - Start(geo.gb, g));
      }
    }
  }

  /** Clearing one bit frees exactly that block. */
  lemma ClearBitFrees(geo: Geometry, pages: seq<seq<bool>>, b: nat)
    requires geo.WellFormed() && PagesOk(pages, geo.groups) && b < geo.total
    ensures Group(geo.gb, b) < geo.groups && 0 <= b - Start(geo.gb, Group(geo.gb, b)) < geo.ValidBits(Group(geo.gb, b))
    ensures var g := Group(geo.gb, b);
            var after := pages[g := pages[g][b - Start(geo.gb, g) := false]];
            PagesOk(after, geo.groups) && UsedBlocks(geo, after) == UsedBlocks(geo, pages) - {b}
  {
    GroupOf(geo, b);
    var g := Group(geo.gb, b);
    var after := pages[g := pages[g][b - Start(geo.gb, g) := false]];
    forall c | 0 <= c < geo.total
      ensures Used(geo, after, c) <==> Used(geo, pages, c) && c != b
    {
      GroupOf(geo, c);
    }
  }

  /** The disk holds the current bits of group g where the map would look for them. */
  ghost predicate OnDisk(geo: Geometry, d: Disk, slot: seq<nat>, written: seq<bool>, pages: seq<seq<bool>>, g: nat)
    requires SlotsOk(slot, geo.groups) && |written| == |pages| == geo.groups && g < geo.groups
  {
    Holds(d, geo.SlotBlock(g, Src(slot, written, g)), pages[g])
  }

  ghost predicate Coherent(geo: Geometry, d: Disk, slot: seq<nat>, written: seq<bool>,
                           cache: seq<Entry>, pages: seq<seq<bool>>)
    requires SlotsOk(slot, geo.groups) && |written| == geo.groups
    requires EntriesOk(cache, geo.groups) && PagesOk(pages, geo.groups)
  {
    && (forall i :: 0 <= i < CACHE && cache[i].valid ==> cache[i].bits == pages[cache[i].g])
    && (forall g :: 0 <= g < geo.groups && Clean(cache, g) ==> OnDisk(geo, d, slot, written, pages, g))
  }

  /** Forgetting a cached entry keeps the map exactly when the disk holds its bits, as it does if the entry is clean. */
  lemma DropKeeps(geo: Geometry, d: Disk, slot: seq<nat>, written: seq<bool>, cache: seq<Entry>,
                  pages: seq<seq<bool>>, i: nat)
    requires SlotsOk(slot, geo.groups) && |written| == geo.groups
    requires EntriesOk(cache, geo.groups) && PagesOk(pages, geo.groups)
    requires Coherent(geo, d, slot, written, cache, pages) && i < CACHE && cache[i].valid
    ensures EntriesOk(cache[i := cache[i].(valid := false)], geo.groups)
    ensures Coherent(geo, d, slot, written, cache[i := cache[i].(valid := false)], pages) <==>
      OnDisk(geo, d, slot, written, pages, cache[i].g)
    ensures !cache[i].dirty ==> OnDisk(geo, d, slot, written, pages, cache[i].g)
  {
    hide Holds;
    var g, less := cache[i].g, cache[i := cache[i].(valid := false)];
    assert Clean(less, g);
    if !cache[i].dirty {
      assert Clean(cache, g);
    }
    forall h | 0 <= h < geo.groups && h != g
      ensures Clean(less, h) <==> Clean(cache, h)
    {
      assert forall j :: 0 <= j < CACHE && j != i ==> less[j] == cache[j];
    }
  }

  lemma ForgetKeeps(geo: Geometry, d: Disk, slot: seq<nat>, written: seq<bool>, cache: seq<Entry>,
                    pages: seq<seq<bool>>, i: nat)
    requires SlotsOk(slot, geo.groups) && |written| == geo.groups
    requires EntriesOk(cache, geo.groups) && PagesOk(pages, geo.groups)
    requires Coherent(geo, d, slot, written, cache, pages) && i < CACHE && (cache[i].valid ==> !cache[i].dirty)
    ensures EntriesOk(cache[i := cache[i].(valid := false)], geo.groups)
    ensures Coherent(geo, d, slot, written, cache[i := cache[i].(valid := false)], pages)
  {
    hide Coherent, OnDisk;
    if cache[i].valid {
      DropKeeps(geo, d, slot, written, cache, pages, i);
    } else {
      assert cache[i := cache[i].(valid := false)] == cache;
    }
  }

  ghost predicate Counted(geo: Geometry, free: seq<nat>, pages: seq<seq<bool>>)
    requires geo.WellFormed() && PagesOk(pages, geo.groups) && |free| == geo.groups
  {
    forall g :: 0 <= g < geo.groups ==>
      free[g] == CountFree(pages[g], geo.ValidBits(g))
  }

  lemma FormattedMap(geo: Geometry, d: Disk, slot: seq<nat>, written: seq<bool>, cache: seq<Entry>,
                     pages: seq<seq<bool>>, free: seq<nat>)
    requires geo.WellFormed() && SlotsOk(slot, geo.groups) && |written| == |free| == geo.groups
    requires EntriesOk(cache, geo.groups) && PagesOk(pages, geo.groups)
    requires slot == seq(geo.groups, g => 0) && written == seq(geo.groups, g => false)
    requires forall i :: 0 <= i < CACHE ==> !cache[i].valid
    requires forall h :: 0 <= h < geo.groups ==> free[h] == CountFree(pages[h], geo.ValidBits(h))
    requires forall h :: 0 <= h < geo.groups ==> Holds(d, geo.SlotBlock(h, 0), pages[h])
    ensures Coherent(geo, d, slot, written, cache, pages) && Counted(geo, free, pages)
  {
    hide Holds, CountFree;
  }

  /** A write to the pending slot of a group that is dirty in the cache changes nothing seen. */
  lemma PendingWriteKeeps(geo: Geometry, d: Disk, slot: seq<nat>, written: seq<bool>,
                          cache: seq<Entry>, pages: seq<seq<bool>>, i: nat, p: Page)
    requires geo.WellFormed() && SlotsOk(slot, geo.groups) && |written| == geo.groups
    requires EntriesOk(cache, geo.groups) && PagesOk(pages, geo.groups)
    requires Coherent(geo, d, slot, written, cache, pages)
    requires i < CACHE && cache[i].valid && cache[i].dirty
    requires geo.SlotBlock(cache[i].g, 1 - slot[cache[i].g]) < |d|
    ensures Coherent(geo, d[geo.SlotBlock(cache[i].g, 1 - slot[cache[i].g]) := p], slot, written, cache, pages)
  {
    var b := geo.SlotBlock(cache[i].g, 1 - slot[cache[i].g]);
    forall g | 0 <= g < geo.groups && Clean(cache, g)
      ensures geo.SlotBlock(g, Src(slot, written, g)) != b
    {
      if geo.SlotBlock(g, Src(slot, written, g)) == b {
        SlotsDistinct(geo, g, Src(slot, written, g), cache[i].g, 1 - slot[cache[i].g]);
      }
    }
  }

  /** Once the pending slot holds the cached bits, the entry may be marked clean. */
  lemma FlushedKeeps(geo: Geometry, d: Disk, slot: seq<nat>, written: seq<bool>,
                     cache: seq<Entry>, pages: seq<seq<bool>>, i: nat)
    requires geo.WellFormed() && SlotsOk(slot, geo.groups) && |written| == geo.groups
    requires EntriesOk(cache, geo.groups) && PagesOk(pages, geo.groups)
    requires Coherent(geo, d, slot, written, cache, pages)
    requires i < CACHE && cache[i].valid && cache[i].dirty
    requires Holds(d, geo.SlotBlock(cache[i].g, 1 - slot[cache[i].g]), cache[i].bits)
    ensures Coherent(geo, d, slot, written[cache[i].g := true], cache[i := cache[i].(dirty := false)], pages)
  {
    var w, c := written[cache[i].g := true], cache[i := cache[i].(dirty := false)];
    forall g | 0 <= g < geo.groups && Clean(c, g)
      ensures Holds(d, geo.SlotBlock(g, Src(slot, w, g)), pages[g])
    {
      if g != cache[i].g {
        assert forall j :: 0 <= j < CACHE && cache[j].valid && cache[j].g == g ==> c[j] == cache[j];
        assert Clean(cache, g);
      }
    }
  }

  /** Replacing a clean entry by the disk's copy of an uncached group changes nothing seen. */
  lemma FilledKeeps(geo: Geometry, d: Disk, slot: seq<nat>, written: seq<bool>,
                    cache: seq<Entry>, pages: seq<seq<bool>>, v: nat, e: Entry)
    requires geo.WellFormed() && SlotsOk(slot, geo.groups) && |written| == geo.groups
    requires EntriesOk(cache, geo.groups) && PagesOk(pages, geo.groups)
    requires Coherent(geo, d, slot, written, cache, pages)
    requires v < CACHE && (cache[v].valid ==> !cache[v].dirty)
    requires e.valid && !e.dirty && e.g < geo.groups && |e.bits| == BITS
    requires forall j :: 0 <= j < CACHE && cache[j].valid ==> cache[j].g != e.g
    requires Holds(d, geo.SlotBlock(e.g, Src(slot, written, e.g)), e.bits)
    ensures EntriesOk(cache[v := e], geo.groups)
    ensures Coherent(geo, d, slot, written, cache[v := e], pages)
  {
    assert Clean(cache, e.g);
    var c := cache[v := e];
    forall g | 0 <= g < geo.groups && Clean(c, g)
      ensures Clean(cache, g)
    {
      assert forall j :: 0 <= j < CACHE && j != v ==> c[j] == cache[j];
    }
  }

  lemma StampKeeps(geo: Geometry, d: Disk, slot: seq<nat>, written: seq<bool>,
                   cache: seq<Entry>, pages: seq<seq<bool>>, i: nat, stamp: nat)
    requires geo.WellFormed() && SlotsOk(slot, geo.groups) && |written| == geo.groups
    requires EntriesOk(cache, geo.groups) && PagesOk(pages, geo.groups)
    requires Coherent(geo, d, slot, written, cache, pages)
    requires i < CACHE
    ensures Coherent(geo, d, slot, written, cache[i := cache[i].(stamp := stamp)], pages)
  {
    var c := cache[i := cache[i].(stamp := stamp)];
    forall g | 0 <= g < geo.groups && Clean(c, g)
      ensures Clean(cache, g)
    {
      assert forall j :: 0 <= j < CACHE ==> c[j] == cache[j].(stamp := c[j].stamp);
    }
  }

  lemma StoredKeeps(geo: Geometry, d: Disk, slot: seq<nat>, written: seq<bool>,
                    cache: seq<Entry>, pages: seq<seq<bool>>, i: nat, bits: seq<bool>)
    requires geo.WellFormed() && SlotsOk(slot, geo.groups) && |written| == geo.groups
    requires EntriesOk(cache, geo.groups) && PagesOk(pages, geo.groups)
    requires Coherent(geo, d, slot, written, cache, pages)
    requires i < CACHE && cache[i].valid && |bits| == BITS
    ensures Coherent(geo, d, slot, written, cache[i := cache[i].(bits := bits, dirty := true)],
                     pages[cache[i].g := bits])
  {
    var c := cache[i := cache[i].(bits := bits, dirty := true)];
    forall g | 0 <= g < geo.groups && Clean(c, g)
      ensures Clean(cache, g) && g != cache[i].g
    {
      assert c[i].dirty && c[i].g == cache[i].g;
      assert forall j :: 0 <= j < CACHE && j != i ==> c[j] == cache[j];
    }
  }

  /** The first block of a group. */
  predicate Edge(geo: Geometry, b: nat) {
    geo.gb > 0 && b == Start(geo.gb, Group(geo.gb, b))
  }

  /** `len` free blocks from `start`, a maximal run within its group unless `need` stopped it, became used. */
  ghost predicate Took(geo: Geometry, before: seq<seq<bool>>, after: seq<seq<bool>>, start: nat, len: nat, need: nat)
    requires geo.WellFormed() && PagesOk(before, geo.groups) && PagesOk(after, geo.groups)
  {
    && len <= need && (len > 0 ==> start + len <= geo.total)
    && Run(start, len) !! UsedBlocks(geo, before)
    && UsedBlocks(geo, after) == UsedBlocks(geo, before) + Run(start, len)
    && (0 < len < need ==>
         || start + len in UsedBlocks(geo, before)
         || start + len == geo.total
         || Edge(geo, start + len))
  }

  lemma TakesRun(geo: Geometry, pages: seq<seq<bool>>, free: seq<nat>, g: nat, i: nat, j: nat, need: nat)
    requires geo.WellFormed() && PagesOk(pages, geo.groups) && g < geo.groups == |free|
    requires i <= j <= BITS && j - i <= need
    requires i < j ==> j <= geo.ValidBits(g)
    requires forall k :: i <= k < j ==> !pages[g][k]
    requires i < j && j - i < need && j < geo.ValidBits(g) ==> pages[g][j]
    ensures PagesOk(pages[g := SetRange(pages[g], i, j, true)], geo.groups)
    ensures Took(geo, pages, pages[g := SetRange(pages[g], i, j, true)], Start(geo.gb, g) + i, j - i, need)
    ensures CountFree(SetRange(pages[g], i, j, true), geo.ValidBits(g)) == CountFree(pages[g], geo.ValidBits(g)) - (j - i)
  {
    hide CountFree, Used, UsedBlocks, Run, Start, Group;
    var valid, start := geo.ValidBits(g), Start(geo.gb, g) + i;
    if i == j {
      assert SetRange(pages[g], i, j, true) == pages[g];
      assert pages[g := pages[g]] == pages;
      assert Run(start, 0) == {};
      return;
    }
    CountFreeRun(pages[g], valid, i, j);
    SetRangeTakes(geo, pages, g, i, j);
    GroupStarts(geo, g);
    Locate(geo.gb, g, i);
    if j < geo.gb {
      Locate(geo.gb, g, j);
      if j < valid && j - i < need {
        BitIsUsed(geo, pages, g, j);
      }
    } else {
      StartShift(geo.gb, g);
      Locate(geo.gb, g + 1, 0);
    }
  }

  lemma BitIsUsed(geo: Geometry, pages: seq<seq<bool>>, g: nat, k: nat)
    requires geo.WellFormed() && PagesOk(pages, geo.groups) && g < geo.groups && k < geo.ValidBits(g)
    ensures Start(geo.gb, g) + k in UsedBlocks(geo, pages) <==> pages[g][k]
  {
    GroupStarts(geo, g);
    Locate(geo.gb, g, k);
  }

  /** Bit i is the first clear one at or after `from`. */
  predicate FirstBit(bits: seq<bool>, from: nat, i: nat, valid: nat) {
    from <= i < valid <= |bits| && !bits[i] && forall j :: from <= j < i ==> bits[j]
  }

  // ---- the order of a search ----

  /** When block b's turn comes in a search that begins at `from` and starts over at block 0. */
  function Turn(geo: Geometry, from: nat, b: nat): nat {
    if b >= from then b - from else b + geo.total
  }

  /** Every block whose turn comes before `start`'s is in use. */
  ghost predicate FirstInTurn(geo: Geometry, pages: seq<seq<bool>>, from: nat, start: nat)
    requires geo.WellFormed() && PagesOk(pages, geo.groups)
  {
    forall b :: 0 <= b < geo.total && Turn(geo, from, b) < Turn(geo, from, start) ==> b in UsedBlocks(geo, pages)
  }

  /** Block b was looked at in the first k steps of a search: group by group, the first one from `from` on. */
  ghost predicate Passed(geo: Geometry, g0: nat, from: nat, k: nat, b: nat)
    requires geo.gb > 0
  {
    var h := Group(geo.gb, b);
    if h == g0 then k > geo.groups || (k > 0 && b >= from) else if h > g0 then h - g0 < k else h + geo.groups - g0 < k
  }

  ghost predicate AllPassed(geo: Geometry, pages: seq<seq<bool>>, g0: nat, from: nat, k: nat)
    requires geo.WellFormed() && PagesOk(pages, geo.groups)
  {
    forall b :: 0 <= b < geo.total && Passed(geo, g0, from, k, b) ==> b in UsedBlocks(geo, pages)
  }

  /** The group searched in step k. */
  function GroupAt(geo: Geometry, g0: nat, k: nat): int {
    if g0 + k < geo.groups then g0 + k else g0 + k - geo.groups
  }

  lemma GroupOrder(gb: nat, b: nat, c: nat)
    requires gb > 0 && Group(gb, b) < Group(gb, c)
    ensures b < c
  {
    GroupBounds(gb, b);
    GroupBounds(gb, c);
    StartMono(gb, Group(gb, b), Group(gb, c));
  }

  /** A group whose bits from `low` to its end are all set. */
  lemma GroupPassed(geo: Geometry, pages: seq<seq<bool>>, g: nat, low: nat)
    requires geo.WellFormed() && PagesOk(pages, geo.groups) && g < geo.groups
    requires forall i :: low <= i < geo.ValidBits(g) ==> pages[g][i]
    ensures forall b :: Start(geo.gb, g) + low <= b < geo.total && Group(geo.gb, b) == g ==> b in UsedBlocks(geo, pages)
  {
    hide Group, Start;
    forall b | Start(geo.gb, g) + low <= b < geo.total && Group(geo.gb, b) == g
      ensures b in UsedBlocks(geo, pages)
    {
      GroupOf(geo, b);
    }
  }

  lemma NonePassed(geo: Geometry, pages: seq<seq<bool>>, g0: nat, from: nat)
    requires geo.WellFormed() && PagesOk(pages, geo.groups) && g0 < geo.groups
    ensures AllPassed(geo, pages, g0, from, 0)
  {
  }

  lemma StepPassed(geo: Geometry, pages: seq<seq<bool>>, g0: nat, off: nat, k: nat)
    requires geo.WellFormed() && PagesOk(pages, geo.groups) && g0 < geo.groups && k <= geo.groups
    requires AllPassed(geo, pages, g0, Start(geo.gb, g0) + off, k)
    requires var g := GroupAt(geo, g0, k);
      forall i :: (if k == 0 then off else 0) <= i < geo.ValidBits(g) ==> pages[g][i]
    ensures AllPassed(geo, pages, g0, Start(geo.gb, g0) + off, k + 1)
  {
    hide Group, Start, UsedBlocks;
    var g := GroupAt(geo, g0, k);
    GroupPassed(geo, pages, g, if k == 0 then off else 0);
    forall b | 0 <= b < geo.total && Passed(geo, g0, Start(geo.gb, g0) + off, k + 1, b)
      ensures b in UsedBlocks(geo, pages)
    {
      GroupOf(geo, b);
      if Group(geo.gb, b) == g && k > 0 {
        GroupBounds(geo.gb, b);
      } else if Group(geo.gb, b) != g {
        assert Passed(geo, g0, Start(geo.gb, g0) + off, k, b);
      }
    }
  }

  lemma NoneLeft(geo: Geometry, pages: seq<seq<bool>>, g0: nat, from: nat)
    requires geo.WellFormed() && PagesOk(pages, geo.groups) && g0 < geo.groups
    requires AllPassed(geo, pages, g0, from, geo.groups + 1)
    ensures UsedBlocks(geo, pages) == Run(0, geo.total)
  {
    hide Group, Start;
    forall b | 0 <= b < geo.total
      ensures b in UsedBlocks(geo, pages)
    {
      GroupOf(geo, b);
      assert Passed(geo, g0, from, geo.groups + 1, b);
    }
  }

  /** So the first free block found is the first in turn. */
  lemma FoundFirst(geo: Geometry, pages: seq<seq<bool>>, g0: nat, off: nat, k: nat, i: nat)
    requires geo.WellFormed() && PagesOk(pages, geo.groups) && g0 < geo.groups && k <= geo.groups && off < geo.gb
    requires AllPassed(geo, pages, g0, Start(geo.gb, g0) + off, k)
    requires var g := GroupAt(geo, g0, k); var low := if k == 0 then off else 0;
      FirstBit(pages[g], low, i, geo.ValidBits(g))
    ensures FirstInTurn(geo, pages, Start(geo.gb, g0) + off, Start(geo.gb, GroupAt(geo, g0, k)) + i)
  {
    hide Group, Start, UsedBlocks;
    var g, from := GroupAt(geo, g0, k), Start(geo.gb, g0) + off;
    var start := Start(geo.gb, g) + i;
    GroupStarts(geo, g);
    Locate(geo.gb, g, i);
    Locate(geo.gb, g0, off);
    BitIsUsed(geo, pages, g, i);
    forall b | 0 <= b < geo.total && Turn(geo, from, b) < Turn(geo, from, start)
      ensures b in UsedBlocks(geo, pages)
    {
      GroupOf(geo, b);
      var h := Group(geo.gb, b);
      if h == g && b < start && (k > 0 || b >= from) {
        BitIsUsed(geo, pages, g, b - Start(geo.gb, g));
      } else {
        if h < g { GroupOrder(geo.gb, b, start); }
        if g < h { GroupOrder(geo.gb, start, b); }
        if h < g0 { GroupOrder(geo.gb, b, from); }
        if g0 < h { GroupOrder(geo.gb, from, b); }
        if g < g0 { GroupOrder(geo.gb, start, from); }
        if g0 < g { GroupOrder(geo.gb, from, start); }
        assert Passed(geo, g0, from, k, b);
      }
    }
  }

  /** Scans for the first clear bit; stops at `valid`, or at once when started past it. */
  method FirstFree(bits: seq<bool>, from: nat, valid: nat) returns (i: nat)
    requires valid <= |bits|
    ensures from <= i
    ensures from <= valid ==> i <= valid
    ensures from > valid ==> i == from
    ensures forall k :: from <= k < i ==> bits[k]
    ensures i < valid ==> !bits[i]
  {
    i := from;
    while i < valid && bits[i]
      invariant from <= i
      invariant i <= valid || i == from
      invariant forall k :: from <= k < i ==> bits[k]
    {
      i := i + 1;
    }
  }

  /** End of the clear run at i, at most `need` long. */
  method RunEnd(bits: seq<bool>, i: nat, valid: nat, need: nat) returns (j: nat)
    requires valid <= |bits| && need > 0
    ensures i <= j && j - i <= need
    ensures i >= valid ==> j == i
    ensures i < valid ==> j <= valid
    ensures i < valid && !bits[i] ==> i < j
    ensures forall k :: i <= k < j ==> !bits[k]
    ensures i < valid && j - i < need && j < valid ==> bits[j]
  {
    j := i;
    while j < valid && j - i < need && !bits[j]
      invariant i <= j && j - i <= need
      invariant j <= valid || j == i
      invariant forall k :: i <= k < j ==> !bits[k]
    {
      j := j + 1;
    }
  }

  /** The bitmaps in the given slots on disk. */
  ghost function DiskPages(geo: Geometry, d: Disk, slots: seq<nat>): (pages: seq<seq<bool>>)
    requires SlotsOk(slots, geo.groups)
    ensures PagesOk(pages, geo.groups)
  {
    seq(geo.groups, g requires 0 <= g < geo.groups =>
      if geo.SlotBlock(g, slots[g]) < |d| then Unpack(d[geo.SlotBlock(g, slots[g])]) else seq(BITS, i => false))
  }

  /** The slots lie on the device and the counts are those of the bitmaps they hold. */
  ghost predicate TablesFit(geo: Geometry, d: Disk, slots: seq<nat>, counts: seq<nat>)
    requires geo.WellFormed() && SlotsOk(slots, geo.groups) && |counts| == geo.groups
  {
    && (forall g :: 0 <= g < geo.groups ==> geo.SlotBlock(g, slots[g]) < |d|)
    && Counted(geo, counts, DiskPages(geo, d, slots))
  }

  /**
   Round trip: once nothing cached is dirty, the slots a superblock would record
   hold exactly the current bitmap, so importing them reproduces it.
   */
  lemma ExportReproduces(geo: Geometry, d: Disk, slot: seq<nat>, written: seq<bool>, free: seq<nat>,
                         cache: seq<Entry>, pages: seq<seq<bool>>, slots: seq<nat>)
    requires geo.WellFormed() && SlotsOk(slot, geo.groups) && |written| == geo.groups == |free|
    requires EntriesOk(cache, geo.groups) && PagesOk(pages, geo.groups)
    requires Coherent(geo, d, slot, written, cache, pages) && Counted(geo, free, pages)
    requires forall i :: 0 <= i < CACHE && cache[i].valid ==> !cache[i].dirty
    requires SlotsOk(slots, geo.groups) && forall g :: 0 <= g < geo.groups ==> slots[g] == Src(slot, written, g)
    ensures DiskPages(geo, d, slots) == pages && TablesFit(geo, d, slots, free)
  {
    forall g | 0 <= g < geo.groups
      ensures Holds(d, geo.SlotBlock(g, slots[g]), pages[g])
    {
      assert Clean(cache, g);
    }
    assert DiskPages(geo, d, slots) == pages;
  }

  function Sum(free: seq<nat>, n: nat): nat
    requires n <= |free|
  {
    if n == 0 then 0 else Sum(free, n - 1) + free[n - 1]
  }

  ghost function UsedBelow(bits: seq<bool>, base: nat, n: nat): (u: set<nat>)
    requires n <= |bits|
    ensures forall b :: b in u <==> base <= b < base + n && bits[b - base]
  {
    if n == 0 then {} else UsedBelow(bits, base, n - 1) + if bits[n - 1] then {base + n - 1} else {}
  }

  lemma {:induction false} UsedBelowSize(bits: seq<bool>, base: nat, n: nat)
    requires n <= |bits|
    ensures |UsedBelow(bits, base, n)| + CountFree(bits, n) == n
  {
    if n > 0 {
      UsedBelowSize(bits, base, n - 1);
    }
  }

  /** Used blocks of the first n groups. */
  ghost function UsedIn(geo: Geometry, pages: seq<seq<bool>>, n: nat): set<nat>
    requires geo.WellFormed() && PagesOk(pages, geo.groups) && n <= geo.groups
  {
    if n == 0 then {} else UsedIn(geo, pages, n - 1) + UsedBelow(pages[n - 1], Start(geo.gb, n - 1), geo.ValidBits(n - 1))
  }

  lemma {:induction false} UsedInMembers(geo: Geometry, pages: seq<seq<bool>>, n: nat)
    requires geo.WellFormed() && PagesOk(pages, geo.groups) && n <= geo.groups
    ensures forall b: nat :: b in UsedIn(geo, pages, n) <==> b < Start(geo.gb, n) && Used(geo, pages, b)
  {
    hide Used, Group;
    if n > 0 {
      UsedInMembers(geo, pages, n - 1);
      GroupBitsUsed(geo, pages, n - 1);
    }
  }

  lemma {:induction false} UsedInSize(geo: Geometry, free: seq<nat>, pages: seq<seq<bool>>, n: nat)
    requires geo.WellFormed() && PagesOk(pages, geo.groups) && |free| == geo.groups && n <= geo.groups
    requires Counted(geo, free, pages)
    ensures |UsedIn(geo, pages, n)| + Sum(free, n) == Least(geo.total, Start(geo.gb, n))
  {
    hide Used, Group, CountFree, UsedBelow;
    if n > 0 {
      var g := n - 1;
      var here := UsedBelow(pages[g], Start(geo.gb, g), geo.ValidBits(g));
      UsedInSize(geo, free, pages, g);
      UsedBelowSize(pages[g], Start(geo.gb, g), geo.ValidBits(g));
      GroupStarts(geo, g);
      assert UsedIn(geo, pages, g) !! here by { UsedInMembers(geo, pages, g); }
      assert |UsedIn(geo, pages, n)| == |UsedIn(geo, pages, g)| + |here|;
    }
  }

  lemma GroupBitsUsed(geo: Geometry, pages: seq<seq<bool>>, g: nat)
    requires geo.WellFormed() && PagesOk(pages, geo.groups) && g < geo.groups
    ensures forall b: nat :: b in UsedBelow(pages[g], Start(geo.gb, g), geo.ValidBits(g)) <==>
      Start(geo.gb, g) <= b < Start(geo.gb, g) + geo.gb && Used(geo, pages, b)
  {
    GroupStarts(geo, g);
    forall b | Start(geo.gb, g) <= b < Start(geo.gb, g) + geo.gb
      ensures b in UsedBelow(pages[g], Start(geo.gb, g), geo.ValidBits(g)) <==> Used(geo, pages, b)
    {
      Locate(geo.gb, g, b - Start(geo.gb, g));
    }
  }

  /** The per-group counts add up to the blocks that are not in use. */
  lemma FreeTotalIsRest(geo: Geometry, free: seq<nat>, pages: seq<seq<bool>>)
    requires geo.WellFormed() && PagesOk(pages, geo.groups) && |free| == geo.groups
    requires Counted(geo, free, pages)
    ensures Sum(free, geo.groups) == geo.total - |UsedBlocks(geo, pages)|
  {
    UsedInSize(geo, free, pages, geo.groups);
    UsedInMembers(geo, pages, geo.groups);
    assert UsedIn(geo, pages, geo.groups) == UsedBlocks(geo, pages);
  }

  /** The bitmap of a fresh group: reserved blocks taken, bits past the volume taken. */
  function FreshBits(geo: Geometry, g: nat): (bits: seq<bool>)
    requires geo.gb <= BITS
    ensures |bits| == BITS
  {
    var reserved := if g == 0 then DATA_START + 2 else 2;
    seq(BITS, i => i < reserved || geo.ValidBits(g) <= i < geo.gb)
  }

  ghost function FreshPages(geo: Geometry): (pages: seq<seq<bool>>)
    requires geo.gb <= BITS
    ensures PagesOk(pages, geo.groups)
  {
    seq(geo.groups, g requires 0 <= g < geo.groups => FreshBits(geo, g))
  }

  ghost function FirstSlots(geo: Geometry): set<nat> {
    set g | 0 <= g < geo.groups :: geo.SlotBlock(g, 0)
  }

  /** The blocks no file may own: superblocks, inode tables, and both slots of every group. */
  ghost function AllSlots(geo: Geometry): (s: set<nat>)
  {
    FirstSlots(geo) + (set g | 0 <= g < geo.groups :: geo.SlotBlock(g, 1))
  }

  ghost function Reserved(geo: Geometry): set<nat> {
    set b | b in Run(0, DATA_START) + AllSlots(geo) && b < geo.total
  }

  lemma SlotIsReservedBit(geo: Geometry, b: nat)
    requires geo.WellFormed() && b < geo.total
    ensures b in Reserved(geo) <==>
      var g := Group(geo.gb, b); b - Start(geo.gb, g) < if g == 0 then DATA_START + 2 else 2
  {
    hide Start, Group, Geometry.WellFormed;
    GroupOf(geo, b);
    var g := Group(geo.gb, b);
    assert Start(geo.gb, 0) == 0 by { StartIsProduct(geo.gb, 0); }
    if b in AllSlots(geo) {
      var h, t :| 0 <= h < geo.groups && 0 <= t < 2 && b == geo.SlotBlock(h, t);
      assert GROUP_MIN <= geo.gb by { GbMin(geo); }
      Locate(geo.gb, h, if h == 0 then DATA_START + t else t);
    }
    if b - Start(geo.gb, g) < (if g == 0 then DATA_START + 2 else 2) && b >= DATA_START {
      assert b == geo.SlotBlock(g, 0) || b == geo.SlotBlock(g, 1);
    } else if b < DATA_START {
      assert GROUP_MIN <= geo.gb by { GbMin(geo); }
      Locate(geo.gb, 0, b);
    }
  }

  lemma GbMin(geo: Geometry)
    requires geo.WellFormed()
    ensures GROUP_MIN <= geo.gb <= BITS
  {
  }

  lemma FreshUsed(geo: Geometry)
    requires geo.WellFormed()
    ensures UsedBlocks(geo, FreshPages(geo)) == Reserved(geo)
  {
    hide Start, Group, Reserved;
    var pages := FreshPages(geo);
    forall b | 0 <= b < geo.total
      ensures Used(geo, pages, b) <==> b in Reserved(geo)
    {
      GroupOf(geo, b);
      SlotIsReservedBit(geo, b);
    }
    assert forall b :: b in Reserved(geo) ==> 0 <= b < geo.total by { ReservedInside(geo); }
  }

  lemma ReservedInside(geo: Geometry)
    ensures forall b :: b in Reserved(geo) ==> 0 <= b < geo.total
  {
  }

  /** Writes elsewhere on the device do not disturb the map. */
  lemma OtherWritesKeep(geo: Geometry, d: Disk, d': Disk, slot: seq<nat>, written: seq<bool>,
                        cache: seq<Entry>, pages: seq<seq<bool>>, blocks: set<nat>)
    requires SlotsOk(slot, geo.groups) && |written| == geo.groups
    requires EntriesOk(cache, geo.groups) && PagesOk(pages, geo.groups)
    requires Coherent(geo, d, slot, written, cache, pages)
    requires SameExcept(d', d, blocks) && blocks !! AllSlots(geo)
    ensures Coherent(geo, d', slot, written, cache, pages)
  {
    forall g | 0 <= g < geo.groups && Clean(cache, g)
      ensures Holds(d', geo.SlotBlock(g, Src(slot, written, g)), pages[g])
    {
      assert geo.SlotBlock(g, Src(slot, written, g)) in AllSlots(geo);
    }
  }

  /** The blocks of the map itself, the tables and the superblocks are in use. */
  ghost predicate SlotsTaken(geo: Geometry, pages: seq<seq<bool>>)
    requires geo.WellFormed() && PagesOk(pages, geo.groups)
  {
    Reserved(geo) <= UsedBlocks(geo, pages)
  }

  /** Every dirty group has both its slots inside the volume. */
  ghost predicate Flushable(geo: Geometry, cache: seq<Entry>) {
    forall i :: 0 <= i < |cache| && cache[i].valid && cache[i].dirty ==> geo.SlotBlock(cache[i].g, 1) < geo.total
  }

  lemma FreshTaken(geo: Geometry)
    requires geo.WellFormed()
    ensures SlotsTaken(geo, FreshPages(geo))
  {
    hide UsedBlocks, Reserved, FreshPages;
    FreshUsed(geo);
  }

  /** A block that is not the map's own lies in a group with two slots. */
  lemma TwoSlots(geo: Geometry, b: nat)
    requires geo.WellFormed() && b < geo.total && b !in Reserved(geo)
    ensures geo.SlotBlock(Group(geo.gb, b), 1) < geo.total
  {
    hide Start, Group, Reserved;
    GroupOf(geo, b);
    SlotIsReservedBit(geo, b);
    assert Start(geo.gb, 0) == 0 by { StartIsProduct(geo.gb, 0); }
  }

  /**
   A last group of a single block has no second slot, but it is never dirty: its
   only block is its first slot, so it has nothing free.
   */
  lemma FreeHasTwoSlots(geo: Geometry, pages: seq<seq<bool>>, free: seq<nat>, g: nat)
    requires geo.WellFormed() && PagesOk(pages, geo.groups) && |free| == geo.groups && g < geo.groups
    requires Counted(geo, free, pages) && SlotsTaken(geo, pages) && free[g] != 0
    ensures geo.SlotBlock(g, 1) < geo.total
  {
    hide Start, Group, Reserved, CountFree;
    CountFreeZero(pages[g], geo.ValidBits(g));
    var k :| 0 <= k < geo.ValidBits(g) && !pages[g][k];
    var b := Start(geo.gb, g) + k;
    GroupStarts(geo, g);
    Locate(geo.gb, g, k);
    assert !Used(geo, pages, b);
    TwoSlots(geo, b);
  }

  /** The entry that makes room: the first empty one, or else the first of the least recently used. */
  predicate IsVictim(cache: seq<Entry>, v: nat) {
    && v < |cache|
    && if cache[v].valid
       then (forall j :: 0 <= j < |cache| ==> cache[j].valid && cache[v].stamp <= cache[j].stamp)
            && forall j :: 0 <= j < v ==> cache[v].stamp < cache[j].stamp
       else forall j :: 0 <= j < v ==> cache[j].valid
  }

  /** Loading another group evicts an entry that is newer than the disk. */
  ghost predicate EvictsDirty(cache: seq<Entry>) {
    exists v: nat :: IsVictim(cache, v) && cache[v].valid && cache[v].dirty
  }

  predicate Cached(cache: seq<Entry>, g: nat) {
    exists i :: 0 <= i < |cache| && cache[i].valid && cache[i].g == g
  }

  // ---- a map that loses a change ----

  const LOSS: Geometry := Geometry(576, 64, 9)

  /** A fresh map of which block 20, the first that is not reserved, was taken. */
  ghost function LossPages(): (pages: seq<seq<bool>>)
    ensures PagesOk(pages, 9)
  {
    FreshPages(LOSS)[0 := SetRange(FreshBits(LOSS, 0), 20, 21, true)]
  }

  /** Groups 0 to 7 were loaded in this order; only group 0 is newer than the disk. */
  ghost function LossCache(): (cache: seq<Entry>)
    ensures EntriesOk(cache, 9)
  {
    var pages := LossPages();
    assert forall g :: 0 <= g < 9 ==> |pages[g]| == BITS;
    seq(CACHE, i requires 0 <= i < CACHE => Entry(true, i, i == 0, i + 1, pages[i]))
  }

  /** What a format leaves: each group's first slot holds its fresh bits. */
  function LossDisk(): Disk {
    seq(576, b => if b == DATA_START then Pack(FreshBits(LOSS, 0))
                  else if b > 0 && b % 64 == 0 then Pack(FreshBits(LOSS, b / 64)) else Zeros(BLOCK))
  }

  /**
   Loading group 8 evicts group 0.  Whatever a failed write leaves in the pending
   slot, dropping the entry loses that block 20 is in use.
   */
  lemma ChangeLost(after: Disk)
    requires SameExcept(after, LossDisk(), {LOSS.SlotBlock(0, 1)})
    ensures LOSS.WellFormed() && LOSS.SlotBlock(0, 1) < LOSS.total
    ensures Took(LOSS, FreshPages(LOSS), LossPages(), 20, 1, 1)
    ensures !Cached(LossCache(), 8) && IsVictim(LossCache(), 0) && EvictsDirty(LossCache())
    ensures var slot, written := seq(9, g => 0), seq(9, g => false);
      && Coherent(LOSS, LossDisk(), slot, written, LossCache(), LossPages())
      && !Coherent(LOSS, after, slot, written, LossCache()[0 := LossCache()[0].(valid := false)], LossPages())
  {
    hide Unpack, Pack, Took, UsedBlocks, CountFree, FreshBits, SetRange, Geometry.WellFormed, Start;
    LossShape();
    var slot, written := seq(9, g => 0), seq(9, g => false);
    var cache, pages := LossCache(), LossPages();
    assert cache[0].valid && cache[0].dirty && cache[0].g == 0;
    assert !Clean(cache, 0);
    forall g | 0 <= g < 9
      ensures Holds(LossDisk(), LOSS.SlotBlock(g, 0), FreshBits(LOSS, g))
      ensures g > 0 ==> pages[g] == FreshBits(LOSS, g)
    {
      StartIsProduct(64, g);
      UnpackPack(FreshBits(LOSS, g));
    }
    var less := cache[0 := cache[0].(valid := false)];
    assert Clean(less, 0);
    assert after[DATA_START] == LossDisk()[DATA_START];
    assert !OnDisk(LOSS, after, slot, written, pages, 0);
  }

  lemma LossShape()
    ensures LOSS.WellFormed() && LOSS.SlotBlock(0, 1) < LOSS.total
    ensures Took(LOSS, FreshPages(LOSS), LossPages(), 20, 1, 1)
    ensures SetRange(FreshBits(LOSS, 0), 20, 21, true) != FreshBits(LOSS, 0)
  {
    hide Took, CountFree;
    StartIsProduct(64, 0);
    StartIsProduct(64, 8);
    StartIsProduct(64, 9);
    assert LOSS.ValidBits(0) == 64;
    var bits := FreshBits(LOSS, 0);
    assert !bits[20];
    assert SetRange(bits, 20, 21, true)[20];
    TakesRun(LOSS, FreshPages(LOSS), seq(9, g => 0), 0, 20, 21, 1);
  }

  /** The bit of a block past the volume, in the last group's page. */
  ghost predicate PastEnd(geo: Geometry, pages: seq<seq<bool>>, b: nat)
    requires geo.WellFormed() && PagesOk(pages, geo.groups)
  {
    var g := Group(geo.gb, b);
    g < geo.groups && 0 <= b - Start(geo.gb, g) < BITS && pages[g][b - Start(geo.gb, g)]
  }

  class GMap {
    const dev: Device
    const geo: Geometry
    var slot: seq<nat>          // committed slot per group
    var written: seq<bool>      // pending slot written in this transaction
    var free: seq<nat>          // free blocks per group
    var cache: seq<Entry>
    var clock: nat
    ghost var pages: seq<seq<bool>>
    ghost var faulted: bool
    var failed: bool            // not in the source: an I/O error on the map was met since the import
    ghost var misfit: bool      // the imported tables do not describe the disk

    constructor (d: Device, g: Geometry)
      requires g.WellFormed()
      ensures dev == d && geo == g
      ensures slot == seq(g.groups, i => 0) && written == seq(g.groups, i => false)
      ensures free == seq(g.groups, i => 0) && cache == seq(CACHE, i => EMPTY)
      ensures Shape() && Intact()
    {
      dev, geo := d, g;
      slot, written := seq(g.groups, i => 0), seq(g.groups, i => false);
      free, cache := seq(g.groups, i => 0), seq(CACHE, i => EMPTY);
      clock := 0;
      pages := seq(g.groups, i => seq(BITS, j => false));
      faulted, failed, misfit := false, false, false;
    }

    /** gmap_init: an empty cache, nothing written. */
    method Init()
      requires geo.WellFormed()
      modifies this
      ensures Shape() && slot == seq(geo.groups, i => 0)
    {
      slot, written := seq(geo.groups, i => 0), seq(geo.groups, i => false);
      free, cache := seq(geo.groups, i => 0), seq(CACHE, i => EMPTY);
      clock := 0;
      pages := seq(geo.groups, i => seq(BITS, j => false));
      faulted, failed, misfit := true, false, true;
    }

    ghost predicate Shape()
      reads this
    {
      && geo.WellFormed()
      && SlotsOk(slot, geo.groups) && |written| == geo.groups && |free| == geo.groups
      && EntriesOk(cache, geo.groups) && PagesOk(pages, geo.groups)
      && (faulted ==> failed || misfit) && (misfit ==> faulted)
    }

    ghost predicate Valid()
      reads this, dev
    {
      && dev.Valid() && Shape()
      && (!faulted ==> Coherent(geo, dev.disk, slot, written, cache, pages) && Counted(geo, free, pages))
    }

    /** No I/O error was met and the imported tables were true of the disk. */
    ghost predicate Intact()
      reads this
    {
      !failed && !faulted
    }

    /** Nothing the map asks of a reliable device can fail. */
    ghost predicate Sure()
      reads this
    {
      && dev.reliable && geo.total <= dev.size && Shape() && Intact()
      && SlotsTaken(geo, pages) && Flushable(geo, cache)
    }

    ghost function Pending(): set<nat>
      requires Shape()
      reads this
    {
      PendingBlocks(geo, slot)
    }

    /** Brings the disk up to date with one changed entry, leaving the committed slot alone. */
    method FlushOne(i: nat) returns (ok: bool)
      requires Valid() && i < CACHE && cache[i].valid && cache[i].dirty
      modifies this`written, this`cache, dev
      ensures Valid()
      ensures Through(old(dev.trace), dev.trace, Pending())
      ensures ok ==> written == old(written)[old(cache)[i].g := true]
      ensures ok ==> cache == old(cache)[i := old(cache)[i].(dirty := false)]
      ensures !ok ==> cache == old(cache) && written == old(written)
      ensures old(Sure()) ==> ok && Sure()
    {
      hide Coherent, Counted, Unpack, Pack, Through, SameExcept, Start, SlotsTaken;
      var e := cache[i];
      var b := geo.SlotBlock(e.g, 1 - slot[e.g]);
      UnpackPack(e.bits);
      ok := dev.Write(b, Pack(e.bits));
      ThroughWiden(old(dev.trace), dev.trace, {b}, Pending());
      if !faulted && b < |dev.disk| {
        PendingWriteKeeps(geo, old(dev.disk), slot, written, cache, pages, i, Pack(e.bits));
        if ok {
          FlushedKeeps(geo, dev.disk, slot, written, cache, pages, i);
        }
      }
      if ok {
        written := written[e.g := true];
        cache := cache[i := e.(dirty := false)];
      }
    }

    /** Index of the cached copy of g, or CACHE. */
    method Find(g: nat) returns (i: nat)
      requires Shape()
      ensures i <= CACHE
      ensures i < CACHE ==> cache[i].valid && cache[i].g == g
      ensures i == CACHE ==> forall j :: 0 <= j < CACHE && cache[j].valid ==> cache[j].g != g
    {
      i := 0;
      while i < CACHE && !(cache[i].valid && cache[i].g == g)
        invariant i <= CACHE
        invariant forall j :: 0 <= j < i && cache[j].valid ==> cache[j].g != g
      {
        i := i + 1;
      }
    }

    /** The first empty entry, or else the least recently used one. */
    method Victim() returns (v: nat)
      requires Shape()
      ensures IsVictim(cache, v)
    {
      v := 0;
      var i := 0;
      while i < CACHE
        invariant i <= CACHE && v < CACHE
        invariant forall j :: 0 <= j < i ==> cache[j].valid
        invariant i == 0 ==> v == 0
        invariant i > 0 ==> v < i
        invariant forall j :: 0 <= j < i ==> cache[v].stamp <= cache[j].stamp
        invariant forall j :: 0 <= j < v ==> cache[v].stamp < cache[j].stamp
      {
        if !cache[i].valid {
          v := i;
          return;
        }
        if cache[i].stamp < cache[v].stamp {
          v := i;
        }
        i := i + 1;
      }
    }

    /** Reads the newest disk copy of g into entry v, which must hold nothing newer. */
    method Fill(v: nat, g: nat) returns (ok: bool)
      requires Valid() && v < CACHE && g < geo.groups
      requires cache[v].valid ==> !cache[v].dirty
      requires forall j :: 0 <= j < CACHE && cache[j].valid ==> cache[j].g != g
      modifies this`cache, this`clock, this`failed
      ensures Valid() && failed == (old(failed) || !ok)
      ensures ok ==> cache[v].valid && cache[v].g == g
      ensures |cache| == CACHE && cache == old(cache)[v := cache[v]] && (!ok ==> !cache[v].valid)
      ensures old(Sure()) ==> ok && Sure()
    {
      hide Coherent, Counted, Unpack, Start, SlotsTaken, Holds, OnDisk, EvictsDirty, IsVictim;
      var p: Page;
      if Sure() {
        UncachedOnDisk(g);
      }
      ok, p := dev.Read(geo.SlotBlock(g, Src(slot, written, g)));
      if !ok {
        if !faulted {
          ForgetKeeps(geo, dev.disk, slot, written, cache, pages, v);
        }
        cache := cache[v := cache[v].(valid := false)];
        failed := true;
        return;
      }
      if !faulted {
        HoldsIs(geo.SlotBlock(g, Src(slot, written, g)), p);
        FilledKeeps(geo, dev.disk, slot, written, cache, pages, v, Entry(true, g, false, (clock + 1) % U32, Unpack(p)));
      }
      clock := (clock + 1) % U32;
      cache := cache[v := Entry(true, g, false, clock, Unpack(p))];
    }

    lemma HoldsIs(b: nat, p: Page)
      requires b < |dev.disk| && dev.disk[b] == p
      ensures Holds(dev.disk, b, Unpack(p))
    {
    }

    lemma UncachedOnDisk(g: nat)
      requires Valid() && !faulted && g < geo.groups && !Cached(cache, g)
      ensures geo.SlotBlock(g, Src(slot, written, g)) < |dev.disk|
    {
      assert Clean(cache, g);
    }

    /** A hit: the entry is now the youngest. */
    method Touch(i: nat)
      requires Valid() && i < CACHE && cache[i].valid
      modifies this`cache, this`clock
      ensures Valid() && clock == (old(clock) + 1) % U32
      ensures cache == old(cache)[i := old(cache)[i].(stamp := clock)]
      ensures old(Sure()) ==> Sure()
    {
      hide Coherent, Counted, Unpack, Start, SlotsTaken, Holds;
      clock := (clock + 1) % U32;
      if !faulted {
        StampKeeps(geo, dev.disk, slot, written, cache, pages, i, clock);
      }
      cache := cache[i := cache[i].(stamp := clock)];
    }

    /** A miss: the victim is written back if it is dirty, then read over. */
    method Replace(g: nat) returns (ok: bool, i: nat)
      requires Valid() && g < geo.groups && !Cached(cache, g)
      modifies this`written, this`cache, this`clock, this`faulted, this`failed, dev
      ensures Valid() && failed == (old(failed) || !ok)
      ensures Through(old(dev.trace), dev.trace, Pending())
      ensures i < CACHE && |cache| == CACHE && IsVictim(old(cache), i)
      ensures if ok then cache[i].valid && cache[i].g == g else !cache[i].valid
      ensures forall j :: 0 <= j < CACHE && j != i ==> cache[j] == old(cache)[j]
      ensures old(faulted) ==> faulted
      ensures ok || !EvictsDirty(old(cache)) ==> faulted == old(faulted)
      ensures !old(faulted) ==>
        (faulted <==> !ok && old(cache)[i].valid && old(cache)[i].dirty
                      && !OnDisk(geo, dev.disk, slot, written, pages, old(cache)[i].g))
      ensures old(Sure()) ==> ok && Sure()
    {
      hide Coherent, Counted, Unpack, Through, SameExcept, Start, PendingBlocks, SlotsTaken, Holds;
      i := Victim();
      ok := true;
      if cache[i].valid && cache[i].dirty {
        ok := FlushOne(i);
      } else {
        ThroughSelf(dev.trace, Pending());
      }
      if !ok {
        if !faulted {
          DropKeeps(geo, dev.disk, slot, written, cache, pages, i);
          faulted := !OnDisk(geo, dev.disk, slot, written, pages, cache[i].g);
        }
        cache := cache[i := cache[i].(valid := false)];
        failed := true;
        return;
      }
      if !faulted && cache[i].valid {
        DropKeeps(geo, dev.disk, slot, written, cache, pages, i);
      }
      ok := Fill(i, g);
    }

    /**
     Brings group g into the cache, in place of the entry used longest ago when
     all are in use.  An entry that is newer than the disk is written first, to
     the slot that is not committed; when that write fails the entry is dropped
     all the same, so its changes are lost unless the disk holds them already.
     No other error loses anything.
     */
    method Load(g: nat) returns (ok: bool, i: nat)
      requires Valid() && g < geo.groups
      modifies this`written, this`cache, this`clock, this`faulted, this`failed, dev
      ensures Valid() && failed == (old(failed) || !ok)
      ensures Through(old(dev.trace), dev.trace, Pending())
      ensures ok ==> i < CACHE && cache[i].valid && cache[i].g == g
      ensures old(faulted) ==> faulted
      ensures ok || Cached(old(cache), g) || !EvictsDirty(old(cache)) ==> faulted == old(faulted)
      ensures !old(faulted) ==>
        (faulted <==> !ok && i < CACHE && old(cache)[i].valid && old(cache)[i].dirty
                      && !OnDisk(geo, dev.disk, slot, written, pages, old(cache)[i].g))
      ensures i < CACHE && |cache| == CACHE && forall j :: 0 <= j < CACHE && j != i ==> cache[j] == old(cache)[j]
      ensures if Cached(old(cache), g) then ok else IsVictim(old(cache), i) && (!ok ==> !cache[i].valid)
      ensures old(Sure()) ==> ok && Sure()
    {
      hide Coherent, Counted, Unpack, Through, SameExcept, Start, PendingBlocks, SlotsTaken, Holds, OnDisk, EvictsDirty,
           IsVictim;
      i := Find(g);
      if i == CACHE {
        ok, i := Replace(g);
        return;
      }
      Touch(i);
      ok := true;
      ThroughSelf(dev.trace, Pending());
    }

    /** Replaces the bits of cached group g, and its free count. */
    method Store(i: nat, bits: seq<bool>, count: nat)
      requires Valid() && i < CACHE && cache[i].valid && |bits| == BITS
      requires !faulted ==> count == CountFree(bits, geo.ValidBits(cache[i].g))
      modifies this`cache, this`free, this`pages
      ensures Valid()
      ensures cache == old(cache)[i := old(cache)[i].(bits := bits, dirty := true)]
      ensures free == old(free)[old(cache)[i].g := count]
      ensures pages == old(pages)[old(cache)[i].g := bits]
      ensures old(Sure()) && geo.SlotBlock(old(cache)[i].g, 1) < geo.total && SlotsTaken(geo, pages) ==> Sure()
    {
      hide Unpack, Start, CountFree, SlotsTaken, Reserved;
      var g := cache[i].g;
      if !faulted {
        StoredKeeps(geo, dev.disk, slot, written, cache, pages, i, bits);
      }
      cache := cache[i := cache[i].(bits := bits, dirty := true)];
      free := free[g := count];
      pages := pages[g := bits];
    }

    /** Takes the first free run of group g at or after bit `from`, if there is one. */
    method TakeIn(g: nat, from: nat, need: nat) returns (rc: Status, start: nat, len: nat)
      requires Valid() && g < geo.groups && need > 0 && from < geo.gb && free[g] != 0
      modifies this`written, this`cache, this`clock, this`faulted, this`failed, this`free, this`pages, dev
      ensures Valid()
      ensures Through(old(dev.trace), dev.trace, Pending())
      ensures rc.Ok? || rc.IoError? || rc.NoSpace?
      ensures failed == (old(failed) || rc.IoError?) && (old(faulted) ==> faulted)
      ensures !rc.IoError? ==> faulted == old(faulted)
      ensures old(Sure()) ==> !rc.IoError? && Sure()
      ensures !rc.Ok? ==> pages == old(pages) && free == old(free)
      ensures rc.Ok? && !faulted ==> Took(geo, old(pages), pages, start, len, need)
      ensures rc.Ok? && !faulted && len > 0 ==>
        start == Start(geo.gb, g) + from || (start > 0 && start - 1 in UsedBlocks(geo, old(pages)))
      ensures rc.Ok? && !faulted && len > 0 ==>
        start >= Start(geo.gb, g) && FirstBit(old(pages)[g], from, start - Start(geo.gb, g), geo.ValidBits(g))
      ensures rc.Ok? && !faulted ==> (len == 0 <==> from > geo.ValidBits(g))
      ensures rc.NoSpace? && !faulted ==>
        from <= geo.ValidBits(g) && forall k :: from <= k < geo.ValidBits(g) ==> pages[g][k]
    {
      hide Coherent, Counted, Unpack, Through, SameExcept, Start, Group, PendingBlocks, CountFree,
           UsedBlocks, Used, SetRange, Run, Took, Clean, Holds, SlotsTaken, Reserved, EvictsDirty, OnDisk, IsVictim, Cached, Flushable;
      start, len := 0, 0;
      var ok, e := Load(g);
      if !ok {
        rc := IoError;
        return;
      }
      var valid := geo.ValidBits(g);
      var i := FirstFree(cache[e].bits, from, valid);
      if !faulted {
        CachedBits(e);
      }
      if i == valid {
        rc := NoSpace;
        return;
      }
      rc := Ok;
      len := TakeBits(e, from, i, need);
      start := Start(geo.gb, g) + i;
    }

    /** Takes the free run at bit i, the first one at or after `from`, of a cached group. */
    method TakeBits(e: nat, from: nat, i: nat, need: nat) returns (len: nat)
      requires Valid() && e < CACHE && cache[e].valid && need > 0 && free[cache[e].g] != 0
      requires from <= i < BITS && i != geo.ValidBits(cache[e].g)
      requires i < geo.ValidBits(cache[e].g) ==> !cache[e].bits[i] && forall k :: from <= k < i ==> cache[e].bits[k]
      requires i > geo.ValidBits(cache[e].g) ==> i == from
      modifies this`cache, this`free, this`pages
      ensures Valid() && (old(Sure()) ==> Sure())
      ensures !faulted ==>
        var g := old(cache)[e].g; var start := Start(geo.gb, g) + i;
        && Took(geo, old(pages), pages, start, len, need)
        && (len > 0 ==> i == from || (start > 0 && start - 1 in UsedBlocks(geo, old(pages))))
        && (len == 0 <==> i > geo.ValidBits(g))
    {
      hide Coherent, Counted, Unpack, Start, Group, CountFree, UsedBlocks, Used, SetRange, Run, Took, Clean, Holds,
           SlotsTaken, Reserved, EvictsDirty, OnDisk, IsVictim, Cached, Flushable;
      var g, bits := cache[e].g, cache[e].bits;
      var valid := geo.ValidBits(g);
      var j := RunEnd(bits, i, valid, need);
      len := j - i;
      if !faulted {
        CachedBits(e);
        TakesRun(geo, pages, free, g, i, j, need);
        if from < i < valid {
          BitIsUsed(geo, pages, g, i - 1);
        }
      }
      if Sure() {
        FreeHasTwoSlots(geo, pages, free, g);
        TookKeepsSlots(geo, pages, pages[g := SetRange(bits, i, j, true)], Start(geo.gb, g) + i, j - i, need);
      }
      Store(e, SetRange(bits, i, j, true), (free[g] + U32 - (j - i)) % U32);
    }

    lemma TookKeepsSlots(geo: Geometry, before: seq<seq<bool>>, after: seq<seq<bool>>, start: nat, len: nat, need: nat)
      requires geo.WellFormed() && PagesOk(before, geo.groups) && PagesOk(after, geo.groups)
      requires Took(geo, before, after, start, len, need) && SlotsTaken(geo, before)
      ensures SlotsTaken(geo, after)
    {
      hide UsedBlocks, Reserved, Run;
    }

    lemma CachedBits(e: nat)
      requires Valid() && !faulted && e < CACHE && cache[e].valid
      ensures cache[e].bits == pages[cache[e].g]
      ensures free[cache[e].g] == CountFree(pages[cache[e].g], geo.ValidBits(cache[e].g))
    {
    }

    /** Group and bit of the hint; a hint past every group starts over at block 0. */
    method Split(hint: nat) returns (g: nat, off: nat)
      requires Shape()
      ensures g < geo.groups && off < geo.gb
      ensures off > geo.ValidBits(g) <==> hint > geo.total && Group(geo.gb, hint) < geo.groups
      ensures off > geo.ValidBits(g) ==> g == Group(geo.gb, hint)
      ensures Start(geo.gb, g) + off == hint || off == 0
      ensures Start(geo.gb, g) + off == if Group(geo.gb, hint) < geo.groups then hint else 0
    {
      GroupBounds(geo.gb, hint);
      g := Group(geo.gb, hint);
      off := hint - Start(geo.gb, g);
      if g >= geo.groups {
        g, off := 0, 0;
      } else {
        GroupStarts(geo, g);
      }
    }

    lemma FullGroup(g: nat)
      requires Valid() && !faulted && g < geo.groups && free[g] == 0
      ensures forall k :: 0 <= k < geo.ValidBits(g) ==> pages[g][k]
    {
      CountFreeZero(pages[g], geo.ValidBits(g));
    }

    /**
     Takes one free run, no longer than asked, from the first group that has one:
     the hint's from the hint on, then the others, then the hint's from its start.
     */
    method Take(hint: nat, need: nat) returns (rc: Status, start: nat, len: nat)
      requires Valid()
      modifies this`written, this`cache, this`clock, this`faulted, this`failed, this`free, this`pages, dev
      ensures Valid()
      ensures Through(old(dev.trace), dev.trace, Pending())
      ensures failed == (old(failed) || rc.IoError?) && (old(faulted) ==> faulted)
      ensures !rc.IoError? ==> faulted == old(faulted)
      ensures !rc.AlreadyFree?
      ensures old(Sure()) ==> !rc.IoError? && Sure()
      ensures !rc.Ok? ==> pages == old(pages) && free == old(free)
      ensures rc.Ok? && !faulted ==>
        Took(geo, old(pages), pages, start, len, need)
      ensures rc.Ok? && !faulted && len > 0 ==>
        start == hint || Edge(geo, start) || (start > 0 && start - 1 in UsedBlocks(geo, old(pages)))
      ensures rc.Ok? && !faulted ==> (len == 0 <==> HintPastEnd(hint, old(free)))
      ensures rc.Ok? && !faulted && len > 0 ==>
        FirstInTurn(geo, old(pages), if Group(geo.gb, hint) < geo.groups then hint else 0, start)
      ensures rc.NoSpace? && !faulted ==>
        need == 0 || UsedBlocks(geo, old(pages)) == Run(0, geo.total)
    {
      hide Coherent, Through, Group, PendingBlocks, UsedBlocks, Run, Counted, Took, SlotsTaken, FirstInTurn, Flushable;
      if need == 0 {
        ThroughSelf(dev.trace, Pending());
        return NoSpace, 0, 0;
      }
      var g, off := Split(hint);
      GroupEdge(geo, 0);
      rc, start, len := Search(g, off, need);
    }

    /** The search from bit `off` of group g0 on. */
    method Search(g0: nat, off: nat, need: nat) returns (rc: Status, start: nat, len: nat)
      requires Valid() && g0 < geo.groups && off < geo.gb && need > 0
      modifies this`written, this`cache, this`clock, this`faulted, this`failed, this`free, this`pages, dev
      ensures Valid()
      ensures Through(old(dev.trace), dev.trace, Pending())
      ensures failed == (old(failed) || rc.IoError?) && (old(faulted) ==> faulted)
      ensures !rc.IoError? ==> faulted == old(faulted)
      ensures !rc.AlreadyFree?
      ensures old(Sure()) ==> !rc.IoError? && Sure()
      ensures !rc.Ok? ==> pages == old(pages) && free == old(free)
      ensures rc.Ok? && !faulted ==> Took(geo, old(pages), pages, start, len, need)
      ensures rc.Ok? && !faulted && len > 0 ==>
        && FirstInTurn(geo, old(pages), Start(geo.gb, g0) + off, start)
        && (start == Start(geo.gb, g0) + off || Edge(geo, start) || (start > 0 && start - 1 in UsedBlocks(geo, old(pages))))
      ensures rc.Ok? && !faulted ==> (len == 0 <==> off > geo.ValidBits(g0) && old(free)[g0] != 0)
      ensures rc.NoSpace? && !faulted ==> UsedBlocks(geo, old(pages)) == Run(0, geo.total)
    {
      hide Coherent, Through, Start, Group, PendingBlocks, UsedBlocks, Run, Counted, Took, SlotsTaken, FirstInTurn, AllPassed,
           Flushable, Edge, SlotsOk, CountFree, Unpack, FirstBit, Cached;
      start, len := 0, 0;
      ThroughSelf(dev.trace, Pending());
      NonePassed(geo, pages, g0, Start(geo.gb, g0) + off);
      var g, k := g0, 0;
      while k <= geo.groups
        invariant k <= geo.groups + 1 && (k <= geo.groups ==> g == GroupAt(geo, g0, k))
        invariant Valid() && faulted == old(faulted) && failed == old(failed) && (old(Sure()) ==> Sure())
        invariant Through(old(dev.trace), dev.trace, Pending())
        invariant pages == old(pages) && free == old(free)
        invariant !faulted && off > geo.ValidBits(g0) && k > 0 ==> free[g0] == 0
        invariant !faulted ==> AllPassed(geo, pages, g0, Start(geo.gb, g0) + off, k)
        decreases geo.groups + 1 - k
      {
        if free[g] != 0 {
          label Before:
          var step, at, n := TakeIn(g, if k == 0 then off else 0, need);
          ThroughTrans(old(dev.trace), old@Before(dev.trace), dev.trace, Pending());
          if !step.NoSpace? {
            GroupEdge(geo, g);
            rc, start, len := step, at, n;
            if rc.Ok? && !faulted && len > 0 {
              FoundFirst(geo, old(pages), g0, off, k, at - Start(geo.gb, g));
            }
            return;
          }
        } else if !faulted {
          FullGroup(g);
        }
        if !faulted {
          StepPassed(geo, pages, g0, off, k);
        }
        k := k + 1;
        g := if g + 1 == geo.groups then 0 else g + 1;
      }
      rc := NoSpace;
      if !faulted {
        NoneLeft(geo, pages, g0, Start(geo.gb, g0) + off);
      }
    }

    lemma GroupEdge(geo: Geometry, g: nat)
      requires geo.gb > 0
      ensures Edge(geo, Start(geo.gb, g))
    {
      Locate(geo.gb, g, 0);
    }

    /** A hint strictly past the volume but inside the last group's span, with that group not full. */
    ghost predicate HintPastEnd(hint: nat, free: seq<nat>)
      requires |free| == geo.groups && geo.gb > 0
    {
      hint > geo.total && Group(geo.gb, hint) < geo.groups && free[Group(geo.gb, hint)] > 0
    }

    /** Frees one block, unless it is free already. */
    method ReleaseOne(b: nat) returns (rc: Status)
      requires Valid() && b < geo.total
      modifies this`written, this`cache, this`clock, this`faulted, this`failed, this`free, this`pages, dev
      ensures Valid()
      ensures Through(old(dev.trace), dev.trace, Pending())
      ensures rc.Ok? || rc.IoError? || rc.AlreadyFree?
      ensures failed == (old(failed) || rc.IoError?) && (old(faulted) ==> faulted)
      ensures !rc.IoError? ==> faulted == old(faulted)
      ensures old(Sure()) ==> !rc.IoError? && (b !in Reserved(geo) ==> Sure())
      ensures rc.Ok? && !faulted ==>
        b in UsedBlocks(geo, old(pages)) && UsedBlocks(geo, pages) == UsedBlocks(geo, old(pages)) - {b}
      ensures rc.AlreadyFree? && !faulted ==> b !in UsedBlocks(geo, old(pages))
      ensures !rc.Ok? ==> pages == old(pages) && free == old(free)
    {
      hide Coherent, Counted, Unpack, Through, SameExcept, Start, Group, PendingBlocks, CountFree,
           UsedBlocks, Used, Clean, Holds, Reserved, EvictsDirty, OnDisk, IsVictim, Cached, Flushable;
      GroupOf(geo, b);
      var g := Group(geo.gb, b);
      var i := b - Start(geo.gb, g);
      var ok, e := Load(g);
      if !ok {
        rc := IoError;
        return;
      }
      if !faulted {
        CachedBits(e);
        BitIsUsed(geo, pages, g, i);
      }
      var bits := cache[e].bits;
      if !bits[i] {
        rc := AlreadyFree;
        return;
      }
      if !faulted {
        ClearBitFrees(geo, pages, b);
        CountFreeUpdate(bits, geo.ValidBits(g), i, false);
      }
      if b !in Reserved(geo) {
        TwoSlots(geo, b);
      }
      rc := Ok;
      Store(e, bits[i := false], free[g] + 1);
    }

    /**
     Frees blocks from `start` in order and stops at the first one that cannot
     be freed; the blocks before it stay free (`done` of them).
     */
    method Release(start: nat, len: nat) returns (rc: Status, ghost done: nat)
      requires Valid() && start + len <= geo.total
      modifies this`written, this`cache, this`clock, this`faulted, this`failed, this`free, this`pages, dev
      ensures Valid()
      ensures Through(old(dev.trace), dev.trace, Pending())
      ensures done <= len && (rc.Ok? <==> done == len)
      ensures failed == (old(failed) || rc.IoError?) && (old(faulted) ==> faulted)
      ensures !rc.IoError? ==> faulted == old(faulted)
      ensures old(Sure()) && Run(start, len) !! Reserved(geo) ==> !rc.IoError? && Sure()
      ensures rc.Ok? || rc.IoError? || rc.AlreadyFree?
      ensures !faulted ==> Run(start, done) <= UsedBlocks(geo, old(pages))
      ensures !faulted ==> UsedBlocks(geo, pages) == UsedBlocks(geo, old(pages)) - Run(start, done)
      ensures !faulted && rc.AlreadyFree? ==> start + done !in UsedBlocks(geo, old(pages))
    {
      hide Coherent, Counted, Unpack, Through, SameExcept, Start, Group, PendingBlocks, CountFree,
           UsedBlocks, Used, Clean, Holds, Reserved, SlotsTaken, EvictsDirty, OnDisk, IsVictim, Cached, Flushable;
      ThroughSelf(dev.trace, Pending());
      done := 0;
      var b := start;
      while b < start + len
        invariant start <= b <= start + len && done == b - start
        invariant Valid() && faulted == old(faulted) && failed == old(failed)
        invariant old(Sure()) && Run(start, len) !! Reserved(geo) ==> Sure()
        invariant Through(old(dev.trace), dev.trace, Pending())
        invariant !faulted ==> Run(start, done) <= UsedBlocks(geo, old(pages))
        invariant !faulted ==> UsedBlocks(geo, pages) == UsedBlocks(geo, old(pages)) - Run(start, done)
      {
        label Before:
        assert b in Run(start, len);
        rc := ReleaseOne(b);
        ThroughTrans(old(dev.trace), old@Before(dev.trace), dev.trace, Pending());
        if !rc.Ok? {
          return;
        }
        b, done := b + 1, done + 1;
      }
      rc := Ok;
    }

    method IsUsed(b: nat) returns (rc: Status, used: bool)
      requires Valid() && Group(geo.gb, b) < geo.groups
      modifies this`written, this`cache, this`clock, this`faulted, this`failed, dev
      ensures Valid()
      ensures Through(old(dev.trace), dev.trace, Pending())
      ensures failed == (old(failed) || !rc.Ok?) && (old(faulted) ==> faulted)
      ensures rc.Ok? ==> faulted == old(faulted)
      ensures old(Sure()) ==> rc.Ok? && Sure()
      ensures rc.Ok? && !faulted && b < geo.total ==> used == (b in UsedBlocks(geo, pages))
      ensures rc.Ok? && !faulted && b >= geo.total ==> used == PastEnd(geo, pages, b)
    {
      hide Coherent, Counted, Unpack, Through, SameExcept, Start, Group, PendingBlocks, CountFree,
           UsedBlocks, Used, Clean, Holds, SlotsTaken, EvictsDirty, OnDisk, IsVictim, Cached, Flushable;
      GroupBounds(geo.gb, b);
      var g := Group(geo.gb, b);
      var ok, e := Load(g);
      used := false;
      if !ok {
        rc := IoError;
        return;
      }
      rc := Ok;
      used := cache[e].bits[b - Start(geo.gb, g)];
      if !faulted {
        CachedBits(e);
        if b < geo.total {
          GroupOf(geo, b);
          BitIsUsed(geo, pages, g, b - Start(geo.gb, g));
        }
      }
    }

    /** Brings the disk up to date with all changed entries. */
    method Flush() returns (rc: Status)
      requires Valid()
      modifies this`written, this`cache, dev
      ensures Valid()
      ensures Through(old(dev.trace), dev.trace, Pending())
      ensures rc.Ok? ==> forall i :: 0 <= i < CACHE && cache[i].valid ==> !cache[i].dirty
      ensures old(Sure()) ==> rc.Ok? && Sure()
    {
      hide Coherent, Counted, Unpack, Through, SameExcept, Start, Group, PendingBlocks, CountFree, Clean, Holds, SlotsTaken;
      ThroughSelf(dev.trace, Pending());
      var i := 0;
      while i < CACHE
        invariant i <= CACHE && Valid() && (old(Sure()) ==> Sure())
        invariant Through(old(dev.trace), dev.trace, Pending())
        invariant forall j :: 0 <= j < i && cache[j].valid ==> !cache[j].dirty
      {
        if cache[i].valid && cache[i].dirty {
          label Before:
          var ok := FlushOne(i);
          ThroughTrans(old(dev.trace), old@Before(dev.trace), dev.trace, Pending());
          if !ok {
            rc := IoError;
            return;
          }
        }
        i := i + 1;
      }
      rc := Ok;
    }

    /** The slot table as it will be once this transaction commits. */
    method Export() returns (slots: seq<nat>, counts: seq<nat>)
      requires Valid()
      ensures SlotsOk(slots, geo.groups) && counts == free
      ensures forall g :: 0 <= g < geo.groups ==> slots[g] == Src(slot, written, g)
    {
      slots := [];
      var g := 0;
      while g < geo.groups
        invariant g <= geo.groups && |slots| == g
        invariant forall h :: 0 <= h < g ==> slots[h] == Src(slot, written, h)
      {
        slots := slots + [if written[g] then 1 - slot[g] else slot[g]];
        g := g + 1;
      }
      counts := free;
    }

    /** Pending slots become committed; what the map says does not change. */
    method Commit()
      requires Valid()
      modifies this`slot, this`written
      ensures Valid() && (old(Sure()) ==> Sure())
      ensures forall g :: 0 <= g < geo.groups ==> slot[g] == Src(old(slot), old(written), g) && !written[g]
    {
      hide Unpack, Start, CountFree, SlotsTaken;
      var s, c := Export();
      slot := s;
      written := seq(geo.groups, g => false);
    }

    /** Adopts the tables of a superblock: the bitmap becomes what its slots hold on disk. */
    method Import(slots: seq<nat>, counts: seq<nat>)
      requires dev.Valid() && Shape()
      requires SlotsOk(slots, geo.groups) && |counts| == geo.groups
      modifies this
      ensures Shape() && slot == slots && free == counts && written == seq(geo.groups, g => false)
      ensures TablesFit(geo, dev.disk, slots, counts) ==> Valid() && Intact()
      ensures TablesFit(geo, dev.disk, slots, counts) && dev.reliable && geo.total <= dev.size && SlotsTaken(geo, pages) ==> Sure()
      ensures pages == DiskPages(geo, dev.disk, slots)
    {
      hide Unpack, Start, CountFree;
      slot, free := slots, counts;
      written := seq(geo.groups, g => false);
      cache := seq(CACHE, i => EMPTY);
      pages := DiskPages(geo, dev.disk, slots);
      failed := false;
      misfit := !TablesFit(geo, dev.disk, slots, counts);
      faulted := misfit;
    }

    method FreeTotal() returns (n: nat)
      requires Shape()
      ensures n == Sum(free, geo.groups)
    {
      n := 0;
      var g := 0;
      while g < geo.groups
        invariant g <= geo.groups && n == Sum(free, g)
      {
        n := n + free[g];
        g := g + 1;
      }
    }

    /** Lays down the map of an empty volume, in the first slots. */
    method Format() returns (rc: Status)
      requires dev.Valid() && Shape() && |dev.disk| == geo.total
      modifies this, dev
      ensures dev.Valid() && Shape()
      ensures Through(old(dev.trace), dev.trace, FirstSlots(geo))
      ensures rc.Ok? ==> Valid() && Intact() && pages == FreshPages(geo)
      ensures rc.Ok? ==> slot == seq(geo.groups, g => 0) && written == seq(geo.groups, g => false)
      ensures dev.reliable && DATA_START < geo.total ==> rc.Ok? && Sure()
    {
      hide Unpack, CountFree, Through, SameExcept, FreshBits, Start, FirstSlots, Coherent, Counted, Holds, SlotsTaken;
      slot, written := seq(geo.groups, g => 0), seq(geo.groups, g => false);
      cache := seq(CACHE, i => EMPTY);
      pages := FreshPages(geo);
      faulted, failed, misfit := true, false, true;
      ThroughSelf(dev.trace, FirstSlots(geo));
      ghost var was := (slot, written, cache, pages);
      var g := 0;
      while g < geo.groups
        invariant g <= geo.groups && dev.Valid() && Shape() && |dev.disk| == geo.total && faulted && !failed
        invariant slot == was.0 && written == was.1 && cache == was.2 && pages == was.3
        invariant Through(old(dev.trace), dev.trace, FirstSlots(geo))
        invariant forall h :: 0 <= h < g ==> free[h] == CountFree(pages[h], geo.ValidBits(h))
        invariant forall h :: 0 <= h < g ==> Holds(dev.disk, geo.SlotBlock(h, 0), pages[h])
      {
        label Before:
        free := free[g := CountFree(FreshBits(geo, g), geo.ValidBits(g))];
        var ok := FormatOne(g);
        ThroughTrans(old(dev.trace), old@Before(dev.trace), dev.trace, FirstSlots(geo));
        if !ok {
          rc := IoError;
          return;
        }
        g := g + 1;
      }
      FormattedMap(geo, dev.disk, slot, written, cache, pages, free);
      faulted, misfit := false, false;
      FreshTaken(geo);
      rc := Ok;
    }

    method FormatOne(g: nat) returns (ok: bool)
      requires dev.Valid() && geo.WellFormed() && g < geo.groups
      modifies dev
      ensures dev.Valid() && |dev.disk| == |old(dev.disk)|
      ensures Through(old(dev.trace), dev.trace, FirstSlots(geo))
      ensures ok ==> Holds(dev.disk, geo.SlotBlock(g, 0), FreshBits(geo, g))
      ensures dev.reliable && DATA_START < geo.total <= |dev.disk| ==> ok
      ensures forall h, bits :: 0 <= h < geo.groups && h != g && Holds(old(dev.disk), geo.SlotBlock(h, 0), bits) ==>
        Holds(dev.disk, geo.SlotBlock(h, 0), bits)
    {
      hide Unpack, Pack, Through, SameExcept, FreshBits, Start, CountFree;
      UnpackPack(FreshBits(geo, g));
      assert geo.SlotBlock(g, 0) in FirstSlots(geo);
      GroupStarts(geo, g);
      ok := dev.Write(geo.SlotBlock(g, 0), Pack(FreshBits(geo, g)));
      ThroughWiden(old(dev.trace), dev.trace, {geo.SlotBlock(g, 0)}, FirstSlots(geo));
      forall h | 0 <= h < geo.groups && h != g
        ensures geo.SlotBlock(h, 0) != geo.SlotBlock(g, 0)
      {
        if geo.SlotBlock(h, 0) == geo.SlotBlock(g, 0) {
          SlotsDistinct(geo, h, 0, g, 0);
        }
      }
    }
  }
}
