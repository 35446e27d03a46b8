/**
 The hardware-token ledger: a table of SLOTS entries; a token is a slot number in
 the high word and the slot's generation in the low word.  Every method is one
 section under the ledger's lock.  Frames are named by number (address / 4096).
 */
module TokenLedger {
  import opened Intervals

  const SLOTS: nat := 4096
  const WORD: nat := 0x1_0000_0000
  const INVALID: nat := 0
  const MAX_PINS: nat := 0xFFFF

  datatype Right = Read | Write | Execute | Map | Dma | Release

  datatype Kind = NoKind | Ram

  datatype Entry = Entry(generation: nat, kind: Kind, owner: nat, rights: set<Right>, phys: nat, frames: nat,
                         live: bool, mapCount: nat)

  datatype RelStatus = RelOk | RelStale | RelBusy | RelRights

  datatype MapStatus = MapOk | MapStale | MapOwner | MapRights | MapKind | MapBusy

  // ---- tokens ----

  function Pack(slot: nat, gen: nat): nat {
    slot * WORD + gen
  }

  function SlotOf(tok: nat): nat {
    tok / WORD
  }

  function GenOf(tok: nat): nat {
    tok % WORD
  }

  lemma Unpacked(slot: nat, gen: nat)
    requires gen < WORD
    ensures SlotOf(Pack(slot, gen)) == slot && GenOf(Pack(slot, gen)) == gen
  {
  }

  /** A released slot's next generation: 32 bits wide, and never 0. */
  function NextGen(g: nat): nat {
    if (g + 1) % WORD == 0 then 1 else (g + 1) % WORD
  }

  function GenAfter(g: nat, releases: nat): nat {
    if releases == 0 then g else NextGen(GenAfter(g, releases - 1))
  }

  lemma NextMod(x: nat)
    ensures (x + 1) % (WORD - 1) == if x % (WORD - 1) == WORD - 2 then 0 else x % (WORD - 1) + 1
  {
  }

  lemma {:induction false} GenCycle(g: nat, releases: nat)
    requires 1 <= g < WORD
    ensures GenAfter(g, releases) == (g - 1 + releases) % (WORD - 1) + 1
  {
    if releases > 0 {
      GenCycle(g, releases - 1);
      NextMod(g - 1 + (releases - 1));
      var before := GenAfter(g, releases - 1);
      assert 1 <= before < WORD;
      assert NextGen(before) == if before == WORD - 1 then 1 else before + 1;
    }
  }

  /** A slot's generation comes back exactly every 2^32 - 1 releases: until then an old token stays stale. */
  lemma StaleExactly(g: nat, releases: nat)
    requires 1 <= g < WORD
    ensures GenAfter(g, releases) == g <==> releases % (WORD - 1) == 0
  {
    GenCycle(g, releases);
  }

  // ---- the table ----

  predicate EntryOk(e: Entry) {
    && 1 <= e.generation < WORD
    && e.mapCount <= MAX_PINS
    && if e.live then e.kind == Ram && e.phys > 0 && e.frames > 0 else e.mapCount == 0
  }

  predicate TableOk(t: seq<Entry>) {
    |t| == SLOTS && forall s :: 0 <= s < SLOTS ==> EntryOk(t[s])
  }

  predicate IsLive(t: seq<Entry>, tok: nat) {
    && tok != INVALID
    && SlotOf(tok) < |t|
    && t[SlotOf(tok)].live
    && t[SlotOf(tok)].generation == GenOf(tok)
  }

  function At(t: seq<Entry>, tok: nat): Entry
    requires IsLive(t, tok)
  {
    t[SlotOf(tok)]
  }

  lemma LiveSlot(t: seq<Entry>, slot: nat)
    requires TableOk(t) && slot < SLOTS && t[slot].live
    ensures IsLive(t, Pack(slot, t[slot].generation)) && SlotOf(Pack(slot, t[slot].generation)) == slot
  {
    Unpacked(slot, t[slot].generation);
  }

  /** One slot has one live token. */
  lemma OneTokenPerSlot(t: seq<Entry>, a: nat, b: nat)
    requires IsLive(t, a) && IsLive(t, b) && SlotOf(a) == SlotOf(b)
    ensures a == b
  {
  }

  function Sealed(e: Entry, owner: nat, phys: nat, n: nat, rights: set<Right>): Entry {
    e.(kind := Ram, owner := owner, rights := rights, phys := phys, frames := n, live := true)
  }

  function Dead(e: Entry): Entry {
    Entry(NextGen(e.generation), NoKind, 0, {}, 0, 0, false, 0)
  }

  function LiveCount(t: seq<Entry>): nat {
    if t == [] then 0 else LiveCount(t[..|t| - 1]) + if t[|t| - 1].live then 1 else 0
  }

  lemma {:induction false} LiveCountSet(t: seq<Entry>, i: nat, e: Entry)
    requires i < |t|
    ensures LiveCount(t[i := e]) + (if t[i].live then 1 else 0) == LiveCount(t) + if e.live then 1 else 0
    decreases |t|
  {
    var last := |t| - 1;
    if i < last {
      LiveCountSet(t[..last], i, e);
      assert t[i := e][..last] == t[..last][i := e];
    } else {
      assert t[i := e][..last] == t[..last];
    }
  }

  // ---- who holds what ----

  predicate Holds(e: Entry, owner: nat) {
    e.live && e.owner == owner
  }

  function TokensOf(t: seq<Entry>, owner: nat): nat {
    if t == [] then 0 else TokensOf(t[..|t| - 1], owner) + if Holds(t[|t| - 1], owner) then 1 else 0
  }

  function FramesOf(t: seq<Entry>, owner: nat): nat {
    if t == [] then 0
    else FramesOf(t[..|t| - 1], owner) + if Holds(t[|t| - 1], owner) then t[|t| - 1].frames else 0
  }

  lemma {:induction false} UsageSet(t: seq<Entry>, i: nat, e: Entry, owner: nat)
    requires i < |t|
    ensures TokensOf(t[i := e], owner) + (if Holds(t[i], owner) then 1 else 0)
         == TokensOf(t, owner) + if Holds(e, owner) then 1 else 0
    ensures FramesOf(t[i := e], owner) + (if Holds(t[i], owner) then t[i].frames else 0)
         == FramesOf(t, owner) + if Holds(e, owner) then e.frames else 0
    decreases |t|
  {
    var last := |t| - 1;
    if i < last {
      UsageSet(t[..last], i, e, owner);
      assert t[i := e][..last] == t[..last][i := e];
    } else {
      assert t[i := e][..last] == t[..last];
    }
  }

  /** The live tokens of an owner, in slot order. */
  function OwnerList(t: seq<Entry>, owner: nat): (r: seq<nat>)
    ensures |r| == TokensOf(t, owner)
  {
    if t == [] then []
    else
      OwnerList(t[..|t| - 1], owner)
      + if Holds(t[|t| - 1], owner) then [Pack(|t| - 1, t[|t| - 1].generation)] else []
  }

  /** The frames of all live tokens, each as often as a token names it. */
  ghost function TokenFrames(t: seq<Entry>): multiset<nat> {
    if t == [] then multiset{} else TokenFrames(t[..|t| - 1]) + EntryFrames(t[|t| - 1])
  }

  ghost function EntryFrames(e: Entry): multiset<nat> {
    if e.live then multiset(Run(e.phys, e.frames)) else multiset{}
  }

  lemma Swapped(a: multiset<nat>, b: multiset<nat>, c: multiset<nat>, d: multiset<nat>, more: multiset<nat>)
    requires a + b == c + d
    ensures (a + more) + b == (c + more) + d
  {
    assert (a + more) + b == (a + b) + more;
  }

  lemma {:induction false} TokenFramesSet(t: seq<Entry>, i: nat, e: Entry)
    requires i < |t|
    ensures TokenFrames(t[i := e]) + EntryFrames(t[i]) == TokenFrames(t) + EntryFrames(e)
    decreases |t|
  {
    hide EntryFrames;
    var last := |t| - 1;
    if i < last {
      TokenFramesSet(t[..last], i, e);
      assert t[i := e][..last] == t[..last][i := e];
      Swapped(TokenFrames(t[..last][i := e]), EntryFrames(t[i]), TokenFrames(t[..last]), EntryFrames(e),
              EntryFrames(t[last]));
    } else {
      assert t[i := e][..last] == t[..last];
    }
  }

  lemma {:induction false} TokenFramesHold(t: seq<Entry>, i: nat)
    requires i < |t|
    ensures EntryFrames(t[i]) <= TokenFrames(t)
    decreases |t|
  {
    hide EntryFrames;
    if i < |t| - 1 {
      TokenFramesHold(t[..|t| - 1], i);
    }
  }

  // ---- what each section answers ----

  function ReleaseStatus(t: seq<Entry>, tok: nat, byRight: bool, byOwner: bool, owner: nat): RelStatus {
    if !IsLive(t, tok) then RelStale
    else if byOwner && At(t, tok).owner != owner then RelStale
    else if byRight && Release !in At(t, tok).rights then RelRights
    else if At(t, tok).mapCount != 0 then RelBusy
    else RelOk
  }

  /** The answers to a release, by what the table says of the token. */
  lemma ReleaseExactly(t: seq<Entry>, tok: nat, byRight: bool, byOwner: bool, owner: nat)
    ensures var rc := ReleaseStatus(t, tok, byRight, byOwner, owner);
      var known := IsLive(t, tok) && (byOwner ==> At(t, tok).owner == owner);
      && (rc == RelStale <==> !known)
      && (rc == RelRights <==> known && byRight && Release !in At(t, tok).rights)
      && (rc == RelBusy <==> known && (byRight ==> Release in At(t, tok).rights) && At(t, tok).mapCount > 0)
      && (rc == RelOk <==> known && (byRight ==> Release in At(t, tok).rights) && At(t, tok).mapCount == 0)
  {
    hide IsLive;
  }

  function AcquireStatus(t: seq<Entry>, tok: nat, owner: nat, need: set<Right>): MapStatus {
    if !IsLive(t, tok) then MapStale
    else if At(t, tok).kind != Ram then MapKind
    else if At(t, tok).owner != owner then MapOwner
    else if !(need <= At(t, tok).rights) then MapRights
    else if At(t, tok).mapCount == MAX_PINS then MapBusy
    else MapOk
  }

  /** The answers to a pin, by what the table says of the token. */
  lemma AcquireExactly(t: seq<Entry>, tok: nat, owner: nat, need: set<Right>)
    ensures var rc := AcquireStatus(t, tok, owner, need);
      var mine := IsLive(t, tok) && At(t, tok).kind == Ram && At(t, tok).owner == owner;
      && (rc == MapStale <==> !IsLive(t, tok))
      && (rc == MapKind <==> IsLive(t, tok) && At(t, tok).kind != Ram)
      && (rc == MapOwner <==> IsLive(t, tok) && At(t, tok).kind == Ram && At(t, tok).owner != owner)
      && (rc == MapRights <==> mine && exists r :: r in need && r !in At(t, tok).rights)
      && (rc == MapBusy <==> mine && (forall r :: r in need ==> r in At(t, tok).rights) && At(t, tok).mapCount == 0xFFFF)
      && (rc == MapOk <==> mine && (forall r :: r in need ==> r in At(t, tok).rights) && At(t, tok).mapCount != 0xFFFF)
  {
    hide IsLive;
  }

  function Pinned(e: Entry): Entry {
    e.(mapCount := e.mapCount + 1)
  }

  function Unpinned(e: Entry): Entry {
    if e.mapCount > 0 then e.(mapCount := e.mapCount - 1) else e
  }

  function PinAt(t: seq<Entry>, tok: nat): seq<Entry> {
    if IsLive(t, tok) then t[SlotOf(tok) := Pinned(At(t, tok))] else t
  }

  function UnpinAt(t: seq<Entry>, tok: nat): seq<Entry> {
    if IsLive(t, tok) then t[SlotOf(tok) := Unpinned(At(t, tok))] else t
  }

  function KillAt(t: seq<Entry>, tok: nat): seq<Entry> {
    if IsLive(t, tok) then t[SlotOf(tok) := Dead(At(t, tok))] else t
  }

  class Ledger {
    var table: seq<Entry>
    var live: nat
    var hint: nat

    ghost predicate Valid()
      reads this
    {
      TableOk(table) && live == LiveCount(table) && hint < SLOTS
    }

    constructor ()
      ensures Valid() && LiveCount(table) == 0
      ensures TokenFrames(table) == multiset{} && forall s :: 0 <= s < SLOTS ==> !table[s].live
    {
      table := seq(SLOTS, s requires 0 <= s < SLOTS => Entry(1, NoKind, 0, {}, 0, 0, false, 0));
      live, hint := 0, 0;
      new;
      NoneLive(table);
    }

    /** How many slots s lies past the hint, going round. */
    function Ahead(from: nat, s: nat): int {
      if s >= from then s - from else s + SLOTS - from
    }

    /** The first free slot at or after the hint, going round once; fails only when every slot is live. */
    method ClaimSlot() returns (ok: bool, slot: nat)
      requires Valid()
      modifies this`hint
      ensures Valid()
      ensures ok <==> exists s :: 0 <= s < SLOTS && !table[s].live
      ensures ok ==> slot < SLOTS && !table[slot].live && hint == (slot + 1) % SLOTS
      ensures ok ==> forall s :: 0 <= s < SLOTS && Ahead(old(hint), s) < Ahead(old(hint), slot) ==> table[s].live
      ensures !ok ==> hint == old(hint)
    {
      ok, slot := false, 0;
      var i: nat := 0;
      while i < SLOTS
        invariant i <= SLOTS
        invariant forall k :: old(hint) <= k < old(hint) + i ==> table[k % SLOTS].live
        invariant hint == old(hint)
      {
        var idx := (hint + i) % SLOTS;
        if !table[idx].live {
          forall s | 0 <= s < SLOTS && Ahead(hint, s) < Ahead(hint, idx)
            ensures table[s].live
          {
            var k := hint + Ahead(hint, s);
            assert table[k % SLOTS].live;
          }
          hint := (idx + 1) % SLOTS;
          return true, idx;
        }
        i := i + 1;
      }
      forall s | 0 <= s < SLOTS
        ensures table[s].live
      {
        var k := if s >= hint then s else s + SLOTS;
        assert table[k % SLOTS].live;
      }
    }

    /** Seals n frames into a token no one has seen; fails, leaving the table, when it is full. */
    method SealRam(owner: nat, phys: nat, n: nat, rights: set<Right>) returns (tok: nat)
      requires Valid()
      modifies this
      ensures Valid()
      ensures tok == INVALID <==> phys == 0 || n == 0 || forall s :: 0 <= s < SLOTS ==> old(table)[s].live
      ensures tok == INVALID ==> table == old(table)
      ensures tok != INVALID ==>
        && !IsLive(old(table), tok)
        && SlotOf(tok) < SLOTS
        && !old(table)[SlotOf(tok)].live
        && old(table)[SlotOf(tok)].generation == GenOf(tok)
        && table == old(table)[SlotOf(tok) := Sealed(old(table)[SlotOf(tok)], owner, phys, n, rights)]
        && IsLive(table, tok)
        && At(table, tok).mapCount == 0
    {
      tok := INVALID;
      if phys == 0 || n == 0 {
        return;
      }
      var ok, slot := ClaimSlot();
      if !ok {
        return;
      }
      tok := Pack(slot, table[slot].generation);
      Unpacked(slot, table[slot].generation);
      LiveCountSet(table, slot, Sealed(table[slot], owner, phys, n, rights));
      table := table[slot := Sealed(table[slot], owner, phys, n, rights)];
      live := live + 1;
    }

    /** The ledger's half of every release: the slot dies and its generation moves on. */
    method Drop(tok: nat, byRight: bool, byOwner: bool, owner: nat) returns (rc: RelStatus, phys: nat, n: nat)
      requires Valid()
      modifies this
      ensures Valid()
      ensures rc == ReleaseStatus(old(table), tok, byRight, byOwner, owner)
      ensures rc == RelStale <==> !IsLive(old(table), tok) || (byOwner && At(old(table), tok).owner != owner)
      ensures rc == RelRights || rc == RelBusy || rc == RelOk ==>
        var e := At(old(table), tok);
        && (rc == RelRights <==> byRight && Release !in e.rights)
        && (rc == RelBusy <==> (byRight ==> Release in e.rights) && e.mapCount > 0)
        && (rc == RelOk <==> (byRight ==> Release in e.rights) && e.mapCount == 0)
      ensures rc != RelOk ==> table == old(table)
      ensures rc == RelOk ==>
        && IsLive(old(table), tok)
        && phys == At(old(table), tok).phys && n == At(old(table), tok).frames
        && table == old(table)[SlotOf(tok) := Dead(At(old(table), tok))]
        && !IsLive(table, tok)
        && (var d := table[SlotOf(tok)];
            !d.live && d.kind == NoKind && d.owner == 0 && d.rights == {} && d.phys == d.frames == d.mapCount == 0)
    {
      phys, n := 0, 0;
      if !IsLive(table, tok) {
        return RelStale, phys, n;
      }
      var e := At(table, tok);
      if byOwner && e.owner != owner {
        return RelStale, phys, n;
      }
      if byRight && Release !in e.rights {
        return RelRights, phys, n;
      }
      if e.mapCount != 0 {
        return RelBusy, phys, n;
      }
      rc, phys, n := RelOk, e.phys, e.frames;
      LiveCountSet(table, SlotOf(tok), Dead(e));
      table := table[SlotOf(tok) := Dead(e)];
      live := live - 1;
    }

    method MapAcquire(tok: nat, owner: nat, need: set<Right>) returns (rc: MapStatus, phys: nat, n: nat)
      requires Valid()
      modifies this`table
      ensures Valid()
      ensures rc == AcquireStatus(old(table), tok, owner, need)
      ensures rc != MapOk ==> table == old(table)
      ensures rc == MapOk ==>
        && phys == At(old(table), tok).phys && n == At(old(table), tok).frames
        && table == PinAt(old(table), tok)
    {
      phys, n := 0, 0;
      if !IsLive(table, tok) {
        return MapStale, phys, n;
      }
      var e := At(table, tok);
      if e.kind != Ram {
        return MapKind, phys, n;
      }
      if e.owner != owner {
        return MapOwner, phys, n;
      }
      if !(need <= e.rights) {
        return MapRights, phys, n;
      }
      if e.mapCount == MAX_PINS {
        return MapBusy, phys, n;
      }
      LiveCountSet(table, SlotOf(tok), Pinned(e));
      table := table[SlotOf(tok) := Pinned(e)];
      rc, phys, n := MapOk, e.phys, e.frames;
    }

    method MapRelease(tok: nat)
      requires Valid()
      modifies this`table
      ensures Valid() && table == UnpinAt(old(table), tok)
    {
      if IsLive(table, tok) {
        var e := At(table, tok);
        LiveCountSet(table, SlotOf(tok), Unpinned(e));
        table := table[SlotOf(tok) := Unpinned(e)];
      }
    }

    /** The frames of a live RAM token. */
    method RamInfo(tok: nat) returns (ok: bool, phys: nat, n: nat)
      ensures ok <==> IsLive(table, tok) && At(table, tok).kind == Ram
      ensures ok ==> phys == At(table, tok).phys && n == At(table, tok).frames
    {
      if !IsLive(table, tok) || At(table, tok).kind != Ram {
        return false, 0, 0;
      }
      return true, At(table, tok).phys, At(table, tok).frames;
    }

    /** The owner's first tokens in slot order, at most max of them. */
    method OwnerTokens(owner: nat, max: nat) returns (out: seq<nat>)
      requires Valid()
      ensures |out| == if |OwnerList(table, owner)| < max then |OwnerList(table, owner)| else max
      ensures out == OwnerList(table, owner)[..|out|]
    {
      out := [];
      var slot: nat := 0;
      while slot < SLOTS && |out| < max
        invariant slot <= SLOTS && |out| <= max
        invariant out == OwnerList(table[..slot], owner)
      {
        assert table[..slot + 1][..slot] == table[..slot];
        if Holds(table[slot], owner) {
          out := out + [Pack(slot, table[slot].generation)];
        }
        slot := slot + 1;
      }
      OwnerListPrefix(table, slot, owner);
      assert table[..SLOTS] == table;
    }

    method OwnerUsage(owner: nat) returns (frames: nat, tokens: nat)
      requires Valid()
      ensures frames == FramesOf(table, owner) && tokens == TokensOf(table, owner)
    {
      frames, tokens := 0, 0;
      var slot: nat := 0;
      while slot < SLOTS
        invariant slot <= SLOTS
        invariant frames == FramesOf(table[..slot], owner) && tokens == TokensOf(table[..slot], owner)
      {
        assert table[..slot + 1][..slot] == table[..slot];
        if Holds(table[slot], owner) {
          frames, tokens := frames + table[slot].frames, tokens + 1;
        }
        slot := slot + 1;
      }
      assert table[..SLOTS] == table;
    }
  }

  lemma {:induction false} NoneLive(t: seq<Entry>)
    requires forall s :: 0 <= s < |t| ==> !t[s].live
    ensures LiveCount(t) == 0 && TokenFrames(t) == multiset{}
  {
    if t != [] {
      NoneLive(t[..|t| - 1]);
    }
  }

  lemma {:induction false} OwnerListPrefix(t: seq<Entry>, n: nat, owner: nat)
    requires n <= |t|
    ensures OwnerList(t[..n], owner) <= OwnerList(t, owner)
    decreases |t|
  {
    if n == |t| {
      assert t[..n] == t;
    } else {
      OwnerListPrefix(t[..|t| - 1], n, owner);
      assert t[..|t| - 1][..n] == t[..n];
    }
  }

  /** Every listed token is a live token of the owner, at a slot of its own. */
  lemma {:induction false} OwnerListLive(t: seq<Entry>, n: nat, owner: nat, i: nat)
    requires TableOk(t) && n <= SLOTS && i < |OwnerList(t[..n], owner)|
    ensures IsLive(t, OwnerList(t[..n], owner)[i]) && At(t, OwnerList(t[..n], owner)[i]).owner == owner
    ensures SlotOf(OwnerList(t[..n], owner)[i]) < n
    ensures forall j :: 0 <= j < i ==> SlotOf(OwnerList(t[..n], owner)[j]) < SlotOf(OwnerList(t[..n], owner)[i])
  {
    assert t[..n][..n - 1] == t[..n - 1];
    if i < |OwnerList(t[..n - 1], owner)| {
      OwnerListLive(t, n - 1, owner, i);
    } else {
      LiveSlot(t, n - 1);
      forall j | 0 <= j < i
        ensures SlotOf(OwnerList(t[..n], owner)[j]) < n - 1
      {
        OwnerListLive(t, n - 1, owner, j);
      }
    }
  }
}
