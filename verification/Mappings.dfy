/** The mapping records, and what ties them to the page tables and the ledger. */
module Mappings {
  import opened Intervals
  import opened TokenLedger
  import opened FrameMemory
  import opened PageTables

  const MAX_MAPS: nat := 1024
  const MAX_PER_OWNER: nat := 64

  /** One mapping of a whole token at a virtual address. */
  datatype MapRec = MapRec(root: nat, owner: nat, virt: nat, tok: nat, pages: nat, live: bool)

  datatype Mode = Mode(write: bool, exec: bool)

  /** The page number of a virtual address. */
  function Vpn(virt: nat): nat {
    virt / FRAME
  }

  predicate Covers(r: MapRec, p: (nat, nat)) {
    r.live && InRange(p, r.root, Vpn(r.virt), r.pages)
  }

  /** A mapping is bounded by its owner's token, and is never both writable and executable. */
  predicate RecOk(r: MapRec, m: Mode, t: seq<Entry>, spaces: map<nat, nat>) {
    r.live ==>
      && r.root in spaces && spaces[r.root] == r.owner
      && IsLive(t, r.tok) && At(t, r.tok).owner == r.owner && At(t, r.tok).frames == r.pages
      && r.virt % FRAME == 0 && USER_BASE <= Vpn(r.virt) && Vpn(r.virt) + r.pages <= USER_TOP
      && Allowed(m, At(t, r.tok).rights)
  }

  predicate Allowed(m: Mode, rights: set<Right>) {
    && {Map, Read} <= rights
    && (m.write ==> Write in rights)
    && (m.exec ==> Execute in rights)
    && !(m.write && m.exec)
  }

  /** Every page of record i is mapped by it. */
  ghost predicate Whole(r: MapRec, i: nat, via: map<(nat, nat), nat>) {
    forall p: (nat, nat) :: Covers(r, p) ==> p in via && via[p] == i
  }

  /** Page p is mapped exactly as its record says. */
  predicate PageShown(recs: seq<MapRec>, modes: seq<Mode>, leaf: Leaves, via: map<(nat, nat), nat>, t: seq<Entry>,
                      p: (nat, nat))
    requires |modes| == |recs|
  {
    && p in via && p in leaf && via[p] < |recs|
    && (var i := via[p];
        && Covers(recs[i], p)
        && IsLive(t, recs[i].tok)
        && leaf[p] == Page(At(t, recs[i].tok).phys + (p.1 - Vpn(recs[i].virt)), modes[i].write, modes[i].exec))
  }

  /** The user pages are exactly the union of the live records, which are disjoint. */
  ghost predicate Shown(recs: seq<MapRec>, modes: seq<Mode>, leaf: Leaves, via: map<(nat, nat), nat>, t: seq<Entry>) {
    && |modes| == |recs|
    && via.Keys == leaf.Keys
    && (forall p :: p in leaf ==> PageShown(recs, modes, leaf, via, t, p))
    && (forall i :: 0 <= i < |recs| ==> Whole(recs[i], i, via))
  }

  function PinCount(recs: seq<MapRec>, slot: nat): nat {
    if recs == [] then 0
    else PinCount(recs[..|recs| - 1], slot) + Pin(recs[|recs| - 1], slot)
  }

  function Pin(r: MapRec, slot: nat): nat {
    if r.live && SlotOf(r.tok) == slot then 1 else 0
  }

  /** Each token's mapping count is its number of live records, plus the pin of a mapping being made. */
  ghost predicate Pins(recs: seq<MapRec>, t: seq<Entry>, extra: set<nat>) {
    forall s :: 0 <= s < |t| ==> t[s].mapCount == PinCount(recs, s) + if s in extra then 1 else 0
  }

  ghost predicate RecsOk(recs: seq<MapRec>, modes: seq<Mode>, t: seq<Entry>, spaces: map<nat, nat>) {
    |modes| == |recs| && forall i :: 0 <= i < |recs| ==> RecOk(recs[i], modes[i], t, spaces)
  }

  ghost predicate Mapped(recs: seq<MapRec>, modes: seq<Mode>, leaf: Leaves, via: map<(nat, nat), nat>, t: seq<Entry>,
                         spaces: map<nat, nat>, extra: set<nat>) {
    && TokenLedger.TableOk(t)
    && RecsOk(recs, modes, t, spaces)
    && Shown(recs, modes, leaf, via, t)
    && Pins(recs, t, extra)
  }

  lemma {:induction false} PinCountSet(recs: seq<MapRec>, i: nat, r: MapRec, slot: nat)
    requires i < |recs|
    ensures PinCount(recs[i := r], slot) + Pin(recs[i], slot) == PinCount(recs, slot) + Pin(r, slot)
    decreases |recs|
  {
    var last := |recs| - 1;
    if i < last {
      PinCountSet(recs[..last], i, r, slot);
      assert recs[i := r][..last] == recs[..last][i := r];
    } else {
      assert recs[i := r][..last] == recs[..last];
    }
  }

  lemma {:induction false} PinCountHas(recs: seq<MapRec>, i: nat)
    requires i < |recs| && recs[i].live
    ensures PinCount(recs, SlotOf(recs[i].tok)) >= 1
    decreases |recs|
  {
    if i < |recs| - 1 {
      PinCountHas(recs[..|recs| - 1], i);
    }
  }

  lemma {:induction false} PinCountMax(recs: seq<MapRec>, slot: nat)
    ensures PinCount(recs, slot) <= |recs|
  {
    if recs != [] {
      PinCountMax(recs[..|recs| - 1], slot);
    }
  }

  lemma {:induction false} PinCountNone(recs: seq<MapRec>, slot: nat)
    requires forall i :: 0 <= i < |recs| && recs[i].live ==> SlotOf(recs[i].tok) != slot
    ensures PinCount(recs, slot) == 0
  {
    if recs != [] {
      PinCountNone(recs[..|recs| - 1], slot);
    }
  }

  // ---- changes that keep the mappings ----

  /** The entries of mapped tokens say the same in u as in t, apart from the count. */
  ghost predicate SameTokens(recs: seq<MapRec>, t: seq<Entry>, u: seq<Entry>) {
    forall i :: 0 <= i < |recs| && recs[i].live && IsLive(t, recs[i].tok) ==>
      IsLive(u, recs[i].tok) && At(u, recs[i].tok) == At(t, recs[i].tok).(mapCount := At(u, recs[i].tok).mapCount)
  }

  lemma SameTokensKeep(recs: seq<MapRec>, modes: seq<Mode>, leaf: Leaves, via: map<(nat, nat), nat>, t: seq<Entry>,
                       u: seq<Entry>, spaces: map<nat, nat>)
    requires RecsOk(recs, modes, t, spaces) && Shown(recs, modes, leaf, via, t) && SameTokens(recs, t, u)
    ensures RecsOk(recs, modes, u, spaces) && Shown(recs, modes, leaf, via, u)
  {
    hide Whole, IsLive;
    forall i | 0 <= i < |recs|
      ensures RecOk(recs[i], modes[i], u, spaces)
    {
      assert RecOk(recs[i], modes[i], t, spaces);
    }
    forall p | p in leaf
      ensures PageShown(recs, modes, leaf, via, u, p)
    {
      assert PageShown(recs, modes, leaf, via, t, p);
      assert Covers(recs[via[p]], p);
    }
  }

  /** Whatever other CPUs do to unpinned tokens. */
  lemma OthersKeep(recs: seq<MapRec>, modes: seq<Mode>, leaf: Leaves, via: map<(nat, nat), nat>, t: seq<Entry>,
                   u: seq<Entry>, spaces: map<nat, nat>, extra: set<nat>)
    requires Mapped(recs, modes, leaf, via, t, spaces, extra) && PinsKept(t, u) && TokenLedger.TableOk(u)
    ensures Mapped(recs, modes, leaf, via, u, spaces, extra)
  {
    hide Shown, RecOk;
    forall i | 0 <= i < |recs| && recs[i].live && IsLive(t, recs[i].tok)
      ensures IsLive(u, recs[i].tok) && At(u, recs[i].tok) == At(t, recs[i].tok)
    {
      PinCountHas(recs, i);
    }
    SameTokensKeep(recs, modes, leaf, via, t, u, spaces);
  }

  /** Pinning and unpinning change only the count. */
  lemma RepinKeep(recs: seq<MapRec>, modes: seq<Mode>, leaf: Leaves, via: map<(nat, nat), nat>, t: seq<Entry>,
                  tok: nat, n: nat, spaces: map<nat, nat>, before: set<nat>, after: set<nat>)
    requires Mapped(recs, modes, leaf, via, t, spaces, before) && IsLive(t, tok) && n <= MAX_PINS
    requires after == before + {SlotOf(tok)} || after == before - {SlotOf(tok)}
    requires n == PinCount(recs, SlotOf(tok)) + if SlotOf(tok) in after then 1 else 0
    ensures Mapped(recs, modes, leaf, via, t[SlotOf(tok) := At(t, tok).(mapCount := n)], spaces, after)
  {
    hide Shown, RecOk;
    SameTokensKeep(recs, modes, leaf, via, t, t[SlotOf(tok) := At(t, tok).(mapCount := n)], spaces);
  }

  // ---- a new record ----

  ghost function ViaWith(via: map<(nat, nat), nat>, leaf: Leaves, r: MapRec, i: nat): map<(nat, nat), nat>
    requires forall p :: p in leaf ==> p in via || Covers(r, p)
  {
    map p | p in leaf :: if Covers(r, p) then i else via[p]
  }

  lemma NewRecord(recs: seq<MapRec>, modes: seq<Mode>, leaf: Leaves, via: map<(nat, nat), nat>, t: seq<Entry>,
                  spaces: map<nat, nat>, i: nat, r: MapRec, m: Mode, leaf2: Leaves)
    requires Mapped(recs, modes, leaf, via, t, spaces, {SlotOf(r.tok)})
    requires i < |recs| && !recs[i].live && r.live && RecOk(r, m, t, spaces)
    requires forall p: (nat, nat) :: p in leaf ==> !InRange(p, r.root, Vpn(r.virt), r.pages)
    requires leaf2 == AddPages(leaf, r.root, Vpn(r.virt), r.pages, At(t, r.tok).phys, m.write, m.exec)
    ensures forall p :: p in leaf2 ==> p in via || Covers(r, p)
    ensures Mapped(recs[i := r], modes[i := m], leaf2, ViaWith(via, leaf2, r, i), t, spaces, {})
  {
    hide RecOk, AddPages, Shown;
    RecOne(r, m, t, spaces);
    var recs2 := recs[i := r];
    forall s | 0 <= s < |t|
      ensures t[s].mapCount == PinCount(recs2, s)
    {
      PinCountSet(recs, i, r, s);
    }
    NewShown(recs, modes, leaf, via, t, i, r, m, leaf2);
  }

  lemma RecOne(r: MapRec, m: Mode, t: seq<Entry>, spaces: map<nat, nat>)
    requires RecOk(r, m, t, spaces) && r.live
    ensures IsLive(t, r.tok)
  {
  }

  lemma NewShown(recs: seq<MapRec>, modes: seq<Mode>, leaf: Leaves, via: map<(nat, nat), nat>, t: seq<Entry>,
                 i: nat, r: MapRec, m: Mode, leaf2: Leaves)
    requires Shown(recs, modes, leaf, via, t) && i < |recs| && !recs[i].live && r.live && IsLive(t, r.tok)
    requires forall p: (nat, nat) :: p in leaf ==> !InRange(p, r.root, Vpn(r.virt), r.pages)
    requires leaf2 == AddPages(leaf, r.root, Vpn(r.virt), r.pages, At(t, r.tok).phys, m.write, m.exec)
    ensures forall p :: p in leaf2 ==> p in via || Covers(r, p)
    ensures Shown(recs[i := r], modes[i := m], leaf2, ViaWith(via, leaf2, r, i), t)
  {
    hide IsLive, AddPages, PageShown, Whole;
    forall p | p in leaf2
      ensures p in via || Covers(r, p)
    {
      assert p in via.Keys <==> p in leaf.Keys;
    }
    var via2 := ViaWith(via, leaf2, r, i);
    var recs2, modes2 := recs[i := r], modes[i := m];
    forall p | p in leaf2
      ensures PageShown(recs2, modes2, leaf2, via2, t, p)
    {
      assert p in leaf ==> PageShown(recs, modes, leaf, via, t, p);
      NewPage(recs, modes, leaf, via, t, i, r, m, leaf2, p);
    }
    forall j | 0 <= j < |recs2|
      ensures Whole(recs2[j], j, via2)
    {
      assert Whole(recs[j], j, via);
      NewWhole(recs, leaf, via, i, r, leaf2, j);
    }
    assert via2.Keys == leaf2.Keys;
  }

  lemma NewPage(recs: seq<MapRec>, modes: seq<Mode>, leaf: Leaves, via: map<(nat, nat), nat>, t: seq<Entry>,
                i: nat, r: MapRec, m: Mode, leaf2: Leaves, p: (nat, nat))
    requires |modes| == |recs| && i < |recs| && !recs[i].live && r.live && IsLive(t, r.tok)
    requires leaf2 == AddPages(leaf, r.root, Vpn(r.virt), r.pages, At(t, r.tok).phys, m.write, m.exec)
    requires p in leaf2 && (p in leaf ==> PageShown(recs, modes, leaf, via, t, p))
    requires forall q :: q in leaf2 ==> q in via || Covers(r, q)
    ensures PageShown(recs[i := r], modes[i := m], leaf2, ViaWith(via, leaf2, r, i), t, p)
  {
    hide IsLive, AddPages;
    if !Covers(r, p) {
      assert via[p] != i;
    }
  }

  lemma NewWhole(recs: seq<MapRec>, leaf: Leaves, via: map<(nat, nat), nat>, i: nat, r: MapRec, leaf2: Leaves, j: nat)
    requires i < |recs| && j < |recs| && Whole(recs[j], j, via) && via.Keys == leaf.Keys
    requires forall p: (nat, nat) :: p in leaf ==> !InRange(p, r.root, Vpn(r.virt), r.pages)
    requires forall p: (nat, nat) :: p in leaf2 <==> p in leaf || InRange(p, r.root, Vpn(r.virt), r.pages)
    requires r.live && forall p :: p in leaf2 ==> p in via || Covers(r, p)
    ensures Whole(recs[i := r][j], j, ViaWith(via, leaf2, r, i))
  {
    forall p: (nat, nat) | Covers(recs[i := r][j], p)
      ensures p in leaf2 && (Covers(r, p) <==> i == j)
    {
      assert j != i ==> p in via.Keys;
    }
  }

  // ---- a record gone ----

  ghost function ViaWithout(via: map<(nat, nat), nat>, r: MapRec): map<(nat, nat), nat> {
    map p | p in via && !Covers(r, p) :: via[p]
  }

  lemma GoneShown(recs: seq<MapRec>, modes: seq<Mode>, leaf: Leaves, via: map<(nat, nat), nat>, t: seq<Entry>, i: nat)
    requires Shown(recs, modes, leaf, via, t) && i < |recs| && recs[i].live
    ensures Shown(recs[i := recs[i].(live := false)], modes,
                  RemovePages(leaf, recs[i].root, Vpn(recs[i].virt), recs[i].pages), ViaWithout(via, recs[i]), t)
  {
    hide IsLive, Whole;
    var r := recs[i];
    var recs2 := recs[i := r.(live := false)];
    var leaf2 := RemovePages(leaf, r.root, Vpn(r.virt), r.pages);
    var via2 := ViaWithout(via, r);
    assert via2.Keys == leaf2.Keys;
    forall p | p in leaf2
      ensures PageShown(recs2, modes, leaf2, via2, t, p)
    {
      assert PageShown(recs, modes, leaf, via, t, p);
      assert via[p] != i;
    }
    forall j | 0 <= j < |recs2|
      ensures Whole(recs2[j], j, via2)
    {
      assert Whole(recs[j], j, via) && Whole(r, i, via);
      GoneWhole(recs, via, i, j);
    }
  }

  lemma GoneWhole(recs: seq<MapRec>, via: map<(nat, nat), nat>, i: nat, j: nat)
    requires i < |recs| && j < |recs| && Whole(recs[j], j, via) && Whole(recs[i], i, via)
    ensures Whole(recs[i := recs[i].(live := false)][j], j, ViaWithout(via, recs[i]))
  {
  }

  /** The pages go, then one pin, then the record. */
  lemma GoneRecord(recs: seq<MapRec>, modes: seq<Mode>, leaf: Leaves, via: map<(nat, nat), nat>, t: seq<Entry>,
                   spaces: map<nat, nat>, i: nat)
    requires Mapped(recs, modes, leaf, via, t, spaces, {}) && i < |recs| && recs[i].live
    ensures IsLive(t, recs[i].tok) && At(t, recs[i].tok).mapCount >= 1
    ensures Mapped(recs[i := recs[i].(live := false)], modes,
                   RemovePages(leaf, recs[i].root, Vpn(recs[i].virt), recs[i].pages), ViaWithout(via, recs[i]),
                   UnpinAt(t, recs[i].tok), spaces, {})
  {
    hide RecOk, Shown;
    var r := recs[i];
    var recs2 := recs[i := r.(live := false)];
    var leaf2 := RemovePages(leaf, r.root, Vpn(r.virt), r.pages);
    RecLive(recs, modes, t, spaces, i);
    PinCountHas(recs, i);
    GoneShown(recs, modes, leaf, via, t, i);
    forall j | 0 <= j < |recs2|
      ensures RecOk(recs2[j], modes[j], t, spaces)
    {
      assert RecOk(recs[j], modes[j], t, spaces);
      DeadRec(r, modes[i], t, spaces);
    }
    forall s | 0 <= s < |t|
      ensures t[s].mapCount == PinCount(recs2, s) + Pin(r, s)
    {
      PinCountSet(recs, i, r.(live := false), s);
    }
    assert Mapped(recs2, modes, leaf2, ViaWithout(via, r), t, spaces, {SlotOf(r.tok)});
    RepinKeep(recs2, modes, leaf2, ViaWithout(via, r), t, r.tok, At(t, r.tok).mapCount - 1, spaces,
              {SlotOf(r.tok)}, {});
  }

  lemma DeadRec(r: MapRec, m: Mode, t: seq<Entry>, spaces: map<nat, nat>)
    ensures RecOk(r.(live := false), m, t, spaces)
  {
  }

  lemma RecLive(recs: seq<MapRec>, modes: seq<Mode>, t: seq<Entry>, spaces: map<nat, nat>, i: nat)
    requires RecsOk(recs, modes, t, spaces) && i < |recs| && recs[i].live
    ensures IsLive(t, recs[i].tok) && At(t, recs[i].tok).owner == recs[i].owner
    ensures recs[i].root in spaces && spaces[recs[i].root] == recs[i].owner
    ensures USER_BASE <= Vpn(recs[i].virt) && Vpn(recs[i].virt) + recs[i].pages <= USER_TOP
  {
    assert RecOk(recs[i], modes[i], t, spaces);
  }

  // ---- sets of records gone ----

  /** The pages of records outside `gone`. */
  function Kept<V>(m: map<(nat, nat), V>, via: map<(nat, nat), nat>, gone: set<nat>): map<(nat, nat), V> {
    map p | p in m && (p in via ==> via[p] !in gone) :: m[p]
  }

  function Killed(recs: seq<MapRec>, gone: set<nat>): (r: seq<MapRec>)
    ensures |r| == |recs|
    ensures forall i :: 0 <= i < |recs| ==> r[i] == if i in gone then recs[i].(live := false) else recs[i]
  {
    seq(|recs|, i requires 0 <= i < |recs| => if i in gone then recs[i].(live := false) else recs[i])
  }

  lemma KeptOne(recs: seq<MapRec>, modes: seq<Mode>, leaf: Leaves, via: map<(nat, nat), nat>, t: seq<Entry>, i: nat)
    requires Shown(recs, modes, leaf, via, t) && i < |recs| && recs[i].live
    ensures RemovePages(leaf, recs[i].root, Vpn(recs[i].virt), recs[i].pages) == Kept(leaf, via, {i})
    ensures ViaWithout(via, recs[i]) == Kept(via, via, {i})
  {
    hide IsLive;
    var r := recs[i];
    assert Whole(r, i, via);
    forall p | p in leaf
      ensures p in via && (Covers(r, p) <==> via[p] == i)
    {
      assert PageShown(recs, modes, leaf, via, t, p);
    }
    assert forall p :: p in via <==> p in leaf.Keys;
    assert ViaWithout(via, r) == Kept(via, via, {i});
    assert RemovePages(leaf, r.root, Vpn(r.virt), r.pages) == Kept(leaf, via, {i});
  }

  lemma KeptMore<V>(m: map<(nat, nat), V>, via: map<(nat, nat), nat>, gone: set<nat>, more: set<nat>)
    requires m.Keys <= via.Keys
    ensures Kept(Kept(m, via, gone), Kept(via, via, gone), more) == Kept(m, via, gone + more)
  {
    forall p | p in m
      ensures p in via
    {
      assert p in m.Keys;
    }
  }

  function ByToken(recs: seq<MapRec>, tok: nat, n: nat): set<nat> {
    set i | 0 <= i < n && i < |recs| && recs[i].live && recs[i].tok == tok
  }

  function ByRoot(recs: seq<MapRec>, root: nat, n: nat): set<nat> {
    set i | 0 <= i < n && i < |recs| && recs[i].live && recs[i].root == root
  }

  // ---- isolation ----

  lemma {:induction false} TwoHolders(t: seq<Entry>, a: nat, b: nat, f: nat)
    requires a < b < |t| && f in EntryFrames(t[a]) && f in EntryFrames(t[b])
    ensures TokenFrames(t)[f] >= 2
    decreases |t|
  {
    hide EntryFrames;
    var last := |t| - 1;
    if b < last {
      TwoHolders(t[..last], a, b, f);
    } else {
      TokenFramesHold(t[..last], a);
    }
  }

  lemma HeldFrame(t: seq<Entry>, tok: nat, k: nat)
    requires IsLive(t, tok) && k < At(t, tok).frames
    ensures At(t, tok).phys + k in EntryFrames(At(t, tok)) && TokenFrames(t)[At(t, tok).phys + k] >= 1
  {
    TokenFramesHold(t, SlotOf(tok));
    assert At(t, tok).phys + k in Run(At(t, tok).phys, At(t, tok).frames);
  }

  /** A mapped page reaches a frame of one live token of the space's owner, within its rights, and nothing else. */
  lemma PageIsolated(recs: seq<MapRec>, modes: seq<Mode>, leaf: Leaves, via: map<(nat, nat), nat>, t: seq<Entry>,
                     spaces: map<nat, nat>, bits: seq<bool>, reserved: set<nat>, tables: set<nat>,
                     flight: multiset<nat>, p: (nat, nat))
    requires Mapped(recs, modes, leaf, via, t, spaces, {}) && Balanced(bits, reserved, t, tables, flight) && p in leaf
    ensures p in via && via[p] < |recs| && IsLive(t, recs[via[p]].tok)
    ensures var e := At(t, recs[via[p]].tok);
      && leaf[p].Present? && leaf[p].user && !(leaf[p].write && !leaf[p].nx)
      && leaf[p].frame in EntryFrames(e)
      && p.0 in spaces && e.owner == spaces[p.0] && {Map, Read} <= e.rights
      && (leaf[p].write ==> Write in e.rights) && (!leaf[p].nx ==> Execute in e.rights)
      && e.mapCount >= 1
    ensures leaf[p].frame < |bits| && !bits[leaf[p].frame]
    ensures leaf[p].frame !in tables && leaf[p].frame !in reserved && leaf[p].frame !in flight
  {
    hide Balanced, Whole, EntryFrames, TokenFrames;
    assert PageShown(recs, modes, leaf, via, t, p);
    var i := via[p];
    var f := leaf[p].frame;
    assert RecOk(recs[i], modes[i], t, spaces);
    PinCountHas(recs, i);
    HeldFrame(t, recs[i].tok, p.1 - Vpn(recs[i].virt));
    InOnePlace(bits, reserved, t, tables, flight, f);
    assert multiset(tables)[f] == 0 && multiset(reserved)[f] == 0;
  }

  /** Two pages on one frame belong to one token, so to one owner. */
  lemma NoSharing(recs: seq<MapRec>, modes: seq<Mode>, leaf: Leaves, via: map<(nat, nat), nat>, t: seq<Entry>,
                  spaces: map<nat, nat>, bits: seq<bool>, reserved: set<nat>, tables: set<nat>,
                  flight: multiset<nat>, p: (nat, nat), q: (nat, nat))
    requires Mapped(recs, modes, leaf, via, t, spaces, {}) && Balanced(bits, reserved, t, tables, flight)
    requires p in leaf && q in leaf && leaf[p].Present? && leaf[q].Present? && leaf[p].frame == leaf[q].frame
    ensures p.0 in spaces && q.0 in spaces && spaces[p.0] == spaces[q.0]
    ensures p in via && q in via && via[p] < |recs| && via[q] < |recs| && recs[via[p]].tok == recs[via[q]].tok
  {
    hide Balanced, EntryFrames, TokenFrames, Mapped;
    PageIsolated(recs, modes, leaf, via, t, spaces, bits, reserved, tables, flight, p);
    PageIsolated(recs, modes, leaf, via, t, spaces, bits, reserved, tables, flight, q);
    var f := leaf[p].frame;
    var a, b := recs[via[p]].tok, recs[via[q]].tok;
    InOnePlace(bits, reserved, t, tables, flight, f);
    if SlotOf(a) < SlotOf(b) {
      TwoHolders(t, SlotOf(a), SlotOf(b), f);
    } else if SlotOf(b) < SlotOf(a) {
      TwoHolders(t, SlotOf(b), SlotOf(a), f);
    } else {
      OneTokenPerSlot(t, a, b);
    }
  }
}
