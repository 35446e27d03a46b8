/** When a load cannot fail: room in memory, in the ledger, among the mapping records and in the address space. */
module LoadRoom {
  import opened PhysMem
  import opened TokenLedger
  import opened FrameMemory
  import opened PageTables
  import opened Mappings
  import opened AddressSpaces

  function LiveRecs(recs: seq<MapRec>): nat {
    if recs == [] then 0 else LiveRecs(recs[..|recs| - 1]) + if recs[|recs| - 1].live then 1 else 0
  }

  lemma {:induction false} LiveRecsSet(recs: seq<MapRec>, i: nat, r: MapRec)
    requires i < |recs|
    ensures LiveRecs(recs[i := r]) + (if recs[i].live then 1 else 0) == LiveRecs(recs) + if r.live then 1 else 0
    decreases |recs|
  {
    var last := |recs| - 1;
    if i < last {
      LiveRecsSet(recs[..last], i, r);
      assert recs[i := r][..last] == recs[..last][i := r];
    } else {
      assert recs[i := r][..last] == recs[..last];
    }
  }

  lemma {:induction false} AllRecsLive(recs: seq<MapRec>)
    requires forall j :: 0 <= j < |recs| ==> recs[j].live
    ensures LiveRecs(recs) == |recs|
  {
    if recs != [] {
      AllRecsLive(recs[..|recs| - 1]);
    }
  }

  lemma {:induction false} AllSlotsLive(t: seq<Entry>)
    requires forall s :: 0 <= s < |t| ==> t[s].live
    ensures LiveCount(t) == |t|
  {
    if t != [] {
      AllSlotsLive(t[..|t| - 1]);
    }
  }

  /** One free run of so many frames, and so many free slots of the ledger and of the owner's and all records. */
  ghost predicate Room(bits: seq<bool>, t: seq<Entry>, recs: seq<MapRec>, owner: nat, frames: nat, tokens: nat, maps: nat) {
    && (exists r: nat :: FreeRun(bits, r, frames))
    && LiveCount(t) + tokens <= |t|
    && OwnerRecs(recs, owner) + maps <= MAX_PER_OWNER
    && LiveRecs(recs) + maps <= |recs|
  }

  /** A token of n frames can be had. */
  lemma RoomForToken(bits: seq<bool>, t: seq<Entry>, recs: seq<MapRec>, owner: nat, n: nat, rest: nat, tokens: nat, maps: nat)
    requires Room(bits, t, recs, owner, n + rest, tokens + 1, maps)
    ensures exists r: nat :: FreeRun(bits, r, n)
    ensures exists s :: 0 <= s < |t| && !t[s].live
  {
    hide LiveCount, OwnerRecs, LiveRecs;
    var r: nat :| FreeRun(bits, r, n + rest);
    assert FreeRun(bits, r, n);
    if forall s :: 0 <= s < |t| ==> t[s].live {
      AllSlotsLive(t);
    }
  }

  lemma RoomAfterToken(bits: seq<bool>, now: seq<bool>, t: seq<Entry>, u: seq<Entry>, recs: seq<MapRec>, owner: nat, n: nat,
                       rest: nat, tokens: nat, maps: nat, tok: nat, start: nat, rights: set<Right>)
    requires Room(bits, t, recs, owner, n + rest, tokens + 1, maps)
    requires RunsKept(bits, now, n) && Minted(t, u, tok, owner, start, n, rights)
    ensures Room(now, u, recs, owner, rest, tokens, maps)
  {
    hide LiveCount, OwnerRecs, LiveRecs;
    var r: nat :| FreeRun(bits, r, n + rest);
    assert FreeRun(now, r + n, (n + rest) - n);
    LiveCountSet(t, SlotOf(tok), Sealed(t[SlotOf(tok)], owner, start, n, rights));
  }

  /** A record can be had. */
  lemma RoomForRecord(bits: seq<bool>, t: seq<Entry>, recs: seq<MapRec>, owner: nat, frames: nat, tokens: nat, maps: nat)
    requires Room(bits, t, recs, owner, frames, tokens, maps + 1)
    ensures OwnerRecs(recs, owner) < MAX_PER_OWNER && FirstFree(recs) < |recs|
  {
    hide LiveCount, OwnerRecs, LiveRecs;
    if FirstFree(recs) == |recs| {
      AllRecsLive(recs);
    }
  }

  lemma RoomAfterRecord(bits: seq<bool>, now: seq<bool>, t: seq<Entry>, tok: nat, recs: seq<MapRec>, rec: MapRec, n: nat,
                        rest: nat, tokens: nat, maps: nat)
    requires Room(bits, t, recs, rec.owner, n + rest, tokens, maps + 1) && rec.live && IsLive(t, tok)
    requires RunsKept(bits, now, n) && FirstFree(recs) < |recs|
    ensures Room(now, PinAt(t, tok), recs[FirstFree(recs) := rec], rec.owner, rest, tokens, maps)
  {
    hide LiveCount, OwnerRecs, LiveRecs;
    var r: nat :| FreeRun(bits, r, n + rest);
    assert FreeRun(now, r + n, (n + rest) - n);
    LiveCountSet(t, SlotOf(tok), Pinned(At(t, tok)));
    OwnerRecsSet(recs, FirstFree(recs), rec, rec.owner);
    LiveRecsSet(recs, FirstFree(recs), rec);
  }

  /** Frames are left after page tables were taken. */
  lemma RoomLeft(bits: seq<bool>, now: seq<bool>, t: seq<Entry>, recs: seq<MapRec>, owner: nat, n: nat, rest: nat,
                 tokens: nat, maps: nat)
    requires Room(bits, t, recs, owner, n + rest, tokens, maps) && RunsKept(bits, now, n) && rest > 0
    ensures CountFree(now) > 0
  {
    hide LiveCount, OwnerRecs, LiveRecs, CountFree;
    var r: nat :| FreeRun(bits, r, n + rest);
    assert FreeRun(now, r + n, (n + rest) - n);
    RunCounts(now, r + n, rest);
  }

  /** Pages, rights, address and permissions that a mapping can have. */
  predicate Mappable(pages: nat, rights: set<Right>, virt: nat, perms: nat) {
    && pages > 0 && perms in {1, 3, 5} && Need(perms) <= rights
    && virt % FRAME == 0 && USER_BASE * FRAME <= virt && virt + pages * FRAME <= USER_TOP * FRAME
  }

  lemma NoRefusal(recs: seq<MapRec>, t: seq<Entry>, owner: nat, virt: nat, tok: nat, perms: nat, pages: nat,
                  rights: set<Right>)
    requires Mappable(pages, rights, virt, perms) && IsLive(t, tok)
    requires At(t, tok).kind == Ram && At(t, tok).owner == owner && At(t, tok).rights == rights
    requires At(t, tok).frames == pages && At(t, tok).mapCount == 0
    requires OwnerRecs(recs, owner) < MAX_PER_OWNER && FirstFree(recs) < |recs|
    ensures Refusal(recs, t, true, owner, virt, tok, perms) == XasOk
  {
    hide OwnerRecs, FirstFree;
  }

  /** None of these pages is mapped. */
  predicate Vacant(leaf: Leaves, root: nat, virt: nat, pages: nat) {
    FirstTaken(leaf, root, Vpn(virt), pages) == pages
  }

  predicate Apart(virt: nat, pages: nat, virt2: nat, pages2: nat) {
    virt + pages * FRAME <= virt2 || virt2 + pages2 * FRAME <= virt
  }

  /** The same of these pages are mapped. */
  ghost predicate SamePages(leaf: Leaves, now: Leaves, root: nat, virt: nat, pages: nat) {
    forall p: (nat, nat) :: InRange(p, root, Vpn(virt), pages) ==> (p in leaf <==> p in now)
  }

  lemma SameTaken(leaf: Leaves, now: Leaves, root: nat, virt: nat, pages: nat)
    requires SamePages(leaf, now, root, virt, pages)
    ensures FirstTaken(now, root, Vpn(virt), pages) == FirstTaken(leaf, root, Vpn(virt), pages)
  {
    var i := FirstTaken(leaf, root, Vpn(virt), pages);
    if i < pages {
      assert InRange((root, Vpn(virt) + i), root, Vpn(virt), pages);
    }
    FirstTakenIs(now, root, Vpn(virt), pages, i);
  }

  /** Mapping pages elsewhere changes none of these. */
  lemma PagesStay(leaf: Leaves, root: nat, virt: nat, pages: nat, virt2: nat, pages2: nat, frame: nat, write: bool,
                  exec: bool)
    requires Apart(virt, pages, virt2, pages2) && virt % FRAME == 0 && virt2 % FRAME == 0
    ensures SamePages(leaf, AddPages(leaf, root, Vpn(virt2), pages2, frame, write, exec), root, virt, pages)
  {
    hide AddPages;
    forall p: (nat, nat) | InRange(p, root, Vpn(virt), pages)
      ensures !InRange(p, root, Vpn(virt2), pages2)
    {
    }
  }

  /** A part of an image: how much it needs, and what must be left after it. */
  datatype Part = Part(root: nat, owner: nat, pages: nat, rights: set<Right>, virt: nat, perms: nat, rest: nat, parts: nat)

  predicate Placed(t: seq<Entry>, tok: nat, x: Part) {
    && IsLive(t, tok)
    && At(t, tok).kind == Ram && At(t, tok).owner == x.owner && At(t, tok).rights == x.rights
    && At(t, tok).frames == x.pages && At(t, tok).mapCount == 0
  }

  ghost predicate CanGrant(bits: seq<bool>, t: seq<Entry>, recs: seq<MapRec>, x: Part) {
    && x.rest > 0 && Mappable(x.pages, x.rights, x.virt, x.perms)
    && Room(bits, t, recs, x.owner, x.pages + (3 * x.pages + x.rest), x.parts + 1, x.parts + 1)
  }

  ghost predicate CanMap(bits: seq<bool>, t: seq<Entry>, recs: seq<MapRec>, x: Part) {
    && x.rest > 0 && Mappable(x.pages, x.rights, x.virt, x.perms)
    && Room(bits, t, recs, x.owner, 3 * x.pages + x.rest, x.parts, x.parts + 1)
  }

  ghost predicate RoomAfter(bits: seq<bool>, t: seq<Entry>, recs: seq<MapRec>, x: Part) {
    Room(bits, t, recs, x.owner, x.rest, x.parts, x.parts)
  }

  /** Where there is room a token is to be had. */
  lemma GrantWorks(bits: seq<bool>, t: seq<Entry>, recs: seq<MapRec>, x: Part)
    requires CanGrant(bits, t, recs, x)
    ensures x.pages > 0 && (exists r: nat :: FreeRun(bits, r, x.pages)) && exists s :: 0 <= s < |t| && !t[s].live
  {
    hide Room;
    RoomForToken(bits, t, recs, x.owner, x.pages, 3 * x.pages + x.rest, x.parts, x.parts + 1);
  }

  lemma Granted(bits: seq<bool>, now: seq<bool>, t: seq<Entry>, u: seq<Entry>, recs: seq<MapRec>, x: Part, tok: nat,
                start: nat)
    requires CanGrant(bits, t, recs, x)
    requires RunsKept(bits, now, x.pages) && Minted(t, u, tok, x.owner, start, x.pages, x.rights)
    ensures CanMap(now, u, recs, x)
  {
    hide Room, Mappable, RunsKept, Minted;
    RoomAfterToken(bits, now, t, u, recs, x.owner, x.pages, 3 * x.pages + x.rest, x.parts, x.parts + 1, tok, start, x.rights);
  }

  /** Mapping a fresh token where there is room fails only if one of its pages is mapped already. */
  lemma MapWorks(rc: XasStatus, bits: seq<bool>, now: seq<bool>, t: seq<Entry>, recs: seq<MapRec>, leaf: Leaves, x: Part,
                 tok: nat)
    requires CanMap(bits, t, recs, x) && Placed(t, tok, x)
    requires Refusal(recs, t, true, x.owner, x.virt, tok, x.perms) == XasOk ==>
      MapAnswer(rc, leaf, x.root, x.virt, PagesOf(t, tok), bits, now, CountFree(now))
    requires rc == XasOk ==> Vacant(leaf, x.root, x.virt, x.pages)
    ensures Refusal(recs, t, true, x.owner, x.virt, tok, x.perms) == XasOk
    ensures if Vacant(leaf, x.root, x.virt, x.pages) then rc == XasOk && FirstFree(recs) < |recs| else rc == XasBusy
    ensures rc == XasOk ==>
      var rec := MapRec(x.root, x.owner, x.virt, tok, x.pages, true);
      RoomAfter(now, PinAt(t, tok), recs[FirstFree(recs) := rec], x)
  {
    hide Room, RunsKept, CountFree, Refusal, OwnerRecs, FirstFree, PinAt, FirstTaken;
    RoomForRecord(bits, t, recs, x.owner, 3 * x.pages + x.rest, x.parts, x.parts);
    NoRefusal(recs, t, x.owner, x.virt, tok, x.perms, x.pages, x.rights);
    RoomLeft(bits, now, t, recs, x.owner, 3 * x.pages, x.rest, x.parts, x.parts + 1);
    RoomAfterRecord(bits, now, t, tok, recs, MapRec(x.root, x.owner, x.virt, tok, x.pages, true), 3 * x.pages, x.rest,
                    x.parts, x.parts);
  }
}
