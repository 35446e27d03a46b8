/** How far a load has got: the tokens it holds, the mappings it made, and what undoing them gives back. */
module LoadState {
  import opened Bytes
  import opened TokenLedger
  import opened FrameMemory
  import opened PageTables
  import opened Mappings

  /** A token the load took: its ledger entry without pins, its address and mode, and the bytes it must hold. */
  datatype Layer = Layer(tok: nat, ent: Entry, virt: nat, mode: Mode, data: seq<byte>)

  /** Unchanged, or free before and after. */
  predicate SameOrDead(e: Entry, f: Entry) {
    e == f || (!e.live && !f.live)
  }

  ghost predicate Avoids(layers: seq<Layer>, slot: nat) {
    forall j :: 0 <= j < |layers| ==> SlotOf(layers[j].tok) != slot
  }

  predicate OneHeld(t0: seq<Entry>, t: seq<Entry>, x: Layer, pins: nat) {
    && x.tok != INVALID && SlotOf(x.tok) < |t| == |t0|
    && !t0[SlotOf(x.tok)].live
    && x.ent.live && x.ent.generation == GenOf(x.tok)
    && t[SlotOf(x.tok)] == x.ent.(mapCount := pins)
  }

  /** The ledger is t0 plus the tokens of the layers, the first m of them pinned once. */
  ghost predicate Holding(t0: seq<Entry>, t: seq<Entry>, layers: seq<Layer>, m: nat) {
    && |t| == |t0|
    && (forall s :: 0 <= s < |t| && Avoids(layers, s) ==> SameOrDead(t0[s], t[s]))
    && (forall j :: 0 <= j < |layers| ==> OneHeld(t0, t, layers[j], if j < m then 1 else 0))
    && (forall i, j :: 0 <= i < j < |layers| ==> SlotOf(layers[i].tok) != SlotOf(layers[j].tok))
  }

  lemma HoldingNone(t: seq<Entry>)
    ensures Holding(t, t, [], 0)
  {
  }

  lemma HoldMint(t0: seq<Entry>, t: seq<Entry>, u: seq<Entry>, layers: seq<Layer>, m: nat, x: Layer, owner: nat,
                 start: nat, n: nat, rights: set<Right>)
    requires Holding(t0, t, layers, m) && m <= |layers| && TokenLedger.TableOk(t)
    requires Minted(t, u, x.tok, owner, start, n, rights)
    requires x.ent == Sealed(t[SlotOf(x.tok)], owner, start, n, rights)
    ensures Holding(t0, u, layers + [x], m)
  {
    var more, slot := layers + [x], SlotOf(x.tok);
    forall j | 0 <= j < |layers|
      ensures SlotOf(layers[j].tok) != slot
    {
      assert OneHeld(t0, t, layers[j], if j < m then 1 else 0);
    }
    assert Avoids(layers, slot);
    forall s | 0 <= s < |u| && Avoids(more, s)
      ensures SameOrDead(t0[s], u[s])
    {
      assert more[|layers|] == x;
      assert forall j :: 0 <= j < |layers| ==> more[j] == layers[j];
      assert Avoids(layers, s);
    }
    forall j | 0 <= j < |more|
      ensures OneHeld(t0, u, more[j], if j < m then 1 else 0)
    {
      if j < |layers| {
        assert OneHeld(t0, t, layers[j], if j < m then 1 else 0);
      }
    }
  }

  /** Changing the pins of layer i only. */
  lemma HoldPins(t0: seq<Entry>, t: seq<Entry>, layers: seq<Layer>, m: nat, i: nat, pins: nat, u: seq<Entry>, m2: nat)
    requires Holding(t0, t, layers, m) && i < |layers|
    requires u == t[SlotOf(layers[i].tok) := layers[i].ent.(mapCount := pins)]
    requires (m2 == i + 1 && m == i && pins == 1) || (m2 == i && m == i + 1 && pins == 0)
    ensures Holding(t0, u, layers, m2)
  {
    forall s | 0 <= s < |u| && Avoids(layers, s)
      ensures SameOrDead(t0[s], u[s])
    {
      assert SlotOf(layers[i].tok) != s;
    }
    forall j | 0 <= j < |layers|
      ensures OneHeld(t0, u, layers[j], if j < m2 then 1 else 0)
    {
      assert OneHeld(t0, t, layers[j], if j < m then 1 else 0);
      assert i != j ==> SlotOf(layers[i].tok) != SlotOf(layers[j].tok);
    }
  }

  lemma LayerLive(t0: seq<Entry>, t: seq<Entry>, layers: seq<Layer>, m: nat, i: nat)
    requires Holding(t0, t, layers, m) && i < |layers|
    ensures IsLive(t, layers[i].tok)
    ensures At(t, layers[i].tok) == layers[i].ent.(mapCount := if i < m then 1 else 0)
  {
    assert OneHeld(t0, t, layers[i], if i < m then 1 else 0);
  }

  lemma HoldPin(t0: seq<Entry>, t: seq<Entry>, layers: seq<Layer>, m: nat)
    requires Holding(t0, t, layers, m) && m < |layers|
    ensures Holding(t0, PinAt(t, layers[m].tok), layers, m + 1)
  {
    hide Holding;
    LayerLive(t0, t, layers, m, m);
    HoldPins(t0, t, layers, m, m, 1, PinAt(t, layers[m].tok), m + 1);
  }

  lemma HoldUnpin(t0: seq<Entry>, t: seq<Entry>, layers: seq<Layer>, m: nat)
    requires Holding(t0, t, layers, m + 1) && m < |layers|
    ensures Holding(t0, UnpinAt(t, layers[m].tok), layers, m)
  {
    hide Holding;
    LayerLive(t0, t, layers, m + 1, m);
    HoldPins(t0, t, layers, m + 1, m, 0, UnpinAt(t, layers[m].tok), m);
  }

  lemma HoldKill(t0: seq<Entry>, t: seq<Entry>, layers: seq<Layer>)
    requires Holding(t0, t, layers, 0) && |layers| > 0
    ensures var last := |layers| - 1;
      && ReleaseStatus(t, layers[last].tok, false, false, 0) == RelOk
      && Holding(t0, KillAt(t, layers[last].tok), layers[..last], 0)
  {
    var last := |layers| - 1;
    LayerLive(t0, t, layers, 0, last);
    var u, less := KillAt(t, layers[last].tok), layers[..last];
    forall s | 0 <= s < |u| && Avoids(less, s)
      ensures SameOrDead(t0[s], u[s])
    {
      if s == SlotOf(layers[last].tok) {
        assert OneHeld(t0, t, layers[last], 0);
      } else {
        assert forall j :: 0 <= j < last ==> less[j] == layers[j];
        assert Avoids(layers, s);
      }
    }
    forall j | 0 <= j < |less|
      ensures OneHeld(t0, u, less[j], 0)
    {
      assert OneHeld(t0, t, layers[j], 0);
      assert SlotOf(layers[j].tok) != SlotOf(layers[last].tok);
    }
  }

  /** With every layer released the owners hold what they held. */
  lemma {:induction false} SameUse(t0: seq<Entry>, t: seq<Entry>, who: nat)
    requires |t0| == |t| && forall s :: 0 <= s < |t| ==> SameOrDead(t0[s], t[s])
    ensures TokensOf(t, who) == TokensOf(t0, who) && FramesOf(t, who) == FramesOf(t0, who)
    ensures TokenFrames(t) == TokenFrames(t0)
  {
    if t != [] {
      SameUse(t0[..|t0| - 1], t[..|t| - 1], who);
    }
  }

  // ---- records ----

  function LiveSet(recs: seq<MapRec>): set<MapRec> {
    set r | r in recs && r.live
  }

  function RecOf(root: nat, owner: nat, x: Layer): MapRec {
    MapRec(root, owner, x.virt, x.tok, x.ent.frames, true)
  }

  function RecSet(root: nat, owner: nat, layers: seq<Layer>, m: nat): set<MapRec>
    requires m <= |layers|
  {
    if m == 0 then {} else RecSet(root, owner, layers, m - 1) + {RecOf(root, owner, layers[m - 1])}
  }

  lemma {:induction false} RecSetPrefix(root: nat, owner: nat, layers: seq<Layer>, more: seq<Layer>, m: nat)
    requires m <= |layers|
    ensures RecSet(root, owner, layers + more, m) == RecSet(root, owner, layers, m)
  {
    if m > 0 {
      RecSetPrefix(root, owner, layers, more, m - 1);
    }
  }

  lemma LiveAdd(recs: seq<MapRec>, i: nat, r: MapRec)
    requires i < |recs| && !recs[i].live && r.live
    ensures LiveSet(recs[i := r]) == LiveSet(recs) + {r}
  {
    var after := recs[i := r];
    forall x | x in recs && x.live
      ensures x in after
    {
      var j :| 0 <= j < |recs| && recs[j] == x;
      assert after[j] == x;
    }
    assert after[i] == r;
  }

  /** One space has one record at an address. */
  lemma UniqueRec(recs: seq<MapRec>, modes: seq<Mode>, leaf: Leaves, via: map<(nat, nat), nat>, t: seq<Entry>,
                  spaces: map<nat, nat>, i: nat, j: nat)
    requires Mapped(recs, modes, leaf, via, t, spaces, {}) && i < |recs| && j < |recs| && recs[i].live && recs[j].live
    requires recs[i].root == recs[j].root && recs[i].virt == recs[j].virt
    ensures i == j
  {
    hide IsLive, PageShown;
    assert RecOk(recs[i], modes[i], t, spaces) && RecOk(recs[j], modes[j], t, spaces);
    LiveFrames(t, recs[i].tok);
    LiveFrames(t, recs[j].tok);
    var p := (recs[i].root, Vpn(recs[i].virt));
    assert Covers(recs[i], p) && Covers(recs[j], p);
    assert Whole(recs[i], i, via) && Whole(recs[j], j, via);
  }

  lemma LiveFrames(t: seq<Entry>, tok: nat)
    requires TokenLedger.TableOk(t) && IsLive(t, tok)
    ensures At(t, tok).frames > 0
  {
  }

  lemma LiveDrop(recs: seq<MapRec>, modes: seq<Mode>, leaf: Leaves, via: map<(nat, nat), nat>, t: seq<Entry>,
                 spaces: map<nat, nat>, i: nat)
    requires Mapped(recs, modes, leaf, via, t, spaces, {}) && i < |recs| && recs[i].live
    ensures LiveSet(Killed(recs, {i})) == LiveSet(recs) - {recs[i]}
  {
    hide Mapped;
    var after := Killed(recs, {i});
    forall x | x in recs && x.live && x != recs[i]
      ensures x in after
    {
      var j :| 0 <= j < |recs| && recs[j] == x;
      assert after[j] == x;
    }
    forall x | x in after && x.live
      ensures x in recs && x != recs[i]
    {
      var j :| 0 <= j < |after| && after[j] == x;
      if x == recs[i] {
        UniqueRec(recs, modes, leaf, via, t, spaces, i, j);
      }
    }
  }

  // ---- bytes ----

  /** The n frames from start hold the data, then zeros. */
  ghost predicate HoldsBytes(ram: seq<FrameBytes>, start: nat, n: nat, data: seq<byte>) {
    && start + n <= |ram| && |data| <= n * FRAME
    && forall b: nat :: b < n * FRAME ==> ByteAt(ram, start, b) == if b < |data| then data[b] else 0
  }

  /** Byte b of a run of frames. */
  function ByteAt(ram: seq<FrameBytes>, start: nat, b: nat): int {
    if start + b / FRAME < |ram| then ram[start + b / FRAME][b % FRAME] else -1
  }

  lemma ZeroBytes(ram: seq<FrameBytes>, start: nat, n: nat)
    requires start + n <= |ram| && forall f :: start <= f < start + n ==> ram[f] == Zeros(FRAME)
    ensures HoldsBytes(ram, start, n, [])
  {
  }

  lemma SameBytes(ram: seq<FrameBytes>, more: seq<FrameBytes>, start: nat, n: nat, data: seq<byte>)
    requires HoldsBytes(ram, start, n, data) && |more| == |ram|
    requires forall f :: start <= f < start + n ==> more[f] == ram[f]
    ensures HoldsBytes(more, start, n, data)
  {
    forall b: nat | b < n * FRAME
      ensures ByteAt(more, start, b) == ByteAt(ram, start, b)
    {
    }
  }

  lemma OneByte(ram: seq<FrameBytes>, start: nat, n: nat, data: seq<byte>, x: byte)
    requires HoldsBytes(ram, start, n, data) && |data| < n * FRAME
    ensures var f, i := start + |data| / FRAME, |data| % FRAME;
      f < |ram| && HoldsBytes(ram[f := ram[f][i := x]], start, n, data + [x])
  {
    var f, i := start + |data| / FRAME, |data| % FRAME;
    var after := ram[f := ram[f][i := x]];
    forall b: nat | b < n * FRAME
      ensures ByteAt(after, start, b) == if b < |data| + 1 then (data + [x])[b] else 0
    {
      assert ByteAt(ram, start, b) == if b < |data| then data[b] else 0;
    }
  }
}
