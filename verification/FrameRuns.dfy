/**
 Interleavings: any number of CPUs, each lock-protected section one step.  What a
 CPU carries from one of its sections to the next is in `flights`.
 */
module FrameRuns {
  import opened Intervals
  import opened PhysMem
  import opened TokenLedger
  import opened FrameMemory

  datatype Pool = Pool(bits: seq<bool>, free: nat, table: seq<Entry>, tables: set<nat>, flights: seq<Flight>)

  datatype Section =
    | Alloc(start: nat, n: nat)
    | Free(i: nat)
    | Seal(i: nat, slot: nat, owner: nat, rights: set<Right>)
    | Drop(tok: nat)
    | Pin(tok: nat)
    | Unpin(tok: nat)
    | Link(i: nat)
    | Unlink(frame: nat)

  /** Whether some CPU can run the section now. */
  predicate Enabled(p: Pool, s: Section) {
    match s
    case Alloc(start, n) => start > 0 && n > 0 && FreeRun(p.bits, start, n)
    case Free(i) => i < |p.flights|
    case Seal(i, slot, owner, rights) =>
      i < |p.flights| && p.flights[i].start > 0 && p.flights[i].n > 0 && slot < |p.table| && !p.table[slot].live
    case Drop(tok) => IsLive(p.table, tok) && At(p.table, tok).mapCount == 0
    case Pin(tok) => IsLive(p.table, tok) && At(p.table, tok).mapCount < MAX_PINS
    case Unpin(tok) => IsLive(p.table, tok)
    case Link(i) => i < |p.flights| && p.flights[i].n == 1
    case Unlink(frame) => frame in p.tables
  }

  function Next(p: Pool, s: Section): Pool
    requires Enabled(p, s)
  {
    match s
    case Alloc(start, n) =>
      p.(bits := Fill(p.bits, start, n, false), free := if n <= p.free then p.free - n else 0,
         flights := p.flights + [Flight(start, n)])
    case Free(i) =>
      p.(bits := Fill(p.bits, p.flights[i].start, p.flights[i].n, true), free := p.free + p.flights[i].n,
         flights := Without(p.flights, i))
    case Seal(i, slot, owner, rights) =>
      p.(table := p.table[slot := Sealed(p.table[slot], owner, p.flights[i].start, p.flights[i].n, rights)],
         flights := Without(p.flights, i))
    case Drop(tok) =>
      p.(table := p.table[SlotOf(tok) := Dead(At(p.table, tok))],
         flights := p.flights + [Flight(At(p.table, tok).phys, At(p.table, tok).frames)])
    case Pin(tok) => p.(table := p.table[SlotOf(tok) := Pinned(At(p.table, tok))])
    case Unpin(tok) => p.(table := p.table[SlotOf(tok) := Unpinned(At(p.table, tok))])
    case Link(i) => p.(tables := p.tables + {p.flights[i].start}, flights := Without(p.flights, i))
    case Unlink(frame) => p.(tables := p.tables - {frame}, flights := p.flights + [Flight(frame, 1)])
  }

  ghost predicate Inv(p: Pool, reserved: set<nat>) {
    && Balanced(p.bits, reserved, p.table, p.tables, FlightFrames(p.flights))
    && p.free == CountFree(p.bits)
    && TableOk(p.table)
  }

  lemma Taken(f: seq<Flight>, i: nat)
    requires i < |f|
    ensures multiset(Run(f[i].start, f[i].n)) <= FlightFrames(f)
    ensures FlightFrames(f) - multiset(Run(f[i].start, f[i].n)) == FlightFrames(Without(f, i))
  {
    FlightTake(f, i);
  }

  lemma AllocKeeps(p: Pool, reserved: set<nat>, start: nat, n: nat)
    requires Inv(p, reserved) && Enabled(p, Alloc(start, n))
    ensures Inv(Next(p, Alloc(start, n)), reserved)
  {
    hide Balanced, FlightFrames, CountFree, TableOk;
    AllocBalance(p.bits, start, n, reserved, p.table, p.tables, FlightFrames(p.flights));
    FlightAdd(p.flights, Flight(start, n));
    CountTaken(p.bits, start, n);
    RunCounts(p.bits, start, n);
  }

  lemma FreeKeeps(p: Pool, reserved: set<nat>, i: nat)
    requires Inv(p, reserved) && Enabled(p, Free(i))
    ensures Inv(Next(p, Free(i)), reserved)
  {
    hide Balanced, FlightFrames, CountFree, TableOk, Without;
    var x := p.flights[i];
    Taken(p.flights, i);
    FreeBalance(p.bits, x.start, x.n, reserved, p.table, p.tables, FlightFrames(p.flights));
    InUse(p.bits, reserved, p.table, p.tables, FlightFrames(p.flights), Run(x.start, x.n));
    if x.n > 0 {
      forall f: nat | x.start <= f < x.start + x.n
        ensures !p.bits[f]
      {
        assert f in Run(x.start, x.n);
      }
      CountFreed(p.bits, x.start, x.n);
    } else {
      EmptyFill(p.bits, x.start, x.n);
    }
  }

  lemma LedgerKeeps(p: Pool, reserved: set<nat>, s: Section)
    requires Inv(p, reserved) && Enabled(p, s) && (s.Seal? || s.Drop? || s.Pin? || s.Unpin?)
    ensures Inv(Next(p, s), reserved)
  {
    hide Balanced, FlightFrames, CountFree, Without;
    var flight := FlightFrames(p.flights);
    match s {
      case Seal(i, slot, owner, rights) =>
        var x := p.flights[i];
        Taken(p.flights, i);
        SealTakes(p.table, slot, owner, x.start, x.n, rights, flight, p.bits, reserved, p.tables);
      case Drop(tok) =>
        DropGives(p.table, tok, flight, p.bits, reserved, p.tables);
        FlightAdd(p.flights, Flight(At(p.table, tok).phys, At(p.table, tok).frames));
      case Pin(tok) =>
        SameFrames(p.bits, reserved, p.table, p.tables, flight, SlotOf(tok), Pinned(At(p.table, tok)));
      case Unpin(tok) =>
        SameFrames(p.bits, reserved, p.table, p.tables, flight, SlotOf(tok), Unpinned(At(p.table, tok)));
    }
  }

  lemma LinkKeeps(p: Pool, reserved: set<nat>, s: Section)
    requires Inv(p, reserved) && Enabled(p, s) && (s.Link? || s.Unlink?)
    ensures Inv(Next(p, s), reserved)
  {
    hide Balanced, FlightFrames, CountFree, TableOk, Without, Run;
    var flight := FlightFrames(p.flights);
    match s {
      case Link(i) =>
        var f := p.flights[i].start;
        OneFrame(f);
        Taken(p.flights, i);
        assert f in multiset{f};
        TableBalance(p.bits, reserved, p.table, p.tables, flight, f);
      case Unlink(f) =>
        OneFrame(f);
        UntableBalance(p.bits, reserved, p.table, p.tables, flight, {f});
        assert multiset({f}) == multiset{f};
        FlightAdd(p.flights, Flight(f, 1));
    }
  }

  ghost predicate IsRun(run: seq<Pool>, sections: seq<Section>) {
    && |run| == |sections| + 1
    && forall i :: 0 <= i < |sections| ==> Enabled(run[i], sections[i]) && run[i + 1] == Next(run[i], sections[i])
  }

  /** In every interleaving each frame has exactly one holder, and the free counter counts the free bits. */
  lemma {:induction false} FramesConserved(run: seq<Pool>, sections: seq<Section>, reserved: set<nat>, k: nat, f: nat)
    requires IsRun(run, sections) && Inv(run[0], reserved) && k < |run|
    ensures Inv(run[k], reserved)
    ensures run[k].free == CountFree(run[k].bits)
    ensures multiset(reserved)[f] + TokenFrames(run[k].table)[f] + multiset(run[k].tables)[f]
          + FlightFrames(run[k].flights)[f] == if f < |run[k].bits| && !run[k].bits[f] then 1 else 0
  {
    hide Balanced, FlightFrames, CountFree, TableOk, TokenFrames, Enabled, Next;
    if k > 0 {
      FramesConserved(run, sections, reserved, k - 1, f);
      var p, s := run[k - 1], sections[k - 1];
      assert Enabled(p, s) && run[k] == Next(p, s);
      match s {
        case Alloc(start, n) => AllocKeeps(p, reserved, start, n);
        case Free(i) => FreeKeeps(p, reserved, i);
        case Link(_) => LinkKeeps(p, reserved, s);
        case Unlink(_) => LinkKeeps(p, reserved, s);
        case _ => LedgerKeeps(p, reserved, s);
      }
    }
    InOnePlace(run[k].bits, reserved, run[k].table, run[k].tables, FlightFrames(run[k].flights), f);
  }

  /** No section of any CPU releases a pinned token. */
  lemma PinnedSurvive(p: Pool, s: Section, tok: nat)
    requires TableOk(p.table) && Enabled(p, s) && IsLive(p.table, tok) && At(p.table, tok).mapCount > 0
    ensures IsLive(Next(p, s).table, tok)
    ensures var e := At(Next(p, s).table, tok);
      e.phys == At(p.table, tok).phys && e.frames == At(p.table, tok).frames && e.owner == At(p.table, tok).owner
  {
  }

  // ---- the sections as the methods run them ----

  /** What some CPU asks of the bitmap or the ledger next. */
  datatype Ask =
    | AskFrames(n: nat)
    | GiveFrames(i: nat)
    | AskToken(i: nat, owner: nat, rights: set<Right>)
    | GiveToken(tok: nat, byRight: bool, byOwner: bool, owner: nat)
    | AskPin(tok: nat, owner: nat, need: set<Right>)
    | GivePin(tok: nat)

  ghost function Now(phys: Phys, ledger: Ledger, tables: set<nat>, flights: seq<Flight>): Pool
    reads phys, ledger
  {
    Pool(phys.bits, phys.free, ledger.table, tables, flights)
  }

  /** Nothing happened, or one step of the relation did. */
  ghost predicate Moved(p: Pool, q: Pool, steps: seq<Section>) {
    if steps == [] then q == p else |steps| == 1 && Enabled(p, steps[0]) && q == Next(p, steps[0])
  }

  /** Every section the bitmap and the ledger run is a step of the relation, or changes nothing. */
  method Perform(phys: Phys, ledger: Ledger, ghost tables: set<nat>, flights: seq<Flight>, ask: Ask, ghost reserved: set<nat>)
    returns (after: seq<Flight>, ghost steps: seq<Section>)
    requires phys.Valid() && ledger.Valid() && Inv(Now(phys, ledger, tables, flights), reserved)
    requires forall i :: 0 <= i < |flights| ==> flights[i].start > 0 && flights[i].n > 0
    modifies phys, ledger
    ensures phys.Valid() && ledger.Valid() && Inv(Now(phys, ledger, tables, after), reserved)
    ensures forall i :: 0 <= i < |after| ==> after[i].start > 0 && after[i].n > 0
    ensures Moved(old(Now(phys, ledger, tables, flights)), Now(phys, ledger, tables, after), steps)
  {
    hide Balanced, FlightFrames, CountFree, LiveCount;
    ghost var p := Now(phys, ledger, tables, flights);
    after, steps := flights, [];
    match ask {
      case AskFrames(n) =>
        var start := phys.AllocFrames(n);
        if start != 0 {
          after, steps := flights + [Flight(start, n)], [Alloc(start, n)];
          AllocKeeps(p, reserved, start, n);
        }
      case GiveFrames(i) =>
        if i < |flights| {
          FreeInside(p, reserved, i);
          FreeKeeps(p, reserved, i);
          phys.FreeFrames(flights[i].start, flights[i].n);
          after, steps := Without(flights, i), [Free(i)];
        }
      case AskToken(i, owner, rights) =>
        if i < |flights| {
          var tok := ledger.SealRam(owner, flights[i].start, flights[i].n, rights);
          if tok != INVALID {
            after, steps := Without(flights, i), [Seal(i, SlotOf(tok), owner, rights)];
            LedgerKeeps(p, reserved, steps[0]);
          }
        }
      case _ =>
        after, steps := LedgerSection(phys, ledger, tables, flights, ask, reserved);
    }
  }

  method LedgerSection(phys: Phys, ledger: Ledger, ghost tables: set<nat>, flights: seq<Flight>, ask: Ask,
                       ghost reserved: set<nat>)
    returns (after: seq<Flight>, ghost steps: seq<Section>)
    requires phys.Valid() && ledger.Valid() && Inv(Now(phys, ledger, tables, flights), reserved)
    requires forall i :: 0 <= i < |flights| ==> flights[i].start > 0 && flights[i].n > 0
    requires ask.GiveToken? || ask.AskPin? || ask.GivePin?
    modifies ledger
    ensures phys.Valid() && ledger.Valid() && Inv(Now(phys, ledger, tables, after), reserved)
    ensures forall i :: 0 <= i < |after| ==> after[i].start > 0 && after[i].n > 0
    ensures Moved(old(Now(phys, ledger, tables, flights)), Now(phys, ledger, tables, after), steps)
  {
    hide Balanced, FlightFrames, CountFree, LiveCount;
    ghost var p := Now(phys, ledger, tables, flights);
    after, steps := flights, [];
    match ask {
      case GiveToken(tok, byRight, byOwner, owner) =>
        var rc, start, n := ledger.Drop(tok, byRight, byOwner, owner);
        if rc == RelOk {
          after, steps := flights + [Flight(start, n)], [Drop(tok)];
          LedgerKeeps(p, reserved, Drop(tok));
        }
      case AskPin(tok, owner, need) =>
        var rc, start, n := ledger.MapAcquire(tok, owner, need);
        if rc == MapOk {
          steps := [Pin(tok)];
          LedgerKeeps(p, reserved, Pin(tok));
        }
      case GivePin(tok) =>
        ledger.MapRelease(tok);
        if IsLive(p.table, tok) {
          steps := [Unpin(tok)];
          LedgerKeeps(p, reserved, Unpin(tok));
        }
    }
  }

  lemma FreeInside(p: Pool, reserved: set<nat>, i: nat)
    requires Inv(p, reserved) && i < |p.flights| && p.flights[i].n > 0
    ensures p.flights[i].start + p.flights[i].n <= |p.bits|
  {
    hide Balanced, FlightFrames, CountFree, TableOk;
    var x := p.flights[i];
    Taken(p.flights, i);
    InUse(p.bits, reserved, p.table, p.tables, FlightFrames(p.flights), Run(x.start, x.n));
    assert x.start + x.n - 1 in Run(x.start, x.n);
  }

  /** So whatever CPUs ask, in any order, makes a run, and in each of its states every frame has one holder. */
  method Interleave(phys: Phys, ledger: Ledger, ghost tables: set<nat>, asks: seq<Ask>, ghost reserved: set<nat>)
    returns (flights: seq<Flight>, ghost run: seq<Pool>, ghost sections: seq<Section>)
    requires phys.Valid() && ledger.Valid() && Inv(Now(phys, ledger, tables, []), reserved)
    modifies phys, ledger
    ensures phys.Valid() && ledger.Valid() && IsRun(run, sections)
    ensures run[0] == old(Now(phys, ledger, tables, [])) && run[|sections|] == Now(phys, ledger, tables, flights)
    ensures Inv(run[|sections|], reserved)
  {
    hide Inv, Enabled, Next;
    flights, sections := [], [];
    run := [Now(phys, ledger, tables, [])];
    var i := 0;
    while i < |asks|
      invariant i <= |asks| && phys.Valid() && ledger.Valid() && Inv(Now(phys, ledger, tables, flights), reserved)
      invariant forall j :: 0 <= j < |flights| ==> flights[j].start > 0 && flights[j].n > 0
      invariant IsRun(run, sections) && run[0] == old(Now(phys, ledger, tables, []))
      invariant run[|sections|] == Now(phys, ledger, tables, flights)
    {
      ghost var p, steps := Now(phys, ledger, tables, flights), [];
      flights, steps := Perform(phys, ledger, tables, flights, asks[i], reserved);
      if steps != [] {
        RunMore(run, sections, Now(phys, ledger, tables, flights), steps[0]);
        run, sections := run + [Now(phys, ledger, tables, flights)], sections + steps;
      }
      i := i + 1;
    }
  }

  lemma RunMore(run: seq<Pool>, sections: seq<Section>, q: Pool, s: Section)
    requires IsRun(run, sections) && Enabled(run[|sections|], s) && q == Next(run[|sections|], s)
    ensures IsRun(run + [q], sections + [s])
  {
    hide Enabled, Next;
    var more, all := run + [q], sections + [s];
    forall i | 0 <= i < |all|
      ensures Enabled(more[i], all[i]) && more[i + 1] == Next(more[i], all[i])
    {
      if i < |sections| {
        assert more[i] == run[i] && more[i + 1] == run[i + 1] && all[i] == sections[i];
      }
    }
  }

  // ---- stale tokens ----

  /** How often the slot was released in the first k sections. */
  function Drops(sections: seq<Section>, slot: nat, k: nat): nat
    requires k <= |sections|
  {
    if k == 0 then 0
    else Drops(sections, slot, k - 1)
         + if sections[k - 1].Drop? && SlotOf(sections[k - 1].tok) == slot then 1 else 0
  }

  lemma GenerationStep(p: Pool, s: Section, slot: nat)
    requires Enabled(p, s) && slot < |p.table|
    ensures |Next(p, s).table| == |p.table|
    ensures Next(p, s).table[slot].generation ==
      if s.Drop? && SlotOf(s.tok) == slot then NextGen(p.table[slot].generation) else p.table[slot].generation
  {
  }

  /** A slot's generation counts its releases. */
  lemma {:induction false} GenerationIs(run: seq<Pool>, sections: seq<Section>, slot: nat, k: nat)
    requires IsRun(run, sections) && k <= |sections| && slot < |run[0].table|
    ensures |run[k].table| == |run[0].table|
    ensures run[k].table[slot].generation == GenAfter(run[0].table[slot].generation, Drops(sections, slot, k))
  {
    hide Enabled, Next;
    if k > 0 {
      GenerationIs(run, sections, slot, k - 1);
      assert Enabled(run[k - 1], sections[k - 1]) && run[k] == Next(run[k - 1], sections[k - 1]);
      GenerationStep(run[k - 1], sections[k - 1], slot);
    }
  }

  lemma {:induction false} GenAdds(g: nat, a: nat, b: nat)
    ensures GenAfter(GenAfter(g, a), b) == GenAfter(g, a + b)
    decreases b
  {
    if b > 0 {
      GenAdds(g, a, b - 1);
    }
  }

  lemma {:induction false} DropsGrow(sections: seq<Section>, slot: nat, k: nat, m: nat)
    requires k <= m <= |sections|
    ensures Drops(sections, slot, k) <= Drops(sections, slot, m)
    decreases m
  {
    if k < m {
      DropsGrow(sections, slot, k, m - 1);
    }
  }

  /**
   In every interleaving a token that was released is live again exactly when its
   slot is in use and was released a multiple of 2^32 - 1 times, its own release
   counted, so never before that many.
   */
  lemma StaleInRuns(run: seq<Pool>, sections: seq<Section>, k: nat, m: nat)
    requires IsRun(run, sections) && TableOk(run[0].table) && k < m <= |sections| && sections[k].Drop?
    ensures var slot := SlotOf(sections[k].tok);
      var releases := Drops(sections, slot, m) - Drops(sections, slot, k);
      && releases >= 1
      && slot < |run[m].table|
      && (IsLive(run[m].table, sections[k].tok) <==> run[m].table[slot].live && releases % (WORD - 1) == 0)
      && (releases < WORD - 1 ==> !IsLive(run[m].table, sections[k].tok))
  {
    hide IsRun, Enabled, Next, TableOk, GenAfter, SlotOf, GenOf, Drops;
    var tok := sections[k].tok;
    var slot := SlotOf(tok);
    RunAt(run, sections, k);
    SameSize(run, sections, k);
    GenerationIs(run, sections, slot, k);
    GenerationIs(run, sections, slot, m);
    DropsGrow(sections, slot, k + 1, m);
    DropCounts(sections, k);
    var a, b := Drops(sections, slot, k), Drops(sections, slot, m);
    var g := run[k].table[slot].generation;
    GenAdds(run[0].table[slot].generation, a, b - a);
    FirstGeneration(run[0].table, slot, a);
    StaleExactly(g, b - a);
    SmallRest(b - a);
  }

  lemma RunAt(run: seq<Pool>, sections: seq<Section>, k: nat)
    requires IsRun(run, sections) && k < |sections| && sections[k].Drop?
    ensures |run| == |sections| + 1 && IsLive(run[k].table, sections[k].tok)
  {
    assert Enabled(run[k], sections[k]);
  }

  lemma DropCounts(sections: seq<Section>, k: nat)
    requires k < |sections| && sections[k].Drop?
    ensures Drops(sections, SlotOf(sections[k].tok), k + 1) == Drops(sections, SlotOf(sections[k].tok), k) + 1
  {
  }

  lemma SmallRest(n: nat)
    ensures 1 <= n < WORD - 1 ==> n % (WORD - 1) != 0
  {
  }

  lemma {:induction false} SameSize(run: seq<Pool>, sections: seq<Section>, k: nat)
    requires IsRun(run, sections) && k <= |sections|
    ensures |run[k].table| == |run[0].table|
  {
    if k > 0 {
      SameSize(run, sections, k - 1);
    }
  }

  lemma FirstGeneration(t: seq<Entry>, slot: nat, a: nat)
    requires TableOk(t) && slot < |t|
    ensures 1 <= GenAfter(t[slot].generation, a) < WORD
  {
    GenCycle(t[slot].generation, a);
  }
}
