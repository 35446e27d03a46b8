/**
 Physical frames and the token ledger together.  Allocating or releasing a token
 is several lock-protected sections, and other CPUs run sections of their own in
 between: `Yield` stands for any number of them.  A frame in the hands of a CPU
 that has not yet stored it anywhere is in flight.
 */
module FrameMemory {
  import opened Bytes
  import opened Intervals
  import opened PhysMem
  import opened TokenLedger

  const FRAME: nat := 4096

  type FrameBytes = p: seq<byte> | |p| == FRAME witness Zeros(FRAME)

  /** A run of frames held in some CPU's local variables. */
  datatype Flight = Flight(start: nat, n: nat)

  ghost function FlightFrames(f: seq<Flight>): multiset<nat> {
    if f == [] then multiset{} else FlightFrames(f[..|f| - 1]) + multiset(Run(f[|f| - 1].start, f[|f| - 1].n))
  }

  ghost function UsedFrames(bits: seq<bool>): set<nat> {
    set i: nat | i < |bits| && !bits[i]
  }

  /**
   Every frame that is not free is exactly one of: reserved for good, in one live
   token, a page table of a live address space, or in flight; and no frame is two of them.
   */
  ghost predicate Balanced(bits: seq<bool>, reserved: set<nat>, table: seq<Entry>, tables: set<nat>,
                           flight: multiset<nat>) {
    multiset(UsedFrames(bits)) == multiset(reserved) + TokenFrames(table) + multiset(tables) + flight
  }

  // ---- what one section does to the balance ----

  lemma AllocBalance(bits: seq<bool>, start: nat, n: nat, reserved: set<nat>, table: seq<Entry>, tables: set<nat>,
                     flight: multiset<nat>)
    requires Balanced(bits, reserved, table, tables, flight) && FreeRun(bits, start, n)
    ensures Balanced(Fill(bits, start, n, false), reserved, table, tables, flight + multiset(Run(start, n)))
  {
    hide TokenFrames, Run;
    var after := UsedFrames(Fill(bits, start, n, false));
    assert after == UsedFrames(bits) + Run(start, n) && UsedFrames(bits) !! Run(start, n);
    assert multiset(after) == multiset(UsedFrames(bits)) + multiset(Run(start, n));
  }

  lemma FreeBalance(bits: seq<bool>, start: nat, n: nat, reserved: set<nat>, table: seq<Entry>, tables: set<nat>,
                    flight: multiset<nat>)
    requires Balanced(bits, reserved, table, tables, flight) && multiset(Run(start, n)) <= flight
    ensures n > 0 ==> start + n <= |bits|
    ensures Balanced(Fill(bits, start, n, true), reserved, table, tables, flight - multiset(Run(start, n)))
  {
    hide TokenFrames, Run;
    var run := Run(start, n);
    InUse(bits, reserved, table, tables, flight, run);
    if n > 0 {
      assert start + n - 1 in run;
    }
    var after := UsedFrames(Fill(bits, start, n, true));
    assert after == UsedFrames(bits) - run;
    assert multiset(UsedFrames(bits)) == multiset(after) + multiset(run);
    Cancelled(multiset(after), multiset(run), multiset(reserved) + TokenFrames(table) + multiset(tables), flight);
  }

  lemma Cancelled(after: multiset<nat>, run: multiset<nat>, rest: multiset<nat>, flight: multiset<nat>)
    requires after + run == rest + flight && run <= flight
    ensures after == rest + (flight - run)
  {
    forall x
      ensures after[x] == (rest + (flight - run))[x]
    {
      assert (after + run)[x] == (rest + flight)[x];
    }
  }

  lemma InUse(bits: seq<bool>, reserved: set<nat>, table: seq<Entry>, tables: set<nat>, flight: multiset<nat>,
              run: set<nat>)
    requires Balanced(bits, reserved, table, tables, flight) && multiset(run) <= flight
    ensures run <= UsedFrames(bits)
  {
    hide TokenFrames;
    forall f | f in run
      ensures f in UsedFrames(bits)
    {
      assert f in multiset(run);
      assert f in multiset(UsedFrames(bits));
    }
  }

  /** An entry takes over frames from, or hands them to, the CPU that changes it. */
  lemma EntryBalance(bits: seq<bool>, reserved: set<nat>, table: seq<Entry>, tables: set<nat>, flight: multiset<nat>,
                     slot: nat, e: Entry)
    requires Balanced(bits, reserved, table, tables, flight) && slot < |table| && EntryFrames(e) <= flight + EntryFrames(table[slot])
    ensures Balanced(bits, reserved, table[slot := e], tables, flight + EntryFrames(table[slot]) - EntryFrames(e))
  {
    hide EntryFrames, UsedFrames;
    TokenFramesSet(table, slot, e);
    var rest := multiset(reserved) + multiset(tables);
    var out, into := EntryFrames(table[slot]), EntryFrames(e);
    Carried(TokenFrames(table), TokenFrames(table[slot := e]), out, into, flight);
    assert multiset(UsedFrames(bits)) == rest + (TokenFrames(table) + flight);
    assert multiset(reserved) + TokenFrames(table[slot := e]) + multiset(tables) + (flight + out - into)
        == rest + (TokenFrames(table[slot := e]) + (flight + out - into));
  }

  lemma Carried(a: multiset<nat>, b: multiset<nat>, out: multiset<nat>, into: multiset<nat>, flight: multiset<nat>)
    requires b + out == a + into && into <= flight + out
    ensures b + (flight + out - into) == a + flight
  {
    forall x
      ensures (b + (flight + out - into))[x] == (a + flight)[x]
    {
      assert (b + out)[x] == (a + into)[x];
    }
  }

  lemma TableBalance(bits: seq<bool>, reserved: set<nat>, table: seq<Entry>, tables: set<nat>, flight: multiset<nat>,
                     f: nat)
    requires Balanced(bits, reserved, table, tables, flight) && f in flight
    ensures f !in tables && Balanced(bits, reserved, table, tables + {f}, flight - multiset{f})
  {
    hide TokenFrames;
    assert multiset(UsedFrames(bits))[f] <= 1;
    assert multiset(tables + {f}) == multiset(tables) + multiset{f};
  }

  lemma UntableBalance(bits: seq<bool>, reserved: set<nat>, table: seq<Entry>, tables: set<nat>, flight: multiset<nat>,
                       gone: set<nat>)
    requires Balanced(bits, reserved, table, tables, flight) && gone <= tables
    ensures Balanced(bits, reserved, table, tables - gone, flight + multiset(gone))
  {
    hide TokenFrames, UsedFrames;
    assert multiset(tables) == multiset(tables - gone) + multiset(gone);
  }

  /** No frame is in flight twice, nor while a token or a table holds it. */
  lemma InOnePlace(bits: seq<bool>, reserved: set<nat>, table: seq<Entry>, tables: set<nat>, flight: multiset<nat>,
                   f: nat)
    requires Balanced(bits, reserved, table, tables, flight)
    ensures multiset(reserved)[f] + TokenFrames(table)[f] + multiset(tables)[f] + flight[f]
         == if f < |bits| && !bits[f] then 1 else 0
  {
    hide TokenFrames;
    assert multiset(UsedFrames(bits))[f] == if f < |bits| && !bits[f] then 1 else 0;
  }

  lemma OneFrame(f: nat)
    ensures multiset(Run(f, 1)) == multiset{f}
  {
    assert Run(f, 1) == {f};
  }

  // ---- flights of the other CPUs ----

  function Without<T>(s: seq<T>, i: nat): seq<T>
    requires i < |s|
  {
    s[..i] + s[i + 1..]
  }

  lemma FlightAdd(f: seq<Flight>, x: Flight)
    ensures FlightFrames(f + [x]) == FlightFrames(f) + multiset(Run(x.start, x.n))
  {
    assert (f + [x])[..|f|] == f;
  }

  lemma {:induction false} FlightTake(f: seq<Flight>, i: nat)
    requires i < |f|
    ensures FlightFrames(f) == FlightFrames(Without(f, i)) + multiset(Run(f[i].start, f[i].n))
    decreases |f|
  {
    hide Run;
    var last := |f| - 1;
    if i == last {
      assert Without(f, i) == f[..last];
    } else {
      FlightTake(f[..last], i);
      assert Without(f, i) == Without(f[..last], i) + [f[last]];
      FlightAdd(Without(f[..last], i), f[last]);
    }
  }

  // ---- what other CPUs leave alone ----

  /** Other CPUs allocate and release, but never touch a pinned token nor pin one. */
  predicate PinsKept(t: seq<Entry>, u: seq<Entry>) {
    |t| == |u| && forall s :: 0 <= s < |t| ==> t[s] == u[s] || (t[s].mapCount == 0 && u[s].mapCount == 0)
  }

  lemma PinsKeptSelf(t: seq<Entry>)
    ensures PinsKept(t, t)
  {
  }

  lemma PinsKeptTrans(t: seq<Entry>, u: seq<Entry>, v: seq<Entry>)
    requires PinsKept(t, u) && PinsKept(u, v)
    ensures PinsKept(t, v)
  {
  }

  class Memory {
    const phys: Phys
    const ledger: Ledger
    /** Whether other CPUs run. */
    const smp: bool
    var ram: seq<FrameBytes>
    var others: seq<Flight>
    ghost const reserved: set<nat>
    ghost var tables: set<nat>
    ghost var mine: multiset<nat>

    ghost predicate Valid()
      reads this, phys, ledger
    {
      && phys.Valid() && ledger.Valid()
      && |ram| == |phys.bits|
      && (!smp ==> others == [])
      && (forall i :: 0 <= i < |others| ==> others[i].start > 0)
      && Balanced(phys.bits, reserved, ledger.table, tables, mine + FlightFrames(others))
    }

    constructor (bits: seq<bool>, bytes: seq<FrameBytes>, several: bool)
      requires |bytes| == |bits| && (bits != [] ==> !bits[0])
      ensures Valid() && fresh(phys) && fresh(ledger) && smp == several
      ensures tables == {} && mine == multiset{} && others == [] && phys.bits == bits
      ensures forall s :: 0 <= s < SLOTS ==> !ledger.table[s].live && ledger.table[s].mapCount == 0
    {
      phys := new Phys(bits);
      ledger := new Ledger();
      smp, ram, others := several, bytes, [];
      reserved, tables, mine := UsedFrames(bits), {}, multiset{};
    }

    // ---- other CPUs ----

    /** Any number of sections of other CPUs. */
    method Yield()
      requires Valid()
      modifies this`others, this`ram, phys, ledger
      ensures Valid() && PinsKept(old(ledger.table), ledger.table)
      ensures |phys.bits| == |old(phys.bits)|
      ensures forall f :: 0 <= f < |ram| && f in mine ==> ram[f] == old(ram)[f]
      ensures !smp ==> Still(old(ram), old(phys.bits), old(ledger.table)) && ledger.hint == old(ledger.hint)
    {
      if smp {
        var n: nat := *;
        while n > 0
          invariant Valid() && PinsKept(old(ledger.table), ledger.table)
          invariant |phys.bits| == |old(phys.bits)|
          invariant forall f :: 0 <= f < |ram| && f in mine ==> ram[f] == old(ram)[f]
        {
          label Before:
          Section();
          PinsKeptTrans(old(ledger.table), old@Before(ledger.table), ledger.table);
          n := n - 1;
        }
      }
    }

    ghost predicate Still(r: seq<FrameBytes>, bits: seq<bool>, table: seq<Entry>)
      reads this, phys, ledger
    {
      ram == r && phys.bits == bits && ledger.table == table
    }

    /** One section of another CPU: it allocates, clears, seals, frees or releases. */
    method Section()
      requires Valid() && smp
      modifies this`others, this`ram, phys, ledger
      ensures Valid() && PinsKept(old(ledger.table), ledger.table)
      ensures |phys.bits| == |old(phys.bits)|
      ensures forall f :: 0 <= f < |ram| && f in mine ==> ram[f] == old(ram)[f]
    {
      hide Balanced, FlightFrames, Without;
      var what: nat, i: nat := *, *;
      if what == 0 {
        OtherAlloc(i);
      } else if what == 1 {
        var tok: nat := *;
        OtherDrop(tok);
      } else if i < |others| {
        if what == 2 {
          OtherClear(i);
        } else if what == 3 {
          var owner: nat := *;
          var rights: set<Right> := *;
          OtherSeal(i, owner, rights);
        } else {
          OtherFree(i);
        }
      }
    }

    method OtherAlloc(n: nat)
      requires Valid() && smp
      modifies this`others, phys
      ensures Valid() && |phys.bits| == |old(phys.bits)|
    {
      hide Balanced, FlightFrames, CountFree;
      var start := phys.AllocFrames(n);
      if start != 0 {
        AllocBalance(old(phys.bits), start, n, reserved, ledger.table, tables, mine + FlightFrames(others));
        FlightAdd(others, Flight(start, n));
        assert mine + FlightFrames(others) + multiset(Run(start, n))
            == mine + (FlightFrames(others) + multiset(Run(start, n)));
        others := others + [Flight(start, n)];
      }
    }

    method OtherDrop(tok: nat)
      requires Valid() && smp
      modifies this`others, ledger
      ensures Valid() && PinsKept(old(ledger.table), ledger.table)
    {
      hide Balanced, FlightFrames, LiveCount, IsLive;
      var byRight: bool, byOwner: bool := *, *;
      var owner: nat := *;
      var rc, start, n := ledger.Drop(tok, byRight, byOwner, owner);
      if rc == RelOk {
        DropGives(old(ledger.table), tok, mine + FlightFrames(others), phys.bits, reserved, tables);
        FlightAdd(others, Flight(start, n));
        assert mine + FlightFrames(others) + multiset(Run(start, n))
            == mine + (FlightFrames(others) + multiset(Run(start, n)));
        others := others + [Flight(start, n)];
      }
    }

    method OtherClear(i: nat)
      requires Valid() && smp && i < |others|
      modifies this`ram
      ensures Valid()
      ensures forall f :: 0 <= f < |ram| && f in mine ==> ram[f] == old(ram)[f]
    {
      hide Balanced, FlightFrames, CountFree, LiveCount;
      var x := others[i];
      FlightTake(others, i);
      forall f | 0 <= f < |ram| && f in mine
        ensures f !in Run(x.start, x.n)
      {
        InOnePlace(phys.bits, reserved, ledger.table, tables, mine + FlightFrames(others), f);
        assert multiset(Run(x.start, x.n))[f] == if f in Run(x.start, x.n) then 1 else 0;
        assert (mine + FlightFrames(others))[f] == mine[f] + FlightFrames(others)[f];
      }
      ram := ClearRun(ram, x.start, x.n);
    }

    method OtherSeal(i: nat, owner: nat, rights: set<Right>)
      requires Valid() && smp && i < |others|
      modifies this`others, ledger
      ensures Valid() && PinsKept(old(ledger.table), ledger.table)
    {
      hide Balanced, FlightFrames, LiveCount, IsLive, Without;
      var x := others[i];
      FlightTake(others, i);
      var tok := ledger.SealRam(owner, x.start, x.n, rights);
      if tok != INVALID {
        Regrouped(mine, FlightFrames(Without(others, i)), multiset(Run(x.start, x.n)), FlightFrames(others));
        SealTakes(old(ledger.table), SlotOf(tok), owner, x.start, x.n, rights, mine + FlightFrames(others), phys.bits,
                  reserved, tables);
        others := Remaining(i);
      }
    }

    method OtherFree(i: nat)
      requires Valid() && smp && i < |others|
      modifies this`others, phys
      ensures Valid() && |phys.bits| == |old(phys.bits)|
    {
      hide Balanced, FlightFrames, CountFree, Without;
      var x := others[i];
      FlightTake(others, i);
      Regrouped(mine, FlightFrames(Without(others, i)), multiset(Run(x.start, x.n)), FlightFrames(others));
      FreeBalance(phys.bits, x.start, x.n, reserved, ledger.table, tables, mine + FlightFrames(others));
      phys.FreeFrames(x.start, x.n);
      EmptyFill(old(phys.bits), x.start, x.n);
      others := Remaining(i);
    }

    function Remaining(i: nat): (r: seq<Flight>)
      reads this
      requires i < |others|
      ensures r == Without(others, i)
      ensures forall j :: 0 <= j < |r| ==> r[j] in others
    {
      Without(others, i)
    }

    // ---- this CPU ----

    method AllocFrames(n: nat) returns (start: nat)
      requires Valid()
      modifies this`others, this`ram, this`mine, phys, ledger
      ensures Valid() && PinsKept(old(ledger.table), ledger.table)
      ensures mine == if start == 0 then old(mine) else old(mine) + multiset(Run(start, n))
      ensures start != 0 ==> n > 0 && start + n <= |phys.bits|
      ensures |phys.bits| == |old(phys.bits)|
      ensures !smp ==> ram == old(ram) && ledger.table == old(ledger.table)
      ensures !smp ==> phys.bits == if start == 0 then old(phys.bits) else Fill(old(phys.bits), start, n, false)
      ensures !smp && start == 0 && n > 0 ==> forall s :: 0 <= s ==> !FreeRun(old(phys.bits), s, n)
      ensures !smp && start != 0 ==> FreeRun(old(phys.bits), start, n)
      ensures !smp && start == 0 && n == 1 ==> phys.free == 0
      ensures !smp ==> phys.free == if start == 0 then old(phys.free) else old(phys.free) - n
      ensures !smp ==> RunsKept(old(phys.bits), phys.bits, n)
    {
      hide Balanced, FlightFrames, CountFree, LiveCount, TableOk, RunsKept;
      RunsKeptSelf(phys.bits, n);
      Yield();
      ghost var bits := phys.bits;
      start := phys.AllocFrames(n);
      if start == 0 && n == 1 {
        NothingFree(bits);
      }
      if start != 0 {
        FirstFitKeeps(bits, start, n);
        AllocBalance(bits, start, n, reserved, ledger.table, tables, mine + FlightFrames(others));
        assert mine + FlightFrames(others) + multiset(Run(start, n))
            == (mine + multiset(Run(start, n))) + FlightFrames(others);
        mine := mine + multiset(Run(start, n));
      }
    }

    method AllocHuge() returns (start: nat)
      requires Valid()
      modifies this`others, this`ram, this`mine, phys, ledger
      ensures Valid() && PinsKept(old(ledger.table), ledger.table)
      ensures mine == if start == 0 then old(mine) else old(mine) + multiset(Run(start, PER_HUGE))
      ensures start != 0 ==> start % PER_HUGE == 0 && start + PER_HUGE <= |phys.bits|
      ensures |phys.bits| == |old(phys.bits)|
      ensures !smp ==> ram == old(ram) && ledger.table == old(ledger.table)
      ensures !smp ==> phys.bits == if start == 0 then old(phys.bits) else Fill(old(phys.bits), start, PER_HUGE, false)
      ensures !smp && start == 0 ==> forall s: nat :: s % PER_HUGE == 0 ==> !FreeRun(old(phys.bits), s, PER_HUGE)
      ensures !smp && start != 0 ==> FreeRun(old(phys.bits), start, PER_HUGE)
    {
      hide Balanced, FlightFrames, CountFree, LiveCount, TableOk;
      Yield();
      ghost var bits := phys.bits;
      start := phys.AllocHuge();
      if start != 0 {
        AllocBalance(bits, start, PER_HUGE, reserved, ledger.table, tables, mine + FlightFrames(others));
        assert mine + FlightFrames(others) + multiset(Run(start, PER_HUGE))
            == (mine + multiset(Run(start, PER_HUGE))) + FlightFrames(others);
        mine := mine + multiset(Run(start, PER_HUGE));
      }
    }

    method FreeFrames(start: nat, n: nat)
      requires Valid() && start > 0 && multiset(Run(start, n)) <= mine
      modifies this`others, this`ram, this`mine, phys, ledger
      ensures Valid() && PinsKept(old(ledger.table), ledger.table)
      ensures mine == old(mine) - multiset(Run(start, n))
      ensures |phys.bits| == |old(phys.bits)|
      ensures !smp ==> ram == old(ram) && ledger.table == old(ledger.table)
      ensures !smp ==> phys.bits == Fill(old(phys.bits), start, n, true)
    {
      hide Balanced, FlightFrames, CountFree, LiveCount, TableOk;
      Yield();
      ghost var bits := phys.bits;
      FreeBalance(bits, start, n, reserved, ledger.table, tables, mine + FlightFrames(others));
      phys.FreeFrames(start, n);
      EmptyFill(bits, start, n);
      assert (mine + FlightFrames(others)) - multiset(Run(start, n))
          == (mine - multiset(Run(start, n))) + FlightFrames(others);
      mine := mine - multiset(Run(start, n));
    }

    /** Clears the frames just allocated. */
    method ZeroFrames(start: nat, n: nat)
      requires Valid() && start + n <= |ram|
      modifies this`ram
      ensures Valid() && ram == ClearRun(old(ram), start, n)
    {
      hide Balanced, FlightFrames, CountFree, LiveCount, TableOk;
      var i: nat := 0;
      while i < n
        invariant i <= n && |ram| == |old(ram)|
        invariant ram == ClearRun(old(ram), start, i)
      {
        ram := ram[start + i := Zeros(FRAME)];
        i := i + 1;
        assert ram == ClearRun(old(ram), start, i);
      }
    }

    /** Clears and seals frames in flight; hands them back when the ledger is full. */
    method Seal(owner: nat, start: nat, n: nat, rights: set<Right>) returns (tok: nat)
      requires Valid() && start > 0 && n > 0 && multiset(Run(start, n)) <= mine && start + n <= |phys.bits|
      modifies this`others, this`ram, this`mine, phys, ledger
      ensures Valid() && mine == old(mine) - multiset(Run(start, n))
      ensures PinsKept(old(ledger.table), ledger.table)
      ensures |phys.bits| == |old(phys.bits)|
      ensures tok != INVALID ==> Fresh(tok, owner, start, n, rights)
      ensures !smp ==> ram == ClearRun(old(ram), start, n)
      ensures !smp ==> (tok == INVALID <==> forall s :: 0 <= s < SLOTS ==> old(ledger.table)[s].live)
      ensures !smp && tok == INVALID ==>
        ledger.table == old(ledger.table) && phys.bits == Fill(old(phys.bits), start, n, true)
      ensures !smp && tok != INVALID ==>
        && phys.bits == old(phys.bits)
        && Minted(old(ledger.table), ledger.table, tok, owner, start, n, rights)
    {
      hide Balanced, FlightFrames, CountFree, LiveCount, IsLive, TableOk, PinsKept, ClearRun;
      ZeroFrames(start, n);
      RunMembers(start, n, mine);
      Cleared(old(ram), start, n);
      Yield();
      label Locked:
      tok := SealSection(owner, start, n, rights);
      PinsKeptTrans(old(ledger.table), old@Locked(ledger.table), ledger.table);
      if tok == INVALID {
        label Full:
        FreeFrames(start, n);
        PinsKeptTrans(old(ledger.table), old@Full(ledger.table), ledger.table);
      }
    }

    /** The section under the ledger's lock. */
    method SealSection(owner: nat, start: nat, n: nat, rights: set<Right>) returns (tok: nat)
      requires Valid() && start > 0 && n > 0 && multiset(Run(start, n)) <= mine
      modifies this`mine, ledger
      ensures Valid() && PinsKept(old(ledger.table), ledger.table)
      ensures tok == INVALID <==> forall s :: 0 <= s < SLOTS ==> old(ledger.table)[s].live
      ensures tok == INVALID ==> ledger.table == old(ledger.table) && mine == old(mine)
      ensures tok != INVALID ==>
        && mine == old(mine) - multiset(Run(start, n))
        && Minted(old(ledger.table), ledger.table, tok, owner, start, n, rights)
        && IsLive(ledger.table, tok)
        && At(ledger.table, tok) == Sealed(old(ledger.table)[SlotOf(tok)], owner, start, n, rights)
        && At(ledger.table, tok).mapCount == 0
    {
      hide Balanced, FlightFrames, CountFree, LiveCount, IsLive, EntryOk;
      ghost var table := ledger.table;
      tok := ledger.SealRam(owner, start, n, rights);
      if tok != INVALID {
        SealTakes(table, SlotOf(tok), owner, start, n, rights, mine + FlightFrames(others), phys.bits, reserved, tables);
        assert (mine + FlightFrames(others)) - multiset(Run(start, n))
            == (mine - multiset(Run(start, n))) + FlightFrames(others);
        mine := mine - multiset(Run(start, n));
        DeadUnpinned(table, SlotOf(tok));
      }
    }

    /** A live token with no mapping, whose frames read as zeros. */
    ghost predicate Fresh(tok: nat, owner: nat, start: nat, n: nat, rights: set<Right>)
      reads this, ledger
    {
      && IsLive(ledger.table, tok)
      && (var e := At(ledger.table, tok);
          e.owner == owner && e.rights == rights && e.phys == start && e.frames == n && e.mapCount == 0)
      && start + n <= |ram|
      && forall f :: start <= f < start + n ==> ram[f] == Zeros(FRAME)
    }

    method AllocRam(owner: nat, n: nat, rights: set<Right>) returns (tok: nat)
      requires Valid()
      modifies this`others, this`ram, this`mine, phys, ledger
      ensures Valid() && mine == old(mine)
      ensures PinsKept(old(ledger.table), ledger.table)
      ensures |phys.bits| == |old(phys.bits)|
      ensures tok != INVALID ==> exists start :: Fresh(tok, owner, start, n, rights)
      ensures !smp ==> RamKept(old(ledger.table), old(ram), ram)
      ensures !smp ==>
        (tok == INVALID <==>
          || n == 0
          || (forall s :: 0 <= s ==> !FreeRun(old(phys.bits), s, n))
          || forall s :: 0 <= s < SLOTS ==> old(ledger.table)[s].live)
      ensures !smp ==> RunsKept(old(phys.bits), phys.bits, n)
      ensures !smp && tok == INVALID ==> ledger.table == old(ledger.table) && phys.bits == old(phys.bits)
      ensures !smp && tok != INVALID ==>
        && IsLive(ledger.table, tok)
        && (var start := At(ledger.table, tok).phys;
            && FreeRun(old(phys.bits), start, n)
            && phys.bits == Fill(old(phys.bits), start, n, false)
            && phys.free == old(phys.free) - n
            && ram == ClearRun(old(ram), start, n)
            && Minted(old(ledger.table), ledger.table, tok, owner, start, n, rights))
    {
      hide Balanced, FlightFrames, CountFree, LiveCount, TableOk, IsLive, RamKept, ClearRun, RunsKept;
      tok := INVALID;
      RunsKeptSelf(phys.bits, n);
      RamSelf(ledger.table, ram);
      ghost var flight := mine + FlightFrames(others);
      if n == 0 {
        return;
      }
      var start := AllocFrames(n);
      if start == 0 {
        return;
      }
      label Got:
      assert multiset(Run(start, n)) <= mine;
      tok := Seal(owner, start, n, rights);
      assert mine == old(mine);
      PinsKeptTrans(old(ledger.table), old@Got(ledger.table), ledger.table);
      RefillBack(old(phys.bits), start, n);
      if !smp {
        ClearKeeps(old(phys.bits), reserved, old(ledger.table), tables, flight, old(ram), start, n);
        CountTaken(old(phys.bits), start, n);
      }
    }

    method AllocRamHuge(owner: nat, rights: set<Right>) returns (tok: nat)
      requires Valid()
      modifies this`others, this`ram, this`mine, phys, ledger
      ensures Valid() && mine == old(mine)
      ensures PinsKept(old(ledger.table), ledger.table)
      ensures tok != INVALID ==>
        exists start: nat :: start % PER_HUGE == 0 && Fresh(tok, owner, start, PER_HUGE, rights)
      ensures !smp ==>
        (tok == INVALID <==>
          || (forall s: nat :: s % PER_HUGE == 0 ==> !FreeRun(old(phys.bits), s, PER_HUGE))
          || forall s :: 0 <= s < SLOTS ==> old(ledger.table)[s].live)
      ensures !smp && tok == INVALID ==> ledger.table == old(ledger.table) && phys.bits == old(phys.bits)
    {
      hide Balanced, FlightFrames, CountFree, LiveCount, TableOk, IsLive;
      tok := INVALID;
      var start := AllocHuge();
      if start == 0 {
        return;
      }
      label Got:
      assert multiset(Run(start, PER_HUGE)) <= mine;
      tok := Seal(owner, start, PER_HUGE, rights);
      assert mine == old(mine);
      PinsKeptTrans(old(ledger.table), old@Got(ledger.table), ledger.table);
      RefillBack(old(phys.bits), start, PER_HUGE);
    }

    /** Every way a token dies: the ledger entry first, its frames after, never under both locks. */
    method Release(tok: nat, byRight: bool, byOwner: bool, owner: nat) returns (rc: RelStatus, ghost seen: seq<Entry>)
      requires Valid()
      modifies this`others, this`ram, this`mine, phys, ledger
      ensures Valid() && mine == old(mine)
      ensures PinsKept(old(ledger.table), ledger.table)
      ensures |phys.bits| == |old(phys.bits)|
      ensures PinsKept(old(ledger.table), seen) && rc == ReleaseStatus(seen, tok, byRight, byOwner, owner)
      ensures PinsKept(if rc == RelOk then KillAt(seen, tok) else seen, ledger.table)
      ensures !smp ==> ram == old(ram) && seen == old(ledger.table)
      ensures !smp && rc != RelOk ==> ledger.table == old(ledger.table) && phys.bits == old(phys.bits)
      ensures !smp && rc == RelOk ==>
        && IsLive(old(ledger.table), tok)
        && (var e := At(old(ledger.table), tok);
            && ledger.table == old(ledger.table)[SlotOf(tok) := Dead(e)]
            && phys.bits == Fill(old(phys.bits), e.phys, e.frames, true))
    {
      hide Balanced, FlightFrames, CountFree, LiveCount, IsLive, TableOk, PinsKept, ReleaseStatus;
      Yield();
      seen := ledger.table;
      label Locked:
      var start, n;
      rc, start, n := DropSection(tok, byRight, byOwner, owner);
      PinsKeptTrans(old(ledger.table), old@Locked(ledger.table), ledger.table);
      PinsKeptSelf(ledger.table);
      if rc == RelOk {
        label Dropped:
        FreeFrames(start, n);
        PinsKeptTrans(old(ledger.table), old@Dropped(ledger.table), ledger.table);
        assert mine == old(mine);
      }
    }

    /** The section under the ledger's lock: the token dies and its frames are in flight. */
    method DropSection(tok: nat, byRight: bool, byOwner: bool, owner: nat) returns (rc: RelStatus, start: nat, n: nat)
      requires Valid()
      modifies this`mine, ledger
      ensures Valid() && PinsKept(old(ledger.table), ledger.table)
      ensures rc == ReleaseStatus(old(ledger.table), tok, byRight, byOwner, owner)
      ensures rc != RelOk ==> ledger.table == old(ledger.table) && mine == old(mine)
      ensures rc == RelOk ==>
        && IsLive(old(ledger.table), tok)
        && start == At(old(ledger.table), tok).phys && n == At(old(ledger.table), tok).frames
        && start > 0
        && mine == old(mine) + multiset(Run(start, n))
        && ledger.table == old(ledger.table)[SlotOf(tok) := Dead(At(old(ledger.table), tok))]
    {
      hide Balanced, FlightFrames, CountFree, LiveCount, EntryOk, IsLive, PinsKept, ReleaseStatus;
      ghost var table := ledger.table;
      rc, start, n := ledger.Drop(tok, byRight, byOwner, owner);
      if rc == RelOk {
        DropGives(table, tok, mine + FlightFrames(others), phys.bits, reserved, tables);
        assert mine + FlightFrames(others) + multiset(Run(start, n))
            == (mine + multiset(Run(start, n))) + FlightFrames(others);
        mine := mine + multiset(Run(start, n));
        Released(table, tok, byRight, byOwner, owner);
      } else {
        PinsKeptSelf(table);
      }
    }

    /** Pins a token for one mapping; `seen` is the table the section found. */
    method MapAcquire(tok: nat, owner: nat, need: set<Right>)
      returns (rc: MapStatus, start: nat, n: nat, ghost seen: seq<Entry>)
      requires Valid()
      modifies this`others, this`ram, phys, ledger
      ensures Valid() && PinsKept(old(ledger.table), seen) && TableOk(seen)
      ensures |phys.bits| == |old(phys.bits)|
      ensures rc == AcquireStatus(seen, tok, owner, need)
      ensures rc != MapOk ==> ledger.table == seen
      ensures rc == MapOk ==>
        && IsLive(seen, tok) && start == At(seen, tok).phys && n == At(seen, tok).frames
        && ledger.table == PinAt(seen, tok)
      ensures !smp ==> seen == old(ledger.table) && ram == old(ram)
      ensures !smp ==> phys.bits == old(phys.bits) && phys.free == old(phys.free)
    {
      hide Balanced, FlightFrames, CountFree, LiveCount, EntryOk;
      Yield();
      seen := ledger.table;
      rc, start, n := ledger.MapAcquire(tok, owner, need);
      if rc == MapOk {
        SameFrames(phys.bits, reserved, seen, tables, mine + FlightFrames(others), SlotOf(tok), Pinned(At(seen, tok)));
      }
    }

    method MapRelease(tok: nat) returns (ghost seen: seq<Entry>)
      requires Valid()
      modifies this`others, this`ram, phys, ledger
      ensures Valid() && PinsKept(old(ledger.table), seen) && TableOk(seen)
      ensures |phys.bits| == |old(phys.bits)|
      ensures ledger.table == UnpinAt(seen, tok)
      ensures !smp ==> seen == old(ledger.table) && ram == old(ram) && phys.bits == old(phys.bits) && phys.free == old(phys.free)
    {
      hide Balanced, FlightFrames, CountFree, LiveCount, EntryOk;
      Yield();
      seen := ledger.table;
      ledger.MapRelease(tok);
      if IsLive(seen, tok) {
        SameFrames(phys.bits, reserved, seen, tables, mine + FlightFrames(others), SlotOf(tok), Unpinned(At(seen, tok)));
      }
    }

    /** A frame in flight becomes a page table. */
    ghost method Adopt(f: nat)
      requires Valid() && f in mine
      modifies this`mine, this`tables
      ensures Valid() && f !in old(tables) && tables == old(tables) + {f} && mine == old(mine) - multiset{f}
    {
      hide Balanced, FlightFrames, CountFree, LiveCount, TableOk;
      TableBalance(phys.bits, reserved, ledger.table, tables, mine + FlightFrames(others), f);
      assert (mine + FlightFrames(others)) - multiset{f} == (mine - multiset{f}) + FlightFrames(others);
      tables, mine := tables + {f}, mine - multiset{f};
    }

    /** Page tables go back into flight. */
    ghost method Disown(gone: set<nat>)
      requires Valid() && gone <= tables
      modifies this`mine, this`tables
      ensures Valid() && tables == old(tables) - gone && mine == old(mine) + multiset(gone)
    {
      hide Balanced, FlightFrames, CountFree, LiveCount, TableOk;
      UntableBalance(phys.bits, reserved, ledger.table, tables, mine + FlightFrames(others), gone);
      assert (mine + FlightFrames(others)) + multiset(gone) == (mine + multiset(gone)) + FlightFrames(others);
      tables, mine := tables - gone, mine + multiset(gone);
    }
  }

  /** u is t with one more token, in a slot that was free. */
  predicate Minted(t: seq<Entry>, u: seq<Entry>, tok: nat, owner: nat, start: nat, n: nat, rights: set<Right>) {
    && tok != INVALID
    && SlotOf(tok) < |t|
    && !t[SlotOf(tok)].live
    && t[SlotOf(tok)].generation == GenOf(tok)
    && u == t[SlotOf(tok) := Sealed(t[SlotOf(tok)], owner, start, n, rights)]
  }

  /** The frames of every live token hold the same bytes. */
  ghost predicate RamKept(t: seq<Entry>, r: seq<FrameBytes>, q: seq<FrameBytes>) {
    |r| == |q| && forall f :: 0 <= f < |r| && f in TokenFrames(t) ==> q[f] == r[f]
  }

  /** No live token holds a frame of the run. */
  ghost predicate Unheld(t: seq<Entry>, start: nat, n: nat) {
    forall f :: start <= f < start + n ==> f !in TokenFrames(t)
  }

  lemma FreeIsUnheld(bits: seq<bool>, reserved: set<nat>, t: seq<Entry>, tables: set<nat>, flight: multiset<nat>,
                     start: nat, n: nat)
    requires Balanced(bits, reserved, t, tables, flight) && FreeRun(bits, start, n)
    ensures Unheld(t, start, n)
  {
    hide Balanced, TokenFrames;
    forall f | start <= f < start + n
      ensures f !in TokenFrames(t)
    {
      InOnePlace(bits, reserved, t, tables, flight, f);
    }
  }

  lemma RamSelf(t: seq<Entry>, r: seq<FrameBytes>)
    ensures RamKept(t, r, r)
  {
  }

  /** Clearing free frames touches no token. */
  lemma ClearKeeps(bits: seq<bool>, reserved: set<nat>, t: seq<Entry>, tables: set<nat>, flight: multiset<nat>,
                   r: seq<FrameBytes>, start: nat, n: nat)
    requires Balanced(bits, reserved, t, tables, flight) && FreeRun(bits, start, n)
    ensures RamKept(t, r, ClearRun(r, start, n))
  {
    hide Balanced, TokenFrames, ClearRun;
    forall f: nat | f < |r| && f in TokenFrames(t)
      ensures !(start <= f < start + n)
    {
      InOnePlace(bits, reserved, t, tables, flight, f);
    }
  }

  lemma Cleared(r: seq<FrameBytes>, start: nat, n: nat)
    ensures forall f :: start <= f < start + n && f < |r| ==> ClearRun(r, start, n)[f] == Zeros(FRAME)
  {
  }

  lemma RunMembers(start: nat, n: nat, m: multiset<nat>)
    requires multiset(Run(start, n)) <= m
    ensures forall f :: start <= f < start + n ==> f in m
  {
    forall f | start <= f < start + n
      ensures f in m
    {
      assert f in multiset(Run(start, n));
    }
  }

  lemma DeadUnpinned(t: seq<Entry>, slot: nat)
    requires TableOk(t) && slot < SLOTS && !t[slot].live
    ensures t[slot].mapCount == 0
  {
  }

  lemma RefillBack(bits: seq<bool>, start: nat, n: nat)
    ensures FreeRun(bits, start, n) ==> Fill(Fill(bits, start, n, false), start, n, true) == bits
  {
  }

  lemma Released(t: seq<Entry>, tok: nat, byRight: bool, byOwner: bool, owner: nat)
    requires TableOk(t) && ReleaseStatus(t, tok, byRight, byOwner, owner) == RelOk
    ensures IsLive(t, tok) && At(t, tok).mapCount == 0 && At(t, tok).phys > 0
    ensures PinsKept(t, t[SlotOf(tok) := Dead(At(t, tok))])
  {
  }

  lemma SameFrames(bits: seq<bool>, reserved: set<nat>, t: seq<Entry>, tables: set<nat>, flight: multiset<nat>,
                   slot: nat, e: Entry)
    requires Balanced(bits, reserved, t, tables, flight) && slot < |t| && EntryFrames(e) == EntryFrames(t[slot])
    ensures Balanced(bits, reserved, t[slot := e], tables, flight)
  {
    hide Balanced, EntryFrames;
    EntryBalance(bits, reserved, t, tables, flight, slot, e);
    assert flight + EntryFrames(t[slot]) - EntryFrames(e) == flight;
  }

  /** The RAM with the frames of a run cleared. */
  function ClearRun(r: seq<FrameBytes>, start: nat, n: nat): (c: seq<FrameBytes>)
    ensures |c| == |r|
    ensures forall f :: 0 <= f < |r| ==> c[f] == if start <= f < start + n then Zeros(FRAME) else r[f]
  {
    if n == 0 then r
    else
      var c := ClearRun(r, start, n - 1);
      if start + n - 1 < |r| then c[start + n - 1 := Zeros(FRAME)] else c
  }

  lemma EmptyFill(bits: seq<bool>, start: nat, n: nat)
    ensures n == 0 ==> Fill(bits, start, n, true) == bits
  {
  }

  lemma Regrouped(mine: multiset<nat>, rest: multiset<nat>, run: multiset<nat>, flight: multiset<nat>)
    requires flight == rest + run
    ensures run <= mine + flight && (mine + flight) - run == mine + rest
  {
    assert mine + flight == (mine + rest) + run;
  }

  /** Releasing a token puts its frames in flight. */
  lemma DropGives(t: seq<Entry>, tok: nat, flight: multiset<nat>, bits: seq<bool>, reserved: set<nat>, tables: set<nat>)
    requires Balanced(bits, reserved, t, tables, flight) && IsLive(t, tok)
    ensures Balanced(bits, reserved, t[SlotOf(tok) := Dead(At(t, tok))], tables,
                     flight + multiset(Run(At(t, tok).phys, At(t, tok).frames)))
  {
    hide Balanced, Run;
    EntryBalance(bits, reserved, t, tables, flight, SlotOf(tok), Dead(At(t, tok)));
    assert flight + EntryFrames(At(t, tok)) - multiset{} == flight + EntryFrames(At(t, tok));
  }

  /** Sealing a token lands the frames it names. */
  lemma SealTakes(t: seq<Entry>, slot: nat, owner: nat, start: nat, n: nat, rights: set<Right>, flight: multiset<nat>,
                  bits: seq<bool>, reserved: set<nat>, tables: set<nat>)
    requires Balanced(bits, reserved, t, tables, flight) && slot < |t| && !t[slot].live
    requires multiset(Run(start, n)) <= flight
    ensures Balanced(bits, reserved, t[slot := Sealed(t[slot], owner, start, n, rights)], tables,
                     flight - multiset(Run(start, n)))
  {
    hide Balanced, Run;
    assert flight + multiset{} == flight;
    EntryBalance(bits, reserved, t, tables, flight, slot, Sealed(t[slot], owner, start, n, rights));
  }
}
