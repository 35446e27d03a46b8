/**
 Whole runs of the kernel: processes start, load, call and die in any order, with
 other CPUs allocating and releasing at any moment.
 */
module SystemRuns {
  import opened Bytes
  import opened TokenLedger
  import opened PageTables
  import opened Mappings
  import opened AddressSpaces
  import opened Syscalls
  import opened LoadTables
  import opened Loader
  import E = Exb

  datatype Event =
    | Spawn(i: nat, owner: nat)
    | Call(i: nat, rax: nat, rdi: nat, rsi: nat, rdx: nat)
    | Close(i: nat)
    | Revoke(tok: nat)
    | Reclaim(tok: nat)
    | Restrict(owner: nat, frames: nat, tokens: nat)
    | Exec(i: nat, owner: nat, img: seq<byte>, scratch: E.Info)
    | Exit(i: nat)

  /** Loading and reaping assume that no other CPU runs. */
  predicate Alone(e: Event) {
    e.Exec? || e.Exit?
  }

  /** Every handle names a live space of its owner, or none, and no two name the same. */
  ghost predicate Handles(k: Kernel, procs: seq<Aspace>)
    reads k, procs
  {
    && (forall i :: 0 <= i < |procs| ==> k.Handle(procs[i]))
    && (forall i, j :: 0 <= i < j < |procs| ==>
          procs[i] != procs[j] && (procs[i].live && procs[j].live ==> procs[i].root != procs[j].root))
  }

  /** One event; `low` says that it set a limit below what the owner held. */
  method Step(s: System, procs: seq<Aspace>, e: Event) returns (ghost low: bool)
    requires s.Valid() && Handles(s.k, procs) && (Alone(e) ==> !s.k.pt.memory.smp)
    modifies s`quota, s`bound, s.k, s.k.pt, s.k.pt.memory, s.k.pt.memory.phys, s.k.pt.memory.ledger, procs
    ensures s.Valid() && Handles(s.k, procs)
    ensures low ==> e.Restrict?
    ensures old(s.bound == s.quota) && !low ==> s.bound == s.quota
  {
    hide Kernel.Consistent, WithinAll, Going, AsBefore, UsedMore, OthersSame, TokensOf, FramesOf, E.StatusOf, OnlyPins,
         Lowered, KillAt, ReleaseStatus, Kernel.Dropped, TablesAfter, FreeAgain, Roomier;
    low := false;
    match e {
      case Revoke(tok) =>
        RevokeAll(s, tok);
      case Reclaim(tok) =>
        ReclaimOne(s, tok);
      case Restrict(owner, frames, tokens) =>
        ghost var t := s.k.pt.memory.ledger.table;
        low := FramesOf(t, owner) > frames || TokensOf(t, owner) > tokens;
        var ok := s.SetQuota(owner, frames, tokens);
      case _ =>
        if e.i < |procs| {
          Process(s, procs, e);
        }
    }
  }

  method RevokeAll(s: System, tok: nat)
    requires s.Valid()
    modifies s.k`recs, s.k`via, s.k.pt`mem, s.k.pt`leaf, s.k.pt.memory, s.k.pt.memory.phys, s.k.pt.memory.ledger
    ensures s.Valid()
  {
    hide Kernel.Consistent, WithinAll, OnlyPins, Lowered, Kernel.Dropped, Roomier;
    ghost var t := s.k.pt.memory.ledger.table;
    var n := s.k.Revoke(tok);
    if !s.k.pt.memory.smp {
      LoweredPins(t, s.k.pt.memory.ledger.table, tok, n);
      WithinPins(s.bound, t, s.k.pt.memory.ledger.table);
    }
  }

  method ReclaimOne(s: System, tok: nat)
    requires s.Valid()
    modifies s.k.pt.memory, s.k.pt.memory.phys, s.k.pt.memory.ledger
    ensures s.Valid()
  {
    hide Kernel.Consistent, WithinAll, KillAt, ReleaseStatus, Roomier;
    ghost var t := s.k.pt.memory.ledger.table;
    var rc, seen := s.k.Release(tok, false, false, 0);
    if !s.k.pt.memory.smp {
      WithinKill(s.bound, t, tok);
    }
  }

  method Process(s: System, procs: seq<Aspace>, e: Event)
    requires s.Valid() && Handles(s.k, procs) && (Alone(e) ==> !s.k.pt.memory.smp)
    requires (e.Spawn? || e.Call? || e.Close? || e.Exec? || e.Exit?) && e.i < |procs|
    modifies s.k, s.k.pt, s.k.pt.memory, s.k.pt.memory.phys, s.k.pt.memory.ledger, procs
    ensures s.Valid() && Handles(s.k, procs)
  {
    hide Kernel.Consistent, WithinAll, Going, AsBefore, UsedMore, TokensOf, FramesOf, E.StatusOf, E.InfoOf, E.TablesFit,
         TablesAfter, FreeAgain, Roomier, System.Allocated, System.Mapped, System.Unmapped, System.Freed, System.Usage,
         Kernel.Untouched, RoomToLoad, SegLayers, StackLayer, Limit, AsForeseen;
    var a := procs[e.i];
    match e {
      case Spawn(_, owner) =>
        if !a.live {
          var rc := s.k.Create(a, owner);
        }
      case Call(_, rax, rdi, rsi, rdx) =>
        if a.live {
          var f := new ExcFrame(rax, rdi, rsi, rdx);
          s.Resource(a, f);
        }
      case Exec(_, owner, img, scratch) =>
        var rc, out, layers, leaves, mapped, cause := Load(s, a, owner, img, scratch);
      case Close(_) =>
        End(s, procs, e);
      case Exit(_) =>
        End(s, procs, e);
    }
  }

  method End(s: System, procs: seq<Aspace>, e: Event)
    requires s.Valid() && Handles(s.k, procs) && (Alone(e) ==> !s.k.pt.memory.smp)
    requires (e.Close? || e.Exit?) && e.i < |procs|
    modifies s.k, s.k.pt, s.k.pt.memory, s.k.pt.memory.phys, s.k.pt.memory.ledger, procs
    ensures s.Valid() && Handles(s.k, procs)
  {
    hide Kernel.Consistent, WithinAll, OthersSame, TokensOf, FramesOf, OnlyPins, Kernel.Dropped, Roomier, Kernel.Untouched;
    var a := procs[e.i];
    if e.Exit? {
      var n := s.Reap(a);
    } else {
      ghost var t := s.k.pt.memory.ledger.table;
      s.k.Destroy(a);
      if !s.k.pt.memory.smp {
        WithinPins(s.bound, t, s.k.pt.memory.ledger.table);
      }
    }
  }

  /** A user page that translates. */
  ghost predicate Mapping(k: Kernel, root: nat, vpn: nat)
    reads k, k.pt
  {
    UserVpn(vpn) && Walk(k.pt.mem, root, vpn).Present?
  }

  /** No two owners reach one frame. */
  ghost predicate Apart(k: Kernel)
    reads k, k.pt
  {
    forall r, v, r2, v2 ::
      (r in k.spaces && r2 in k.spaces && Mapping(k, r, v) && Mapping(k, r2, v2)
       && Walk(k.pt.mem, r, v).frame == Walk(k.pt.mem, r2, v2).frame) ==> k.spaces[r] == k.spaces[r2]
  }

  /** Every page a process reaches is granted by a token of its owner. */
  ghost predicate Granted(k: Kernel)
    reads k, k.pt, k.pt.memory, k.pt.memory.ledger
  {
    forall r, v :: r in k.spaces && Mapping(k, r, v) ==>
      exists tok :: Grants(k.pt.memory.ledger.table, tok, k.spaces[r], Walk(k.pt.mem, r, v))
  }

  /** What translates is the union of the live records. */
  ghost predicate Recorded(k: Kernel)
    reads k, k.pt
  {
    forall r, v :: r in k.spaces && UserVpn(v) ==>
      (Walk(k.pt.mem, r, v).Present? <==> exists i :: 0 <= i < |k.recs| && Covers(k.recs[i], (r, v)))
  }

  lemma Secure(k: Kernel)
    requires k.Valid()
    ensures Apart(k) && Granted(k) && Recorded(k) && Pins(k.recs, k.pt.memory.ledger.table, {})
  {
    hide Kernel.Consistent, Walk, Grants, Covers;
    KernelPins(k);
    forall r, v, r2, v2 | r in k.spaces && r2 in k.spaces && Mapping(k, r, v) && Mapping(k, r2, v2)
      ensures Walk(k.pt.mem, r, v).frame == Walk(k.pt.mem, r2, v2).frame ==> k.spaces[r] == k.spaces[r2]
    {
      Isolated(k, r, v, r2, v2);
    }
    forall r, v | r in k.spaces && Mapping(k, r, v)
      ensures exists tok :: Grants(k.pt.memory.ledger.table, tok, k.spaces[r], Walk(k.pt.mem, r, v))
    {
      Isolated(k, r, v, r, v);
    }
    forall r, v | r in k.spaces && UserVpn(v)
      ensures Walk(k.pt.mem, r, v).Present? <==> exists i :: 0 <= i < |k.recs| && Covers(k.recs[i], (r, v))
    {
      TranslationIsRecords(k, r, v);
    }
  }

  /**
   After any run, on any number of CPUs, every process is isolated, translations are
   the records, and mapping counts are the numbers of records.  On one CPU every
   process is within its quota as well, or, if a limit was set below what it held,
   within what it held.
   */
  method Run(s: System, procs: seq<Aspace>, events: seq<Event>) returns (ghost lowered: bool)
    requires s.Valid() && Handles(s.k, procs)
    requires forall i :: 0 <= i < |events| && Alone(events[i]) ==> !s.k.pt.memory.smp
    modifies s`quota, s`bound, s.k, s.k.pt, s.k.pt.memory, s.k.pt.memory.phys, s.k.pt.memory.ledger, procs
    ensures s.Valid() && Handles(s.k, procs)
    ensures Apart(s.k) && Granted(s.k) && Recorded(s.k) && Pins(s.k.recs, s.k.pt.memory.ledger.table, {})
    ensures !s.k.pt.memory.smp ==> WithinAll(s.bound, s.k.pt.memory.ledger.table) && Roomier(s.quota, s.bound)
    ensures lowered ==> exists i :: 0 <= i < |events| && events[i].Restrict?
    ensures old(s.bound == s.quota) && !lowered && !s.k.pt.memory.smp ==> WithinAll(s.quota, s.k.pt.memory.ledger.table)
  {
    hide Kernel.Consistent, WithinAll, Walk, Grants, Roomier;
    lowered := false;
    var i := 0;
    while i < |events|
      invariant 0 <= i <= |events| && s.Valid() && Handles(s.k, procs)
      invariant old(s.bound == s.quota) && !lowered ==> s.bound == s.quota
      invariant lowered ==> exists j :: 0 <= j < |events| && events[j].Restrict?
    {
      ghost var low := Step(s, procs, events[i]);
      lowered := lowered || low;
      i := i + 1;
    }
    Secure(s.k);
  }
}
