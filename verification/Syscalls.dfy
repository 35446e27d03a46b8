/** The resource system calls with their quotas, and the reaping of a process. */
module Syscalls {
  import opened Bytes
  import PhysMem
  import opened TokenLedger
  import opened FrameMemory
  import opened PageTables
  import opened Mappings
  import opened AddressSpaces

  const OWNERS: nat := 64
  const DEFAULT_FRAMES: nat := 2048
  const DEFAULT_TOKENS: nat := 256
  const REAP_BATCH: nat := 64

  const XSYS_ALLOC: nat := 4
  const XSYS_MAP: nat := 5
  const XSYS_UNMAP: nat := 6
  const XSYS_FREE: nat := 7
  const XSYS_INFO: nat := 8

  datatype Xerr = Done | NoSys | Inval | NoMem | BadToken | Perm | Busy | RangeErr | NoMap

  /** Status codes are small negative numbers, stored in an unsigned register. */
  function Code(e: Xerr): nat {
    match e
    case Done => 0
    case NoSys => U64 - 1
    case Inval => U64 - 2
    case NoMem => U64 - 3
    case BadToken => U64 - 4
    case Perm => U64 - 5
    case Busy => U64 - 6
    case RangeErr => U64 - 7
    case NoMap => U64 - 8
  }

  function FromXas(rc: XasStatus): Xerr {
    match rc
    case XasOk => Done
    case XasArg => Inval
    case XasWx => Perm
    case XasRange => RangeErr
    case XasToken => BadToken
    case XasOwner => BadToken
    case XasRights => Perm
    case XasBusy => Busy
    case XasNoMem => NoMem
    case XasNotMapped => NoMap
  }

  function FromRel(rc: RelStatus): Xerr {
    match rc
    case RelOk => Done
    case RelStale => BadToken
    case RelBusy => Busy
    case RelRights => Perm
  }

  /** The rights a mask names, one bit each. */
  function RightsOf(mask: nat): set<Right> {
    (if Bit(mask, 0) then {Read} else {}) + (if Bit(mask, 1) then {Write} else {}) + (if Bit(mask, 2) then {Execute} else {})
    + (if Bit(mask, 3) then {Map} else {}) + (if Bit(mask, 4) then {Dma} else {}) + (if Bit(mask, 5) then {Release} else {})
  }

  /** Whether a process may ask for these rights: known bits only, and not DMA. */
  predicate UserRights(mask: nat) {
    mask < 64 && !Bit(mask, 4)
  }

  /** A mask below 64 is the sum of its rights' bits, and a process may have all of them but one. */
  lemma RightsAreBits(mask: nat)
    requires mask < 64
    ensures var r := RightsOf(mask);
      mask == (if Read in r then 1 else 0) + (if Write in r then 2 else 0) + (if Execute in r then 4 else 0)
              + (if Map in r then 8 else 0) + (if Dma in r then 16 else 0) + (if Release in r then 32 else 0)
    ensures UserRights(mask) <==> Dma !in RightsOf(mask)
  {
    hide Bit;
    SixBits(mask);
  }

  lemma LowBit(m: nat)
    ensures m == (if Bit(m, 0) then 1 else 0) + 2 * (m / 2)
  {
  }

  lemma HigherBit(m: nat, k: nat)
    ensures Bit(m, k + 1) == Bit(m / 2, k)
  {
  }

  lemma ThreeBits(m: nat)
    ensures m == (if Bit(m, 0) then 1 else 0) + (if Bit(m, 1) then 2 else 0) + (if Bit(m, 2) then 4 else 0)
                 + 8 * (m / 2 / 2 / 2)
  {
    hide Bit;
    LowBit(m);
    LowBit(m / 2);
    LowBit(m / 2 / 2);
    HigherBit(m, 0);
    HigherBit(m, 1);
    HigherBit(m / 2, 0);
  }

  lemma ThreeHigher(m: nat, k: nat)
    ensures Bit(m, k + 3) == Bit(m / 2 / 2 / 2, k)
  {
    hide Bit;
    HigherBit(m, k + 2);
    HigherBit(m / 2, k + 1);
    HigherBit(m / 2 / 2, k);
  }

  lemma SixBits(m: nat)
    requires m < 64
    ensures m == (if Bit(m, 0) then 1 else 0) + (if Bit(m, 1) then 2 else 0) + (if Bit(m, 2) then 4 else 0)
                 + (if Bit(m, 3) then 8 else 0) + (if Bit(m, 4) then 16 else 0) + (if Bit(m, 5) then 32 else 0)
  {
    hide Bit;
    ThreeBits(m);
    ThreeBits(m / 2 / 2 / 2);
    ThreeHigher(m, 0);
    ThreeHigher(m, 1);
    ThreeHigher(m, 2);
  }

  function Most(a: nat, b: nat): nat { if a < b then b else a }

  datatype Quota = Quota(frames: nat, tokens: nat, isSet: bool)

  function Limit(quota: seq<Quota>, owner: nat): Quota {
    if owner < |quota| && quota[owner].isSet then quota[owner] else Quota(DEFAULT_FRAMES, DEFAULT_TOKENS, false)
  }

  ghost predicate WithinOne(quota: seq<Quota>, t: seq<Entry>, owner: nat) {
    FramesOf(t, owner) <= Limit(quota, owner).frames && TokensOf(t, owner) <= Limit(quota, owner).tokens
  }

  /** Every process is within its limits. */
  ghost predicate WithinAll(quota: seq<Quota>, t: seq<Entry>) {
    forall owner :: owner > 0 ==> WithinOne(quota, t, owner)
  }

  /** b's limits are at least q's. */
  ghost predicate Roomier(q: seq<Quota>, b: seq<Quota>) {
    forall owner: nat ::
      Limit(q, owner).frames <= Limit(b, owner).frames && Limit(q, owner).tokens <= Limit(b, owner).tokens
  }

  /** One more token of n frames would exceed the owner's limits. */
  ghost predicate OverQuota(quota: seq<Quota>, t: seq<Entry>, owner: nat, n: nat) {
    TokensOf(t, owner) + 1 > Limit(quota, owner).tokens || FramesOf(t, owner) + n > Limit(quota, owner).frames
  }

  /** A live record maps something at this address of the space. */
  predicate RecordAt(recs: seq<MapRec>, i: nat, root: nat, virt: nat) {
    i < |recs| && recs[i].live && recs[i].root == root && recs[i].virt == virt
  }

  /** The answer to a process that frees a token, by what the ledger says of it. */
  predicate FreeAnswer(t: seq<Entry>, owner: nat, tok: nat, answer: nat) {
    var mine := IsLive(t, tok) && At(t, tok).owner == owner;
    && (answer == Code(BadToken) <==> !mine)
    && (answer == Code(Perm) <==> mine && Release !in At(t, tok).rights)
    && (answer == Code(Busy) <==> mine && Release in At(t, tok).rights && At(t, tok).mapCount > 0)
    && (answer == Code(Done) <==> mine && Release in At(t, tok).rights && At(t, tok).mapCount == 0)
  }

  /** The answer to a process that maps a token of n pages, unless it is out of memory. */
  ghost predicate MapReply(recs: seq<MapRec>, t: seq<Entry>, leaf: Leaves, live: bool, root: nat, owner: nat, virt: nat,
                           tok: nat, perms: nat, answer: nat) {
    var n := PagesOf(t, tok);
    var mine := IsLive(t, tok) && At(t, tok).kind == Ram && At(t, tok).owner == owner;
    var inUser := virt % FRAME == 0 && USER_BASE * FRAME <= virt < USER_TOP * FRAME && virt + n * FRAME <= USER_TOP * FRAME;
    && (answer == Code(Inval) <==> !live || perms == 0 || perms > 7)
    && (answer == Code(Perm) ==> live && (perms == 6 || perms == 7 || (mine && !Suffices(At(t, tok).rights, perms))))
    && (answer == Code(RangeErr) ==> !inUser)
    && (answer == Code(BadToken) ==> !mine)
    && (answer == Code(Busy) ==> mine && (At(t, tok).mapCount == 0xFFFF || FirstTaken(leaf, root, Vpn(virt), n) < n))
    && (answer == Code(Done) ==>
          && live && 1 <= perms <= 5 && inUser && mine && Suffices(At(t, tok).rights, perms)
          && FirstTaken(leaf, root, Vpn(virt), n) == n)
    && answer in {Code(Done), Code(Inval), Code(Perm), Code(RangeErr), Code(BadToken), Code(Busy), Code(NoMem)}
  }

  lemma BigPerms(recs: seq<MapRec>, t: seq<Entry>, leaf: Leaves, live: bool, root: nat, owner: nat, virt: nat, tok: nat,
                 perms: nat)
    requires perms > 7
    ensures MapReply(recs, t, leaf, live, root, owner, virt, tok, perms, Code(Inval))
  {
    hide IsLive, Suffices, FirstTaken;
  }

  lemma MapReplies(recs: seq<MapRec>, t: seq<Entry>, leaf: Leaves, d: Dir, e: Dir, live: bool, root: nat, owner: nat,
                   virt: nat, tok: nat, perms: nat, rc: XasStatus)
    requires var why := Refusal(recs, t, live, owner, virt, tok, perms);
      if why != XasOk then rc == why else MapTables(rc, d, e, leaf, root, virt, PagesOf(t, tok))
    ensures MapReply(recs, t, leaf, live, root, owner, virt, tok, perms, Code(FromXas(rc)))
    ensures rc == XasNoMem && Refusal(recs, t, live, owner, virt, tok, perms) == XasNoMem ==>
      OwnerRecs(recs, owner) >= 64 || forall i :: 0 <= i < |recs| ==> recs[i].live
  {
    hide Refusal, OwnerRecs, IsLive, Suffices, FirstTaken, Ways;
    RefusalExactly(recs, t, live, owner, virt, tok, perms);
  }

  lemma FreeAnswers(t: seq<Entry>, owner: nat, tok: nat)
    ensures FreeAnswer(t, owner, tok, Code(FromRel(ReleaseStatus(t, tok, true, true, owner))))
    ensures Code(FromRel(ReleaseStatus(t, tok, true, true, owner))) == Code(Done) <==>
      ReleaseStatus(t, tok, true, true, owner) == RelOk
  {
    hide IsLive;
  }

  // ---- how usage changes ----

  lemma {:induction false} PinsUseNothing(t: seq<Entry>, u: seq<Entry>, owner: nat)
    requires OnlyPins(t, u)
    ensures TokensOf(u, owner) == TokensOf(t, owner) && FramesOf(u, owner) == FramesOf(t, owner)
  {
    if t != [] {
      PinsUseNothing(t[..|t| - 1], u[..|u| - 1], owner);
    }
  }

  lemma WithinPins(quota: seq<Quota>, t: seq<Entry>, u: seq<Entry>)
    requires WithinAll(quota, t) && OnlyPins(t, u)
    ensures WithinAll(quota, u)
  {
    forall owner | owner > 0
      ensures WithinOne(quota, u, owner)
    {
      assert WithinOne(quota, t, owner);
      PinsUseNothing(t, u, owner);
    }
  }

  lemma OnlyPinsAt(t: seq<Entry>, tok: nat)
    ensures OnlyPins(t, PinAt(t, tok)) && OnlyPins(t, UnpinAt(t, tok))
  {
  }

  /** A new token uses one token and its frames, of its owner only. */
  lemma MintUses(t: seq<Entry>, u: seq<Entry>, tok: nat, owner: nat, start: nat, n: nat, rights: set<Right>, who: nat)
    requires Minted(t, u, tok, owner, start, n, rights)
    ensures TokensOf(u, who) == TokensOf(t, who) + if who == owner then 1 else 0
    ensures FramesOf(u, who) == FramesOf(t, who) + if who == owner then n else 0
  {
    UsageSet(t, SlotOf(tok), Sealed(t[SlotOf(tok)], owner, start, n, rights), who);
  }

  lemma KillUses(t: seq<Entry>, tok: nat, who: nat)
    requires IsLive(t, tok)
    ensures TokensOf(KillAt(t, tok), who) + (if who == At(t, tok).owner then 1 else 0) == TokensOf(t, who)
    ensures FramesOf(KillAt(t, tok), who) + (if who == At(t, tok).owner then At(t, tok).frames else 0) == FramesOf(t, who)
  {
    UsageSet(t, SlotOf(tok), Dead(At(t, tok)), who);
  }

  lemma WithinMint(quota: seq<Quota>, bound: seq<Quota>, t: seq<Entry>, u: seq<Entry>, tok: nat, owner: nat, start: nat, n: nat,
                   rights: set<Right>)
    requires WithinAll(bound, t) && Roomier(quota, bound) && Minted(t, u, tok, owner, start, n, rights)
    requires !OverQuota(quota, t, owner, n)
    ensures WithinAll(bound, u)
  {
    forall who | who > 0
      ensures WithinOne(bound, u, who)
    {
      assert WithinOne(bound, t, who);
      assert Limit(quota, who).frames <= Limit(bound, who).frames;
      MintUses(t, u, tok, owner, start, n, rights, who);
    }
  }

  lemma WithinKill(quota: seq<Quota>, t: seq<Entry>, tok: nat)
    requires WithinAll(quota, t)
    ensures WithinAll(quota, KillAt(t, tok))
  {
    if IsLive(t, tok) {
      forall who | who > 0
        ensures WithinOne(quota, KillAt(t, tok), who)
      {
        assert WithinOne(quota, t, who);
        KillUses(t, tok, who);
      }
    }
  }

  // ---- the calls ----

  /** The saved registers of the caller. */
  class ExcFrame {
    var rax: nat
    var rdi: nat
    var rsi: nat
    var rdx: nat

    constructor (number: nat, a: nat, b: nat, c: nat)
      ensures rax == number && rdi == a && rsi == b && rdx == c
    {
      rax, rdi, rsi, rdx := number, a, b, c;
    }
  }

  lemma RecordFound(recs: seq<MapRec>, i: nat, root: nat, virt: nat, rc: XasStatus)
    requires |recs| == MAX_MAPS
    requires rc == XasOk ==> i < MAX_MAPS && recs[i].live && recs[i].root == root && recs[i].virt == virt
    requires rc == XasNotMapped ==>
      forall j :: 0 <= j < MAX_MAPS && recs[j].live && recs[j].root == root ==> recs[j].virt != virt
    ensures rc == XasOk ==> RecordAt(recs, i, root, virt)
    ensures rc == XasNotMapped ==> !exists j: nat :: RecordAt(recs, j, root, virt)
  {
  }

  class System {
    const k: Kernel
    var quota: seq<Quota>
    /** The quotas, raised where a limit was set below what the owner held then. */
    ghost var bound: seq<Quota>

    ghost predicate Valid()
      reads this, k, k.pt, k.pt.memory, k.pt.memory.phys, k.pt.memory.ledger
    {
      && |quota| == |bound| == OWNERS && k.Valid() && Roomier(quota, bound)
      && (!k.pt.memory.smp ==> WithinAll(bound, k.pt.memory.ledger.table))
    }

    constructor (kernel: Kernel)
      requires kernel.Valid() && forall s :: 0 <= s < SLOTS ==> !kernel.pt.memory.ledger.table[s].live
      ensures Valid() && k == kernel && quota == bound == seq(OWNERS, i => Quota(0, 0, false))
      ensures forall who: nat :: Limit(quota, who).frames == DEFAULT_FRAMES && Limit(quota, who).tokens == DEFAULT_TOKENS
    {
      k, quota, bound := kernel, seq(OWNERS, i => Quota(0, 0, false)), seq(OWNERS, i => Quota(0, 0, false));
      new;
      forall owner
        ensures TokensOf(k.pt.memory.ledger.table, owner) == 0 && FramesOf(k.pt.memory.ledger.table, owner) == 0
      {
        NothingHeld(k.pt.memory.ledger.table, owner);
      }
    }

    /** Limits a process; what it holds already it keeps. */
    method SetQuota(owner: nat, frames: nat, tokens: nat) returns (ok: bool)
      requires Valid()
      modifies this`quota, this`bound
      ensures Valid()
      ensures ok <==> owner != OWNER_KERNEL && owner < OWNERS
      ensures quota == if ok then old(quota)[owner := Quota(frames, tokens, true)] else old(quota)
      ensures ok ==>
        var t := k.pt.memory.ledger.table;
        bound == old(bound)[owner := Quota(Most(frames, FramesOf(t, owner)), Most(tokens, TokensOf(t, owner)), true)]
      ensures !ok ==> bound == old(bound)
      ensures ok ==> Limit(quota, owner).frames == frames && Limit(quota, owner).tokens == tokens
      ensures forall who: nat :: who != owner || !ok ==> Limit(quota, who) == Limit(old(quota), who)
    {
      hide Kernel.Valid, FramesOf, TokensOf;
      if owner == OWNER_KERNEL || owner >= OWNERS {
        return false;
      }
      ghost var t := k.pt.memory.ledger.table;
      quota := quota[owner := Quota(frames, tokens, true)];
      bound := bound[owner := Quota(Most(frames, FramesOf(t, owner)), Most(tokens, TokensOf(t, owner)), true)];
      ok := true;
      forall who: nat
        ensures Limit(quota, who).frames <= Limit(bound, who).frames && Limit(quota, who).tokens <= Limit(bound, who).tokens
      {
        assert Limit(old(quota), who).frames <= Limit(old(bound), who).frames;
      }
      if !k.pt.memory.smp {
        forall who | who > 0
          ensures WithinOne(bound, t, who)
        {
          assert WithinOne(old(bound), t, who);
        }
      }
    }

    /** What xsys_alloc does: its answer is exact on one CPU. */
    twostate predicate Allocated(a: Aspace, f: ExcFrame)
      reads this, a, f, k, k.pt, k.pt.memory, k.pt.memory.phys, k.pt.memory.ledger
    {
      && (f.rax == Code(Done) ==> exists start :: k.pt.memory.Fresh(f.rdx, a.owner, start, f.rdi, RightsOf(f.rsi)))
      && (f.rax != Code(Done) ==> f.rdx == 0)
      && (f.rax == Code(Inval) <==> f.rdi == 0 || f.rsi == 0)
      && (f.rax == Code(Perm) <==> f.rdi > 0 && f.rsi > 0 && (f.rsi >= 64 || Dma in RightsOf(f.rsi)))
      && (f.rax == Code(Inval) || f.rax == Code(Perm) || f.rax == Code(NoMem) || f.rax == Code(Done))
      && (f.rax == Code(Done) ==> !OverQuota(quota, old(k.pt.memory.ledger.table), a.owner, f.rdi))
      && (!k.pt.memory.smp ==>
            var t, u := old(k.pt.memory.ledger.table), k.pt.memory.ledger.table;
            && (f.rax == Code(NoMem) ==>
                  || OverQuota(quota, t, a.owner, f.rdi)
                  || (forall s :: 0 <= s ==> !PhysMem.FreeRun(old(k.pt.memory.phys.bits), s, f.rdi))
                  || forall s :: 0 <= s < SLOTS && s < |t| ==> t[s].live)
            && (f.rax != Code(Done) ==> u == t)
            && (f.rax == Code(Done) ==>
                  && TokensOf(u, a.owner) == TokensOf(t, a.owner) + 1
                  && FramesOf(u, a.owner) == FramesOf(t, a.owner) + f.rdi
                  && forall who :: who != a.owner ==>
                       TokensOf(u, who) == TokensOf(t, who) && FramesOf(u, who) == FramesOf(t, who)))
    }

    twostate predicate Mapped(a: Aspace, f: ExcFrame)
      reads this, a, f, k, k.pt, k.pt.memory, k.pt.memory.phys, k.pt.memory.ledger
    {
      && (f.rax != Code(Done) ==> k.Untouched())
      && (f.rax == Code(Done) ==>
            f.rdx < U32 && k.Added(a.root, a.owner, f.rsi, f.rdi, ModeOf(f.rdx)) && k.OnePin(f.rdi))
      && exists seen ::
           && PinsKept(old(k.pt.memory.ledger.table), seen)
           && (!k.pt.memory.smp ==> seen == old(k.pt.memory.ledger.table))
           && MapReply(old(k.recs), seen, old(k.pt.leaf), a.live, a.root, a.owner, f.rsi, f.rdi, f.rdx, f.rax)
           && (f.rax == Code(NoMem) ==>
                 || OwnerRecs(old(k.recs), a.owner) >= 64
                 || (forall i :: 0 <= i < |old(k.recs)| ==> old(k.recs)[i].live)
                 || (!k.pt.memory.smp ==> k.pt.memory.phys.free == 0))
    }

    /** What xsys_unmap does: the record at the address goes, if there is one. */
    twostate predicate Unmapped(a: Aspace, f: ExcFrame)
      reads this, a, f, k, k.pt, k.pt.memory, k.pt.memory.phys, k.pt.memory.ledger
    {
      && (f.rax == Code(Inval) <==> !a.live)
      && (f.rax == Code(NoMap) <==> a.live && !exists i: nat :: RecordAt(old(k.recs), i, a.root, f.rdi))
      && (f.rax == Code(Done) <==> a.live && exists i: nat :: RecordAt(old(k.recs), i, a.root, f.rdi))
      && (f.rax == Code(Done) ==>
            exists i: nat ::
              RecordAt(old(k.recs), i, a.root, f.rdi) && k.Dropped({i}) && k.OneUnpin(old(k.recs)[i].tok))
      && (f.rax != Code(Done) ==> k.Untouched())
    }

    /** What xsys_free does, by the ledger it finds once it has the lock. */
    twostate predicate Freed(a: Aspace, f: ExcFrame)
      reads this, a, f, k, k.pt, k.pt.memory, k.pt.memory.phys, k.pt.memory.ledger
    {
      exists seen ::
        && PinsKept(old(k.pt.memory.ledger.table), seen) && FreeAnswer(seen, a.owner, f.rdi, f.rax)
        && PinsKept(if f.rax == Code(Done) then KillAt(seen, f.rdi) else seen, k.pt.memory.ledger.table)
        && (!k.pt.memory.smp ==>
              && seen == old(k.pt.memory.ledger.table)
              && k.pt.memory.ledger.table == if f.rax == Code(Done) then KillAt(seen, f.rdi) else seen)
    }

    ghost function Usage(a: Aspace, what: nat): nat
      reads this, a, k, k.pt, k.pt.memory, k.pt.memory.ledger
    {
      if what == 0 then FramesOf(k.pt.memory.ledger.table, a.owner)
      else if what == 1 then Limit(quota, a.owner).frames
      else if what == 2 then TokensOf(k.pt.memory.ledger.table, a.owner)
      else if what == 3 then Limit(quota, a.owner).tokens
      else Code(Inval)
    }

    method Alloc(a: Aspace, f: ExcFrame)
      requires Valid() && k.Handle(a)
      modifies f`rax, f`rdx, k.pt.memory, k.pt.memory.phys, k.pt.memory.ledger
      ensures Valid() && k.Handle(a) && Allocated(a, f)
    {
      hide Kernel.Consistent, FramesOf, TokensOf, IsLive, Minted, Memory.Fresh, RightsOf, WithinAll, PhysMem.FreeRun, Limit, Roomier;
      f.rdx := 0;
      if f.rdi == 0 || f.rsi == 0 {
        f.rax := Code(Inval);
        return;
      }
      if f.rsi < 64 {
        RightsAreBits(f.rsi);
      }
      if !UserRights(f.rsi) {
        f.rax := Code(Perm);
        return;
      }
      var max := Limit(quota, a.owner);
      KernelLedger(k);
      var frames, tokens := k.pt.memory.ledger.OwnerUsage(a.owner);
      if tokens >= max.tokens || f.rdi > max.frames || frames > max.frames - f.rdi {
        f.rax := Code(NoMem);
        return;
      }
      var tok := k.AllocRam(a.owner, f.rdi, RightsOf(f.rsi));
      if tok == INVALID {
        f.rax := Code(NoMem);
        return;
      }
      ghost var start: nat :| k.pt.memory.Fresh(tok, a.owner, start, f.rdi, RightsOf(f.rsi));
      ghost var t, u := old(k.pt.memory.ledger.table), k.pt.memory.ledger.table;
      if !k.pt.memory.smp {
        WithinMint(quota, bound, t, u, tok, a.owner, At(u, tok).phys, f.rdi, RightsOf(f.rsi));
        forall who
          ensures TokensOf(u, who) == TokensOf(t, who) + if who == a.owner then 1 else 0
          ensures FramesOf(u, who) == FramesOf(t, who) + if who == a.owner then f.rdi else 0
        {
          MintUses(t, u, tok, a.owner, At(u, tok).phys, f.rdi, RightsOf(f.rsi), who);
        }
      }
      f.rdx := tok;
      f.rax := Code(Done);
      assert k.pt.memory.Fresh(f.rdx, a.owner, start, f.rdi, RightsOf(f.rsi));
    }

    method MapCall(a: Aspace, f: ExcFrame)
      requires Valid() && k.Handle(a)
      modifies f`rax, k, k.pt, k.pt.memory, k.pt.memory.phys, k.pt.memory.ledger
      ensures Valid() && k.Handle(a) && k.spaces == old(k.spaces) && Mapped(a, f)
    {
      hide Kernel.Consistent, FramesOf, TokensOf, IsLive, WithinAll, Refusal, ModeOf, PinAt, OnlyPins, FirstTaken, PagesOf,
           MapTables, MapReply, OwnerRecs, PinsKept;
      if f.rdx >= U32 {
        BigPerms(k.recs, k.pt.memory.ledger.table, k.pt.leaf, a.live, a.root, a.owner, f.rsi, f.rdi, f.rdx);
        PinsKeptSelf(k.pt.memory.ledger.table);
        f.rax := Code(Inval);
        return;
      }
      ghost var t, recs, leaf, d := k.pt.memory.ledger.table, k.recs, k.pt.leaf, k.pt.dir;
      var rc;
      ghost var seen;
      rc, seen := k.Map(a, f.rsi, f.rdi, f.rdx);
      MapReplies(recs, seen, leaf, d, k.pt.dir, a.live, a.root, a.owner, f.rsi, f.rdi, f.rdx, rc);
      OnlyPinsAt(t, f.rdi);
      if !k.pt.memory.smp && rc == XasOk {
        WithinPins(bound, t, k.pt.memory.ledger.table);
      }
      f.rax := Code(FromXas(rc));
    }

    method UnmapCall(a: Aspace, f: ExcFrame)
      requires Valid() && k.Handle(a)
      modifies f`rax, k, k.pt, k.pt.memory, k.pt.memory.phys, k.pt.memory.ledger
      ensures Valid() && k.Handle(a) && k.spaces == old(k.spaces) && Unmapped(a, f)
    {
      hide Kernel.Consistent, FramesOf, TokensOf, IsLive, WithinAll, Killed, Kept, HasPin, UnpinAt, OnlyPins, RecordAt;
      ghost var t, recs := k.pt.memory.ledger.table, k.recs;
      KernelLedger(k);
      var rc, i := k.Unmap(a, f.rdi);
      RecordFound(recs, i, a.root, f.rdi, rc);
      if !k.pt.memory.smp && rc == XasOk {
        OnlyPinsAt(t, recs[i].tok);
        WithinPins(bound, t, k.pt.memory.ledger.table);
      }
      f.rax := Code(FromXas(rc));
      assert rc == XasOk ==> RecordAt(recs, i, a.root, f.rdi) && k.Dropped({i}) && k.OneUnpin(recs[i].tok);
    }

    method Free(a: Aspace, f: ExcFrame)
      requires Valid() && k.Handle(a)
      modifies f`rax, k.pt.memory, k.pt.memory.phys, k.pt.memory.ledger
      ensures Valid() && k.Handle(a) && Freed(a, f)
    {
      hide Kernel.Consistent, FramesOf, TokensOf, IsLive, WithinAll, ReleaseStatus, KillAt, FreeAnswer, PinsKept;
      ghost var t := k.pt.memory.ledger.table;
      var rc;
      ghost var seen;
      rc, seen := k.Release(f.rdi, true, true, a.owner);
      if !k.pt.memory.smp {
        WithinKill(bound, t, f.rdi);
      }
      f.rax := Code(FromRel(rc));
      FreeAnswers(seen, a.owner, f.rdi);
    }

    method Info(a: Aspace, f: ExcFrame)
      requires Valid()
      modifies f`rax
      ensures Valid() && f.rax == Usage(a, f.rdi)
    {
      hide Kernel.Consistent, FramesOf, TokensOf, WithinAll;
      KernelLedger(k);
      var max := Limit(quota, a.owner);
      var frames, tokens := k.pt.memory.ledger.OwnerUsage(a.owner);
      f.rax :=
        if f.rdi == 0 then frames else if f.rdi == 1 then max.frames
        else if f.rdi == 2 then tokens else if f.rdi == 3 then max.tokens else Code(Inval);
    }

    /**
     Takes everything from a process: ends for every state, counts exactly the tokens
     it held, and leaves it no token and no mapping in any address space.
     */
    method Reap(a: Aspace) returns (total: nat)
      requires Valid() && k.Handle(a) && !k.pt.memory.smp
      modifies a`live, k, k.pt, k.pt.memory, k.pt.memory.phys, k.pt.memory.ledger
      ensures Valid() && !a.live
      ensures !old(a.live) ==> total == 0 && k.Untouched() && k.spaces == old(k.spaces)
      ensures old(a.live) ==>
        && total == TokensOf(old(k.pt.memory.ledger.table), a.owner)
        && TokensOf(k.pt.memory.ledger.table, a.owner) == 0
        && (forall i :: 0 <= i < |k.recs| && k.recs[i].live ==> k.recs[i].owner != a.owner && k.recs[i].root != a.root)
        && OthersSame(old(k.pt.memory.ledger.table), k.pt.memory.ledger.table, a.owner)
        && k.spaces == old(k.spaces) - {a.root}
        && k.Dropped(ByOwner(old(k.recs), a.owner)) && k.pt.memory.ram == old(k.pt.memory.ram)
    {
      hide Kernel.Consistent, FramesOf, TokensOf, IsLive, WithinAll, OthersSame, OwnerList, Pins, Doomed, OnlyPins, Stripped, ByOwner,
           Killed, Kept;
      total := 0;
      OthersSelf(k.pt.memory.ledger.table, a.owner);
      if !a.live {
        return;
      }
      var owner := a.owner;
      ghost var t0, recs0, leaf0, via0, gone := k.pt.memory.ledger.table, k.recs, k.pt.leaf, k.via, {};
      StrippedNone(k, owner);
      while true
        invariant Valid() && k.Handle(a) && a.live && k.spaces == old(k.spaces)
        invariant total + TokensOf(k.pt.memory.ledger.table, owner) == TokensOf(t0, owner)
        invariant OthersSame(t0, k.pt.memory.ledger.table, owner)
        invariant Stripped(recs0, leaf0, via0, k.recs, k.pt.leaf, k.via, gone) && gone <= ByOwner(recs0, owner)
        invariant k.modes == old(k.modes) && k.pt.memory.ram == old(k.pt.memory.ram)
        decreases TokensOf(k.pt.memory.ledger.table, owner)
      {
        KernelLedger(k);
        var list := k.pt.memory.ledger.OwnerTokens(owner, REAP_BATCH);
        if list == [] {
          break;
        }
        ListDoomed(k.pt.memory.ledger.table, owner, list);
        var progress;
        progress, gone := ReapBatch(owner, list, t0, recs0, leaf0, via0, gone);
        if progress == 0 {
          break;
        }
        total := total + progress;
      }
      ghost var t, recs := k.pt.memory.ledger.table, k.recs;
      NoneOwned(k, owner);
      KernelPins(k);
      NoneThere(recs, a.root);
      NothingDropped(recs, k.pt.leaf, k.via);
      AllStripped(recs0, leaf0, via0, recs, k.pt.leaf, k.via, gone, owner);
      k.Destroy(a);
      SameCounts(k, t, recs);
    }

    method ReapBatch(owner: nat, list: seq<nat>, ghost t0: seq<Entry>, ghost recs0: seq<MapRec>, ghost leaf0: Leaves,
                     ghost via0: map<(nat, nat), nat>, ghost gone: set<nat>)
      returns (progress: nat, ghost all: set<nat>)
      requires Valid() && !k.pt.memory.smp
      requires Doomed(k.pt.memory.ledger.table, owner, list, 0) && OthersSame(t0, k.pt.memory.ledger.table, owner)
      requires Stripped(recs0, leaf0, via0, k.recs, k.pt.leaf, k.via, gone) && gone <= ByOwner(recs0, owner)
      modifies k`recs, k`via, k.pt`mem, k.pt`leaf, k.pt.memory, k.pt.memory.phys, k.pt.memory.ledger
      ensures Valid() && progress == |list|
      ensures TokensOf(k.pt.memory.ledger.table, owner) + |list| == TokensOf(old(k.pt.memory.ledger.table), owner)
      ensures OthersSame(t0, k.pt.memory.ledger.table, owner)
      ensures Stripped(recs0, leaf0, via0, k.recs, k.pt.leaf, k.via, all) && all <= ByOwner(recs0, owner)
      ensures k.modes == old(k.modes) && k.pt.memory.ram == old(k.pt.memory.ram)
    {
      hide Kernel.Consistent, FramesOf, TokensOf, IsLive, WithinAll, OthersSame, Lowered, KillAt, OnlyPins, Doomed, Stripped,
           ByOwner, ByToken, Killed, Kept;
      progress, all := 0, gone;
      var i: nat := 0;
      while i < |list|
        invariant i <= |list| && progress == i && Valid()
        invariant Doomed(k.pt.memory.ledger.table, owner, list, i) && OthersSame(t0, k.pt.memory.ledger.table, owner)
        invariant Stripped(recs0, leaf0, via0, k.recs, k.pt.leaf, k.via, all) && all <= ByOwner(recs0, owner)
        invariant k.modes == old(k.modes) && k.pt.memory.ram == old(k.pt.memory.ram)
        invariant TokensOf(k.pt.memory.ledger.table, owner) + i == TokensOf(old(k.pt.memory.ledger.table), owner)
      {
        ghost var t, recs, leaf, via := k.pt.memory.ledger.table, k.recs, k.pt.leaf, k.via;
        RevokesOwn(k, recs0, leaf0, via0, all, owner, list, i);
        var n := k.Revoke(list[i]);
        all := StripMore(recs0, leaf0, via0, recs, leaf, via, all, ByToken(recs, list[i], MAX_MAPS));
        ghost var u := k.pt.memory.ledger.table;
        KillOne(t0, t, u, owner, list, i, n);
        LoweredPins(t, u, list[i], n);
        WithinPins(bound, t, u);
        WithinKill(bound, u, list[i]);
        var rc, seen := k.Release(list[i], false, false, 0);
        if rc == RelOk {
          progress := progress + 1;
        }
        i := i + 1;
      }
    }

    /** One system call, by its number in rax; every one keeps every invariant and every quota. */
    method Resource(a: Aspace, f: ExcFrame)
      requires Valid() && k.Handle(a)
      modifies f, k, k.pt, k.pt.memory, k.pt.memory.phys, k.pt.memory.ledger
      ensures Valid() && k.Handle(a) && k.spaces == old(k.spaces)
      ensures old(f.rax) == XSYS_ALLOC ==> Allocated(a, f)
      ensures old(f.rax) == XSYS_MAP ==> Mapped(a, f)
      ensures old(f.rax) == XSYS_UNMAP ==> Unmapped(a, f)
      ensures old(f.rax) == XSYS_FREE ==> Freed(a, f)
      ensures old(f.rax) == XSYS_INFO ==> f.rax == Usage(a, f.rdi) && k.Untouched()
      ensures !(XSYS_ALLOC <= old(f.rax) <= XSYS_INFO) ==> f.rax == Code(NoSys) && k.Untouched()
      ensures f.rdi == old(f.rdi) && f.rsi == old(f.rsi) && (old(f.rax) != XSYS_ALLOC ==> f.rdx == old(f.rdx))
    {
      hide Kernel.Consistent, FramesOf, TokensOf, IsLive, WithinAll, System.Allocated, System.Mapped, System.Unmapped,
           System.Freed, System.Usage;
      if f.rax == XSYS_ALLOC {
        Alloc(a, f);
      } else if f.rax == XSYS_MAP {
        MapCall(a, f);
      } else if f.rax == XSYS_UNMAP {
        UnmapCall(a, f);
      } else if f.rax == XSYS_FREE {
        Free(a, f);
      } else if f.rax == XSYS_INFO {
        Info(a, f);
      } else {
        f.rax := Code(NoSys);
      }
    }
  }

  // ---- reaping ----

  /** u is t without some of the owner's tokens; every other entry is as it was. */
  ghost predicate OthersSame(t: seq<Entry>, u: seq<Entry>, owner: nat) {
    |t| == |u| && forall s :: 0 <= s < |t| && !Holds(t[s], owner) ==> u[s] == t[s]
  }

  function ByOwner(recs: seq<MapRec>, owner: nat): set<nat> {
    set i | 0 <= i < |recs| && recs[i].live && recs[i].owner == owner
  }

  /** The records in `gone` were dropped, with their pages, and nothing else changed. */
  ghost predicate Stripped(recs0: seq<MapRec>, leaf0: Leaves, via0: map<(nat, nat), nat>, recs: seq<MapRec>, leaf: Leaves,
                           via: map<(nat, nat), nat>, gone: set<nat>) {
    && leaf0.Keys <= via0.Keys
    && recs == Killed(recs0, gone) && leaf == Kept(leaf0, via0, gone) && via == Kept(via0, via0, gone)
  }

  lemma StrippedNone(k: Kernel, owner: nat)
    requires k.Valid()
    ensures Stripped(k.recs, k.pt.leaf, k.via, k.recs, k.pt.leaf, k.via, {}) && {} <= ByOwner(k.recs, owner)
  {
    hide Roots, Capped, Memory.Valid, RecsOk, Tree;
    NothingDropped(k.recs, k.pt.leaf, k.via);
  }

  lemma StripMore(recs0: seq<MapRec>, leaf0: Leaves, via0: map<(nat, nat), nat>, recs: seq<MapRec>, leaf: Leaves,
                  via: map<(nat, nat), nat>, gone: set<nat>, more: set<nat>)
    returns (all: set<nat>)
    requires Stripped(recs0, leaf0, via0, recs, leaf, via, gone)
    ensures all == gone + more
    ensures Stripped(recs0, leaf0, via0, Killed(recs, more), Kept(leaf, via, more), Kept(via, via, more), all)
  {
    hide Kept;
    all := gone + more;
    KeptMore(leaf0, via0, gone, more);
    KeptMore(via0, via0, gone, more);
    assert Killed(recs, more) == Killed(recs0, all);
  }

  /** The records of one of the owner's tokens are the owner's. */
  lemma RevokesOwn(k: Kernel, recs0: seq<MapRec>, leaf0: Leaves, via0: map<(nat, nat), nat>, gone: set<nat>, owner: nat,
                   list: seq<nat>, i: nat)
    requires k.Valid() && Stripped(recs0, leaf0, via0, k.recs, k.pt.leaf, k.via, gone)
    requires Doomed(k.pt.memory.ledger.table, owner, list, i) && i < |list|
    ensures ByToken(k.recs, list[i], MAX_MAPS) <= ByOwner(recs0, owner)
  {
    hide Shown, Roots, Capped, Memory.Valid, RecOk, Kept;
    assert Mine(k.pt.memory.ledger.table, list[i], owner);
    forall j | j in ByToken(k.recs, list[i], MAX_MAPS)
      ensures j in ByOwner(recs0, owner)
    {
      RecLive(k.recs, k.modes, k.pt.memory.ledger.table, k.spaces, j);
    }
  }

  /** Once the owner has no record left, exactly its records were dropped. */
  lemma AllStripped(recs0: seq<MapRec>, leaf0: Leaves, via0: map<(nat, nat), nat>, recs: seq<MapRec>, leaf: Leaves,
                    via: map<(nat, nat), nat>, gone: set<nat>, owner: nat)
    requires Stripped(recs0, leaf0, via0, recs, leaf, via, gone) && gone <= ByOwner(recs0, owner)
    requires forall i :: 0 <= i < |recs| && recs[i].live ==> recs[i].owner != owner
    ensures gone == ByOwner(recs0, owner)
    ensures recs == Killed(recs0, ByOwner(recs0, owner)) && leaf == Kept(leaf0, via0, ByOwner(recs0, owner))
    ensures via == Kept(via0, via0, ByOwner(recs0, owner))
  {
    hide Kept;
    assert forall i :: i in ByOwner(recs0, owner) ==> i in gone;
  }

  lemma OthersSelf(t: seq<Entry>, owner: nat)
    ensures OthersSame(t, t, owner)
  {
  }

  /** list[i..] are live tokens of the owner, one per slot. */
  ghost predicate Doomed(t: seq<Entry>, owner: nat, list: seq<nat>, i: nat) {
    && (forall j :: i <= j < |list| ==> Mine(t, list[j], owner))
    && (forall j, l :: 0 <= j < l < |list| ==> SlotOf(list[j]) != SlotOf(list[l]))
  }

  lemma ListDoomed(t: seq<Entry>, owner: nat, list: seq<nat>)
    requires TokenLedger.TableOk(t) && list <= OwnerList(t, owner)
    ensures Doomed(t, owner, list, 0)
  {
    assert t[..SLOTS] == t;
    forall j | 0 <= j < |list|
      ensures Mine(t, list[j], owner) && forall l :: 0 <= l < j ==> SlotOf(list[l]) < SlotOf(list[j])
    {
      OwnerListLive(t, SLOTS, owner, j);
      assert list[j] == OwnerList(t, owner)[j];
    }
  }

  /** Killing one of them, its pins gone, leaves the rest doomed. */
  lemma KillOne(t0: seq<Entry>, t: seq<Entry>, u: seq<Entry>, owner: nat, list: seq<nat>, i: nat, n: nat)
    requires Doomed(t, owner, list, i) && i < |list| && OthersSame(t0, t, owner)
    requires Lowered(t, u, list[i], n)
    ensures IsLive(u, list[i]) && At(u, list[i]).owner == owner
    ensures Doomed(KillAt(u, list[i]), owner, list, i + 1) && OthersSame(t0, KillAt(u, list[i]), owner)
    ensures TokensOf(KillAt(u, list[i]), owner) + 1 == TokensOf(t, owner)
  {
    hide TokensOf, FramesOf;
    assert Mine(t, list[i], owner);
    assert Holds(t0[SlotOf(list[i])], owner);
    assert OnlyPins(t, u);
    PinsUseNothing(t, u, owner);
    KillUses(u, list[i], owner);
    forall j | i + 1 <= j < |list|
      ensures Mine(KillAt(u, list[i]), list[j], owner)
    {
      assert Mine(t, list[j], owner);
    }
  }

  lemma LoweredPins(t: seq<Entry>, u: seq<Entry>, tok: nat, n: nat)
    requires Lowered(t, u, tok, n)
    ensures OnlyPins(t, u)
  {
  }

  lemma {:induction false} HoldsCounts(t: seq<Entry>, s: nat, owner: nat)
    requires s < |t| && Holds(t[s], owner)
    ensures TokensOf(t, owner) >= 1
    decreases |t|
  {
    if s < |t| - 1 {
      HoldsCounts(t[..|t| - 1], s, owner);
    }
  }

  /** An owner without tokens has no mappings. */
  lemma NoneOwned(k: Kernel, owner: nat)
    requires k.Valid() && TokensOf(k.pt.memory.ledger.table, owner) == 0
    ensures forall i :: 0 <= i < |k.recs| && k.recs[i].live ==> k.recs[i].owner != owner
    ensures forall i :: 0 <= i < |k.recs| && k.recs[i].live ==> k.recs[i].root in k.spaces && k.spaces[k.recs[i].root] == k.recs[i].owner
  {
    hide Shown, Roots, Capped, Memory.Valid, RecOk;
    forall i | 0 <= i < |k.recs| && k.recs[i].live
      ensures k.recs[i].owner != owner && k.recs[i].root in k.spaces && k.spaces[k.recs[i].root] == k.recs[i].owner
    {
      RecLive(k.recs, k.modes, k.pt.memory.ledger.table, k.spaces, i);
      if k.recs[i].owner == owner {
        HoldsCounts(k.pt.memory.ledger.table, SlotOf(k.recs[i].tok), owner);
      }
    }
  }

  lemma NoneThere(recs: seq<MapRec>, root: nat)
    requires forall i :: 0 <= i < |recs| && recs[i].live ==> recs[i].root != root
    ensures ByRoot(recs, root, MAX_MAPS) == {}
  {
  }

  /** Same records, same counts: the ledger did not change. */
  lemma SameCounts(k: Kernel, t: seq<Entry>, recs: seq<MapRec>)
    requires k.Valid() && k.recs == recs && OnlyPins(t, k.pt.memory.ledger.table) && Pins(recs, t, {})
    ensures k.pt.memory.ledger.table == t
  {
    hide Shown, Roots, Capped, Memory.Valid, RecOk;
  }

  lemma KernelPins(k: Kernel)
    requires k.Valid()
    ensures Pins(k.recs, k.pt.memory.ledger.table, {})
  {
  }

  lemma KernelLedger(k: Kernel)
    requires k.Valid()
    ensures k.pt.memory.ledger.Valid() && |k.recs| == MAX_MAPS
  {
  }

  predicate Mine(t: seq<Entry>, tok: nat, owner: nat) {
    IsLive(t, tok) && At(t, tok).owner == owner
  }

  /** No answer tells someone else's token from one that does not exist. */
  lemma ForeignIsMissing(recs: seq<MapRec>, t: seq<Entry>, u: seq<Entry>, live: bool, owner: nat, virt: nat, tok: nat,
                         perms: nat)
    requires TokenLedger.TableOk(t) && TokenLedger.TableOk(u) && !Mine(t, tok, owner) && !Mine(u, tok, owner)
    ensures FromXas(Refusal(recs, t, live, owner, virt, tok, perms))
         == FromXas(Refusal(recs, u, live, owner, virt, tok, perms))
    ensures FromRel(ReleaseStatus(t, tok, true, true, owner)) == FromRel(ReleaseStatus(u, tok, true, true, owner))
  {
    hide OwnerRecs, FirstFree, Need;
    assert FromXas(MapErr(AcquireStatus(t, tok, owner, Need(perms)))) == BadToken;
    assert FromXas(MapErr(AcquireStatus(u, tok, owner, Need(perms)))) == BadToken;
  }

  lemma {:induction false} NothingHeld(t: seq<Entry>, owner: nat)
    requires forall s :: 0 <= s < |t| ==> !Holds(t[s], owner)
    ensures TokensOf(t, owner) == 0 && FramesOf(t, owner) == 0
  {
    if t != [] {
      NothingHeld(t[..|t| - 1], owner);
    }
  }
}
