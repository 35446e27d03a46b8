/**
 Moving blocks in and out of the free space: taking fresh ones for a write,
 giving them back, and freeing the deferred ones.
 */
module Transfer {
  import opened BlockDevice
  import opened Extents
  import opened Intervals
  import GM = GroupMap

  datatype Result = Ok | NoSpace | NoMemory | IoError

  lemma {:induction false} RunMultiset(start: nat, len: nat)
    ensures multiset(RunSeq(start, len)) == multiset(Run(start, len))
  {
    if len > 0 {
      RunMultiset(start, len - 1);
      assert RunSeq(start, len) == RunSeq(start, len - 1) + [start + len - 1];
    } else {
      assert RunSeq(start, 0) == [];
    }
  }

  ghost function Used(gm: GM.GMap): set<nat>
    requires gm.Shape()
    reads gm
  {
    GM.UsedBlocks(gm.geo, gm.pages)
  }

  /** `after` is `before` plus exactly these blocks, each of them new and taken once. */
  ghost predicate Adds(before: set<nat>, after: set<nat>, blocks: seq<nat>) {
    multiset(after) == multiset(before) + multiset(blocks)
  }

  lemma AddsRun(u0: set<nat>, u: set<nat>, u': set<nat>, runs: seq<Extent>, start: nat, len: nat)
    requires Adds(u0, u, Blocks(runs))
    requires Run(start, len) !! u && u' == u + Run(start, len)
    ensures Adds(u0, u', Blocks(runs + [Extent(start, len)]))
  {
    hide Blocks, Run;
    BlocksPush(runs, Extent(start, len));
    RunMultiset(start, len);
    assert multiset(u') == multiset(u) + multiset(Run(start, len));
  }

  /** Where a maximal run of free blocks starts, groups taken separately. */
  ghost function PieceStarts(geo: GM.Geometry, used: set<nat>): set<nat> {
    set b | 0 <= b < geo.total && b !in used && (GM.Edge(geo, b) || (b > 0 && b - 1 in used))
  }

  /** How many pieces the free space is in. */
  ghost function Pieces(geo: GM.Geometry, used: set<nat>): nat {
    |PieceStarts(geo, used)|
  }

  lemma Enough(geo: GM.Geometry, used: set<nat>, starts: set<nat>)
    requires starts <= PieceStarts(geo, used)
    ensures |starts| <= Pieces(geo, used)
  {
    hide PieceStarts;
    assert PieceStarts(geo, used) == starts + (PieceStarts(geo, used) - starts);
  }

  /** Nothing free follows any of the runs in its group, and `next` is where the last one ends. */
  ghost predicate Ended(geo: GM.Geometry, used: set<nat>, runs: seq<Extent>, next: nat) {
    && (forall j :: 0 <= j < |runs| ==> Stopped(geo, used, runs[j].start + runs[j].len))
    && (runs != [] ==> Stopped(geo, used, next))
  }

  ghost predicate Stopped(geo: GM.Geometry, used: set<nat>, b: nat) {
    b in used || b == geo.total || GM.Edge(geo, b)
  }

  /** Unless it is the first one, the run found next starts a piece of the free space as it was at the beginning. */
  lemma NextPiece(geo: GM.Geometry, used: set<nat>, now: set<nat>, after: set<nat>, runs: seq<Extent>, next: nat,
                  start: nat, len: nat, need: nat)
    requires Adds(used, now, Blocks(runs)) && Ended(geo, now, runs, next)
    requires 0 < len <= need && start + len <= geo.total && Run(start, len) !! now && after == now + Run(start, len)
    requires start == next || GM.Edge(geo, start) || (start > 0 && start - 1 in now)
    requires len < need ==> Stopped(geo, now, start + len)
    ensures runs != [] ==> start in PieceStarts(geo, used)
    ensures start !in now && start in after
    ensures len < need ==> Ended(geo, after, runs + [Extent(start, len)], start + len)
  {
    hide GM.Edge, Blocks;
    assert start in Run(start, len);
    assert start !in used by {
      assert start in used ==> start in multiset(now);
    }
    if start > 0 && start - 1 in now && start - 1 !in used {
      var j := OwnRun(used, now, runs, start - 1);
      RunTaken(used, now, runs, j, start);
      assert start == runs[j].start + runs[j].len;
      assert Stopped(geo, now, start);
    }
  }

  lemma NoneEnded(geo: GM.Geometry, used: set<nat>, next: nat)
    ensures Ended(geo, used, [], next)
  {
  }

  /** A block taken since belongs to one of the runs. */
  lemma OwnRun(used: set<nat>, now: set<nat>, runs: seq<Extent>, b: nat) returns (j: nat)
    requires Adds(used, now, Blocks(runs)) && b in now && b !in used
    ensures j < |runs| && runs[j].start <= b < runs[j].start + runs[j].len
  {
    assert b in multiset(now);
    assert b in Blocks(runs);
    j := RunOf(runs, b);
  }

  lemma {:induction false} RunOf(runs: seq<Extent>, b: nat) returns (j: nat)
    requires b in Blocks(runs)
    ensures j < |runs| && runs[j].start <= b < runs[j].start + runs[j].len
    decreases |runs|
  {
    var last := |runs| - 1;
    if b in Blocks(runs[..last]) {
      j := RunOf(runs[..last], b);
    } else {
      j := last;
    }
  }

  lemma RunTaken(used: set<nat>, now: set<nat>, runs: seq<Extent>, j: nat, b: nat)
    requires Adds(used, now, Blocks(runs)) && j < |runs|
    ensures runs[j].start <= b < runs[j].start + runs[j].len ==> b in now
  {
    hide Blocks;
    if runs[j].start <= b < runs[j].start + runs[j].len {
      BlocksStep(runs, j);
      var at := |Blocks(runs[..j])| + (b - runs[j].start);
      assert Blocks(runs)[at] == Blocks(runs[..j + 1])[at] == b;
      assert b in multiset(Blocks(runs));
      assert b in multiset(now);
    }
  }

  lemma TookEnds(geo: GM.Geometry, before: seq<seq<bool>>, after: seq<seq<bool>>, start: nat, len: nat, need: nat)
    requires geo.WellFormed() && GM.PagesOk(before, geo.groups) && GM.PagesOk(after, geo.groups)
    requires GM.Took(geo, before, after, start, len, need)
    ensures 0 < len < need ==> Stopped(geo, GM.UsedBlocks(geo, before), start + len)
  {
    hide GM.UsedBlocks, Run, GM.Edge;
  }

  /** The allocation loop of exfs_write and exfs_write_at; on failure everything is given back. */
  method TakeFresh(gm: GM.GMap, hint: nat, need: nat) returns (rc: Result, runs: seq<Extent>, next: nat)
    requires gm.Valid() && gm.Intact() && hint <= gm.geo.total
    modifies gm`written, gm`cache, gm`clock, gm`faulted, gm`failed, gm`free, gm`pages, gm.dev
    ensures gm.Valid() && Through(old(gm.dev.trace), gm.dev.trace, gm.Pending())
    ensures gm.Intact() ==> next <= gm.geo.total
    ensures rc.Ok? ==> gm.Intact() && |Blocks(runs)| == need && Positive(runs) && |runs| <= MAX_EXT
    ensures rc.Ok? ==> Inside(runs, gm.geo.total) && Adds(old(Used(gm)), Used(gm), Blocks(runs))
    ensures !rc.Ok? && gm.Intact() ==> Used(gm) == old(Used(gm))
    ensures rc.Ok? || rc.NoSpace? || rc.NoMemory?
    ensures old(gm.Sure()) ==> gm.Sure()
    ensures rc.NoSpace? && gm.Intact() ==> need > gm.geo.total - |old(Used(gm))|
    ensures rc.NoMemory? && gm.Intact() ==> need > MAX_EXT && Pieces(gm.geo, old(Used(gm))) + 1 >= MAX_EXT
    ensures rc.Ok? ==> |runs| <= need && |runs| <= Pieces(gm.geo, old(Used(gm))) + 1
  {
    hide GM.UsedBlocks, GM.Coherent, GM.Counted, Through, GM.PendingBlocks, Blocks, Run, Adds, GM.Used, GM.Reserved, GM.Flushable,
         PieceStarts, Ended, GM.Edge;
    ghost var used, starts := Used(gm), {};
    runs, next := [], hint;
    var got := 0;
    ThroughSelf(gm.dev.trace, gm.Pending());
    NoBlocks(Used(gm));
    NoneEnded(gm.geo, used, hint);
    while got < need
      invariant gm.Valid() && gm.Intact() && next <= gm.geo.total
      invariant Through(old(gm.dev.trace), gm.dev.trace, gm.Pending())
      invariant got == |Blocks(runs)| <= need && |runs| <= MAX_EXT
      invariant Positive(runs) && Inside(runs, gm.geo.total)
      invariant Adds(used, Used(gm), Blocks(runs)) && (old(gm.Sure()) ==> gm.Sure())
      invariant starts <= PieceStarts(gm.geo, used) * Used(gm) && |runs| <= |starts| + 1
      invariant |runs| <= got && (got < need ==> Ended(gm.geo, Used(gm), runs, next))
      decreases need - got
    {
      label Before:
      if |runs| == MAX_EXT {
        Enough(gm.geo, used, starts);
        ReleaseFresh(gm, runs, used);
        ThroughTrans(old(gm.dev.trace), old@Before(gm.dev.trace), gm.dev.trace, gm.Pending());
        rc := NoMemory;
        return;
      }
      var st, start, len := gm.Take(next, need - got);
      ThroughTrans(old(gm.dev.trace), old@Before(gm.dev.trace), gm.dev.trace, gm.Pending());
      if !st.Ok? {
        label Failed:
        if gm.Intact() {
          FullVolume(gm.geo, old(Used(gm)), Used(gm), Blocks(runs));
        }
        ReleaseFresh(gm, runs, used);
        ThroughTrans(old(gm.dev.trace), old@Failed(gm.dev.trace), gm.dev.trace, gm.Pending());
        rc := NoSpace;
        return;
      }
      TookFacts(gm.geo, old@Before(gm.pages), gm.pages, start, len, need - got);
      TookEnds(gm.geo, old@Before(gm.pages), gm.pages, start, len, need - got);
      NextPiece(gm.geo, used, old@Before(Used(gm)), Used(gm), runs, next, start, len, need - got);
      AddsRun(old(Used(gm)), old@Before(Used(gm)), Used(gm), runs, start, len);
      BlocksPush(runs, Extent(start, len));
      if runs != [] {
        starts := starts + {start};
      }
      runs := runs + [Extent(start, len)];
      next := start + len;
      got := got + len;
    }
    Enough(gm.geo, used, starts);
    rc := Ok;
  }

  lemma NoBlocks(u: set<nat>)
    ensures Blocks([]) == [] && Adds(u, u, [])
  {
  }

  lemma TookFacts(geo: GM.Geometry, before: seq<seq<bool>>, after: seq<seq<bool>>, start: nat, len: nat, need: nat)
    requires geo.WellFormed() && GM.PagesOk(before, geo.groups) && GM.PagesOk(after, geo.groups)
    requires GM.Took(geo, before, after, start, len, need)
    ensures len <= need && (len > 0 ==> start + len <= geo.total)
    ensures Run(start, len) !! GM.UsedBlocks(geo, before)
    ensures GM.UsedBlocks(geo, after) == GM.UsedBlocks(geo, before) + Run(start, len)
  {
    hide GM.UsedBlocks, Run;
  }

  lemma AddsSize(u0: set<nat>, u: set<nat>, blocks: seq<nat>)
    requires Adds(u0, u, blocks)
    ensures |u| == |u0| + |blocks|
  {
    assert |multiset(u)| == |u0| + |blocks|;
  }

  lemma FullVolume(geo: GM.Geometry, u0: set<nat>, u: set<nat>, blocks: seq<nat>)
    requires Adds(u0, u, blocks)
    ensures u == Run(0, geo.total) ==> |u0| + |blocks| == geo.total
  {
    hide Run;
    assert |multiset(u)| == |u0| + |blocks|;
    RunMultiset(0, geo.total);
    assert |multiset(RunSeq(0, geo.total))| == geo.total;
  }

  /** Frees the blocks a failed write had taken; errors are ignored. */
  method ReleaseFresh(gm: GM.GMap, runs: seq<Extent>, ghost before: set<nat>)
    requires gm.Valid() && Inside(runs, gm.geo.total)
    requires gm.Intact() ==> Adds(before, Used(gm), Blocks(runs))
    modifies gm`written, gm`cache, gm`clock, gm`faulted, gm`failed, gm`free, gm`pages, gm.dev
    ensures gm.Valid() && Through(old(gm.dev.trace), gm.dev.trace, gm.Pending())
    ensures gm.Intact() ==> Used(gm) == before
    ensures gm.Intact() ==> old(gm.Intact())
    ensures old(gm.Sure()) && GM.Reserved(gm.geo) <= before ==> gm.Sure()
  {
    hide GM.UsedBlocks, GM.Coherent, GM.Counted, Through, GM.PendingBlocks, Blocks, Run, Adds, GM.Used, GM.Reserved, GM.Flushable;
    ThroughSelf(gm.dev.trace, gm.Pending());
    var i := 0;
    assert runs[0..] == runs;
    while i < |runs|
      invariant i <= |runs| && gm.Valid()
      invariant Through(old(gm.dev.trace), gm.dev.trace, gm.Pending())
      invariant gm.Intact() ==> Adds(before, Used(gm), Blocks(runs[i..]))
      invariant gm.Intact() ==> old(gm.Intact())
      invariant old(gm.Sure()) && GM.Reserved(gm.geo) <= before ==> gm.Sure()
    {
      label Before:
      if gm.Intact() && GM.Reserved(gm.geo) <= before {
        RunUnreserved(before, Used(gm), runs[i..], GM.Reserved(gm.geo));
      }
      var rc, done := gm.Release(runs[i].start, runs[i].len);
      ThroughTrans(old(gm.dev.trace), old@Before(gm.dev.trace), gm.dev.trace, gm.Pending());
      if gm.Intact() {
        ReleaseStep(before, old@Before(Used(gm)), Used(gm), runs[i..], done);
        assert runs[i..][1..] == runs[i + 1..];
      }
      i := i + 1;
    }
    if gm.Intact() {
      assert runs[i..] == [];
      NothingLeft(before, Used(gm));
    }
  }

  /** The run about to be released holds none of the blocks that stay. */
  lemma RunUnreserved(u0: set<nat>, u: set<nat>, list: seq<Extent>, keep: set<nat>)
    requires list != [] && Adds(u0, u, Blocks(list)) && keep <= u0
    ensures Run(list[0].start, list[0].len) !! keep
  {
    hide Blocks, Run;
    forall b | b in Run(list[0].start, list[0].len)
      ensures b !in u0
    {
      BlocksStep(list, 0);
      assert list[..0] == [];
      NoBlocks({});
      var at := b - list[0].start;
      assert Blocks(list)[at] == Blocks(list[..1])[at] == b;
      assert b in multiset(Blocks(list));
      assert multiset(u)[b] <= 1;
    }
  }

  /** Releasing the first run of a list of owned blocks succeeds and removes exactly that run. */
  lemma ReleaseStep(u0: set<nat>, u: set<nat>, u': set<nat>, list: seq<Extent>, done: nat)
    requires list != [] && Adds(u0, u, Blocks(list)) && done <= list[0].len
    requires u' == u - Run(list[0].start, done)
    requires done < list[0].len ==> list[0].start + done !in u
    ensures done == list[0].len && Adds(u0, u', Blocks(list[1..]))
  {
    hide Blocks, Run;
    var e := list[0];
    assert list == [e] + list[1..];
    BlocksConcat([e], list[1..]);
    assert [] + [e] == [e];
    BlocksPush([], e);
    NoBlocks(u0);
    var run := RunSeq(e.start, e.len);
    assert Blocks(list) == run + Blocks(list[1..]);
    assert multiset(Blocks(list)) == multiset(run) + multiset(Blocks(list[1..]));
    RunInUse(u, e, multiset(u0) + multiset(Blocks(list[1..])));
    RunMultiset(e.start, e.len);
    RunsOut(u, Run(e.start, e.len), multiset(u0) + multiset(Blocks(list[1..])));
  }

  lemma RunInUse(u: set<nat>, e: Extent, rest: multiset<nat>)
    requires multiset(u) == multiset(RunSeq(e.start, e.len)) + rest
    ensures forall b :: e.start <= b < e.start + e.len ==> b in u
  {
    forall b | e.start <= b < e.start + e.len
      ensures b in u
    {
      assert RunSeq(e.start, e.len)[b - e.start] == b;
      assert b in multiset(u);
    }
  }

  lemma RunsOut(u: set<nat>, run: set<nat>, rest: multiset<nat>)
    requires multiset(u) == multiset(run) + rest
    ensures multiset(u - run) == rest
  {
    forall b
      ensures multiset(u - run)[b] == rest[b]
    {
      assert multiset(u)[b] == multiset(run)[b] + rest[b];
    }
  }

  lemma NothingLeft(u0: set<nat>, u: set<nat>)
    requires Adds(u0, u, Blocks([]))
    ensures u == u0
  {
    forall b
      ensures b in u <==> b in u0
    {
      assert b in multiset(u) <==> b in multiset(u0);
    }
  }

  /** apply_deferred: stops at the first error. */
  method ApplyDeferred(gm: GM.GMap, list: seq<Extent>, ghost rest: set<nat>) returns (ok: bool)
    requires gm.Valid() && Inside(list, gm.geo.total)
    requires gm.Intact() ==> Adds(rest, Used(gm), Blocks(list))
    modifies gm`written, gm`cache, gm`clock, gm`faulted, gm`failed, gm`free, gm`pages, gm.dev
    ensures gm.Valid() && Through(old(gm.dev.trace), gm.dev.trace, gm.Pending())
    ensures ok && gm.Intact() ==> Used(gm) == rest
    ensures gm.Intact() ==> old(gm.Intact()) && ok
    ensures ok && old(gm.Intact()) ==> gm.Intact()
    ensures old(gm.Sure()) && GM.Reserved(gm.geo) <= rest ==> ok && gm.Sure()
  {
    hide GM.UsedBlocks, GM.Coherent, GM.Counted, Through, GM.PendingBlocks, Blocks, Run, Adds, GM.Used, GM.Reserved, GM.Flushable;
    ThroughSelf(gm.dev.trace, gm.Pending());
    var i := 0;
    assert list[0..] == list;
    while i < |list|
      invariant i <= |list| && gm.Valid() && gm.Intact() == old(gm.Intact())
      invariant old(gm.Sure()) && GM.Reserved(gm.geo) <= rest ==> gm.Sure()
      invariant Through(old(gm.dev.trace), gm.dev.trace, gm.Pending())
      invariant gm.Intact() ==> Adds(rest, Used(gm), Blocks(list[i..]))
    {
      label Before:
      if gm.Intact() && GM.Reserved(gm.geo) <= rest {
        RunUnreserved(rest, Used(gm), list[i..], GM.Reserved(gm.geo));
      }
      var rc, done := gm.Release(list[i].start, list[i].len);
      ThroughTrans(old(gm.dev.trace), old@Before(gm.dev.trace), gm.dev.trace, gm.Pending());
      if gm.Intact() {
        ReleaseStep(rest, old@Before(Used(gm)), Used(gm), list[i..], done);
        assert list[i..][1..] == list[i + 1..];
      }
      if !rc.Ok? {
        ok := false;
        return;
      }
      i := i + 1;
    }
    if gm.Intact() {
      assert list[i..] == [];
      NothingLeft(rest, Used(gm));
    }
    ok := true;
  }
}
