/**
 Whole runs of a mounted volume: any sequence of operations, with a power cut
 anywhere.
 */
module VolumeRuns {
  import opened Bytes
  import opened BlockDevice
  import opened InodeTable
  import opened Namespace
  import opened Image
  import opened VolumeState
  import opened Volume
  import GM = GroupMap
  import EP = ExtentPool

  datatype Op =
    | OpCreate(name: seq<byte>)
    | OpMkdir(name: seq<byte>)
    | OpDelete(name: seq<byte>)
    | OpWrite(name: seq<byte>, bytes: seq<byte>)
    | OpWriteAt(name: seq<byte>, off: nat, bytes: seq<byte>)
    | OpCommit

  type FsView = seq<Option<Entry>>

  /** Arguments a C caller can pass: terminated names, sizes that fit the address space. */
  predicate Passable(op: Op) {
    match op
    case OpCommit => true
    case OpWrite(name, bytes) => 0 !in name && |bytes| <= U64 - BLOCK
    case OpWriteAt(name, off, bytes) => 0 !in name && off < U64 && |bytes| < U64
    case _ => 0 !in op.name
  }

  /** What an operation that succeeds does to the visible file system. */
  ghost predicate Effect(op: Op, before: FsView, after: FsView) {
    match op
    case OpCreate(name) => Created(before, after, Entry(name, FILE, []))
    case OpMkdir(name) => Created(before, after, Entry(name, DIR, []))
    case OpDelete(name) => Removed(before, after, name)
    case OpWrite(name, bytes) => Rewritten(before, after, name, bytes)
    case OpWriteAt(name, off, bytes) => Spliced(before, after, name, off, bytes)
    case OpCommit => after == before
  }

  /** The answer, as far as the visible files decide it. */
  ghost predicate Answered(op: Op, before: FsView, rc: Status) {
    match op
    case OpCreate(name) => rc == NameStatus(before, name, true, false)
    case OpMkdir(name) => rc == NameStatus(before, name, true, false)
    case OpDelete(name) =>
      && rc in {OK, ENOENT, ENOTEMPTY, ENOMEM} && (rc.ENOENT? <==> !HasName(before, name))
      && (rc.ENOTEMPTY? <==> HasDir(before, name) && HasBelow(before, name))
    case OpWrite(name, bytes) =>
      && rc in {OK, ENOENT, EISDIR, ENOSPC, ENOMEM, EIO}
      && (rc.ENOENT? <==> !HasName(before, name)) && (rc.EISDIR? <==> HasDir(before, name))
    case OpWriteAt(name, off, bytes) =>
      && rc in {OK, ENOENT, EISDIR, EINVAL, ENOSPC, ENOMEM, EIO}
      && (rc.ENOENT? <==> !HasName(before, name)) && (rc.EISDIR? <==> HasDir(before, name))
      && (rc.EINVAL? <==> HasName(before, name) && !HasDir(before, name) && bytes != [] && off + |bytes| >= U64)
    case OpCommit => rc in {OK, ENOSPC, EIO}
  }

  /** One operation: it has its effect or changes nothing, and only a commit opens an epoch. */
  method Step(v: Vol, op: Op) returns (rc: Status)
    requires v.Valid() && v.mounted && !v.broken && Passable(op) && v.gen + 1 < U64
    modifies v, v.gm, v.dev, v.pool, v.pool.slots, v.pool.inUse
    ensures v.Wired() && v.Safe() && v.mounted && v.gen <= old(v.gen) + 1
    ensures v.gm.failed || v.broken || v.Valid()
    ensures v.dev.reliable ==> v.Valid() && !v.broken && !v.gm.failed && !rc.EIO?
    ensures Answered(op, old(v.Now()), rc)
    ensures if rc.OK? then Effect(op, old(v.Now()), v.Now()) else v.Now() == old(v.Now())
    ensures v.epochs == old(v.epochs) || (op.OpCommit? && NewEpoch(old(v.epochs), v.epochs, old(v.gen) + 1, v.Now()))
    ensures op.OpCommit? && rc.OK? ==> LastEpoch(v.epochs).view == v.Now()
    ensures Later(old(v.epochs), v.epochs, |old(v.dev.trace)|) && |old(v.dev.trace)| <= |v.dev.trace|
  {
    hide Created, Removed, Rewritten, Spliced, CrashSafe, View, NewEpoch, GM.GMap.Valid, Vol.Memory, Vol.Readable, NameStatus,
         HasName, HasDir, HasBelow, Vol.WriteTight, Vol.SpliceTight, Vol.SpliceFull, DeferFull, DeferFits;
    match op {
      case OpCreate(name) => rc := v.Create(name); CreateAnswers(old(v.Now()), name);
      case OpMkdir(name) => rc := v.Mkdir(name); CreateAnswers(old(v.Now()), name);
      case OpDelete(name) => rc := v.Delete(name);
      case OpWrite(name, bytes) => rc := v.Write(name, bytes);
      case OpWriteAt(name, off, bytes) => rc := v.WriteAt(name, off, bytes);
      case OpCommit => rc := v.Commit();
    }
    if v.dev.reliable {
      MapWorks(v);
    }
  }

  lemma CreateAnswers(before: FsView, name: seq<byte>)
    ensures !NameStatus(before, name, true, false).EIO?
  {
  }

  /**
   A run: stops early only if the map has an I/O error or a commit breaks the
   volume, so never on a reliable device.  After operation k the file system
   shows views[k + 1], the disk has had ends[k] contents, and tops[k] epochs
   were opened in all.
   */
  method Run(v: Vol, ops: seq<Op>)
    returns (rcs: seq<Status>, ghost views: seq<FsView>, ghost ends: seq<nat>, ghost tops: seq<nat>)
    requires v.Valid() && v.mounted && !v.broken && v.gen + |ops| < U64 && forall k :: 0 <= k < |ops| ==> Passable(ops[k])
    modifies v, v.gm, v.dev, v.pool, v.pool.slots, v.pool.inUse
    ensures v.Safe() && Logged(old(v.Now()), v.Now(), ops, rcs, views)
    ensures Opened(old(v.epochs), v.epochs, |old(v.dev.trace)|, |v.dev.trace|, ops, rcs, views, ends, tops)
    ensures |rcs| == |ops| || v.gm.failed || v.broken
    ensures v.dev.reliable ==> v.Valid() && |rcs| == |ops| && EIO !in rcs
  {
    hide Effect, Answered, CrashSafe, View, NewEpoch, Later, Vol.Memory, Vol.Readable, Passable, Logged, Opened, EP.Owners;
    rcs, views, ends, tops := [], [v.Now()], [], [];
    NothingYet(v.epochs, |v.dev.trace|, ops, v.Now());
    while |rcs| < |ops|
      invariant |rcs| <= |ops| && v.Valid() && v.mounted && !v.broken && v.gen + (|ops| - |rcs|) < U64
      invariant v.dev.reliable ==> EIO !in rcs
      invariant Logged(old(v.Now()), v.Now(), ops, rcs, views)
      invariant Opened(old(v.epochs), v.epochs, |old(v.dev.trace)|, |v.dev.trace|, ops, rcs, views, ends, tops)
    {
      ghost var before, last, gen, len := v.epochs, v.Now(), v.gen, |v.dev.trace|;
      var rc := Step(v, ops[|rcs|]);
      LoggedNext(old(v.Now()), last, ops, rcs, views, rc, v.Now());
      NewestStarted(v.dev.trace, v.epochs);
      OpenedNext(old(v.epochs), before, v.epochs, |old(v.dev.trace)|, len, |v.dev.trace|, ops, rcs, views, ends, tops, rc,
                 v.Now(), gen + 1);
      rcs, views := rcs + [rc], views + [v.Now()];
      ends, tops := ends + [|v.dev.trace|], tops + [|v.epochs|];
      if v.gm.failed || v.broken {
        return;
      }
    }
  }

  /** Each operation answers as the files call for, and has exactly its effect if it succeeds and none if it fails. */
  ghost predicate Logged(first: FsView, last: FsView, ops: seq<Op>, rcs: seq<Status>, views: seq<FsView>) {
    && |rcs| <= |ops| && |views| == |rcs| + 1 && views[0] == first && views[|rcs|] == last
    && forall k :: 0 <= k < |rcs| ==>
         && Answered(ops[k], views[k], rcs[k])
         && if rcs[k].OK? then Effect(ops[k], views[k], views[k + 1]) else views[k + 1] == views[k]
  }

  /**
   Epochs are opened by commits only, in order, each during its operation and
   showing the files of that moment; after a commit that succeeded the newest
   epoch shows the files as they are.
   */
  ghost predicate Opened(before: seq<Epoch>, after: seq<Epoch>, start: nat, end: nat, ops: seq<Op>, rcs: seq<Status>,
                         views: seq<FsView>, ends: seq<nat>, tops: seq<nat>) {
    && |ends| == |tops| == |rcs| <= |ops| && |views| == |rcs| + 1
    && |before| <= |after| && after[..|before|] == before
    && EndAt(start, ends, |rcs|) == end && TopAt(|before|, tops, |rcs|) == |after|
    && forall k :: 0 <= k < |rcs| ==>
         OpenedBy(after, ops[k], rcs[k], views[k + 1], EndAt(start, ends, k), ends[k], TopAt(|before|, tops, k), tops[k])
  }

  function EndAt(start: nat, ends: seq<nat>, k: nat): nat
    requires k <= |ends|
  {
    if k == 0 then start else ends[k - 1]
  }

  function TopAt(n: nat, tops: seq<nat>, k: nat): nat
    requires k <= |tops|
  {
    if k == 0 then n else tops[k - 1]
  }

  /** One operation takes the disk's history from length e0 to e1 and the epochs from t0 to t1. */
  ghost predicate OpenedBy(epochs: seq<Epoch>, op: Op, rc: Status, view: FsView, e0: nat, e1: nat, t0: nat, t1: nat) {
    && e0 <= e1 && t0 <= t1 <= |epochs| && 0 < t1
    && (t1 == t0 || (t1 == t0 + 1 && op.OpCommit? && epochs[t0].view == view && e0 <= epochs[t0].start))
    && epochs[t1 - 1].start < e1 && (op.OpCommit? && rc.OK? ==> epochs[t1 - 1].view == view)
  }

  lemma NewestStarted(trace: seq<Disk>, epochs: seq<Epoch>)
    requires CrashSafe(trace, epochs)
    ensures |epochs| > 0 && LastEpoch(epochs).start < |trace|
  {
    hide Recovers;
  }

  lemma NothingYet(epochs: seq<Epoch>, start: nat, ops: seq<Op>, now: FsView)
    ensures Logged(now, now, ops, [], [now]) && Opened(epochs, epochs, start, start, ops, [], [now], [], [])
  {
  }

  lemma LoggedNext(first: FsView, last: FsView, ops: seq<Op>, rcs: seq<Status>, views: seq<FsView>, rc: Status, now: FsView)
    requires Logged(first, last, ops, rcs, views) && |rcs| < |ops|
    requires Answered(ops[|rcs|], last, rc) && if rc.OK? then Effect(ops[|rcs|], last, now) else now == last
    ensures Logged(first, now, ops, rcs + [rc], views + [now])
  {
    hide Effect, Answered;
    var all, more := rcs + [rc], views + [now];
    forall k | 0 <= k < |all|
      ensures Answered(ops[k], more[k], all[k])
      ensures if all[k].OK? then Effect(ops[k], more[k], more[k + 1]) else more[k + 1] == more[k]
    {
      if k < |rcs| {
        assert all[k] == rcs[k] && more[k] == views[k] && more[k + 1] == views[k + 1];
      }
    }
  }

  lemma OpenedNext(first: seq<Epoch>, before: seq<Epoch>, after: seq<Epoch>, start: nat, mid: nat, end: nat, ops: seq<Op>,
                   rcs: seq<Status>, views: seq<FsView>, ends: seq<nat>, tops: seq<nat>, rc: Status, now: FsView, gen: nat)
    requires Opened(first, before, start, mid, ops, rcs, views, ends, tops) && |rcs| < |ops| && mid <= end
    requires after == before || (ops[|rcs|].OpCommit? && NewEpoch(before, after, gen, now))
    requires |after| > 0 && LastEpoch(after).start < end && Later(before, after, mid)
    requires ops[|rcs|].OpCommit? && rc.OK? ==> LastEpoch(after).view == now
    ensures Opened(first, after, start, end, ops, rcs + [rc], views + [now], ends + [end], tops + [|after|])
  {
    hide OpenedBy;
    var all, more, es, ts := rcs + [rc], views + [now], ends + [end], tops + [|after|];
    assert after[..|first|] == after[..|before|][..|first|];
    assert EndAt(start, es, |rcs|) == mid && TopAt(|first|, ts, |rcs|) == |before|;
    forall k | 0 <= k < |all|
      ensures OpenedBy(after, ops[k], all[k], more[k + 1], EndAt(start, es, k), es[k], TopAt(|first|, ts, k), ts[k])
    {
      if k < |rcs| {
        assert EndAt(start, es, k) == EndAt(start, ends, k) && TopAt(|first|, ts, k) == TopAt(|first|, tops, k);
        assert all[k] == rcs[k] && more[k + 1] == views[k + 1] && es[k] == ends[k] && ts[k] == tops[k];
        OpenedStill(before, after, ops[k], rcs[k], views[k + 1], EndAt(start, ends, k), ends[k], TopAt(|first|, tops, k), tops[k]);
      } else {
        OpenedNow(before, after, ops[k], rc, now, mid, end, gen);
      }
    }
  }

  lemma OpenedStill(before: seq<Epoch>, after: seq<Epoch>, op: Op, rc: Status, view: FsView, e0: nat, e1: nat, t0: nat,
                    t1: nat)
    requires OpenedBy(before, op, rc, view, e0, e1, t0, t1) && |before| <= |after| && after[..|before|] == before
    ensures OpenedBy(after, op, rc, view, e0, e1, t0, t1)
  {
    assert forall k :: 0 <= k < |before| ==> after[k] == before[k];
  }

  lemma OpenedNow(before: seq<Epoch>, after: seq<Epoch>, op: Op, rc: Status, now: FsView, mid: nat, end: nat, gen: nat)
    requires after == before || (op.OpCommit? && NewEpoch(before, after, gen, now))
    requires |after| > 0 && LastEpoch(after).start < end && Later(before, after, mid) && mid <= end
    requires op.OpCommit? && rc.OK? ==> LastEpoch(after).view == now
    ensures OpenedBy(after, op, rc, now, mid, end, |before|, |after|)
  {
  }

  /**
   A commit that answered OK is never lost: whatever the disk held from the end
   of that commit on belongs to its epoch or to that of a later commit of the run,
   so mounting it shows the files right after one of these commits.
   */
  lemma {:induction false} CommitSurvives(before: seq<Epoch>, after: seq<Epoch>, start: nat, trace: seq<Disk>, ops: seq<Op>,
                                          rcs: seq<Status>, views: seq<FsView>, ends: seq<nat>, tops: seq<nat>, k: nat, j: nat)
    returns (e: nat, m: nat)
    requires Opened(before, after, start, |trace|, ops, rcs, views, ends, tops) && CrashSafe(trace, after)
    requires k < |rcs| && ops[k].OpCommit? && rcs[k].OK? && 0 < ends[k] <= j + 1 && j < |trace|
    ensures e < |after| && after[e].start <= j && (e + 1 < |after| ==> j < after[e + 1].start)
    ensures Recovers(trace[j], after[e])
    ensures k <= m < |rcs| && ops[m].OpCommit? && after[e].view == views[m + 1]
  {
    hide Recovers, CrashSafe, Opened;
    OpenedAt(before, after, start, |trace|, ops, rcs, views, ends, tops, k);
    StartsGrow(trace, after, 0, tops[k] - 1);
    e := EveryCutRecovers(trace, after, j);
    if e + 1 < tops[k] {
      StartsGrow(trace, after, e + 1, tops[k] - 1);
    }
    m := k;
    if e >= tops[k] {
      m := Opener(before, after, start, |trace|, ops, rcs, views, ends, tops, k, e);
    }
  }

  lemma OpenedAt(before: seq<Epoch>, after: seq<Epoch>, start: nat, end: nat, ops: seq<Op>, rcs: seq<Status>,
                 views: seq<FsView>, ends: seq<nat>, tops: seq<nat>, k: nat)
    requires Opened(before, after, start, end, ops, rcs, views, ends, tops) && k < |rcs|
    ensures |ends| == |tops| == |rcs| <= |ops| && |views| == |rcs| + 1 && 0 < tops[k] <= |after|
    ensures after[tops[k] - 1].start < ends[k]
    ensures ops[k].OpCommit? && rcs[k].OK? ==> after[tops[k] - 1].view == views[k + 1]
  {
    assert OpenedBy(after, ops[k], rcs[k], views[k + 1], EndAt(start, ends, k), ends[k], TopAt(|before|, tops, k), tops[k]);
  }

  /** The commit that opened epoch e, later than operation k. */
  lemma Opener(before: seq<Epoch>, after: seq<Epoch>, start: nat, end: nat, ops: seq<Op>, rcs: seq<Status>,
               views: seq<FsView>, ends: seq<nat>, tops: seq<nat>, k: nat, e: nat)
    returns (m: nat)
    requires Opened(before, after, start, end, ops, rcs, views, ends, tops)
    requires k < |rcs| && |tops| == |rcs| && tops[k] <= e < |after|
    ensures k < m < |rcs| <= |ops| && |views| == |rcs| + 1 && ops[m].OpCommit? && after[e].view == views[m + 1]
  {
    hide OpenedBy;
    m := k + 1;
    while tops[m] <= e
      invariant k < m < |rcs| && TopAt(|before|, tops, m) <= e
      decreases |rcs| - m
    {
      m := m + 1;
    }
    OpenedOne(after, ops[m], rcs[m], views[m + 1], EndAt(start, ends, m), ends[m], TopAt(|before|, tops, m), tops[m], e);
  }

  lemma OpenedOne(epochs: seq<Epoch>, op: Op, rc: Status, view: FsView, e0: nat, e1: nat, t0: nat, t1: nat, e: nat)
    requires OpenedBy(epochs, op, rc, view, e0, e1, t0, t1) && t0 <= e < t1
    ensures e < |epochs| && op.OpCommit? && epochs[e].view == view
  {
  }

  lemma {:induction false} StartsGrow(trace: seq<Disk>, epochs: seq<Epoch>, i: nat, k: nat)
    requires CrashSafe(trace, epochs) && i <= k < |epochs|
    ensures epochs[i].start <= epochs[k].start
  {
    hide Recovers;
    if i < k {
      StartsGrow(trace, epochs, i, k - 1);
      assert epochs[k - 1].start < EndOf(epochs, k - 1, |trace|);
    }
  }

  /** Every disk content since the first epoch belongs to exactly one epoch and recovers to it. */
  lemma {:induction false} EveryCutRecovers(trace: seq<Disk>, epochs: seq<Epoch>, j: nat) returns (k: nat)
    requires CrashSafe(trace, epochs) && epochs[0].start <= j < |trace|
    ensures k < |epochs| && epochs[k].start <= j && (k + 1 < |epochs| ==> j < epochs[k + 1].start)
    ensures Recovers(trace[j], epochs[k])
  {
    hide Recovers;
    k := |epochs| - 1;
    while epochs[k].start > j
      invariant k < |epochs| && (k + 1 < |epochs| ==> j < epochs[k + 1].start)
    {
      k := k - 1;
    }
    assert EndOf(epochs, k, |trace|) > j;
  }

  /**
   Power comes back on any content the disk passed through: mounting it shows exactly
   the files of the epoch the content belongs to, or finds no volume before the first commit.
   */
  method PowerCut(trace: seq<Disk>, ghost epochs: seq<Epoch>, j: nat, sure: bool)
    returns (v: Vol, rc: Status, ghost bad: bool, ghost k: nat)
    requires CrashSafe(trace, epochs) && epochs[0].start <= j < |trace|
    ensures k < |epochs| && epochs[k].start <= j && (k + 1 < |epochs| ==> j < epochs[k + 1].start)
    ensures v.dev.disk == trace[j] && (sure ==> !bad)
    ensures !bad ==> (rc.OK? <==> epochs[k].state.Some?)
    ensures !bad && rc.OK? ==> v.Valid() && v.mounted && !v.broken && v.Now() == epochs[k].view
  {
    hide CrashSafe, View, Vol.Memory, Vol.Readable, Good, Recover, Newest;
    k := EveryCutRecovers(trace, epochs, j);
    var dev := new Device(trace[j], sure);
    v := new Vol(dev);
    CutShows(trace[j], epochs[k]);
    rc, bad := v.Mount();
  }

  lemma CutShows(d: Disk, e: Epoch)
    requires Recovers(d, e)
    ensures Sized(|d|) && (Recover(d).Some? <==> e.state.Some?)
    ensures e.state.Some? ==> Recover(d) == e.state && Good(d, e.state.value) && View(d, e.state.value.nodes) == e.view
  {
    hide View;
  }
}
