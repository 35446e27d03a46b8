/**
 Extent lists.  A list of runs stands for the sequence of disk blocks it
 expands to: logical block l of a file is `Blocks(list)[l]`.
 */
module Extents {

  const MAX_EXT: nat := 2048
  const U32_MAX: nat := 0xFFFF_FFFF

  datatype Extent = Extent(start: nat, len: nat)

  function RunSeq(start: nat, len: nat): (r: seq<nat>)
    ensures |r| == len
  {
    seq(len, k requires 0 <= k => start + k)
  }

  function Blocks(list: seq<Extent>): seq<nat> {
    if list == [] then []
    else Blocks(list[..|list| - 1]) + RunSeq(list[|list| - 1].start, list[|list| - 1].len)
  }

  /** s[lo..hi], empty when the bounds cross; hi is cut to the length. */
  function Slice<T>(s: seq<T>, lo: nat, hi: nat): seq<T> {
    var h := if hi < |s| then hi else |s|;
    if lo < h then s[lo..h] else []
  }

  lemma BlocksPush(list: seq<Extent>, e: Extent)
    ensures Blocks(list + [e]) == Blocks(list) + RunSeq(e.start, e.len)
  {
    assert (list + [e])[..|list|] == list;
  }

  lemma {:induction false} BlocksPrefix(list: seq<Extent>, i: nat)
    requires i <= |list|
    ensures Blocks(list[..i]) <= Blocks(list)
    decreases |list|
  {
    if i < |list| {
      BlocksPrefix(list[..|list| - 1], i);
      assert list[..|list| - 1][..i] == list[..i];
    } else {
      assert list[..i] == list;
    }
  }

  lemma BlocksNext(list: seq<Extent>, i: nat)
    requires i < |list|
    ensures Blocks(list[..i + 1]) == Blocks(list[..i]) + RunSeq(list[i].start, list[i].len)
  {
    hide Blocks, RunSeq;
    var before := list[..i];
    assert list[..i + 1] == before + [list[i]];
    BlocksPush(before, list[i]);
  }

  lemma BlocksStep(list: seq<Extent>, i: nat)
    requires i < |list|
    ensures Blocks(list[..i + 1]) == Blocks(list[..i]) + RunSeq(list[i].start, list[i].len)
    ensures Blocks(list[..i + 1]) <= Blocks(list)
  {
    hide Blocks, RunSeq;
    BlocksNext(list, i);
    BlocksPrefix(list, i + 1);
  }

  lemma BlocksAll(list: seq<Extent>)
    ensures list[..|list|] == list
  {
  }

  lemma {:induction false} BlocksConcat(a: seq<Extent>, b: seq<Extent>)
    ensures Blocks(a + b) == Blocks(a) + Blocks(b)
    decreases |b|
  {
    hide Blocks, RunSeq;
    if b == [] {
      assert a + b == a;
      assert Blocks(b) == [] by { SliceNone(b, 0, 0); }
    } else {
      var c := b[..|b| - 1];
      BlocksConcat(a, c);
      assert c + [b[|b| - 1]] == b;
      BlocksPush(c, b[|b| - 1]);
      assert a + b == (a + c) + [b[|b| - 1]];
      BlocksPush(a + c, b[|b| - 1]);
    }
  }

  ghost predicate Positive(list: seq<Extent>) {
    forall i :: 0 <= i < |list| ==> list[i].len > 0
  }

  ghost predicate Inside(list: seq<Extent>, total: nat) {
    forall i :: 0 <= i < |list| ==> list[i].start + list[i].len <= total
  }

  // ---- how many extents a block sequence needs ----

  /** The number of maximal runs of consecutive blocks. */
  function RunCount(s: seq<nat>): nat {
    if |s| == 0 then 0
    else RunCount(s[..|s| - 1]) + if |s| > 1 && s[|s| - 1] == s[|s| - 2] + 1 then 0 else 1
  }

  /** The run at `start` continues the sequence. */
  predicate Continues(s: seq<nat>, start: nat) {
    |s| > 0 && s[|s| - 1] + 1 == start
  }

  lemma {:induction false} RunCountPush(s: seq<nat>, start: nat, len: nat)
    requires len > 0
    ensures RunCount(s + RunSeq(start, len)) == RunCount(s) + if Continues(s, start) then 0 else 1
  {
    var all := s + RunSeq(start, len);
    if len == 1 {
      assert all[..|all| - 1] == s;
    } else {
      RunCountPush(s, start, len - 1);
      assert all[..|all| - 1] == s + RunSeq(start, len - 1);
    }
  }

  lemma {:induction false} RunCountGrows(s: seq<nat>, t: seq<nat>)
    ensures RunCount(s) <= RunCount(s + t)
    decreases |t|
  {
    if t == [] {
      assert s + t == s;
    } else {
      RunCountGrows(s, t[..|t| - 1]);
      assert (s + t)[..|s + t| - 1] == s + t[..|t| - 1];
    }
  }

  lemma {:induction false} FewRuns(list: seq<Extent>)
    requires Positive(list)
    ensures RunCount(Blocks(list)) <= |list|
  {
    hide RunSeq, RunCount;
    if list == [] {
      NoRuns();
    } else {
      var last := list[|list| - 1];
      FewRuns(list[..|list| - 1]);
      RunCountPush(Blocks(list[..|list| - 1]), last.start, last.len);
    }
  }

  lemma NoRuns()
    ensures RunCount([]) == 0
  {
  }

  /** A list in which no two neighbours could be one extent. */
  ghost predicate Merged(list: seq<Extent>) {
    Positive(list) && |list| == RunCount(Blocks(list))
  }

  /** The last extent of the list ends where the run starts, and both together fit 32 bits. */
  predicate Joins(list: seq<Extent>, start: nat, len: nat) {
    |list| > 0 && list[|list| - 1].start + list[|list| - 1].len == start && list[|list| - 1].len + len <= U32_MAX
  }

  lemma LastBlock(list: seq<Extent>, start: nat)
    requires Positive(list)
    ensures Continues(Blocks(list), start) <==> |list| > 0 && list[|list| - 1].start + list[|list| - 1].len == start
  {
    if |list| > 0 {
      var last := list[|list| - 1];
      assert Blocks(list)[|Blocks(list)| - 1] == last.start + last.len - 1;
    }
  }

  /** On a volume that 32 bits can number, adding a run to a merged list keeps it merged. */
  lemma MergedStep(list: seq<Extent>, start: nat, len: nat)
    requires Merged(list) && len > 0 && start + len <= U32_MAX
    ensures RunCount(Blocks(list) + RunSeq(start, len)) == |list| + if Joins(list, start, len) then 0 else 1
  {
    hide Blocks, RunSeq, RunCount;
    RunCountPush(Blocks(list), start, len);
    LastBlock(list, start);
  }

  /** Number of blocks a list covers, added up as the source does. */
  method CountBlocks(list: seq<Extent>) returns (n: nat)
    ensures n == |Blocks(list)|
  {
    n := 0;
    var i := 0;
    while i < |list|
      invariant i <= |list| && n == |Blocks(list[..i])|
    {
      BlocksStep(list, i);
      n := n + list[i].len;
      i := i + 1;
    }
    BlocksAll(list);
  }

  lemma BlocksLonger(list: seq<Extent>, len: nat)
    requires |list| > 0
    ensures var n := |list| - 1; var last := list[n];
      Blocks(list[n := Extent(last.start, last.len + len)]) == Blocks(list) + RunSeq(last.start + last.len, len)
  {
    var n := |list| - 1;
    var last := list[n];
    var longer := list[n := Extent(last.start, last.len + len)];
    assert longer[..n] == list[..n];
    assert RunSeq(last.start, last.len + len) == RunSeq(last.start, last.len) + RunSeq(last.start + last.len, len);
  }

  /** Appends a run, or lengthens the last one if it ends where the run starts. */
  method StageAdd(stage: seq<Extent>, start: nat, len: nat) returns (ok: bool, out: seq<Extent>)
    requires |stage| <= MAX_EXT
    ensures ok <==> Joins(stage, start, len) || |stage| < MAX_EXT
    ensures ok ==> Blocks(out) == Blocks(stage) + RunSeq(start, len)
    ensures ok ==> |out| == (if Joins(stage, start, len) then |stage| else |stage| + 1) && |out| <= MAX_EXT
    ensures ok && Positive(stage) && len > 0 ==> Positive(out)
  {
    hide Blocks, RunSeq;
    out := stage;
    if |stage| > 0 {
      var last := stage[|stage| - 1];
      if last.start + last.len == start && last.len + len <= U32_MAX {
        out := stage[|stage| - 1 := Extent(last.start, last.len + len)];
        BlocksLonger(stage, len);
        ok := true;
        return;
      }
    }
    if |stage| >= MAX_EXT {
      ok := false;
      return;
    }
    BlocksPush(stage, Extent(start, len));
    out := stage + [Extent(start, len)];
    ok := true;
  }

  /** The part of blocks [lo, hi) that lies in one extent starting at logical block `pos`. */
  lemma SliceStep(list: seq<Extent>, i: nat, pos: nat, lo: nat, hi: nat)
    requires i < |list| && pos == |Blocks(list[..i])|
    ensures var a := if pos > lo then pos else lo;
            var b := if pos + list[i].len < hi then pos + list[i].len else hi;
            Slice(Blocks(list[..i + 1]), lo, hi) == Slice(Blocks(list[..i]), lo, hi) +
              (if a < b then RunSeq(list[i].start + (a - pos), b - a) else [])
  {
    hide Blocks;
    BlocksStep(list, i);
    SliceAppend(Blocks(list[..i]), list[i].start, list[i].len, lo, hi);
  }

  lemma SliceAppend(s: seq<nat>, start: nat, len: nat, lo: nat, hi: nat)
    ensures var a := if |s| > lo then |s| else lo;
            var b := if |s| + len < hi then |s| + len else hi;
            Slice(s + RunSeq(start, len), lo, hi) == Slice(s, lo, hi) +
              (if a < b then RunSeq(start + (a - |s|), b - a) else [])
  {
  }

  lemma SliceDone(list: seq<Extent>, i: nat, lo: nat, hi: nat)
    requires i <= |list| && (i == |list| || |Blocks(list[..i])| >= hi)
    ensures Slice(Blocks(list[..i]), lo, hi) == Slice(Blocks(list), lo, hi)
  {
    BlocksPrefix(list, i);
    BlocksAll(list);
  }

  /**
   walk_old, mode 0: appends the runs behind logical blocks [lo, hi) to the list
   being built, which stays merged; fails exactly if that needs too many extents.
   */
  method WalkStage(list: seq<Extent>, lo: nat, hi: nat, stage: seq<Extent>) returns (ok: bool, out: seq<Extent>)
    requires |stage| <= MAX_EXT && Merged(stage) && Inside(list, U32_MAX)
    ensures ok ==> Blocks(out) == Blocks(stage) + Slice(Blocks(list), lo, hi) && |out| <= MAX_EXT && Merged(out)
    ensures ok <==> RunCount(Blocks(stage) + Slice(Blocks(list), lo, hi)) <= MAX_EXT
  {
    hide Blocks, Slice, RunSeq, RunCount;
    out := stage;
    var i, pos := 0, 0;
    SliceNone(list, lo, hi);
    while i < |list| && pos < hi
      invariant i <= |list| && pos == |Blocks(list[..i])|
      invariant |out| <= MAX_EXT && Merged(out)
      invariant Blocks(out) == Blocks(stage) + Slice(Blocks(list[..i]), lo, hi)
    {
      var len := list[i].len;
      var a := if pos > lo then pos else lo;
      var b := if pos + len < hi then pos + len else hi;
      SliceStep(list, i, pos, lo, hi);
      BlocksStep(list, i);
      if a < b {
        MergedStep(out, list[i].start + (a - pos), b - a);
        assert Blocks(out) + RunSeq(list[i].start + (a - pos), b - a) == Blocks(stage) + Slice(Blocks(list[..i + 1]), lo, hi);
        ok, out := StageAdd(out, list[i].start + (a - pos), b - a);
        if !ok {
          TooMany(list, i + 1, lo, hi, Blocks(stage));
          return;
        }
      }
      pos := pos + len;
      i := i + 1;
    }
    SliceDone(list, i, lo, hi);
    ok := true;
  }

  /** What a part of the list needs, all of it needs. */
  lemma TooMany(list: seq<Extent>, i: nat, lo: nat, hi: nat, before: seq<nat>)
    requires i <= |list| && RunCount(before + Slice(Blocks(list[..i]), lo, hi)) > MAX_EXT
    ensures RunCount(before + Slice(Blocks(list), lo, hi)) > MAX_EXT
  {
    hide Blocks, RunCount;
    BlocksPrefix(list, i);
    var part, all := Slice(Blocks(list[..i]), lo, hi), Slice(Blocks(list), lo, hi);
    assert part <= all;
    assert before + all == (before + part) + all[|part|..];
    RunCountGrows(before + part, all[|part|..]);
  }

  lemma SliceNone(list: seq<Extent>, lo: nat, hi: nat)
    ensures Blocks(list[..0]) == [] && Slice(Blocks(list[..0]), lo, hi) == []
  {
  }

  /** walk_old, mode 1: hands the runs behind logical blocks [lo, hi) to the deferred list, unmerged. */
  method WalkDefer(list: seq<Extent>, lo: nat, hi: nat, defer: seq<Extent>, max: nat) returns (ok: bool, out: seq<Extent>)
    requires |defer| <= max
    ensures |defer| + |list| <= max ==> ok
    ensures ok ==> Blocks(out) == Blocks(defer) + Slice(Blocks(list), lo, hi)
    ensures |out| <= max && |out| <= |defer| + |list|
    ensures Positive(defer) ==> Positive(out)
  {
    hide Blocks, Slice;
    out := defer;
    var i, pos := 0, 0;
    SliceNone(list, lo, hi);
    while i < |list| && pos < hi
      invariant i <= |list| && pos == |Blocks(list[..i])|
      invariant |out| <= max && |out| <= |defer| + i && (Positive(defer) ==> Positive(out))
      invariant Blocks(out) == Blocks(defer) + Slice(Blocks(list[..i]), lo, hi)
    {
      var len := list[i].len;
      var a := if pos > lo then pos else lo;
      var b := if pos + len < hi then pos + len else hi;
      SliceStep(list, i, pos, lo, hi);
      BlocksStep(list, i);
      if a < b {
        if |out| >= max {
          ok := false;
          return;
        }
        BlocksPush(out, Extent(list[i].start + (a - pos), b - a));
        out := out + [Extent(list[i].start + (a - pos), b - a)];
      }
      pos := pos + len;
      i := i + 1;
    }
    SliceDone(list, i, lo, hi);
    ok := true;
  }

  /** Disk block holding logical block l. */
  method OldPhys(list: seq<Extent>, l: nat) returns (ok: bool, phys: nat)
    ensures ok <==> l < |Blocks(list)|
    ensures ok ==> phys == Blocks(list)[l]
  {
    var i, pos := 0, 0;
    phys := 0;
    while i < |list|
      invariant i <= |list| && pos == |Blocks(list[..i])| && pos <= l
    {
      BlocksStep(list, i);
      if l < pos + list[i].len {
        phys := list[i].start + (l - pos);
        ok := true;
        return;
      }
      pos := pos + list[i].len;
      i := i + 1;
    }
    BlocksAll(list);
    ok := false;
  }
}
