/**
 The physical frame bitmap: a bit is true when its frame is free.  Every method
 is one section under the bitmap's lock.
 */
module PhysMem {

  const PER_HUGE: nat := 512

  function CountFree(b: seq<bool>): (c: nat)
    ensures c <= |b|
  {
    if b == [] then 0 else CountFree(b[..|b| - 1]) + if b[|b| - 1] then 1 else 0
  }

  lemma {:induction false} CountSet(b: seq<bool>, i: nat, v: bool)
    requires i < |b| && b[i] != v
    ensures CountFree(b[i := v]) == CountFree(b) + if v then 1 else -1
    decreases |b|
  {
    var last := |b| - 1;
    if i < last {
      CountSet(b[..last], i, v);
      assert b[i := v][..last] == b[..last][i := v];
    } else {
      assert b[i := v][..last] == b[..last];
    }
  }

  /** b with [start, start + n) set to v. */
  function Fill(b: seq<bool>, start: nat, n: nat, v: bool): (r: seq<bool>)
    ensures |r| == |b|
    ensures forall i :: 0 <= i < |b| ==> r[i] == if start <= i < start + n then v else b[i]
  {
    seq(|b|, i requires 0 <= i < |b| => if start <= i < start + n then v else b[i])
  }

  predicate FreeRun(b: seq<bool>, start: nat, n: nat) {
    start + n <= |b| && forall i :: start <= i < start + n ==> b[i]
  }

  lemma {:induction false} CountTaken(b: seq<bool>, start: nat, n: nat)
    requires FreeRun(b, start, n)
    ensures CountFree(Fill(b, start, n, false)) == CountFree(b) - n
  {
    if n == 0 {
      assert Fill(b, start, 0, false) == b;
    } else {
      CountTaken(b, start, n - 1);
      var c := Fill(b, start, n - 1, false);
      CountSet(c, start + n - 1, false);
      assert Fill(b, start, n, false) == c[start + n - 1 := false];
    }
  }

  lemma {:induction false} CountFreed(b: seq<bool>, start: nat, n: nat)
    requires start + n <= |b| && forall i :: start <= i < start + n ==> !b[i]
    ensures CountFree(Fill(b, start, n, true)) == CountFree(b) + n
  {
    if n == 0 {
      assert Fill(b, start, 0, true) == b;
    } else {
      CountFreed(b, start, n - 1);
      var c := Fill(b, start, n - 1, true);
      CountSet(c, start + n - 1, true);
      assert Fill(b, start, n, true) == c[start + n - 1 := true];
    }
  }

  lemma {:induction false} RunCounts(b: seq<bool>, start: nat, n: nat)
    requires FreeRun(b, start, n)
    ensures n <= CountFree(b)
  {
    CountTaken(b, start, n);
  }

  lemma {:induction false} NothingFree(b: seq<bool>)
    requires forall s :: 0 <= s ==> !FreeRun(b, s, 1)
    ensures CountFree(b) == 0
    decreases |b|
  {
    if b != [] {
      var less := b[..|b| - 1];
      assert !FreeRun(b, |b| - 1, 1);
      forall s | 0 <= s
        ensures !FreeRun(less, s, 1)
      {
        assert !FreeRun(b, s, 1);
      }
      NothingFree(less);
    }
  }

  /** Every free run lost at most c frames, all at its front. */
  ghost predicate RunsKept(was: seq<bool>, now: seq<bool>, c: nat) {
    forall r: nat, n: nat :: c <= n && FreeRun(was, r, n) ==> FreeRun(now, r + c, n - c)
  }

  lemma RunsKeptSelf(b: seq<bool>, c: nat)
    ensures RunsKept(b, b, c)
  {
  }

  lemma RunsKeptTrans(a: seq<bool>, b: seq<bool>, d: seq<bool>, m: nat, n: nat)
    requires RunsKept(a, b, m) && RunsKept(b, d, n)
    ensures RunsKept(a, d, m + n)
  {
    forall r: nat, l: nat | m + n <= l && FreeRun(a, r, l)
      ensures FreeRun(d, r + (m + n), l - (m + n))
    {
      assert FreeRun(b, r + m, l - m);
    }
  }

  lemma RunsKeptMore(a: seq<bool>, b: seq<bool>, m: nat, n: nat)
    requires RunsKept(a, b, m) && m <= n
    ensures RunsKept(a, b, n)
  {
    RunsKeptSelf(b, n - m);
    RunsKeptTrans(a, b, b, m, n - m);
  }

  /** First fit never cuts a free run in two. */
  lemma FirstFitKeeps(b: seq<bool>, start: nat, n: nat)
    requires FreeRun(b, start, n) && forall s :: 0 <= s < start ==> !FreeRun(b, s, n)
    ensures RunsKept(b, Fill(b, start, n, false), n)
  {
    forall r: nat, l: nat | n <= l && FreeRun(b, r, l)
      ensures FreeRun(Fill(b, start, n, false), r + n, l - n)
    {
      assert FreeRun(b, r, n);
    }
  }

  class Phys {
    var bits: seq<bool>
    var free: nat
    var used: nat

    /** The counters count the bits. */
    ghost predicate Exact()
      reads this
    {
      free == CountFree(bits) && used == |bits| - free
    }

    /** Frame 0 is not free either, so address 0 can mean failure. */
    ghost predicate Valid()
      reads this
    {
      Exact() && (bits != [] ==> !bits[0])
    }

    constructor (b: seq<bool>)
      requires b != [] ==> !b[0]
      ensures Valid() && bits == b
    {
      bits, free, used := b, CountFree(b), |b| - CountFree(b);
    }

    /** First fit: the lowest run of n free frames; 0 exactly when n is 0 or there is no such run. */
    method AllocFrames(n: nat) returns (start: nat)
      requires Valid()
      modifies this
      ensures Valid()
      ensures start == 0 ==> bits == old(bits) && (n > 0 ==> forall s :: 0 <= s ==> !FreeRun(old(bits), s, n))
      ensures start != 0 ==> n > 0 && FreeRun(old(bits), start, n) && bits == Fill(old(bits), start, n, false)
      ensures start != 0 ==> forall s :: 0 <= s < start ==> !FreeRun(old(bits), s, n)
      ensures free == if start == 0 then old(free) else old(free) - n
    {
      start := 0;
      if n == 0 {
        return;
      }
      if n > free {
        forall s: nat | FreeRun(bits, s, n)
          ensures false
        {
          RunCounts(bits, s, n);
        }
        return;
      }
      var run, f, first := 0, 0, 0;
      while f < |bits|
        invariant 0 <= run <= f <= |bits| && run < n && bits == old(bits) && free == old(free) && used == old(used)
        invariant run > 0 ==> first == f - run
        invariant FreeRun(bits, f - run, run)
        invariant run < f ==> !bits[f - run - 1]
        invariant forall s: nat :: s + n <= f ==> !FreeRun(bits, s, n)
      {
        if bits[f] {
          if run == 0 {
            first := f;
          }
          run := run + 1;
          if run == n {
            CountTaken(bits, first, n);
            Take(first, n);
            start := first;
            return;
          }
        } else {
          run := 0;
        }
        f := f + 1;
        forall s: nat | s + n <= f
          ensures !FreeRun(bits, s, n)
        {
          if s + n == f {
            assert !bits[f - run - 1];
          }
        }
      }
    }

    /** Clears a free run and moves the counters. */
    method Take(start: nat, n: nat)
      requires Valid() && FreeRun(bits, start, n)
      modifies this
      ensures Valid() && bits == Fill(old(bits), start, n, false)
    {
      CountTaken(bits, start, n);
      RunCounts(bits, start, n);
      var i := start;
      while i < start + n
        invariant start <= i <= start + n
        invariant bits == Fill(old(bits), start, i - start, false) && free == old(free) && used == old(used)
      {
        bits := bits[i := false];
        i := i + 1;
        assert bits == Fill(old(bits), start, i - start, false);
      }
      free := free - n;
      used := used + n;
    }

    /** Frees n frames; a range past the end is ignored, a frame already free stays free. */
    method FreeFrames(start: nat, n: nat)
      requires Exact()
      modifies this
      ensures Exact() && (old(Valid()) && start > 0 ==> Valid())
      ensures bits == if start + n <= |old(bits)| then Fill(old(bits), start, n, true) else old(bits)
    {
      if start + n > |bits| {
        return;
      }
      var i := start;
      while i < start + n
        invariant start <= i <= start + n && Exact() && |bits| == |old(bits)|
        invariant bits == Fill(old(bits), start, i - start, true)
      {
        if !bits[i] {
          CountSet(bits, i, true);
          bits := bits[i := true];
          free := free + 1;
          used := used - 1;
        }
        i := i + 1;
        assert bits == Fill(old(bits), start, i - start, true);
      }
    }

    /** The lowest 512 free frames that start at a 2 MiB boundary. */
    method AllocHuge() returns (start: nat)
      requires Valid()
      modifies this
      ensures Valid()
      ensures start == 0 ==> bits == old(bits) && forall s: nat :: s % PER_HUGE == 0 ==> !FreeRun(old(bits), s, PER_HUGE)
      ensures start != 0 ==>
        start % PER_HUGE == 0 && FreeRun(old(bits), start, PER_HUGE) && bits == Fill(old(bits), start, PER_HUGE, false)
      ensures start != 0 ==> forall s: nat :: s % PER_HUGE == 0 && s < start ==> !FreeRun(old(bits), s, PER_HUGE)
    {
      hide CountFree;
      var f, run, first := 0, 0, 0;
      start := 0;
      while f < |bits|
        invariant bits == old(bits) && free == old(free) && used == old(used)
        invariant 0 <= run < PER_HUGE && run == f % PER_HUGE
        invariant run > 0 ==> first == f - run
        invariant f - run <= |bits| ==> FreeRun(bits, f - run, if f <= |bits| then run else 0)
        invariant forall s: nat :: s % PER_HUGE == 0 && s < f - run ==> !FreeRun(bits, s, PER_HUGE)
        decreases |bits| + PER_HUGE - f
      {
        if f % PER_HUGE == 0 {
          run, first := 0, f;
        }
        if bits[f] {
          run := run + 1;
          if run == PER_HUGE {
            Take(first, PER_HUGE);
            start := first;
            return;
          }
          f := f + 1;
        } else {
          ghost var base := f - run;
          assert !FreeRun(bits, base, PER_HUGE);
          run := 0;
          f := f - f % PER_HUGE + PER_HUGE;
        }
      }
    }
  }
}
