/**
 The block device EXFS runs on: whole blocks are read and written, and a write
 that reports success has reached the disk.  A write that reports an error may
 or may not have reached it.

 `trace` records every content the disk has had, so a power cut at any moment
 leaves one of its elements.
 */
module BlockDevice {
  import opened Bytes

  const BLOCK: nat := 4096

  type Page = p: seq<byte> | |p| == BLOCK witness Zeros(BLOCK)
  type Disk = seq<Page>

  ghost predicate SameExcept(d: Disk, e: Disk, blocks: set<nat>) {
    |d| == |e| && forall b :: 0 <= b < |d| && b !in blocks ==> d[b] == e[b]
  }

  /** The trace grew from t0 to t1 by writes to `blocks` only. */
  ghost predicate Through(t0: seq<Disk>, t1: seq<Disk>, blocks: set<nat>) {
    && 0 < |t0| <= |t1|
    && t1[..|t0|] == t0
    && forall j :: |t0| <= j < |t1| ==> SameExcept(t1[j], t0[|t0| - 1], blocks)
  }

  lemma ThroughLast(t0: seq<Disk>, t1: seq<Disk>, blocks: set<nat>)
    requires Through(t0, t1, blocks)
    ensures 0 < |t0| <= |t1| && SameExcept(t1[|t1| - 1], t0[|t0| - 1], blocks)
  {
    if |t1| == |t0| {
      assert t1[|t0| - 1] == t1[..|t0|][|t0| - 1];
    }
  }

  lemma ThroughSelf(t: seq<Disk>, blocks: set<nat>)
    requires |t| > 0
    ensures Through(t, t, blocks)
  {
  }

  lemma ThroughTrans(t0: seq<Disk>, t1: seq<Disk>, t2: seq<Disk>, blocks: set<nat>)
    requires Through(t0, t1, blocks) && Through(t1, t2, blocks)
    ensures Through(t0, t2, blocks)
  {
    assert t2[..|t0|] == t2[..|t1|][..|t0|];
    ThroughLast(t0, t1, blocks);
    forall j | |t0| <= j < |t2|
      ensures SameExcept(t2[j], t0[|t0| - 1], blocks)
    {
      if j < |t1| {
        assert t2[j] == t2[..|t1|][j];
      }
    }
  }

  lemma ThroughWiden(t0: seq<Disk>, t1: seq<Disk>, some: set<nat>, more: set<nat>)
    requires Through(t0, t1, some) && some <= more
    ensures Through(t0, t1, more)
  {
    forall j | |t0| <= j < |t1|
      ensures SameExcept(t1[j], t0[|t0| - 1], more)
    {
      assert SameExcept(t1[j], t0[|t0| - 1], some);
    }
  }

  class Device {
    const size: nat
    /** Whether requests inside the device always succeed. */
    const reliable: bool
    var disk: Disk
    ghost var trace: seq<Disk>

    ghost predicate Valid()
      reads this
    {
      |trace| > 0 && trace[|trace| - 1] == disk && |disk| == size
    }

    constructor (content: Disk, sure: bool)
      ensures Valid() && disk == content && trace == [content] && reliable == sure
    {
      size, reliable := |content|, sure;
      disk := content;
      trace := [content];
    }

    /** Requests past the end are refused before the driver sees them. */
    method Write(b: nat, p: Page) returns (ok: bool)
      requires Valid()
      modifies this
      ensures Valid()
      ensures b < |old(disk)| && ok ==> disk == old(disk)[b := p] && trace == old(trace) + [disk]
      ensures !ok ==>
        || (disk == old(disk) && trace == old(trace))
        || (b < |old(disk)| && disk == old(disk)[b := p] && trace == old(trace) + [disk])
      ensures ok ==> b < |old(disk)|
      ensures reliable && b < size ==> ok
      ensures Through(old(trace), trace, {b})
    {
      ok := *;
      if reliable {
        ok := true;
      }
      if b >= |disk| {
        ok := false;
        return;
      }
      var landed: bool := *;
      if ok || landed {
        disk := disk[b := p];
        trace := trace + [disk];
      }
    }

    method Read(b: nat) returns (ok: bool, p: Page)
      ensures ok ==> b < |disk| && p == disk[b]
      ensures reliable && b < |disk| ==> ok
    {
      ok := *;
      if reliable {
        ok := true;
      }
      p := Zeros(BLOCK);
      if b >= |disk| {
        ok := false;
      } else if ok {
        p := disk[b];
      }
    }
  }
}
