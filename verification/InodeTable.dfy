/**
 The inode table on disk: 256-byte records, and chain blocks for the extents
 that do not fit in the record.
 */
module InodeTable {
  import opened Bytes
  import opened BlockDevice
  import opened Extents

  const INODES: nat := 128
  const RECORD: nat := 256
  const NAME: nat := 96           // EXFS_NAME_MAX + 1
  const INLINE: nat := 8          // extents inside a record
  const PER_CHAIN: nat := 254     // extents per chain block
  const MAX_CHAIN: nat := 16

  datatype Option<+T> = None | Some(value: T)

  /** One file: `list` is its extents, `chain` the blocks that hold those past the first INLINE. */
  datatype Node = Node(used: bool, kind: nat, size: nat, name: seq<byte>, list: seq<Extent>, chain: seq<nat>)

  // ---- extent arrays ----

  function ExtentBytes(e: Extent): (p: seq<byte>)
    ensures |p| == 16
  {
    Put(e.start, 8) + Put(e.len, 4) + Zeros(4)
  }

  function ExtentTable(list: seq<Extent>): (p: seq<byte>)
    ensures |p| == 16 * |list|
  {
    if list == [] then [] else ExtentTable(list[..|list| - 1]) + ExtentBytes(list[|list| - 1])
  }

  /** cnt extents from byte `at`. */
  function ReadExtents(p: seq<byte>, at: nat, cnt: nat): (list: seq<Extent>)
    requires at + 16 * cnt <= |p|
    ensures |list| == cnt
  {
    if cnt == 0 then []
    else ReadExtents(p, at, cnt - 1) +
         [Extent(Field(p, at + 16 * (cnt - 1), 8), Field(p, at + 16 * (cnt - 1) + 8, 4))]
  }

  predicate Small(e: Extent) { e.start < U64 && e.len < U32 }

  lemma ReadOne(p: seq<byte>, at: nat, e: Extent)
    requires Small(e) && at + 16 <= |p| && p[at..at + 16] == ExtentBytes(e)
    ensures Extent(Field(p, at, 8), Field(p, at + 8, 4)) == e
  {
    hide Put, Get;
    Powers();
    GetPut(e.start, 8);
    GetPut(e.len, 4);
    var t := p[at..at + 16];
    assert t[..8] == Put(e.start, 8) && t[8..12] == Put(e.len, 4);
    assert p[at..at + 8] == t[..8];
    var q := p[at + 8..at + 8 + 4];
    assert forall k :: 0 <= k < 4 ==> q[k] == p[at + 8 + k] == t[8 + k];
    assert q == t[8..12];
  }

  lemma {:induction false} ReadTable(p: seq<byte>, at: nat, list: seq<Extent>)
    requires at + 16 * |list| <= |p| && p[at..at + 16 * |list|] == ExtentTable(list)
    requires forall i :: 0 <= i < |list| ==> Small(list[i])
    ensures ReadExtents(p, at, |list|) == list
    decreases |list|
  {
    hide ExtentBytes, Field;
    if list != [] {
      var n := |list| - 1;
      var t := p[at..at + 16 * |list|];
      assert t[..16 * n] == ExtentTable(list[..n]);
      assert p[at..at + 16 * n] == t[..16 * n];
      ReadTable(p, at, list[..n]);
      assert p[at + 16 * n..at + 16 * n + 16] == t[16 * n..16 * n + 16] == ExtentBytes(list[n]);
      ReadOne(p, at + 16 * n, list[n]);
    }
  }

  // ---- chain blocks ----

  /** Chain blocks needed for n extents. */
  function ChainLen(n: nat): nat {
    if n > INLINE then (n - INLINE + PER_CHAIN - 1) / PER_CHAIN else 0
  }

  /** A chain has as many blocks as it needs and no more, and never more than a file may have. */
  lemma ChainFits(n: nat)
    ensures forall k: nat :: n <= INLINE + k * PER_CHAIN <==> ChainLen(n) <= k
    ensures n <= MAX_EXT ==> ChainLen(n) <= 9 <= MAX_CHAIN
  {
  }

  /** First extent of chain block k. */
  function ChainFirst(k: nat): nat { INLINE + k * PER_CHAIN }

  function ChainPage(list: seq<Extent>, next: nat, k: nat): (p: Page)
    requires ChainFirst(k) <= |list|
  {
    var part := list[ChainFirst(k)..Least(|list|, ChainFirst(k + 1))];
    Put(next, 8) + Put(|part|, 4) + Zeros(4) + ExtentTable(part) + Zeros(BLOCK - 16 - 16 * |part|)
  }

  /** The chain blocks on disk hold the extents past the inline ones. */
  ghost predicate ChainStored(d: Disk, list: seq<Extent>, chain: seq<nat>) {
    && |chain| == ChainLen(|list|)
    && forall k :: 0 <= k < |chain| ==>
         && 0 < chain[k] < |d|
         && ChainFirst(k) <= |list|
         && d[chain[k]] == ChainPage(list, if k + 1 < |chain| then chain[k + 1] else 0, k)
  }

  /** The chain from block blk; at most MAX_CHAIN blocks, so it ends on any disk, cyclic or not. */
  function ReadChain(d: Disk, blk: nat, list: seq<Extent>, chain: seq<nat>): Option<(seq<Extent>, seq<nat>)>
    decreases MAX_CHAIN - |chain|
  {
    if blk == 0 then Some((list, chain))
    else if |chain| >= MAX_CHAIN || blk >= |d| then None
    else
      var cnt := Field(d[blk], 8, 4);
      if cnt > PER_CHAIN || |list| + cnt > MAX_EXT then None
      else ReadChain(d, Field(d[blk], 0, 8), list + ReadExtents(d[blk], 16, cnt), chain + [blk])
  }

  lemma ChainPageReads(list: seq<Extent>, next: nat, k: nat)
    requires ChainFirst(k) <= |list| && next < U64
    requires forall i :: 0 <= i < |list| ==> Small(list[i])
    ensures var p := ChainPage(list, next, k);
            var part := list[ChainFirst(k)..Least(|list|, ChainFirst(k + 1))];
            && Field(p, 0, 8) == next && Field(p, 8, 4) == |part| <= PER_CHAIN
            && ReadExtents(p, 16, |part|) == part
  {
    hide Put, Get, ExtentTable, ReadExtents;
    var p := ChainPage(list, next, k);
    var part := list[ChainFirst(k)..Least(|list|, ChainFirst(k + 1))];
    Powers();
    GetPut(next, 8);
    GetPut(|part|, 4);
    assert p[0..8] == Put(next, 8) && p[8..12] == Put(|part|, 4);
    assert p[16..16 + 16 * |part|] == ExtentTable(part);
    ReadTable(p, 16, part);
  }

  lemma {:induction false} ChainReadsBack(d: Disk, list: seq<Extent>, chain: seq<nat>, k: nat)
    requires ChainStored(d, list, chain) && |list| <= MAX_EXT && |d| <= U64 && k <= |chain|
    requires forall i :: 0 <= i < |list| ==> Small(list[i])
    ensures ReadChain(d, if k < |chain| then chain[k] else 0, list[..Least(|list|, ChainFirst(k))], chain[..k])
         == Some((list, chain))
    decreases |chain| - k
  {
    hide ReadExtents, Field, ChainPage;
    ChainFits(|list|);
    if k < |chain| {
      var next := if k + 1 < |chain| then chain[k + 1] else 0;
      ChainPageReads(list, next, k);
      ChainReadsBack(d, list, chain, k + 1);
      var part := list[ChainFirst(k)..Least(|list|, ChainFirst(k + 1))];
      assert list[..ChainFirst(k)] + part == list[..Least(|list|, ChainFirst(k + 1))];
      assert chain[..k] + [chain[k]] == chain[..k + 1];
    } else {
      assert list[..Least(|list|, ChainFirst(k))] == list;
      assert chain[..k] == chain;
    }
  }

  // ---- records ----

  function Record(n: Node): (r: seq<byte>)
    requires |n.name| == NAME
    ensures |r| == RECORD
  {
    var inl := n.list[..Least(|n.list|, INLINE)];
    Put(if n.used then 1 else 0, 4) + Put(n.kind, 4) + Put(n.size, 8) + n.name +
    Put(if |n.chain| > 0 then n.chain[0] else 0, 8) + Put(|inl|, 4) + Zeros(4) +
    ExtentTable(inl) + Zeros(128 - 16 * |inl|)
  }

  /** inode_decode; the last byte of the name is forced to zero. */
  function ReadRecord(d: Disk, r: seq<byte>): Option<Node>
    requires |r| == RECORD
  {
    var name := r[16..112][NAME - 1 := 0];
    if Field(r, 0, 4) == 0 then Some(Node(false, Field(r, 4, 4), Field(r, 8, 8), name, [], []))
    else if Field(r, 120, 4) > INLINE then None
    else
      match ReadChain(d, Field(r, 112, 8), ReadExtents(r, 128, Field(r, 120, 4)), [])
      case None => None
      case Some((list, chain)) => Some(Node(true, Field(r, 4, 4), Field(r, 8, 8), name, list, chain))
  }

  /** A node whose fields fit the record. */
  ghost predicate Typed(n: Node) {
    && n.kind < U32 && n.size < U64 && |n.name| == NAME && n.name[NAME - 1] == 0
    && |n.list| <= MAX_EXT && (forall i :: 0 <= i < |n.list| ==> Small(n.list[i]))
    && (!n.used ==> n.list == [] && n.chain == [])
  }

  lemma RecordFields(n: Node)
    requires Typed(n) && (|n.chain| > 0 ==> n.chain[0] < U64)
    ensures var r := Record(n);
            && Field(r, 0, 4) == (if n.used then 1 else 0) && Field(r, 4, 4) == n.kind && Field(r, 8, 8) == n.size
            && r[16..112] == n.name && Field(r, 112, 8) == (if |n.chain| > 0 then n.chain[0] else 0)
            && Field(r, 120, 4) == Least(|n.list|, INLINE)
            && ReadExtents(r, 128, Least(|n.list|, INLINE)) == n.list[..Least(|n.list|, INLINE)]
  {
    hide Put, Get, ExtentTable, ReadExtents;
    var r := Record(n);
    var inl := n.list[..Least(|n.list|, INLINE)];
    var first := if |n.chain| > 0 then n.chain[0] else 0;
    Powers();
    GetPut(if n.used then 1 else 0, 4);
    GetPut(n.kind, 4);
    GetPut(n.size, 8);
    GetPut(first, 8);
    GetPut(|inl|, 4);
    assert r[0..4] == Put(if n.used then 1 else 0, 4) && r[4..8] == Put(n.kind, 4) && r[8..16] == Put(n.size, 8);
    assert r[16..112] == n.name && r[112..120] == Put(first, 8) && r[120..124] == Put(|inl|, 4);
    assert r[128..128 + 16 * |inl|] == ExtentTable(inl);
    ReadTable(r, 128, inl);
  }

  /** An inode record and its chain blocks decode to the same file. */
  lemma RecordReadsBack(d: Disk, n: Node)
    requires Typed(n) && |d| <= U64 && ChainStored(d, n.list, n.chain)
    ensures ReadRecord(d, Record(n)) == Some(n)
  {
    hide Field, ReadExtents, Record, ChainStored, ReadChain, ChainLen;
    ChainInside(d, n);
    RecordFields(n);
    assert n.name[NAME - 1 := 0] == n.name;
    if n.used {
      ChainReadsBack(d, n.list, n.chain, 0);
      assert n.chain[..0] == [];
    }
  }

  lemma ChainInside(d: Disk, n: Node)
    requires ChainStored(d, n.list, n.chain)
    ensures forall k :: 0 <= k < |n.chain| ==> 0 < n.chain[k] < |d|
  {
  }
}
