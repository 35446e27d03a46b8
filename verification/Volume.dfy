/**
 The mounted EXFS volume and its operations.

 Safe() is crash safety: every content the disk has had recovers to the commit
 then in force.  Valid() adds, while the volume is mounted and not broken, the
 in-memory invariants.  An I/O error on the group map outside a commit is not
 reported by the source, which then works on with a map that may have lost blocks:
 after one (`gm.failed`), only Safe() is promised until the next mount.  A reliable
 device gives none.
 */
module Volume {
  import opened Bytes
  import opened BlockDevice
  import opened Extents
  import opened InodeTable
  import opened Namespace
  import opened Image
  import opened VolumeState
  import opened Transfer
  import opened ContentIO
  import opened CommitSteps
  import opened MountSteps
  import opened Intervals
  import GM = GroupMap
  import EP = ExtentPool
  import Sb = Superblock

  datatype Status = OK | ENOENT | ENOSPC | EIO | ENOFS | EEXIST | EINVAL | EBROKEN | ENOMEM | EISDIR | ENOTEMPTY

  class Vol {
    const dev: Device
    const gm: GM.GMap
    const pool: EP.Pool
    var mounted: bool
    var broken: bool
    var dirty: bool               // something to commit
    var gen: nat                  // committed generation
    var itab: nat                 // committed inode table area
    var hint: nat                 // where the next search starts
    var files: seq<Node>          // `list` is what the file's slice of the pool holds
    var changed: seq<bool>        // per file: changed since the last commit
    var defer: seq<Extent>        // freed by the next commit
    ghost var epochs: seq<Epoch>

    constructor (d: Device)
      requires d.Valid() && Sized(|d.disk|)
      ensures Wired() && dev == d && !mounted && !broken && !dirty && fresh(gm) && fresh(pool) && fresh(pool.slots) && fresh(pool.inUse)
    {
      GeometryOk(|d.disk|);
      dev := d;
      gm := new GM.GMap(d, GeometryOf(|d.disk|));
      pool := new EP.Pool();
      mounted, broken, dirty := false, false, false;
      gen, itab, hint := 0, 0, 0;
      files, changed, defer := [], [], [];
      epochs := [];
    }

    ghost predicate Safe()
      reads this`epochs, dev
    {
      dev.Valid() && Sized(|dev.disk|) && CrashSafe(dev.trace, epochs)
    }

    ghost predicate Wired()
      reads dev
    {
      && gm.dev == dev && Sized(|dev.disk|) && gm.geo == GeometryOf(|dev.disk|) && gm.geo.WellFormed()
      && pool.slots.Length == EP.POOL && pool.inUse.Length == EP.POOL
    }

    /** On a reliable device no access of the map can fail. */
    ghost predicate Trusty()
      reads gm
    {
      dev.reliable ==> gm.Sure()
    }

    /** The invariants, with `used` as the blocks in use; a write in progress holds more. */
    ghost predicate Keeps(used: set<nat>)
      requires Wired()
      reads this, gm, dev, pool, pool.slots, pool.inUse
    {
      && gm.Valid() && Trusty() && |defer| <= DEFER_MAX && Positive(defer)
      && pool.Valid() && PoolMatches(pool.parts, pool.lists, files)
      && Sound(gm.geo, dev.disk, files, changed, defer, used)
      && |epochs| > 0 && Anchored(gm.geo, LastEpoch(epochs).state, gen, itab, gm.slot, used)
      && (!dirty ==> LastEpoch(epochs).state.Some? && LastEpoch(epochs).state.value.nodes == files)
    }

    /** How many blocks are in use. */
    ghost function Filled(): nat
      reads gm
    {
      if gm.Shape() then |Used(gm)| else 0
    }

    /** How many pieces the free space is in. */
    ghost function Scatter(): nat
      reads gm
    {
      if gm.Shape() then Pieces(gm.geo, Used(gm)) else 0
    }

    /** A write of `need` blocks to this file may lack memory: deferred entries, extents or slices of the pool. */
    ghost predicate WriteCramped(n: Node, need: nat)
      reads this`defer, gm, pool
    {
      || Entries(defer, n) > DEFER_MAX
      || (need > MAX_EXT && Scatter() + 1 >= MAX_EXT)
      || PoolFull(pool.parts, Least(need, Scatter() + 1))
    }

    /** The same for a write into the file's blocks. */
    ghost predicate SpliceCramped(n: Node, off: nat, len: nat)
      reads this`defer, gm, pool
    {
      var count := NewBlocks(n, off, len);
      || Entries(defer, n) + 1 > DEFER_MAX
      || (count > MAX_EXT && Scatter() + 1 >= MAX_EXT)
      || (gm.Shape() && exists added :: SpliceLacks(Used(gm), Scatter(), pool.parts, n, off, len, added))
    }

    ghost predicate WriteTight(name: seq<byte>, need: nat)
      reads this`files, this`defer, gm, pool
    {
      exists i: nat :: Names(files, i, name) && WriteCramped(files[i], need)
    }

    ghost predicate SpliceTight(name: seq<byte>, off: nat, len: nat)
      reads this`files, this`defer, gm, pool
    {
      exists i: nat :: Names(files, i, name) && SpliceCramped(files[i], off, len)
    }

    /** Fewer blocks are free than a write of this range needs. */
    ghost predicate SpliceFull(name: seq<byte>, off: nat, len: nat)
      reads this`files, gm
    {
      exists i: nat :: Names(files, i, name) && Filled() + NewBlocks(files[i], off, len) > gm.geo.total
    }

    ghost predicate InUse(n: nat)
      reads gm
    {
      gm.Shape() && |Used(gm)| == n
    }

    ghost predicate Memory()
      requires Wired()
      reads this, gm, dev, pool, pool.slots, pool.inUse
    {
      gm.Shape() && gm.Intact() && hint <= gm.geo.total && pool.spare == EP.NONE && Keeps(Used(gm))
    }

    ghost predicate Valid()
      reads this, gm, dev, pool, pool.slots, pool.inUse
    {
      Wired() && Safe() && (mounted ==> if broken then Readable() else Memory())
    }

    /** A broken volume still reads: its files are where they were. */
    ghost predicate Readable()
      reads this`files, dev, pool, pool.slots, pool.inUse
    {
      && pool.Valid() && PoolMatches(pool.parts, pool.lists, files)
      && FilesOk(dev.disk, files) && Tree(files)
    }

    /** The files as an observer sees them now. */
    ghost function Now(): seq<Option<Entry>>
      reads this`files, dev
    {
      View(dev.disk, files)
    }

    /** Takes the first free inode for a new node. */
    method MakeNode(name: seq<byte>, kind: nat) returns (rc: Status)
      requires Valid() && mounted && !broken
      requires NameOk(name) && 0 !in name && (kind == FILE || kind == DIR) && |files| == INODES
      requires forall j :: 0 <= j < INODES && files[j].used ==> Str(files[j].name) != name
      requires Parent(name) == [] || IsDir(files, Parent(name))
      modifies this`files, this`changed, this`dirty
      ensures Valid()
      ensures (rc.OK? || rc.ENOSPC?) && (old(dirty) ==> dirty)
      ensures rc.OK? ==> Created(old(Now()), Now(), Entry(name, kind, []))
      ensures rc.ENOSPC? ==> Now() == old(Now()) && forall i :: 0 <= i < |Now()| ==> Now()[i].Some?
    {
      hide Sound, PoolMatches, Anchored, GM.UsedBlocks, GM.Coherent, GM.Counted, CrashSafe, Tree, EP.Lists, EP.Owners,
           Parent, Str, IsDir, View;
      SoundShape(gm.geo, dev.disk, files, changed, defer, Used(gm));
      var i := 0;
      while i < INODES
        invariant i <= INODES
        invariant forall j :: 0 <= j < i ==> files[j].used
      {
        if !files[i].used {
          var n := Node(true, kind, 0, Overwrite(files[i].name, name), [], []);
          NewNodeOk(gm.geo, dev.disk, files, changed, defer, Used(gm), i, n, name);
          PoolReplace(pool.parts, pool.lists, files, i, n);
          files, changed, dirty := files[i := n], changed[i := true], true;
          return OK;
        }
        i := i + 1;
      }
      AllInUse(dev.disk, files);
      rc := ENOSPC;
    }

    method Create(name: seq<byte>) returns (rc: Status)
      requires Valid() && 0 !in name
      modifies this`files, this`changed, this`dirty
      ensures Valid()
      ensures rc.OK? ==> mounted && Created(old(Now()), Now(), Entry(name, FILE, []))
      ensures !rc.OK? ==> Now() == old(Now())
      ensures rc == NameStatus(old(Now()), name, mounted, broken)
    {
      rc := NewName(name, FILE);
    }

    method Mkdir(name: seq<byte>) returns (rc: Status)
      requires Valid() && 0 !in name
      modifies this`files, this`changed, this`dirty
      ensures Valid()
      ensures rc.OK? ==> mounted && Created(old(Now()), Now(), Entry(name, DIR, []))
      ensures !rc.OK? ==> Now() == old(Now())
      ensures rc == NameStatus(old(Now()), name, mounted, broken)
    {
      rc := NewName(name, DIR);
    }

    method NewName(name: seq<byte>, kind: nat) returns (rc: Status)
      requires Valid() && 0 !in name && (kind == FILE || kind == DIR)
      modifies this`files, this`changed, this`dirty
      ensures Valid()
      ensures rc.OK? ==> mounted && Created(old(Now()), Now(), Entry(name, kind, []))
      ensures !rc.OK? ==> Now() == old(Now())
      ensures rc == NameStatus(old(Now()), name, mounted, broken)
    {
      hide Sound, PoolMatches, Anchored, GM.UsedBlocks, GM.Coherent, GM.Counted, CrashSafe, Tree, EP.Lists, EP.Owners,
           NameOk, Parent, Str, IsDir, View, NamesTerminated, HasName, HasDir;
      if !mounted { return ENOFS; }
      if broken { return EBROKEN; }
      var ok := CheckName(name);
      if !ok { return EINVAL; }
      SoundShape(gm.geo, dev.disk, files, changed, defer, Used(gm));
      NamesInView(dev.disk, files, name);
      NamesInView(dev.disk, files, Parent(name));
      var i := Find(files, name);
      if i < |files| { return EEXIST; }
      ok := ParentOk(files, name);
      if !ok { return ENOENT; }
      rc := MakeNode(name, kind);
    }

    /** Removes a name; its blocks stay in use until the next commit. */
    method Delete(name: seq<byte>) returns (rc: Status)
      requires Valid() && 0 !in name
      modifies this`files, this`changed, this`dirty, this`defer, pool`own, pool`parts, pool`lists, pool.inUse
      ensures Valid()
      ensures rc.OK? ==> mounted && !broken && Removed(old(Now()), Now(), name)
      ensures !rc.OK? ==> Now() == old(Now())
      ensures mounted && !broken ==> (rc.ENOENT? <==> !HasName(old(Now()), name))
      ensures mounted && !broken ==>
        (rc.ENOTEMPTY? <==> HasDir(old(Now()), name) && HasBelow(old(Now()), name))
      ensures rc in {OK, ENOFS, EBROKEN, ENOENT, ENOTEMPTY, ENOMEM}
      ensures (rc.ENOFS? <==> !mounted) && (rc.EBROKEN? <==> mounted && broken)
      ensures rc.ENOMEM? || rc.OK? ==>
        if rc.ENOMEM? then DeferFull(old(files), old(defer), name) else DeferFits(old(files), old(defer), name)
    {
      hide Sound, PoolMatches, Anchored, GM.UsedBlocks, GM.Coherent, GM.Counted, CrashSafe, Tree, EP.Lists, EP.Owners,
           NameOk, Parent, Str, IsDir, View, NamesTerminated, HasName, HasDir, HasBelow, Above, FileOk, Blocks, Removed;
      if !mounted { return ENOFS; }
      if broken { return EBROKEN; }
      SoundShape(gm.geo, dev.disk, files, changed, defer, Used(gm));
      NamesInView(dev.disk, files, name);
      BelowInView(dev.disk, files, name);
      DirHasName(Now(), name);
      var i := Find(files, name);
      if i == |files| { return ENOENT; }
      DirOfName(dev.disk, files, i, name);
      assert Names(files, i, name);
      if files[i].kind == DIR {
        NameLength(files, i);
        var has := HasChildren(files, name);
        if has { return ENOTEMPTY; }
      }
      rc := Unlink(i, name);
    }

    /** The update of exfs_delete. */
    method Unlink(i: nat, ghost name: seq<byte>) returns (rc: Status)
      requires Valid() && mounted && !broken && i < |files| == INODES && files[i].used && Str(files[i].name) == name
      requires files[i].kind != DIR ||
               !exists j :: 0 <= j < |files| && files[j].used && Above(name, Str(files[j].name))
      modifies this`files, this`changed, this`dirty, this`defer, pool`own, pool`parts, pool`lists, pool.inUse
      ensures Valid()
      ensures rc.OK? || rc.ENOMEM?
      ensures rc.ENOMEM? <==> Entries(old(defer), old(files)[i]) > DEFER_MAX
      ensures rc.OK? ==> Removed(old(Now()), Now(), name)
      ensures !rc.OK? ==> Now() == old(Now())
    {
      hide Sound, PoolMatches, Anchored, GM.UsedBlocks, GM.Coherent, GM.Counted, CrashSafe, Tree, EP.Lists,
           EP.Owners, NameOk, Parent, Str, IsDir, View, NamesTerminated, Above, FileOk, Blocks, Removed,
           GM.GMap.Valid, GeometryOf, GM.Geometry.WellFormed, GM.SlotsTaken, GM.Flushable, GM.EntriesOk, GM.PagesOk;
      SoundShape(gm.geo, dev.disk, files, changed, defer, Used(gm));
      FileFacts(gm.geo, dev.disk, files, changed, defer, Used(gm), i);
      PoolList(pool.parts, pool.lists, files, i);
      var list := pool.List(i);
      var ok, more := DeferNode(defer, list, files[i].chain);
      if !ok { return ENOMEM; }
      var n := files[i].(used := false, list := [], chain := []);
      DeletedOk(gm.geo, dev.disk, files, changed, defer, Used(gm), i, n, more, name);
      PoolRelease(pool.parts, pool.lists, files, i, n);
      pool.Release(i);
      defer := more;
      files, changed, dirty := files[i := n], changed[i := true], true;
      rc := OK;
    }

    /** The record with this name, and what it is. */
    method Lookup(name: seq<byte>) returns (i: nat)
      requires Valid() && mounted && !broken && 0 !in name
      ensures i <= |files| == INODES && SparesCommitted(gm.geo, dev.trace, dev.trace, LastEpoch(epochs).state)
      ensures i == |files| <==> !HasName(Now(), name)
      ensures i == |files| ==> !HasDir(Now(), name)
      ensures i < |files| ==>
        && files[i].used && Str(files[i].name) == name && (files[i].kind == FILE || files[i].kind == DIR)
        && (HasDir(Now(), name) <==> files[i].kind == DIR)
    {
      hide SparesCommitted, Sound, PoolMatches, Anchored, GM.UsedBlocks, GM.Coherent, GM.Counted, CrashSafe, Tree, EP.Lists,
           EP.Owners, Str, View, NamesTerminated, HasName, HasDir, FileOk;
      SoundShape(gm.geo, dev.disk, files, changed, defer, Used(gm));
      SparesSelf(gm.geo, dev.trace, LastEpoch(epochs).state, gen, itab, gm.slot, Used(gm));
      NamesInView(dev.disk, files, name);
      DirHasName(Now(), name);
      i := Find(files, name);
      if i < |files| {
        DirOfName(dev.disk, files, i, name);
        FileOrDir(gm.geo, dev.disk, files, changed, defer, Used(gm), i);
      }
    }

    /** Replaces the whole content of a file. */
    method Write(name: seq<byte>, buf: seq<byte>) returns (rc: Status)
      requires Valid() && 0 !in name && |buf| <= U64 - BLOCK
      modifies this`files, this`changed, this`dirty, this`defer, this`hint,
               gm`written, gm`cache, gm`clock, gm`faulted, gm`failed, gm`free, gm`pages, dev,
               pool`own, pool`parts, pool`lists, pool`spare, pool.slots, pool.inUse
      ensures Wired() && Safe()
      ensures (gm.failed && mounted && !broken) || Valid()
      ensures dev.reliable ==> Valid() && !rc.EIO?
      ensures rc in {OK, ENOFS, EBROKEN, ENOENT, EISDIR, ENOSPC, ENOMEM, EIO}
      ensures (rc.ENOFS? <==> !mounted) && (rc.EBROKEN? <==> mounted && broken)
      ensures !gm.failed && rc.ENOSPC? ==> old(Filled()) + CeilDiv(|buf|) > gm.geo.total
      ensures !gm.failed && rc.ENOMEM? ==> old(WriteTight(name, CeilDiv(|buf|)))
      ensures rc.OK? ==> DeferFits(old(files), old(defer), name)
      ensures rc.OK? ==> mounted && !broken && Rewritten(old(Now()), Now(), name, buf)
      ensures !rc.OK? ==> Now() == old(Now())
      ensures mounted && !broken ==> SparesCommitted(gm.geo, old(dev.trace), dev.trace, LastEpoch(epochs).state)
      ensures mounted && !broken ==> (rc.ENOENT? <==> !HasName(old(Now()), name))
      ensures mounted && !broken ==> (rc.EISDIR? <==> HasDir(old(Now()), name))
    {
      hide SparesCommitted, CrashSafe, Str, View, HasName, HasDir, Blocks, Rewritten, Vol.Memory, Vol.Readable, Vol.Filled,
           Vol.WriteCramped;
      if !mounted { return ENOFS; }
      if broken { return EBROKEN; }
      var i := Lookup(name);
      if i == |files| { return ENOENT; }
      assert Names(files, i, name);
      if files[i].kind != FILE { return EISDIR; }
      rc := WriteFile(i, buf, name);
    }

    method WriteFile(i: nat, buf: seq<byte>, ghost name: seq<byte>) returns (rc: Status)
      requires Valid() && mounted && !broken && |buf| <= U64 - BLOCK
      requires i < |files| == INODES && files[i].used && files[i].kind == FILE && Str(files[i].name) == name
      modifies this`files, this`changed, this`dirty, this`defer, this`hint,
               gm`written, gm`cache, gm`clock, gm`faulted, gm`failed, gm`free, gm`pages, dev,
               pool`own, pool`parts, pool`lists, pool`spare, pool.slots, pool.inUse
      ensures Wired() && Safe()
      ensures gm.failed || Valid()
      ensures dev.reliable ==> !gm.failed && !rc.EIO?
      ensures SparesCommitted(gm.geo, old(dev.trace), dev.trace, LastEpoch(epochs).state)
      ensures rc in {OK, ENOSPC, ENOMEM, EIO}
      ensures !gm.failed && rc.ENOSPC? ==> old(Filled()) + CeilDiv(|buf|) > gm.geo.total
      ensures !gm.failed && rc.ENOMEM? ==> old(WriteCramped(files[i], CeilDiv(|buf|)))
      ensures rc.OK? ==> Entries(old(defer), old(files)[i]) <= DEFER_MAX
      ensures rc.OK? ==> Rewritten(old(Now()), Now(), name, buf)
      ensures !rc.OK? ==> Now() == old(Now())
    {
      hide SparesCommitted, Sound, PoolMatches, Anchored, GM.UsedBlocks, GM.Coherent, GM.Counted, CrashSafe, EP.Lists,
           EP.Owners, Str, View, FileOk, Blocks, Through, Writable, GM.PendingBlocks, Adds, GM.Used, Rewritten,
           Inside, GM.Geometry.WellFormed, GM.SlotsTaken, GM.Flushable, GM.EntriesOk, GM.PagesOk;
      ghost var used, was := Used(gm), (files, changed, defer);
      var need := BlocksFor(|buf|);
      var st, runs := TakeBlocks(need);
      if !st.Ok? {
        return if st.NoMemory? then ENOMEM else ENOSPC;
      }
      ghost var mid := dev.trace;
      rc := WriteTaken(i, buf, runs, used, name);
      ThroughTrans(old(dev.trace), mid, dev.trace, Writable(gm.geo, gm.slot, used));
      TransactionSpares(gm.geo, old(dev.trace), dev.trace, was.0, was.1, was.2, used, epochs, gen, itab, gm.slot);
    }

    /** Takes the blocks of a write; without them nothing has changed. */
    method TakeBlocks(need: nat) returns (st: Result, runs: seq<Extent>)
      requires Valid() && mounted && !broken
      modifies this`hint, gm`written, gm`cache, gm`clock, gm`faulted, gm`failed, gm`free, gm`pages, dev
      ensures Wired() && Safe() && Now() == old(Now())
      ensures dev.reliable ==> !gm.failed
      ensures Through(old(dev.trace), dev.trace, Writable(gm.geo, gm.slot, old(Used(gm))))
      ensures SparesCommitted(gm.geo, old(dev.trace), dev.trace, LastEpoch(epochs).state)
      ensures !st.Ok? ==> gm.failed || Valid()
      ensures !gm.failed && st.NoSpace? ==> old(Filled()) + need > gm.geo.total
      ensures !gm.failed && st.NoMemory? ==> need > MAX_EXT && old(Scatter()) + 1 >= MAX_EXT
      ensures st.Ok? ==> |runs| <= Least(need, old(Scatter()) + 1)
      ensures st.Ok? || st.NoSpace? || st.NoMemory?
      ensures st.Ok? ==>
        && Keeps(old(Used(gm))) && gm.Shape() && gm.Intact() && hint <= gm.geo.total && pool.spare == EP.NONE
        && Positive(runs) && |runs| <= MAX_EXT && |Blocks(runs)| == need && Inside(runs, gm.geo.total)
        && Adds(old(Used(gm)), Used(gm), Blocks(runs))
    {
      hide SparesCommitted, Sound, PoolMatches, Anchored, GM.UsedBlocks, GM.Coherent, GM.Counted, CrashSafe, EP.Lists,
           EP.Owners, View, Blocks, Through, Writable, GM.PendingBlocks, Adds, GM.Used, Inside;
      ghost var used := Used(gm);
      var next;
      st, runs, next := TakeFresh(gm, hint, need);
      hint := next;
      PendingWritable(gm.geo, gm.slot, used);
      ThroughWiden(old(dev.trace), dev.trace, gm.Pending(), Writable(gm.geo, gm.slot, used));
      TransactionWrites(gm.geo, old(dev.trace), dev.trace, files, changed, defer, used, epochs, gen, itab, gm.slot);
      TransactionSpares(gm.geo, old(dev.trace), dev.trace, files, changed, defer, used, epochs, gen, itab, gm.slot);
    }

    /** exfs_write once its blocks are taken: `used` is what was in use before. */
    method WriteTaken(i: nat, buf: seq<byte>, runs: seq<Extent>, ghost used: set<nat>, ghost name: seq<byte>)
      returns (rc: Status)
      requires Wired() && Safe() && Keeps(used) && gm.Intact() && pool.spare == EP.NONE && mounted && !broken
      requires hint <= gm.geo.total && |buf| <= U64 - BLOCK
      requires i < |files| == INODES && files[i].used && files[i].kind == FILE && Str(files[i].name) == name
      requires Positive(runs) && |runs| <= MAX_EXT && |Blocks(runs)| == CeilDiv(|buf|) && Inside(runs, gm.geo.total)
      requires Adds(used, Used(gm), Blocks(runs))
      modifies this`files, this`changed, this`dirty, this`defer,
               gm`written, gm`cache, gm`clock, gm`faulted, gm`failed, gm`free, gm`pages, dev,
               pool`own, pool`parts, pool`lists, pool`spare, pool.slots, pool.inUse
      ensures Wired() && Safe()
      ensures gm.failed || Valid()
      ensures dev.reliable ==> !gm.failed && !rc.EIO?
      ensures Through(old(dev.trace), dev.trace, Writable(gm.geo, gm.slot, used))
      ensures rc in {OK, ENOMEM, EIO}
      ensures rc.ENOMEM? <==> Entries(old(defer), old(files)[i]) > DEFER_MAX || PoolLacks(old(pool.parts), |runs|)
      ensures rc.OK? ==> Entries(old(defer), old(files)[i]) <= DEFER_MAX
      ensures rc.OK? ==> Rewritten(old(Now()), Now(), name, buf)
      ensures !rc.OK? ==> Now() == old(Now())
    {
      hide Sound, PoolMatches, Anchored, GM.UsedBlocks, GM.Coherent, GM.Counted, CrashSafe, EP.Lists, EP.Owners,
           Str, View, FileOk, Blocks, Through, Writable, GM.PendingBlocks, Adds, GM.Used, EP.SumCap, EP.CapFor, GM.AllSlots,
           Stored, WrittenTo, Content, Slice, Inside, Rewritten;
      if |defer| + |files[i].list| + |files[i].chain| > DEFER_MAX {
        GiveBack(runs, used);
        return ENOMEM;
      }
      var ok := Reserve(|runs|);
      if !ok {
        GiveBack(runs, used);
        return ENOMEM;
      }
      ok := PutWhole(buf, runs, used);
      if !ok {
        pool.Drop();
        ghost var mid := dev.trace;
        GiveBack(runs, used);
        ThroughTrans(old(dev.trace), mid, dev.trace, Writable(gm.geo, gm.slot, used));
        return EIO;
      }
      FileFacts(gm.geo, dev.disk, files, changed, defer, used, i);
      PoolList(pool.parts, pool.lists, files, i);
      var list := pool.List(i);
      var done, more := DeferNode(defer, list, files[i].chain);
      var n := files[i].(size := |buf|, list := runs, chain := []);
      RewriteOk(gm.geo, dev.disk, files, changed, defer, used, Used(gm), i, n, more, buf);
      Install(i, n, more, used);
      rc := OK;
    }

    /** The new bytes, into the blocks taken for them. */
    method PutWhole(buf: seq<byte>, runs: seq<Extent>, ghost used: set<nat>) returns (ok: bool)
      requires Wired() && Safe() && Keeps(used) && gm.Intact()
      requires Positive(runs) && |Blocks(runs)| == CeilDiv(|buf|) && Adds(used, Used(gm), Blocks(runs))
      modifies dev
      ensures Wired() && Safe() && Keeps(used) && Now() == old(Now())
      ensures Through(old(dev.trace), dev.trace, Writable(gm.geo, gm.slot, used))
      ensures used <= Used(gm) && (ok ==> Stored(dev.disk, runs, buf))
      ensures dev.reliable ==> ok
    {
      hide Sound, PoolMatches, Anchored, GM.UsedBlocks, GM.Coherent, GM.Counted, CrashSafe, EP.Lists, EP.Owners,
           View, FileOk, Blocks, Through, Writable, GM.PendingBlocks, Adds, GM.Used, GM.AllSlots, Stored, Inside;
      GM.UsedInside(gm.geo, gm.pages);
      RunsWritable(gm.geo, dev.disk, files, changed, defer, used, Used(gm), runs, gm.slot);
      ok := WriteWhole(gm, runs, buf, used);
      ThroughWiden(old(dev.trace), dev.trace, BlockSet(runs), Writable(gm.geo, gm.slot, used));
      TransactionWrites(gm.geo, old(dev.trace), dev.trace, files, changed, defer, used, epochs, gen, itab, gm.slot);
    }

    /** pool_reserve: the lists survive a compaction. */
    method Reserve(n: nat) returns (ok: bool)
      requires Wired() && pool.Valid() && pool.spare == EP.NONE && PoolMatches(pool.parts, pool.lists, files)
      modifies pool`parts, pool`own, pool`spare, pool.slots, pool.inUse
      ensures pool.Valid() && PoolMatches(pool.parts, pool.lists, files)
      ensures |old(pool.parts)| == INODES && (ok <==> n == 0 || EP.SumCap(old(pool.parts), INODES) + EP.CapFor(n) <= EP.POOL)
      ensures if ok then pool.spare.cap == CapOf(n) else pool.spare == EP.NONE
    {
      hide EP.Lists, EP.Owners, EP.SumCap, EP.CapFor;
      ok := pool.Reserve(n);
    }

    /** Releases the blocks of a write that failed; nothing else has changed. */
    method GiveBack(runs: seq<Extent>, ghost used: set<nat>)
      requires Wired() && Safe() && Keeps(used) && gm.Intact() && pool.spare == EP.NONE && mounted && !broken
      requires hint <= gm.geo.total && Inside(runs, gm.geo.total) && Adds(used, Used(gm), Blocks(runs))
      modifies gm`written, gm`cache, gm`clock, gm`faulted, gm`failed, gm`free, gm`pages, dev
      ensures Wired() && Safe() && Now() == old(Now())
      ensures gm.failed || Valid()
      ensures dev.reliable ==> !gm.failed
      ensures Through(old(dev.trace), dev.trace, Writable(gm.geo, gm.slot, used))
    {
      hide Sound, PoolMatches, Anchored, GM.UsedBlocks, GM.Coherent, GM.Counted, CrashSafe, EP.Lists, EP.Owners,
           View, Blocks, Through, Writable, GM.PendingBlocks, Adds, GM.Used, GM.Reserved;
      SoundReserved(gm.geo, dev.disk, files, changed, defer, used);
      ReleaseFresh(gm, runs, used);
      PendingWritable(gm.geo, gm.slot, used);
      ThroughWiden(old(dev.trace), dev.trace, gm.Pending(), Writable(gm.geo, gm.slot, used));
      TransactionWrites(gm.geo, old(dev.trace), dev.trace, files, changed, defer, used, epochs, gen, itab, gm.slot);
    }

    /** The change in memory that ends a write: new list, old blocks deferred, chain to be rebuilt. */
    method Install(i: nat, n: Node, more: seq<Extent>, ghost used: set<nat>)
      requires Wired() && Safe() && Keeps(used) && gm.Intact() && mounted && !broken
      requires hint <= gm.geo.total && i < |files| == INODES && |more| <= DEFER_MAX && Positive(more)
      requires pool.spare.cap == CapOf(|n.list|)
      requires used <= Used(gm) && Replaces(gm.geo, dev.disk, files, i, n, defer, more, used, Used(gm))
      modifies this`files, this`changed, this`dirty, this`defer, pool`own, pool`parts, pool`lists, pool`spare,
               pool.slots, pool.inUse
      ensures Valid() && Now() == old(Now())[i := ViewOf(dev.disk, n)] && files == old(files)[i := n]
    {
      hide Sound, PoolMatches, Anchored, GM.UsedBlocks, GM.Coherent, GM.Counted, CrashSafe, EP.Lists, EP.Owners,
           View, FileOk, Blocks, OwnedBy, AllBlocks, EP.CapFor, Tree, ViewOf;
      SoundShape(gm.geo, dev.disk, files, changed, defer, used);
      PoolList(pool.parts, pool.lists, files, i);
      Replaced(gm.geo, dev.disk, files, changed, defer, used, Used(gm), i, n, more);
      AnchoredGrows(gm.geo, LastEpoch(epochs).state, gen, itab, gm.slot, used, Used(gm));
      CapHolds(|n.list|);
      PoolInstall(pool.parts, pool.lists, files, i, n, pool.spare);
      pool.Release(i);
      pool.Attach(i, n.list);
      defer := more;
      files, changed, dirty := files[i := n], changed[i := true], true;
    }

    /** Changes the byte range [off, off + |buf|) of a file; a gap past the end reads as zeros. */
    method WriteAt(name: seq<byte>, off: nat, buf: seq<byte>) returns (rc: Status)
      requires Valid() && 0 !in name && off < U64 && |buf| < U64
      modifies this`files, this`changed, this`dirty, this`defer, this`hint,
               gm`written, gm`cache, gm`clock, gm`faulted, gm`failed, gm`free, gm`pages, dev,
               pool`own, pool`parts, pool`lists, pool`spare, pool.slots, pool.inUse
      ensures Wired() && Safe()
      ensures (gm.failed && mounted && !broken) || Valid()
      ensures dev.reliable ==> Valid() && !rc.EIO?
      ensures rc in {OK, ENOFS, EBROKEN, ENOENT, EISDIR, EINVAL, ENOSPC, ENOMEM, EIO}
      ensures (rc.ENOFS? <==> !mounted) && (rc.EBROKEN? <==> mounted && broken)
      ensures !gm.failed && rc.ENOSPC? ==> old(SpliceFull(name, off, |buf|))
      ensures !gm.failed && rc.ENOMEM? ==> old(SpliceTight(name, off, |buf|))
      ensures rc.OK? && buf != [] ==> exists i: nat :: Names(files, i, name) && Merged(files[i].list)
      ensures rc.OK? ==> mounted && !broken && Spliced(old(Now()), Now(), name, off, buf)
      ensures !rc.OK? ==> Now() == old(Now())
      ensures mounted && !broken ==> SparesCommitted(gm.geo, old(dev.trace), dev.trace, LastEpoch(epochs).state)
      ensures mounted && !broken ==> (rc.ENOENT? <==> !HasName(old(Now()), name))
      ensures mounted && !broken ==> (rc.EISDIR? <==> HasDir(old(Now()), name))
      ensures mounted && !broken ==>
        (rc.EINVAL? <==> HasName(old(Now()), name) && !HasDir(old(Now()), name) && buf != [] && off + |buf| >= U64)
    {
      hide SparesCommitted, CrashSafe, Str, View, HasName, HasDir, Blocks, Spliced, Vol.Memory, Vol.Readable, Vol.Filled,
           Vol.SpliceCramped, NewBlocks;
      if !mounted { return ENOFS; }
      if broken { return EBROKEN; }
      var i := Lookup(name);
      if i == |files| { return ENOENT; }
      assert Names(files, i, name);
      if files[i].kind != FILE { return EISDIR; }
      if |buf| == 0 {
        NothingSpliced(dev.disk, files, i, name, off);
        return OK;
      }
      if off + |buf| >= U64 { return EINVAL; }
      rc := WriteAtFile(i, off, buf, name);
    }

    method WriteAtFile(i: nat, off: nat, buf: seq<byte>, ghost name: seq<byte>) returns (rc: Status)
      requires Valid() && mounted && !broken && buf != [] && off + |buf| < U64
      requires i < |files| == INODES && files[i].used && files[i].kind == FILE && Str(files[i].name) == name
      modifies this`files, this`changed, this`dirty, this`defer, this`hint,
               gm`written, gm`cache, gm`clock, gm`faulted, gm`failed, gm`free, gm`pages, dev,
               pool`own, pool`parts, pool`lists, pool`spare, pool.slots, pool.inUse
      ensures Wired() && Safe()
      ensures gm.failed || Valid()
      ensures dev.reliable ==> !gm.failed && !rc.EIO?
      ensures SparesCommitted(gm.geo, old(dev.trace), dev.trace, LastEpoch(epochs).state)
      ensures rc in {OK, ENOSPC, ENOMEM, EIO}
      ensures !gm.failed && rc.ENOSPC? ==> old(Filled()) + NewBlocks(old(files)[i], off, |buf|) > gm.geo.total
      ensures !gm.failed && rc.ENOMEM? ==> old(SpliceCramped(files[i], off, |buf|))
      ensures rc.OK? ==> Names(files, i, name) && Merged(files[i].list)
      ensures rc.OK? ==> Spliced(old(Now()), Now(), name, off, buf)
      ensures !rc.OK? ==> Now() == old(Now())
    {
      hide SparesCommitted, Sound, PoolMatches, Anchored, GM.UsedBlocks, GM.Coherent, GM.Counted, CrashSafe, EP.Lists, EP.Owners,
           Str, View, FileOk, Blocks, Through, Writable, GM.PendingBlocks, Adds, GM.Used, GM.Sum, Spliced, Stored, Slice,
           Inside, GM.AllSlots;
      PoolList(pool.parts, pool.lists, files, i);
      var list := pool.List(i);
      var oldb := CountBlocks(list);
      var last := (off + |buf| - 1) / BLOCK;
      var first := if off / BLOCK < oldb then off / BLOCK else oldb;
      var count := last - first + 1;
      var total := gm.FreeTotal();
      GM.FreeTotalIsRest(gm.geo, gm.free, gm.pages);
      SparesSelf(gm.geo, dev.trace, LastEpoch(epochs).state, gen, itab, gm.slot, Used(gm));
      if count > total { return ENOSPC; }
      if |defer| + |list| + |files[i].chain| + 1 > DEFER_MAX { return ENOMEM; }
      rc := WriteAtBlocks(i, off, buf, list, first, last, name);
    }

    /** exfs_write_at from taking its blocks on. */
    method WriteAtBlocks(i: nat, off: nat, buf: seq<byte>, list: seq<Extent>, first: nat, last: nat,
                         ghost name: seq<byte>)
      returns (rc: Status)
      requires Valid() && mounted && !broken && buf != [] && off + |buf| < U64
      requires i < |files| == INODES && files[i].used && files[i].kind == FILE && Str(files[i].name) == name
      requires list == files[i].list && |defer| + |list| + |files[i].chain| + 1 <= DEFER_MAX
      requires last == (off + |buf| - 1) / BLOCK && first == Least(off / BLOCK, |Blocks(list)|) && first <= last
      modifies this`files, this`changed, this`dirty, this`defer, this`hint,
               gm`written, gm`cache, gm`clock, gm`faulted, gm`failed, gm`free, gm`pages, dev,
               pool`own, pool`parts, pool`lists, pool`spare, pool.slots, pool.inUse
      ensures Wired() && Safe()
      ensures gm.failed || Valid()
      ensures dev.reliable ==> !gm.failed && !rc.EIO?
      ensures SparesCommitted(gm.geo, old(dev.trace), dev.trace, LastEpoch(epochs).state)
      ensures rc in {OK, ENOSPC, ENOMEM, EIO}
      ensures !gm.failed && rc.ENOSPC? ==> old(Filled()) + NewBlocks(old(files)[i], off, |buf|) > gm.geo.total
      ensures !gm.failed && rc.ENOMEM? ==> old(SpliceCramped(files[i], off, |buf|))
      ensures rc.OK? ==> Names(files, i, name) && Merged(files[i].list)
      ensures rc.OK? ==> Spliced(old(Now()), Now(), name, off, buf)
      ensures !rc.OK? ==> Now() == old(Now())
    {
      hide SparesCommitted, Sound, PoolMatches, Anchored, GM.UsedBlocks, GM.Coherent, GM.Counted, CrashSafe,
           EP.Lists, EP.Owners, Str, View, FileOk, Blocks, Through, Writable, GM.PendingBlocks, Adds, GM.Used,
           Spliced, Stored, Slice, Inside, GM.AllSlots, GM.GMap.Valid, EP.Pool.Valid, GeometryOf, Merged, RunCount,
           Respliced, PoolLacks, SpliceLacks, NewBlocks, FirstNew, Vol.Readable, Entries, Pieces,
           GM.Geometry.WellFormed, GM.SlotsTaken, GM.Flushable, GM.EntriesOk, GM.PagesOk;
      ghost var used, was := Used(gm), (files, changed, defer);
      RangeOfNew(files[i], off, |buf|, first, last);
      var st, runs := TakeBlocks(last - first + 1);
      if !st.Ok? {
        return if st.NoMemory? then ENOMEM else ENOSPC;
      }
      ghost var mid := dev.trace;
      ghost var now, n, parts := Used(gm), files[i], pool.parts;
      rc := WriteAtTaken(i, off, buf, runs, list, first, last, used, name);
      if rc.ENOMEM? {
        LacksWith(used, now, old(Scatter()), parts, n, off, |buf|, runs);
      }
      ThroughTrans(old(dev.trace), mid, dev.trace, Writable(gm.geo, gm.slot, used));
      TransactionSpares(gm.geo, old(dev.trace), dev.trace, was.0, was.1, was.2, used, epochs, gen, itab, gm.slot);
    }

    /** exfs_write_at once its blocks are taken. */
    method WriteAtTaken(i: nat, off: nat, buf: seq<byte>, runs: seq<Extent>, list: seq<Extent>, first: nat, last: nat,
                        ghost used: set<nat>, ghost name: seq<byte>)
      returns (rc: Status)
      requires Wired() && Safe() && Keeps(used) && gm.Intact() && pool.spare == EP.NONE && mounted && !broken
      requires hint <= gm.geo.total && buf != [] && off + |buf| < U64
      requires i < |files| == INODES && files[i].used && files[i].kind == FILE && Str(files[i].name) == name
      requires list == files[i].list && |defer| + |list| + |files[i].chain| + 1 <= DEFER_MAX
      requires last == (off + |buf| - 1) / BLOCK && first == Least(off / BLOCK, |Blocks(list)|) && first <= last
      requires Positive(runs) && |Blocks(runs)| == last + 1 - first && Inside(runs, gm.geo.total)
      requires Adds(used, Used(gm), Blocks(runs))
      modifies this`files, this`changed, this`dirty, this`defer,
               gm`written, gm`cache, gm`clock, gm`faulted, gm`failed, gm`free, gm`pages, dev,
               pool`own, pool`parts, pool`lists, pool`spare, pool.slots, pool.inUse
      ensures Wired() && Safe()
      ensures gm.failed || Valid()
      ensures dev.reliable ==> !gm.failed && !rc.EIO?
      ensures Through(old(dev.trace), dev.trace, Writable(gm.geo, gm.slot, used))
      ensures rc in {OK, ENOMEM, EIO}
      ensures var n := RunCount(Respliced(Blocks(list), Blocks(runs), first, last));
        rc.ENOMEM? <==> n > MAX_EXT || PoolLacks(old(pool.parts), n)
      ensures rc.OK? ==>
        && i < |files| && files[i].used && Str(files[i].name) == name
        && Blocks(files[i].list) == Respliced(Blocks(list), Blocks(runs), first, last) && Merged(files[i].list)
      ensures rc.OK? ==> Spliced(old(Now()), Now(), name, off, buf)
      ensures !rc.OK? ==> Now() == old(Now())
    {
      hide Sound, PoolMatches, Anchored, GM.UsedBlocks, GM.Coherent, GM.Counted, CrashSafe, EP.Lists, EP.Owners, Str,
           View, FileOk, Blocks, Through, Writable, GM.PendingBlocks, Adds, GM.Used, EP.SumCap, EP.CapFor,
           GM.AllSlots, Spliced, Splice, Stored, WrittenTo, Content, Slice, Inside, GM.Geometry.WellFormed,
           GM.SlotsTaken, GM.Flushable, GM.EntriesOk, GM.PagesOk;
      FileFacts(gm.geo, dev.disk, files, changed, defer, used, i);
      ghost var before := Content(dev.disk, list, files[i].size);
      GM.UsedInside(gm.geo, gm.pages);
      ListsInside(gm.geo.total, list, runs, used, Used(gm));
      var ok, stage := BuildStage(list, runs, first, last);
      if !ok {
        GiveBack(runs, used);
        return ENOMEM;
      }
      ok := Reserve(|stage|);
      if !ok {
        GiveBack(runs, used);
        return ENOMEM;
      }
      label Reserved:
      RunsWritable(gm.geo, dev.disk, files, changed, defer, used, Used(gm), runs, gm.slot);
      ok := WriteRange(gm, list, files[i].size, off, buf, runs, first, last, used, before);
      ThroughWiden(old@Reserved(dev.trace), dev.trace, BlockSet(runs), Writable(gm.geo, gm.slot, used));
      TransactionWrites(gm.geo, old@Reserved(dev.trace), dev.trace, files, changed, defer, used, epochs, gen, itab, gm.slot);
      if !ok {
        pool.Drop();
        ghost var mid := dev.trace;
        GiveBack(runs, used);
        ThroughTrans(old(dev.trace), mid, dev.trace, Writable(gm.geo, gm.slot, used));
        return EIO;
      }
      ContentSame(old@Reserved(dev.disk), dev.disk, files, i);
      FileFacts(gm.geo, dev.disk, files, changed, defer, used, i);
      InstallRange(i, off, buf, runs, list, stage, first, last, used, before);
      rc := OK;
    }

    /** The change in memory that ends exfs_write_at. */
    method InstallRange(i: nat, off: nat, buf: seq<byte>, ghost runs: seq<Extent>, list: seq<Extent>, stage: seq<Extent>,
                        first: nat, last: nat, ghost used: set<nat>, ghost before: seq<byte>)
      requires Wired() && Safe() && Keeps(used) && gm.Intact() && mounted && !broken && hint <= gm.geo.total
      requires i < |files| == INODES && files[i].used && files[i].kind == FILE && list == files[i].list
      requires buf != [] && off + |buf| < U64 && |defer| + |list| + |files[i].chain| + 1 <= DEFER_MAX
      requires pool.spare.cap == CapOf(|stage|) && used <= Used(gm)
      requires RangeWritten(gm.geo, dev.disk, list, runs, stage, before, off, buf, first, last, used, Used(gm))
      requires before == Content(dev.disk, list, files[i].size)
      modifies this`files, this`changed, this`dirty, this`defer, pool`own, pool`parts, pool`lists, pool`spare,
               pool.slots, pool.inUse
      ensures Valid() && Spliced(old(Now()), Now(), Str(old(files)[i].name), off, buf)
      ensures i < |files| && files[i].list == stage && files[i].used && files[i].name == old(files)[i].name
    {
      hide Sound, PoolMatches, Anchored, GM.UsedBlocks, GM.Coherent, GM.Counted, CrashSafe, EP.Lists, EP.Owners,
           Str, View, FileOk, Blocks, EP.CapFor, Spliced, Splice, Content, Slice, RangeWritten, ViewOf, OwnedBy;
      var oldb := CountBlocks(list);
      var ok, more := WalkDefer(list, first, if last + 1 < oldb then last + 1 else oldb, defer, DEFER_MAX);
      more := DeferChain(more, files[i].chain);
      var end := off + |buf|;
      var n := files[i].(size := if end > files[i].size then end else files[i].size, list := stage, chain := []);
      RangeOk(gm.geo, dev.disk, files, changed, defer, used, Used(gm), i, n, more, runs, before, off, buf, first, last);
      Install(i, n, more, used);
    }

    /** The bytes [off, off + cap) of the file as it is now, as far as it goes. */
    method ReadAt(name: seq<byte>, off: nat, cap: nat) returns (rc: Status, out: seq<byte>, ghost bad: bool)
      requires Valid() && 0 !in name
      ensures rc.OK? ==> mounted && ReadFrom(Now(), name, off, cap, out)
      ensures mounted ==> (rc.ENOENT? <==> !HasName(Now(), name)) && (rc.EISDIR? <==> HasDir(Now(), name))
      ensures rc.ENOFS? <==> !mounted
      ensures rc in {OK, ENOFS, ENOENT, EISDIR, EIO} && (rc.EIO? ==> bad && !dev.reliable)
    {
      hide Sound, PoolMatches, Anchored, GM.UsedBlocks, GM.Coherent, GM.Counted, CrashSafe, Tree, EP.Lists, EP.Owners,
           Str, View, NamesTerminated, HasName, HasDir, FileOk, Blocks, ReadFrom, Stored, Content, FilesOk;
      out, bad := [], false;
      if !mounted { rc := ENOFS; return; }
      if !broken {
        SoundReadable(gm.geo, dev.disk, files, changed, defer, Used(gm));
      }
      ReadableShape(dev.disk, files);
      NamesInView(dev.disk, files, name);
      var i := Find(files, name);
      if i == |files| { rc := ENOENT; return; }
      DirOfName(dev.disk, files, i, name);
      StoredFile(dev.disk, files, i);
      if files[i].kind != FILE { rc := EISDIR; return; }
      PoolList(pool.parts, pool.lists, files, i);
      var list := pool.List(i);
      var ok;
      ok, out, bad := ReadRange(dev, list, files[i].size, off, cap, Content(dev.disk, list, files[i].size));
      if !ok { rc := EIO; return; }
      rc := OK;
      ReadIs(dev.disk, files, i, name, off, cap, out);
    }

    // ---- commit ----

    /**
     The commit.  On success the new epoch shows exactly the files of now.  A
     failure before anything changed leaves the volume as it was; a later one
     marks it broken, and the disk recovers to the last commit, or to this one
     if its superblock reached the disk although the write was reported failed.
     */
    method Commit() returns (rc: Status)
      requires Valid() && gen + 1 < U64
      modifies this, gm, dev
      ensures Valid() && Now() == old(Now()) && mounted == old(mounted)
      ensures rc.OK? ==> mounted && !broken && !dirty && LastEpoch(epochs).view == Now() && LastEpoch(epochs).state.Some?
      ensures rc.OK? && old(dirty) ==> defer == [] && gen == old(gen) + 1 && NewEpoch(old(epochs), epochs, gen, Now())
      ensures !rc.OK? && !broken ==> epochs == old(epochs)
      ensures Later(old(epochs), epochs, |old(dev.trace)|) && |dev.trace| >= |old(dev.trace)|
      ensures rc.OK? && !old(dirty) ==> epochs == old(epochs)
      ensures gen == old(gen) || (rc.OK? && gen == old(gen) + 1)
      ensures (rc.ENOFS? <==> !mounted) && (rc.EBROKEN? <==> mounted && old(broken))
      ensures rc in {OK, ENOFS, EBROKEN, ENOSPC, EIO}
      ensures old(broken) ==> broken && !rc.OK? && epochs == old(epochs)
      ensures old(mounted && !broken) ==> CommitEnds(rc, old(dirty), Fits(old(files), old(changed), gm.geo.total, old(Used(gm))), broken)
      ensures dev.reliable && old(mounted && !broken) ==> !broken
      ensures broken && !old(broken) ==> epochs == old(epochs) || NewEpoch(old(epochs), epochs, old(gen) + 1, Now())
    {
      hide Sound, PoolMatches, Anchored, GM.UsedBlocks, GM.Coherent, GM.Counted, CrashSafe, EP.Lists, EP.Owners, View, GM.Sum,
           FilesOk, Tree, NewEpoch;
      if !mounted { return ENOFS; }
      if broken { return EBROKEN; }
      if !dirty {
        EpochView(dev.trace, epochs);
        return OK;
      }
      SoundShape(gm.geo, dev.disk, files, changed, defer, Used(gm));
      var need := ChainDemand();
      var total := gm.FreeTotal();
      GM.FreeTotalIsRest(gm.geo, gm.free, gm.pages);
      if need > total { return ENOSPC; }
      rc := CommitDirty(|Used(gm)|);
    }

    /** Step 0: chain blocks the changed files will need; no file can need too many. */
    method ChainDemand() returns (need: nat)
      requires Valid() && mounted && !broken && |files| == |changed| == INODES
      ensures need == Demand(files, changed, INODES)
    {
      hide Sound, PoolMatches, Anchored, GM.UsedBlocks, GM.Coherent, GM.Counted, CrashSafe, EP.Lists, EP.Owners, View, Tree;
      SoundReadable(gm.geo, dev.disk, files, changed, defer, Used(gm));
      need := 0;
      var i := 0;
      while i < INODES
        invariant i <= INODES && need == Demand(files, changed, i)
      {
        ListsFit(dev.disk, files, i);
        if files[i].used && changed[i] && |files[i].list| > INLINE {
          assert ChainLen(|files[i].list|) <= MAX_CHAIN;
          need := need + ChainLen(|files[i].list|);
        }
        i := i + 1;
      }
    }

    /** The invariants inside a commit: files marked in `pend` still await their chain. */
    ghost predicate Mid(pend: seq<bool>)
      requires Wired()
      reads this`files, this`hint, this`defer, this`gen, this`itab, this`epochs, gm, dev, pool, pool.slots, pool.inUse
    {
      && gm.Valid() && gm.Intact() && Trusty() && hint <= gm.geo.total && |defer| <= DEFER_MAX && Positive(defer)
      && pool.Valid() && pool.spare == EP.NONE && PoolMatches(pool.parts, pool.lists, files)
      && Sound(gm.geo, dev.disk, files, pend, defer, Used(gm))
      && |epochs| > 0 && Anchored(gm.geo, LastEpoch(epochs).state, gen, itab, gm.slot, Used(gm))
    }

    /** Steps 1 to 6. */
    method CommitDirty(ghost n: nat) returns (rc: Status)
      requires Valid() && mounted && !broken && dirty && gen + 1 < U64 && |files| == |changed| == INODES && InUse(n)
      modifies this, gm, dev
      ensures Valid() && Now() == old(Now()) && mounted
      ensures rc in {OK, ENOSPC, EIO}
      ensures rc.OK? ==> !broken && !dirty && LastEpoch(epochs).view == Now() && LastEpoch(epochs).state.Some?
      ensures dev.reliable && n + Demand(old(files), old(changed), INODES) <= gm.geo.total ==> rc.OK?
      ensures Later(old(epochs), epochs, |old(dev.trace)|) && |dev.trace| >= |old(dev.trace)|
      ensures rc.OK? ==> defer == [] && gen == old(gen) + 1 && NewEpoch(old(epochs), epochs, gen, Now())
      ensures !rc.OK? ==> broken && gen == old(gen) && (epochs == old(epochs) || NewEpoch(old(epochs), epochs, old(gen) + 1, Now()))
    {
      hide Safe, Now, Memory, Mid, Quiet, Readable, NewEpoch, TableWritten;
      rc := Chains(n);
      if !rc.OK? {
        broken := true;
        return;
      }
      ghost var used := Used(gm);
      var ok := Settle(used);
      if !ok {
        broken := true;
        return EIO;
      }
      ok := Table(used);
      if !ok {
        broken := true;
        return EIO;
      }
      ok := Publish(used);
      if !ok {
        broken := true;
        return EIO;
      }
      EpochShows(old(epochs), epochs, gen, Now());
      rc := OK;
    }

    /** Step 1: chain blocks for changed files. */
    method Chains(ghost n: nat) returns (rc: Status)
      requires Wired() && Safe() && Memory() && |files| == |changed| == INODES && InUse(n)
      modifies this`files, this`hint, gm`written, gm`cache, gm`clock, gm`faulted, gm`failed, gm`free, gm`pages, dev
      ensures Wired() && Safe() && Now() == old(Now())
      ensures rc in {OK, ENOSPC, EIO} && |dev.trace| >= |old(dev.trace)|
      ensures if rc.OK? then gm.Shape() && Mid(Settled()) else Readable()
      ensures dev.reliable && n + Demand(old(files), changed, INODES) <= gm.geo.total ==> rc.OK?
    {
      hide Sound, PoolMatches, Anchored, GM.UsedBlocks, GM.Coherent, GM.Counted, CrashSafe, EP.Lists, EP.Owners,
           View, FilesOk, Tree, GM.Used, InUse, SameLists, Demand, NodeDemand, GM.GMap.Valid, EP.Pool.Valid,
           GeometryOf, GM.Geometry.WellFormed, GM.SlotsTaken, GM.Flushable, GM.EntriesOk, GM.PagesOk, Unsettled, Settled;
      SameListsSelf(files);
      DemandNone(files, changed);
      SoundShape(gm.geo, dev.disk, files, changed, defer, Used(gm));
      UnsettledSteps(changed, 0);
      var i := 0;
      while i < INODES
        invariant i <= INODES && Wired() && Safe() && Mid(Unsettled(changed, i)) && gm.Shape() && Now() == old(Now())
        invariant |files| == INODES && |dev.trace| >= |old(dev.trace)|
        invariant SameLists(files, old(files)) && InUse(n + Demand(old(files), changed, i))
      {
        DemandGrows(old(files), changed, i + 1);
        DemandStep(old(files), files, changed, i);
        UnsettledSteps(changed, i);
        ghost var now := files;
        rc := ChainOne(i, Unsettled(changed, i), n + Demand(old(files), changed, i), NodeDemand(files[i], changed[i]));
        if !rc.OK? {
          return;
        }
        SameListsTrans(files, now, old(files));
        i := i + 1;
      }
      UnsettledSteps(changed, i);
      rc := OK;
    }

    /** Step 1 for one file. */
    method ChainOne(i: nat, ghost pend: seq<bool>, ghost n: nat, ghost more: nat) returns (rc: Status)
      requires InUse(n) && Wired() && Safe() && Mid(pend) && i < INODES == |pend| == |files| == |changed| && pend[i] == changed[i]
      requires more == NodeDemand(files[i], changed[i])
      modifies this`files, this`hint, gm`written, gm`cache, gm`clock, gm`faulted, gm`failed, gm`free, gm`pages, dev
      ensures Wired() && Safe() && Now() == old(Now()) && |files| == INODES
      ensures rc in {OK, ENOSPC, EIO} && |dev.trace| >= |old(dev.trace)|
      ensures if rc.OK? then Mid(pend[i := false]) else Readable()
      ensures rc.OK? ==> gm.Shape() && InUse(n + more)
      ensures dev.reliable && n + more <= gm.geo.total ==> rc.OK?
      ensures SameLists(files, old(files))
    {
      hide Sound, PoolMatches, Anchored, GM.UsedBlocks, GM.Coherent, GM.Counted, CrashSafe, EP.Lists, EP.Owners, View,
           FilesOk, Tree, GM.Used, Through, Writable, GM.PendingBlocks, Adds, ChainStored, GM.AllSlots, ChainLen, ChainSet,
           GM.SlotsTaken, GM.Flushable, GM.Reserved, FileOk, Blocks, Stored, Content, GM.Geometry.WellFormed;
      ghost var used := Used(gm);
      if !files[i].used || !changed[i] {
        AlreadySettled(gm.geo, dev.disk, files, pend, defer, used, i);
        return OK;
      }
      PoolList(pool.parts, pool.lists, files, i);
      var list := pool.List(i);
      var ok, chain, next := TakeChain(gm, hint, ChainLen(|list|));
      hint := next;
      PendingWritable(gm.geo, gm.slot, used);
      ThroughWiden(old(dev.trace), dev.trace, gm.Pending(), Writable(gm.geo, gm.slot, used));
      TransactionWrites(gm.geo, old(dev.trace), dev.trace, files, pend, defer, used, epochs, gen, itab, gm.slot);
      SoundReadable(gm.geo, dev.disk, files, pend, defer, used);
      if !ok { return ENOSPC; }
      AddsSize(used, Used(gm), chain);
      rc := PutChain(i, pend, list, chain, used);
    }

    /** The chain pages of one file, once their blocks are taken: `used` is what was in use before. */
    method PutChain(i: nat, ghost pend: seq<bool>, list: seq<Extent>, chain: seq<nat>, ghost used: set<nat>)
      returns (rc: Status)
      requires Wired() && Safe() && gm.Valid() && gm.Intact() && Trusty() && hint <= gm.geo.total
      requires |defer| <= DEFER_MAX && Positive(defer)
      requires pool.Valid() && pool.spare == EP.NONE && PoolMatches(pool.parts, pool.lists, files)
      requires Sound(gm.geo, dev.disk, files, pend, defer, used)
      requires |epochs| > 0 && Anchored(gm.geo, LastEpoch(epochs).state, gen, itab, gm.slot, used)
      requires i < INODES == |pend| == |files| && pend[i] && files[i].used
      requires list == files[i].list && |chain| == ChainLen(|list|) && Adds(used, Used(gm), chain)
      modifies this`files, dev
      ensures Wired() && Safe() && Now() == old(Now()) && |files| == INODES && |dev.trace| >= |old(dev.trace)|
      ensures rc in {OK, EIO} && (dev.reliable ==> rc.OK?)
      ensures if rc.OK? then Mid(pend[i := false]) else Readable()
      ensures SameLists(files, old(files))
    {
      hide Sound, PoolMatches, Anchored, GM.UsedBlocks, GM.Coherent, GM.Counted, CrashSafe, EP.Lists, EP.Owners, View,
           FilesOk, Tree, GM.Used, Through, Writable, Adds, ChainStored, GM.AllSlots, ChainLen, ChainSet, GM.SlotsTaken,
           GM.Flushable, GM.Reserved;
      GM.UsedInside(gm.geo, gm.pages);
      ChainWritable(gm.geo, dev.disk, files, pend, defer, used, Used(gm), chain, gm.slot);
      var ok := WriteChain(gm, list, chain, used);
      ThroughWiden(old(dev.trace), dev.trace, ChainSet(chain), Writable(gm.geo, gm.slot, used));
      TransactionWrites(gm.geo, old(dev.trace), dev.trace, files, pend, defer, used, epochs, gen, itab, gm.slot);
      SoundReadable(gm.geo, dev.disk, files, pend, defer, used);
      if !ok { return EIO; }
      PendHasNoChain(gm.geo, dev.disk, files, pend, defer, used, i);
      SoundChain(gm.geo, dev.disk, files, pend, defer, used, i, chain, Used(gm));
      AnchoredGrows(gm.geo, LastEpoch(epochs).state, gen, itab, gm.slot, used, Used(gm));
      PoolReplace(pool.parts, pool.lists, files, i, files[i].(chain := chain));
      files := files[i := files[i].(chain := chain)];
      rc := OK;
    }

    /** After step 3: nothing deferred, nothing dirty in the map; `used` is what was in use before step 2. */
    ghost predicate Quiet(used: set<nat>)
      requires Wired()
      reads this`files, this`hint, this`defer, this`gen, this`itab, this`epochs, gm, dev, pool, pool.slots, pool.inUse
    {
      && gm.Valid() && gm.Intact() && Trusty() && hint <= gm.geo.total && defer == []
      && pool.Valid() && pool.spare == EP.NONE && PoolMatches(pool.parts, pool.lists, files)
      && Sound(gm.geo, dev.disk, files, Settled(), [], Used(gm))
      && |epochs| > 0 && Anchored(gm.geo, LastEpoch(epochs).state, gen, itab, gm.slot, used)
      && forall i :: 0 <= i < GM.CACHE && gm.cache[i].valid ==> !gm.cache[i].dirty
    }

    /** Steps 2 and 3: frees the deferred blocks, then brings the map on disk up to date. */
    method Settle(ghost used: set<nat>) returns (ok: bool)
      requires Wired() && Safe() && Mid(Settled()) && used == Used(gm)
      modifies this`defer, gm`written, gm`cache, gm`clock, gm`faulted, gm`failed, gm`free, gm`pages, dev
      ensures Wired() && Safe() && Now() == old(Now())
      ensures if ok then Quiet(used) && defer == [] else Readable()
      ensures (dev.reliable ==> ok) && |dev.trace| >= |old(dev.trace)|
    {
      hide Sound, PoolMatches, Anchored, GM.UsedBlocks, GM.Coherent, GM.Counted, CrashSafe, EP.Lists, EP.Owners, View,
           FilesOk, Tree, GM.Used, Through, Writable, GM.PendingBlocks, Adds, GM.AllSlots, Space, Blocks, Inside, Run,
           GM.Geometry.WellFormed, GM.SlotsTaken, GM.Flushable, GM.EntriesOk, GM.PagesOk, GeometryOf, EP.Pool.Valid,
           Settled;
      SoundParts(gm.geo, dev.disk, files, Settled(), defer, used);
      ghost var rest := DeferredRest(gm.geo, files, defer, used);
      GM.UsedInside(gm.geo, gm.pages);
      DeferInside(gm.geo, defer, rest, used);
      ok := ApplyDeferred(gm, defer, rest);
      label Applied:
      PendingWritable(gm.geo, gm.slot, used);
      if ok {
        var rc := gm.Flush();
        ok := rc.Ok?;
      } else {
        ThroughSelf(dev.trace, gm.Pending());
      }
      ThroughTrans(old(dev.trace), old@Applied(dev.trace), dev.trace, gm.Pending());
      ThroughWiden(old(dev.trace), dev.trace, gm.Pending(), Writable(gm.geo, gm.slot, used));
      TransactionWrites(gm.geo, old(dev.trace), dev.trace, files, Settled(), defer, used, epochs, gen, itab, gm.slot);
      SoundReadable(gm.geo, dev.disk, files, Settled(), defer, used);
      if ok {
        SoundReleased(gm.geo, dev.disk, files, Settled(), defer, used, rest);
        defer := [];
      }
    }

    /** Step 4: the inode table, into the next generation's area. */
    method Table(ghost used: set<nat>) returns (ok: bool)
      requires Wired() && Safe() && Quiet(used)
      modifies dev
      ensures Wired() && Safe() && Now() == old(Now())
      ensures if ok then Quiet(used) && TableWritten(dev.disk, Sb.ItabArea(gen + 1), files) else Readable()
      ensures (dev.reliable ==> ok) && |dev.trace| >= |old(dev.trace)|
    {
      hide Sound, PoolMatches, Anchored, GM.UsedBlocks, GM.Coherent, GM.Counted, CrashSafe, EP.Lists, EP.Owners, View,
           FilesOk, Tree, GM.Used, Through, GM.AllSlots, Space, AllBlocks, TableWritten, NamesTerminated, TableSet,
           ProtectedBy, SameExcept, Run, GM.Geometry.WellFormed, GM.SlotsTaken, GM.Flushable, GM.EntriesOk,
           GM.PagesOk, EP.Pool.Valid, Settled;
      var area := Sb.ItabArea(gen + 1);
      SoundParts(gm.geo, dev.disk, files, Settled(), [], Used(gm));
      SoundShape(gm.geo, dev.disk, files, Settled(), [], Used(gm));
      TableClear(gm.geo, files, [], Used(gm), gen + 1);
      TableUntouched(gm.geo, LastEpoch(epochs).state, gen, itab, gm.slot, used);
      AnchoredSlots(gm.geo, LastEpoch(epochs).state, gen, itab, gm.slot, used);
      ok := WriteTable(gm, area, files);
      CrashSafeExtends(old(dev.trace), dev.trace, epochs, TableSet(area));
      ThroughLast(old(dev.trace), dev.trace, TableSet(area));
      AgreeApart(old(dev.disk), dev.disk, TableSet(area), AllBlocks(files));
      SoundFrame(gm.geo, old(dev.disk), dev.disk, files, Settled(), [], Used(gm));
      SoundReadable(gm.geo, dev.disk, files, Settled(), [], Used(gm));
    }

    /** Steps 5 and 6: the superblock, then pending map slots become committed. */
    method Publish(ghost used: set<nat>) returns (ok: bool)
      requires Wired() && Safe() && Quiet(used) && TableWritten(dev.disk, Sb.ItabArea(gen + 1), files)
      requires gen + 1 < U64 && mounted && !broken
      modifies this`gen, this`itab, this`changed, this`dirty, this`epochs, gm`slot, gm`written, dev
      ensures Wired() && Safe() && Now() == old(Now())
      ensures if ok then Valid() && !dirty && gen == old(gen) + 1 else Readable()
      ensures ok ==> NewEpoch(old(epochs), epochs, gen, Now())
      ensures (dev.reliable ==> ok) && |dev.trace| >= |old(dev.trace)|
      ensures Later(old(epochs), epochs, |old(dev.trace)|)
      ensures !ok ==> gen == old(gen) && (epochs == old(epochs) || NewEpoch(old(epochs), epochs, old(gen) + 1, Now()))
    {
      hide Sound, PoolMatches, Anchored, GM.UsedBlocks, GM.Coherent, GM.Counted, CrashSafe, EP.Lists, EP.Owners,
           View, FilesOk, Tree, GM.Used, TableWritten, ReadyToCommit, NewEpoch, EP.Pool.Valid, GeometryOf,
           Sb.ItabArea, Settled, Later, GM.SlotsOk, GM.Src, Vol.Safe, GM.Geometry.WellFormed, GM.SlotsTaken,
           GM.Flushable, GM.EntriesOk, GM.PagesOk;
      var slots, counts := gm.Export();
      var img := Image(gen + 1, Sb.ItabArea(gen + 1), slots, counts, files);
      Ready(used, img);
      ok := WriteSuper(used, img);
      if ok {
        Landed(img);
        EpochShows(old(epochs), epochs, gen, Now());
      }
    }

    /** Step 6: pending map slots become committed, and memory is the committed state. */
    method Landed(img: Image)
      requires Wired() && Safe() && mounted && !broken && gm.Valid() && gm.Shape() && gm.Intact()
      requires hint <= gm.geo.total && defer == [] && pool.Valid() && pool.spare == EP.NONE
      requires PoolMatches(pool.parts, pool.lists, files) && Sound(gm.geo, dev.disk, files, Settled(), [], Used(gm))
      requires Trusty() && |epochs| > 0 && LastEpoch(epochs).state == Some(img) && img.nodes == files
      requires img.itab == Sb.ItabArea(img.gen) && |img.slots| == gm.geo.groups
      requires forall g :: 0 <= g < gm.geo.groups ==> img.slots[g] == GM.Src(gm.slot, gm.written, g)
      modifies this`gen, this`itab, this`changed, this`dirty, gm`slot, gm`written
      ensures Valid() && !dirty && gen == img.gen && Now() == old(Now())
    {
      hide Sound, PoolMatches, Anchored, GM.UsedBlocks, GM.Coherent, GM.Counted, CrashSafe, EP.Lists, EP.Owners, View,
           FilesOk, Tree, GM.Used, GeometryOf, EP.Pool.Valid, Settled;
      gm.Commit();
      assert gm.slot == img.slots;
      SoundAnchors(gm.geo, dev.disk, files, Used(gm), img, gm.slot);
      gen, itab := img.gen, img.itab;
      changed, dirty := Settled(), false;
    }

    lemma Ready(used: set<nat>, img: Image)
      requires Wired() && Quiet(used) && TableWritten(dev.disk, Sb.ItabArea(gen + 1), files) && gen + 1 < U64
      requires GM.SlotsOk(img.slots, gm.geo.groups) && img == Image(gen + 1, Sb.ItabArea(gen + 1), img.slots, gm.free, files)
      requires forall g :: 0 <= g < gm.geo.groups ==> img.slots[g] == GM.Src(gm.slot, gm.written, g)
      ensures ReadyToCommit(gm.geo, dev.disk, img, Used(gm))
    {
      hide Sound, PoolMatches, Anchored, GM.UsedBlocks, GM.Coherent, GM.Counted, EP.Lists, EP.Owners, TableWritten,
           GM.TablesFit, GM.DiskPages, Caps, EP.SumCap, GM.Start, Run, GM.Clean;
      GM.ExportReproduces(gm.geo, dev.disk, gm.slot, gm.written, gm.free, gm.cache, gm.pages, img.slots);
      GM.UsedInside(gm.geo, gm.pages);
      CountsSmall(gm.geo, gm.free, gm.pages);
      PoolFits(pool.own, pool.parts, pool.lists, files);
    }

    /** Step 5: the write that commits. */
    method WriteSuper(ghost used: set<nat>, img: Image) returns (ok: bool)
      requires Wired() && Safe() && Quiet(used) && img.gen == gen + 1 && img.nodes == files
      requires ReadyToCommit(gm.geo, dev.disk, img, Used(gm))
      modifies this`epochs, dev
      ensures Wired() && Safe() && Now() == old(Now()) && gm.Valid()
      ensures FilesOk(dev.disk, files) && Tree(files) && Sound(gm.geo, dev.disk, files, Settled(), [], Used(gm))
      ensures epochs == old(epochs) || (NewEpoch(old(epochs), epochs, gen + 1, Now()) && LastEpoch(epochs).state == Some(img))
      ensures ok ==> NewEpoch(old(epochs), epochs, gen + 1, Now()) && LastEpoch(epochs).state == Some(img)
      ensures (dev.reliable ==> ok) && |dev.trace| >= |old(dev.trace)|
      ensures Later(old(epochs), epochs, |old(dev.trace)|)
      ensures |epochs| > 0
    {
      hide Sound, PoolMatches, Anchored, GM.UsedBlocks, GM.Coherent, GM.Counted, CrashSafe, EP.Lists, EP.Owners, View,
           FilesOk, Tree, GM.Used, Through, GM.AllSlots, ReadyToCommit, Recovers, Good, SbPage, SameExcept;
      ReadyShape(gm.geo, dev.disk, img, Used(gm));
      var page := SbPage(img, |dev.disk|);
      ghost var ep := Epoch(|dev.trace|, Some(img), Now());
      ghost var after := dev.disk[img.gen % 2 := page];
      SuperReady(used, img, ep, after);
      ok := PutExact(gm, img.gen % 2, page);
      if |dev.trace| > |old(dev.trace)| {
        CrashSafeCommits(old(dev.trace), after, epochs, ep);
        epochs := epochs + [ep];
      }
    }

    lemma SuperReady(used: set<nat>, img: Image, ep: Epoch, after: Disk)
      requires Wired() && Safe() && Quiet(used) && img.gen == gen + 1 && img.nodes == files
      requires ReadyToCommit(gm.geo, dev.disk, img, Used(gm))
      requires |img.slots| == |img.counts| <= Sb.MAX_GROUPS && forall g :: 0 <= g < |img.slots| ==> img.slots[g] < 2
      requires |dev.disk| >= 2 && after == dev.disk[img.gen % 2 := SbPage(img, |dev.disk|)]
      requires ep == Epoch(|dev.trace|, Some(img), Now())
      ensures Recovers(after, ep) && View(after, files) == Now()
      ensures img.gen % 2 !in GM.AllSlots(gm.geo)
      ensures FilesOk(dev.disk, files) && FilesOk(after, files) && Tree(files)
      ensures Sound(gm.geo, after, files, Settled(), [], Used(gm))
    {
      hide Sound, PoolMatches, Anchored, GM.UsedBlocks, GM.Coherent, GM.Counted, CrashSafe, EP.Lists, EP.Owners, View,
           FilesOk, Tree, GM.Used, GM.AllSlots, ReadyToCommit, Recovers, Good, SbPage, Space;
      AnchoredSlots(gm.geo, LastEpoch(epochs).state, gen, itab, gm.slot, used);
      LastRecovers(dev.trace, epochs);
      CommitPoint(gm.geo, dev.disk, img, Used(gm), LastEpoch(epochs));
      RecoversGood(after, img, ep);
      SoundParts(gm.geo, dev.disk, files, Settled(), [], Used(gm));
      SoundParts(gm.geo, after, files, Settled(), [], Used(gm));
      TableClear(gm.geo, files, [], Used(gm), img.gen);
    }

    // ---- life cycle ----

    /**
     Writes a fresh volume with its four system directories.  Until the first
     commit the disk holds no valid volume; it never holds half of one.
     */
    method Format() returns (rc: Status)
      requires Wired() && dev.Valid() && Newest(dev.disk).None? && !mounted
      modifies this, gm, dev, pool, pool.slots, pool.inUse
      ensures Wired() && Safe() && epochs[0] == Epoch(|old(dev.trace)| - 1, None, [])
      ensures rc.OK? ==> Valid() && mounted && !broken && Now() == SystemView(4)
      ensures dev.reliable ==> rc.OK?
      ensures rc.OK? ==> |epochs| == 2 && LastEpoch(epochs).view == SystemView(4) && LastEpoch(epochs).state.Some?
    {
      hide Sound, PoolMatches, Anchored, GM.UsedBlocks, GM.Coherent, GM.Counted, CrashSafe, EP.Lists, EP.Owners, View,
           FilesOk, Tree, SystemView, Created, Later, NewEpoch, Vol.Memory, Vol.Readable;
      rc := FormatMap();
      if !rc.OK? { return; }
      ghost var start := Epoch(|old(dev.trace)| - 1, None, []);
      MakeSystem(0);
      MakeSystem(1);
      MakeSystem(2);
      MakeSystem(3);
      NoChainsNeeded();
      rc := Commit();
      if rc.OK? {
        EpochAppended([start], epochs, gen, Now());
      } else if broken {
        EpochsKept([start], epochs, 1, Now());
      }
    }

    /** Empty directories need no chain blocks. */
    lemma NoChainsNeeded()
      requires Valid() && mounted && !broken && Now() == SystemView(4)
      ensures Fits(files, changed, gm.geo.total, Used(gm))
    {
      hide PoolMatches, Anchored, GM.UsedBlocks, GM.Coherent, GM.Counted, CrashSafe, EP.Lists, EP.Owners, FilesOk, Tree, Space,
           Sound, Demand, View, GM.Sum;
      SoundShape(gm.geo, dev.disk, files, changed, defer, Used(gm));
      SoundReadable(gm.geo, dev.disk, files, changed, defer, Used(gm));
      EmptyDemand(dev.disk, files, changed, INODES);
      GM.FreeTotalIsRest(gm.geo, gm.free, gm.pages);
    }

    method MakeSystem(k: nat)
      requires Valid() && mounted && !broken && dirty && k < 4 && Now() == SystemView(k)
      modifies this`files, this`changed, this`dirty
      ensures Valid() && dirty && Now() == SystemView(k + 1)
    {
      hide Sound, PoolMatches, Anchored, GM.UsedBlocks, GM.Coherent, GM.Counted, CrashSafe, EP.Lists, EP.Owners, View,
           FilesOk, Tree, SystemView, Created, Parent, Str, NameOk;
      SoundShape(gm.geo, dev.disk, files, changed, defer, Used(gm));
      SystemFree(dev.disk, files, k);
      var rc := MakeNode(SystemName(k), DIR);
      SystemNext(old(Now()), Now(), k, rc.OK?);
    }

    /** The map and the empty tables of a new volume. */
    method FormatMap() returns (rc: Status)
      requires Wired() && dev.Valid() && Newest(dev.disk).None? && !mounted
      modifies this, gm, dev, pool, pool.slots, pool.inUse
      ensures mounted <==> rc.OK?
      ensures Wired() && Safe() && epochs == [Epoch(|old(dev.trace)| - 1, None, [])]
      ensures rc.OK? ==> Valid() && mounted && !broken && dirty && gen == 0 && Now() == SystemView(0)
      ensures rc in {OK, EIO} && (dev.reliable ==> rc.OK?)
    {
      hide Sound, PoolMatches, Anchored, GM.UsedBlocks, GM.Coherent, GM.Counted, CrashSafe, EP.Lists, EP.Owners, View,
           FilesOk, Tree, SystemView, Newest, Recovers, Through, GM.FirstSlots, GM.FreshPages, GM.Reserved, ProtectedBy;
      gm.Init();
      epochs := [Epoch(|dev.trace| - 1, None, [])];
      NoVolumeYet(dev.trace, epochs);
      var st := gm.Format();
      FirstSlotsHigh(gm.geo);
      CrashSafeExtends(old(dev.trace), dev.trace, epochs, GM.FirstSlots(gm.geo));
      ThroughLast(old(dev.trace), dev.trace, GM.FirstSlots(gm.geo));
      if !st.Ok? { return EIO; }
      FreshMemory();
      rc := OK;
    }

    method FreshMemory()
      requires Wired() && Safe() && |epochs| == 1 && epochs[0].state.None?
      requires Trusty() && gm.Shape() && gm.Valid() && gm.Intact() && gm.pages == GM.FreshPages(gm.geo) && gm.slot == seq(gm.geo.groups, g => 0)
      modifies this, pool, pool.inUse
      ensures Valid() && mounted && !broken && dirty && gen == 0 && epochs == old(epochs) && Now() == SystemView(0)
    {
      hide Sound, PoolMatches, Anchored, GM.UsedBlocks, GM.Coherent, GM.Counted, CrashSafe, EP.Lists, EP.Owners,
           View, FilesOk, Tree, SystemView, GM.FreshPages, GM.Reserved, Blank, Settled, GM.Start, GM.GMap.Valid,
           EP.Pool.Valid, GM.Geometry.WellFormed, GM.SlotsTaken, GM.Flushable, GM.EntriesOk, GM.PagesOk;
      pool.Reset();
      files, changed, defer := Blank(), Settled(), [];
      gen, itab, hint := 0, 0, Sb.DATA_START;
      broken, mounted, dirty := false, true, true;
      GM.FreshUsed(gm.geo);
      BlankSound(gm.geo, dev.disk);
      BlankPool(pool.parts, pool.lists);
      FirstAnchor(gm.geo, gm.slot, Used(gm));
      assert Used(gm) == GM.Reserved(gm.geo);
      assert Sound(gm.geo, dev.disk, files, changed, defer, Used(gm));
      assert Anchored(gm.geo, LastEpoch(epochs).state, gen, itab, gm.slot, Used(gm));
      assert pool.Valid() && PoolMatches(pool.parts, pool.lists, files);
      assert gm.Valid();
      assert Keeps(Used(gm));
    }

    /**
     Adopts the newest valid volume on the device; nothing is written.  When no
     read fails it succeeds exactly if the disk recovers, with exactly those
     files, and a consistent disk gives a fully valid volume.
     */
    method Mount() returns (rc: Status, ghost bad: bool)
      requires Wired() && dev.Valid()
      modifies this, gm, pool, pool.slots, pool.inUse
      ensures Wired() && (dev.reliable ==> !bad)
      ensures !bad ==> (rc.OK? <==> Recover(dev.disk).Some?) && (rc.ENOMEM? <==> PoolOver(dev.disk))
      ensures !bad && !rc.OK? && !rc.ENOMEM? ==> rc.ENOFS?
      ensures mounted <==> rc.OK?
      ensures !bad && rc.OK? ==> Recover(dev.disk) == Some(Image(gen, itab, gm.slot, gm.free, files))
      ensures !bad && rc.OK? && Good(dev.disk, Recover(dev.disk).value) ==>
        && Valid() && mounted && !broken && Now() == View(dev.disk, Recover(dev.disk).value.nodes)
        && epochs == [Epoch(|dev.trace| - 1, Recover(dev.disk), Now())]
    {
      hide Newest, Recover, Good, GM.Coherent, GM.Counted, EP.Lists, EP.Owners, View, CrashSafe, Slots, ReadNodes, PoolMatches,
           Sb.FieldsOk, GM.TablesFit, GM.DiskPages, Sound, Anchored, GM.UsedBlocks, GM.Used;
      mounted := false;
      gm.Init();
      var best;
      best, bad := ReadSuper(dev);
      RecoverSuper(dev.disk);
      if best.None? || best.value.total != |dev.disk| || best.value.ngroups != gm.geo.groups {
        return ENOFS, bad;
      }
      var sb := best.value;
      SuperShape(sb);
      var ok, table := ReadArea(dev, sb.itab);
      if !ok { return EIO, true; }
      var slots := Slots(sb);
      gm.Import(slots, sb.free[..sb.ngroups]);
      var st, failed := LoadFiles(sb.itab, table);
      bad := bad || failed;
      if !st.OK? { return st, bad; }
      Adopt(sb.gen, sb.itab);
      rc := OK;
    }

    /** The end of exfs_mount. */
    method Adopt(newGen: nat, newItab: nat)
      requires Wired() && dev.Valid() && gm.Shape() && gm.pages == GM.DiskPages(gm.geo, dev.disk, gm.slot)
      requires GM.TablesFit(gm.geo, dev.disk, gm.slot, gm.free) ==>
        gm.Valid() && gm.Intact() && (GM.SlotsTaken(gm.geo, gm.pages) ==> Trusty())
      requires pool.Valid() && pool.spare == EP.NONE && PoolMatches(pool.parts, pool.lists, files)
      modifies this`gen, this`itab, this`hint, this`defer, this`changed, this`broken, this`dirty, this`mounted, this`epochs
      ensures gen == newGen && itab == newItab && mounted && !broken
      ensures Good(dev.disk, Image(gen, itab, gm.slot, gm.free, files)) ==>
        Valid() && epochs == [Epoch(|dev.trace| - 1, Some(Image(gen, itab, gm.slot, gm.free, files)), Now())]
    {
      hide Good, GM.Coherent, GM.Counted, EP.Lists, EP.Owners, View, CrashSafe, PoolMatches, GM.TablesFit, GM.DiskPages,
           Sound, Anchored, GM.UsedBlocks, GM.Used, GM.Reserved;
      gen, itab, hint := newGen, newItab, Sb.DATA_START;
      defer, changed := [], Settled();
      broken, dirty, mounted := false, false, true;
      ghost var img := Image(gen, itab, gm.slot, gm.free, files);
      epochs := [Epoch(|dev.trace| - 1, Some(img), Now())];
      if Good(dev.disk, img) {
        Mounted(gm.geo, dev.trace, img, epochs);
        SoundReserved(gm.geo, dev.disk, files, changed, defer, Used(gm));
      }
    }

    /** The decoding loop of exfs_mount: each file's list goes into the pool. */
    method LoadFiles(area: nat, table: seq<Page>) returns (rc: Status, ghost bad: bool)
      requires Wired() && area + Sb.ITAB_BLOCKS <= |dev.disk| && table == dev.disk[area..area + Sb.ITAB_BLOCKS]
      modifies this`files, pool, pool.slots, pool.inUse
      ensures dev.reliable ==> !bad
      ensures !bad ==> (rc.OK? <==> ReadNodes(dev.disk, area, INODES).Some?)
      ensures !bad ==> (rc.ENOMEM? <==> exists k: nat :: OverAt(dev.disk, area, k)) && rc in {OK, ENOFS, ENOMEM}
      ensures rc.OK? ==> !bad && files == ReadNodes(dev.disk, area, INODES).value
      ensures rc.OK? ==> pool.Valid() && pool.spare == EP.NONE && PoolMatches(pool.parts, pool.lists, files)
    {
      hide EP.Lists, EP.Owners, ReadNodes, PoolMatches, Loaded, EP.SumCap, Caps, NodeFits;
      bad := false;
      pool.Reset();
      var nodes: seq<Node> := [];
      NothingLoaded(dev.disk, area, pool.parts, pool.lists);
      var i := 0;
      while i < INODES
        invariant i <= INODES && |nodes| == i && Wired() && !bad
        invariant ReadNodes(dev.disk, area, i) == Some(nodes)
        invariant pool.Valid() && pool.spare == EP.NONE && Loaded(pool.parts, pool.lists, nodes)
      {
        ReadNodesEnds(dev.disk, area, i, INODES);
        var r := table[i / PER_PAGE][RECORD * (i % PER_PAGE)..RECORD * (i % PER_PAGE) + RECORD];
        assert r == RecordAt(dev.disk, area, i);
        var ok, n, failed := DecodeRecord(dev, r);
        if !ok {
          if !failed {
            ReadNodesStop(dev.disk, area, i);
            NotOver(dev.disk, area, i);
          }
          return ENOFS, failed;
        }
        ReadNodesStep(dev.disk, area, i, nodes, n);
        if n.used {
          ok := LoadList(i, n, nodes);
          if !ok {
            assert OverAt(dev.disk, area, i);
            return ENOMEM, false;
          }
          ok := CheckNode(n, |dev.disk|);
          if !ok {
            NotOver(dev.disk, area, i);
            return ENOFS, false;
          }
        } else {
          UnusedLoaded(dev.disk, r, pool.own, pool.parts, pool.lists, nodes, n);
        }
        nodes := nodes + [n];
        i := i + 1;
      }
      AllLoaded(pool.parts, pool.lists, nodes);
      NotOver(dev.disk, area, INODES);
      files := nodes;
      rc := OK;
    }

    /** Reserves a slice for a decoded file and fills it. */
    method LoadList(i: nat, n: Node, nodes: seq<Node>) returns (ok: bool)
      requires pool.Valid() && pool.spare == EP.NONE && |nodes| == i < INODES && Loaded(pool.parts, pool.lists, nodes)
      modifies pool, pool.slots, pool.inUse
      ensures ok <==> Caps(nodes + [n]) <= EP.POOL
      ensures ok ==> pool.Valid() && pool.spare == EP.NONE && Loaded(pool.parts, pool.lists, nodes + [n])
    {
      hide EP.Lists, EP.Owners, Loaded, EP.SumCap, Caps, EP.CapFor, EP.SameCaps;
      LoadedCaps(pool.parts, pool.lists, nodes, n);
      EP.FreeRunFits(pool.own, pool.parts, 0, 0);
      LoadedSlot(pool.parts, pool.lists, nodes);
      ok := pool.Reserve(|n.list|);
      if !ok { return; }
      LoadedMoved(old(pool.parts), pool.parts, pool.lists, nodes);
      LoadedSlot(pool.parts, pool.lists, nodes);
      CapHolds(|n.list|);
      LoadedNext(pool.parts, pool.lists, nodes, n, pool.spare);
      pool.Attach(i, n.list);
    }

    /** Commits, then lets go of the device; a failed commit leaves the volume mounted. */
    method Unmount() returns (rc: Status)
      requires Valid() && gen + 1 < U64
      modifies this, gm, dev
      ensures Valid() && (mounted <==> old(mounted) && !rc.OK?)
      ensures rc.OK? ==> LastEpoch(epochs).view == old(Now()) && LastEpoch(epochs).state.Some? && !dirty
      ensures !rc.OK? ==> Now() == old(Now())
      ensures (rc.ENOFS? <==> !old(mounted)) && (rc.EBROKEN? <==> old(mounted && broken))
      ensures old(mounted && !broken) ==> CommitEnds(rc, old(dirty), Fits(old(files), old(changed), gm.geo.total, old(Used(gm))), broken)
      ensures dev.reliable && old(mounted && !broken) ==> !broken
    {
      hide Memory, CrashSafe, View, Readable, NewEpoch, Fits;
      if !mounted { return ENOFS; }
      rc := Commit();
      if rc.OK? {
        mounted := false;
      }
    }
  }

  ghost predicate Names(files: seq<Node>, i: nat, name: seq<byte>) {
    i < |files| && files[i].used && Str(files[i].name) == name
  }

  ghost predicate DeferFull(files: seq<Node>, defer: seq<Extent>, name: seq<byte>) {
    exists i: nat :: Names(files, i, name) && Entries(defer, files[i]) > DEFER_MAX
  }

  ghost predicate DeferFits(files: seq<Node>, defer: seq<Extent>, name: seq<byte>) {
    exists i: nat :: Names(files, i, name) && Entries(defer, files[i]) <= DEFER_MAX
  }

  /** Entries of the deferred list once this file's extents and chain are on it. */
  function Entries(defer: seq<Extent>, n: Node): nat {
    |defer| + |n.list| + |n.chain|
  }

  /** Blocks a write of len bytes at off needs: from the first one touched, or the end of the file, to the last. */
  function NewBlocks(n: Node, off: nat, len: nat): nat {
    if len == 0 then 0 else (off + len - 1) / BLOCK + 1 - Least(off / BLOCK, |Blocks(n.list)|)
  }

  /** The changed files from i on, whose chains are still to be written. */
  ghost function Unsettled(changed: seq<bool>, i: nat): (pend: seq<bool>)
    ensures |pend| == |changed|
  {
    seq(|changed|, j requires 0 <= j < |changed| => changed[j] && j >= i)
  }

  lemma UnsettledSteps(changed: seq<bool>, i: nat)
    requires |changed| == INODES && i <= INODES
    ensures Unsettled(changed, 0) == changed && Unsettled(changed, INODES) == Settled()
    ensures i < INODES ==>
      Unsettled(changed, i)[i] == changed[i] && Unsettled(changed, i)[i := false] == Unsettled(changed, i + 1)
  {
  }

  /** With these free blocks the file would be in more runs than a list has extents or the pool has room for. */
  ghost predicate SpliceLacks(used: set<nat>, pieces: nat, parts: seq<EP.Part>, n: Node, off: nat, len: nat, added: seq<nat>) {
    && len > 0 && |added| == NewBlocks(n, off, len) && RunCount(added) <= pieces + 1
    && (forall b :: b in added ==> b !in used)
    && (var runs := RunCount(Respliced(Blocks(n.list), added, FirstNew(n, off), (off + len - 1) / BLOCK));
        runs > MAX_EXT || PoolLacks(parts, runs))
  }

  lemma LacksWith(used: set<nat>, now: set<nat>, pieces: nat, parts: seq<EP.Part>, n: Node, off: nat, len: nat,
                  runs: seq<Extent>)
    requires Adds(used, now, Blocks(runs)) && Positive(runs) && |runs| <= pieces + 1 && len > 0
    requires |Blocks(runs)| == NewBlocks(n, off, len)
    requires var count := RunCount(Respliced(Blocks(n.list), Blocks(runs), FirstNew(n, off), (off + len - 1) / BLOCK));
      count > MAX_EXT || PoolLacks(parts, count)
    ensures SpliceLacks(used, pieces, parts, n, off, len, Blocks(runs))
  {
    hide Blocks, RunCount, PoolLacks, Respliced, Adds;
    FewRuns(runs);
    AddsDistinct(used, now, Blocks(runs));
  }

  lemma RangeOfNew(n: Node, off: nat, len: nat, first: nat, last: nat)
    requires len > 0 && last == (off + len - 1) / BLOCK && first == Least(off / BLOCK, |Blocks(n.list)|) && first <= last
    ensures NewBlocks(n, off, len) == last + 1 - first && FirstNew(n, off) == first
  {
  }

  /** The first block of a file that a write at `off` replaces or adds. */
  function FirstNew(n: Node, off: nat): nat {
    Least(off / BLOCK, |Blocks(n.list)|)
  }

  /** The pool has no slice left for a list of n extents. */
  ghost predicate PoolLacks(parts: seq<EP.Part>, n: nat) {
    |parts| == INODES && n > 0 && EP.SumCap(parts, INODES) + EP.CapFor(n) > EP.POOL
  }

  /** The pool has no slice left for some list of at most `most` extents. */
  ghost predicate PoolFull(parts: seq<EP.Part>, most: nat) {
    exists n: nat :: n <= most && PoolLacks(parts, n)
  }

  /**
   How a commit of a mounted volume that was not broken ends: it has nothing to do and
   succeeds, it lacks blocks for the chains and changes nothing, or it succeeds unless an
   error breaks the volume on the way.
   */
  predicate CommitEnds(rc: Status, dirty: bool, fits: bool, broken: bool) {
    if !dirty then rc.OK? && !broken
    else if !fits then rc.ENOSPC? && !broken
    else if broken then rc.ENOSPC? || rc.EIO?
    else rc.OK?
  }

  /** Enough free blocks for the chains of the changed files. */
  ghost predicate Fits(files: seq<Node>, changed: seq<bool>, total: nat, used: set<nat>) {
    |files| == |changed| == INODES && |used| + Demand(files, changed, INODES) <= total
  }

  ghost predicate SameLists(files: seq<Node>, was: seq<Node>) {
    |files| == |was| && forall j :: 0 <= j < |files| ==> files[j].used == was[j].used && files[j].list == was[j].list
  }

  function NodeDemand(n: Node, changed: bool): nat {
    if n.used && changed then ChainLen(|n.list|) else 0
  }

  lemma SameListsSelf(files: seq<Node>)
    ensures SameLists(files, files)
  {
  }

  lemma SameListsTrans(a: seq<Node>, b: seq<Node>, c: seq<Node>)
    requires SameLists(a, b) && SameLists(b, c)
    ensures SameLists(a, c)
  {
  }

  lemma {:induction false} EmptyDemand(d: Disk, files: seq<Node>, changed: seq<bool>, k: nat)
    requires FilesOk(d, files) && k <= |files| == |changed| == INODES && View(d, files) == SystemView(4)
    ensures Demand(files, changed, k) == 0
  {
    hide View, Stored, SystemView, FilesOk;
    if k > 0 {
      EmptyDemand(d, files, changed, k - 1);
      EmptyDir(d, files, k - 1);
    }
  }

  lemma EmptyDir(d: Disk, files: seq<Node>, i: nat)
    requires FilesOk(d, files) && i < |files| == INODES && View(d, files) == SystemView(4)
    ensures files[i].used ==> files[i].list == []
  {
    hide Blocks, Content, SystemName;
    ViewAt(d, files, i);
    if files[i].used {
      assert View(d, files)[i].value.bytes == [];
      assert FileOk(d, files[i]);
      if files[i].list != [] {
        BlocksStep(files[i].list, 0);
      }
    }
  }

  lemma DemandNone(files: seq<Node>, changed: seq<bool>)
    requires |files| == |changed|
    ensures Demand(files, changed, 0) == 0
  {
  }

  lemma DemandStep(was: seq<Node>, files: seq<Node>, changed: seq<bool>, i: nat)
    requires SameLists(files, was) && i < |was| == |changed|
    ensures Demand(was, changed, i + 1) == Demand(was, changed, i) + NodeDemand(files[i], changed[i])
  {
  }

  lemma {:induction false} DemandGrows(files: seq<Node>, changed: seq<bool>, k: nat)
    requires |files| == |changed| == INODES && k <= INODES
    ensures Demand(files, changed, k) <= Demand(files, changed, INODES)
    decreases INODES - k
  {
    if k < INODES {
      DemandGrows(files, changed, k + 1);
    }
  }

  /** Chain blocks needed by the first k files. */
  function Demand(files: seq<Node>, changed: seq<bool>, k: nat): nat
    requires k <= |files| == |changed|
  {
    if k == 0 then 0
    else Demand(files, changed, k - 1) +
         NodeDemand(files[k - 1], changed[k - 1])
  }

  /** defer_file: the extents, then the chain blocks, one entry each. */
  method DeferNode(defer: seq<Extent>, list: seq<Extent>, chain: seq<nat>) returns (ok: bool, out: seq<Extent>)
    requires |defer| <= DEFER_MAX
    ensures ok <==> |defer| + |list| + |chain| <= DEFER_MAX
    ensures ok ==> |out| <= DEFER_MAX && Blocks(out) == Blocks(defer) + Blocks(list) + chain
    ensures ok && Positive(defer) && Positive(list) ==> Positive(out)
  {
    hide Blocks;
    out := defer;
    if |defer| + |list| + |chain| > DEFER_MAX { return false, out; }
    var i := 0;
    NoBlocks({});
    while i < |list|
      invariant i <= |list| && |out| == |defer| + i
      invariant Positive(defer) && Positive(list) ==> Positive(out)
      invariant Blocks(out) == Blocks(defer) + Blocks(list[..i])
    {
      BlocksPush(out, list[i]);
      BlocksStep(list, i);
      out := out + [list[i]];
      i := i + 1;
    }
    BlocksAll(list);
    out := DeferChain(out, chain);
    ok := true;
  }

  method DeferChain(defer: seq<Extent>, chain: seq<nat>) returns (out: seq<Extent>)
    ensures |out| == |defer| + |chain| && Blocks(out) == Blocks(defer) + chain
    ensures Positive(defer) ==> Positive(out)
  {
    hide Blocks;
    out := defer;
    var i := 0;
    while i < |chain|
      invariant i <= |chain| && |out| == |defer| + i && (Positive(defer) ==> Positive(out))
      invariant Blocks(out) == Blocks(defer) + chain[..i]
    {
      BlocksPush(out, Extent(chain[i], 1));
      assert RunSeq(chain[i], 1) == [chain[i]];
      assert chain[..i] + [chain[i]] == chain[..i + 1];
      out := out + [Extent(chain[i], 1)];
      i := i + 1;
    }
    assert chain[..i] == chain;
  }

  /** The answer of exfs_create and exfs_mkdir, from what is visible alone. */
  ghost function NameStatus(v: seq<Option<Entry>>, name: seq<byte>, mounted: bool, broken: bool): Status {
    if !mounted then ENOFS
    else if broken then EBROKEN
    else if !NameOk(name) then EINVAL
    else if HasName(v, name) then EEXIST
    else if Parent(name) != [] && !HasDir(v, Parent(name)) then ENOENT
    else if forall i :: 0 <= i < |v| ==> v[i].Some? then ENOSPC
    else OK
  }

  lemma MapWorks(v: Vol)
    requires v.Valid() && v.mounted && !v.broken
    ensures !v.gm.failed
  {
  }
}
