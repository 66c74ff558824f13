/** Crash safety of the file system: filewrite over the log. A machine that stops at any disk write
    of any of its transactions recovers to a sound file system in which a whole number of chunks
    has been written. */
module CrashFs {
  import opened FsCodec
  import opened FsModel
  import opened FsOps
  import opened FsFile
  import opened FsJournal
  import opened FsWrite
  import opened FileWrite
  import opened FsImage
  import RedoLog

  /** The log lies before the inode blocks and has room for the blocks of one operation. */
  ghost predicate Layout(g: RedoLog.Geometry, sb: Superblock) {
    && g.Valid() && sb.Valid()
    && g.nblocks == sb.size
    && g.start + g.size <= sb.inodestart
    && g.size > FileWrite.MAXOPBLOCKS
  }

  /** The file system with the inodes that are stored, rather than those in memory. */
  ghost function OnDisk(x: Snapshot): State { x.st.(inodes := x.dinodes) }

  /** Sound, with every inode stored as it is in memory, and no hole in file i. */
  ghost predicate AtRest(sb: Superblock, x: Snapshot, i: nat) {
    && Inv(sb, x.st, {}) && Sized(sb, x.st)
    && x.dinodes == x.st.inodes
    && i < sb.ninodes && NoHoles(sb, x.st, i)
  }

  /** What bread returns for every block. */
  ghost function Cached(sb: Superblock, x: Snapshot): RedoLog.Disk
    requires Shape(sb, OnDisk(x))
  {
    Image(sb, OnDisk(x))
  }

  lemma RestShape(sb: Superblock, x: Snapshot, i: nat)
    requires AtRest(sb, x, i)
    ensures OnDisk(x) == x.st && Shape(sb, OnDisk(x))
  {
    hide NoHoles, Slots, Owners, Bitmap;
  }

  lemma RestKept(sb: Superblock, x: Snapshot, y: Snapshot, i: nat, off: nat, src: seq<byte>)
    requires AtRest(sb, x, i) && Written(sb, x, y, i, off, src)
    ensures AtRest(sb, y, i)
  {
    hide NoHoles, Slots, Owners, Bitmap, Content, Journaled, WriteCost;
  }

  /** A block that the write did not log holds what it held. */
  lemma Unlogged(sb: Superblock, x: Snapshot, y: Snapshot, i: nat, off: nat, src: seq<byte>, b: nat)
    requires Written(sb, x, y, i, off, src) && Shape(sb, OnDisk(x)) && Shape(sb, OnDisk(y))
    requires b < sb.size && b !in y.logged
    ensures ImageBlock(sb, OnDisk(y), b) == ImageBlock(sb, OnDisk(x), b)
  {
    hide WriteEffect, SlotsOnly, DataLogged, NewLogged, InodeWord, NoHoles, WriteCost;
    if sb.inodestart <= b < sb.bmapstart {
      var first := 8 * (b - sb.inodestart);
      forall j | 0 <= j < WORDS ensures TableWord(y.dinodes, first, j) == TableWord(x.dinodes, first, j) {
        var k := first + j / INODE;
        assert k == i ==> sb.IBlock(i) == b;
      }
    } else {
      assert y.st.blocks[b] == x.st.blocks[b];
    }
  }

  // ----- the list of logged blocks -----

  /** `lh` lists the blocks given to log_write, in any order, each once. */
  ghost predicate Lists(lh: seq<int>, logged: set<nat>) {
    && RedoLog.Distinct(lh)
    && (forall k | 0 <= k < |lh| :: 0 <= lh[k] && lh[k] in logged)
    && (forall b | b in logged :: b in lh)
  }

  lemma {:induction false} DistinctSize(lh: seq<int>, l: set<nat>)
    requires RedoLog.Distinct(lh) && forall k | 0 <= k < |lh| :: 0 <= lh[k] && lh[k] in l
    ensures |lh| <= |l|
  {
    if lh != [] {
      var n := |lh| - 1;
      var b: nat := lh[n];
      DistinctSize(lh[..n], l - {b});
    }
  }

  lemma {:induction false} SomeList(logged: set<nat>) returns (lh: seq<int>)
    ensures Lists(lh, logged)
    decreases |logged|
  {
    if logged == {} {
      lh := [];
    } else {
      var b :| b in logged;
      var rest := SomeList(logged - {b});
      lh := rest + [b];
    }
  }

  /** A chunk of filewrite is a transaction that the log can commit. */
  lemma ChunkLoggable(g: RedoLog.Geometry, sb: Superblock, x: Snapshot, y: Snapshot, i: nat, off: nat,
                      src: seq<byte>, lh: seq<int>)
    requires Layout(g, sb) && AtRest(sb, x, i) && x.logged == {}
    requires Written(sb, x, y, i, off, src) && |src| <= CHUNK && Lists(lh, y.logged)
    ensures RedoLog.Loggable(g, lh)
  {
    hide Inv, NoHoles, Content, WriteEffect, Stored;
    ChunkLogs(sb, x, y, i, off, src);
    DistinctSize(lh, y.logged);
    hide SlotsOnly, DataLogged, NewLogged, OnlyLogged;
    forall k | 0 <= k < |lh| ensures g.Home(lh[k]) {
      assert lh[k] in y.logged;
    }
  }

  /** Before the commit of y: the disk is clean and stands for x; what is cached differs from x only
      in the listed blocks. */
  ghost predicate Pending(g: RedoLog.Geometry, sb: Superblock, d: RedoLog.Disk, x: Snapshot, y: Snapshot, lh: seq<int>)
    requires Shape(sb, OnDisk(x)) && Shape(sb, OnDisk(y))
  {
    && RedoLog.Recovers(g, d, Cached(sb, x)) && RedoLog.Clean(g, d)
    && g.nblocks == sb.size && RedoLog.Loggable(g, lh)
    && forall b | g.Home(b) && b !in lh :: Cached(sb, y)[b] == Cached(sb, x)[b]
  }

  ghost predicate Ready(g: RedoLog.Geometry, sb: Superblock, d: RedoLog.Disk, x: Snapshot)
    requires Shape(sb, OnDisk(x))
  {
    RedoLog.Recovers(g, d, Cached(sb, x)) && RedoLog.Clean(g, d)
  }

  lemma ChunkPending(g: RedoLog.Geometry, sb: Superblock, d: RedoLog.Disk, x: Snapshot, y: Snapshot, i: nat, off: nat,
                     addr: seq<byte>, k: nat, lh: seq<int>)
    requires Layout(g, sb) && AtRest(sb, x, i) && Chunk(sb, x, y, i, off, addr, k) && Lists(lh, y.logged)
    requires Shape(sb, OnDisk(x)) && Ready(g, sb, d, x)
    ensures AtRest(sb, y, i) && Shape(sb, OnDisk(y)) && Pending(g, sb, d, x, y, lh)
  {
    hide Inv, Sized, NoHoles, Written, Image, RedoLog.Recovers, RedoLog.Clean, RedoLog.Loggable;
    var x0 := x.(logged := {});
    var src := addr[1536 * k..Done(|addr|, k + 1)];
    assert AtRest(sb, x0, i) && OnDisk(x0) == OnDisk(x);
    RestKept(sb, x0, y, i, off + 1536 * k, src);
    RestShape(sb, y, i);
    ChunkLoggable(g, sb, x0, y, i, off + 1536 * k, src, lh);
    forall b | g.Home(b) && b !in lh ensures Cached(sb, y)[b] == Cached(sb, x)[b] {
      var b': nat := b;
      assert b' !in y.logged;
      Unlogged(sb, x0, y, i, off + 1536 * k, src, b);
      ImageAt(sb, OnDisk(x), b);
      ImageAt(sb, OnDisk(y), b);
    }
  }

  lemma ImageAt(sb: Superblock, s: State, b: nat)
    requires Shape(sb, s) && b < sb.size
    ensures Image(sb, s)[b] == ImageBlock(sb, s, b)
  {
  }

  // ----- whole runs -----

  /** A filewrite whose states are h, over a log that is empty and a disk that stands for h[0]; no
      other operation is outstanding. lists[k] is the log list of transaction k. */
  ghost predicate Run(g: RedoLog.Geometry, sb: Superblock, d: RedoLog.Disk, h: seq<Snapshot>, lists: seq<seq<int>>,
                      i: nat, off: nat, addr: seq<byte>) {
    && Layout(g, sb) && ChunkRun(sb, h, i, off, addr)
    && AtRest(sb, h[0], i) && Shape(sb, OnDisk(h[0])) && Ready(g, sb, d, h[0])
    && |lists| == |h| - 1 && forall k | 0 <= k < |lists| :: Lists(lists[k], h[k + 1].logged)
  }

  /** The disk after the first j transactions have been committed. */
  ghost function DiskAfter(g: RedoLog.Geometry, sb: Superblock, d: RedoLog.Disk, h: seq<Snapshot>, lists: seq<seq<int>>,
                           i: nat, off: nat, addr: seq<byte>, j: nat): (e: RedoLog.Disk)
    requires Run(g, sb, d, h, lists, i, off, addr) && j < |h|
    ensures AtRest(sb, h[j], i) && Shape(sb, OnDisk(h[j])) && Ready(g, sb, e, h[j])
  {
    if j == 0 then d
    else
      var e := DiskAfter(g, sb, d, h, lists, i, off, addr, j - 1);
      ChunkPending(g, sb, e, h[j - 1], h[j], i, off, addr, j - 1, lists[j - 1]);
      PendingCommits(g, sb, e, h[j - 1], h[j], lists[j - 1]);
      Stopped(g, sb, e, h[j - 1], h[j], lists[j - 1], Length(lists[j - 1]))
  }

  /** How many disk writes a commit takes. */
  function Length(lh: seq<int>): nat { if lh == [] then 0 else 2 * |lh| + 2 }

  /** The disk when the commit of y stops after n of its writes. */
  ghost function Stopped(g: RedoLog.Geometry, sb: Superblock, d: RedoLog.Disk, x: Snapshot, y: Snapshot,
                         lh: seq<int>, n: nat): RedoLog.Disk
    requires Shape(sb, OnDisk(x)) && Shape(sb, OnDisk(y)) && Pending(g, sb, d, x, y, lh) && n <= Length(lh)
  {
    PendingWrites(g, sb, d, x, y, lh);
    RedoLog.Apply(d, RedoLog.CommitWrites(g, d, lh, Cached(sb, y))[..n])
  }

  lemma PendingWrites(g: RedoLog.Geometry, sb: Superblock, d: RedoLog.Disk, x: Snapshot, y: Snapshot, lh: seq<int>)
    requires Shape(sb, OnDisk(x)) && Shape(sb, OnDisk(y)) && Pending(g, sb, d, x, y, lh)
    ensures
      var ws := RedoLog.CommitWrites(g, d, lh, Cached(sb, y));
      |ws| == Length(lh) && RedoLog.InRange(d, ws)
  {
    hide Image, RedoLog.Recovers, RedoLog.Clean, RedoLog.Loggable;
    if lh != [] {
      RedoLog.CommitLogging(g, d, lh, Cached(sb, y), Cached(sb, x), 0);
    }
  }

  /** Stopped before its header write a commit has done nothing, stopped after it everything. */
  lemma PendingStops(g: RedoLog.Geometry, sb: Superblock, d: RedoLog.Disk, x: Snapshot, y: Snapshot, lh: seq<int>, n: nat)
    requires Shape(sb, OnDisk(x)) && Shape(sb, OnDisk(y)) && Pending(g, sb, d, x, y, lh) && n <= Length(lh)
    ensures RedoLog.Recovers(g, Stopped(g, sb, d, x, y, lh, n), Cached(sb, if n <= |lh| then x else y))
  {
    hide Image, RedoLog.Recovers, RedoLog.Clean, RedoLog.Loggable, RedoLog.CommitWrites, RedoLog.Apply;
    PendingWrites(g, sb, d, x, y, lh);
    RedoLog.CommitCrash(g, d, lh, Cached(sb, y), Cached(sb, x), n);
  }

  lemma PendingCommits(g: RedoLog.Geometry, sb: Superblock, d: RedoLog.Disk, x: Snapshot, y: Snapshot, lh: seq<int>)
    requires Shape(sb, OnDisk(x)) && Shape(sb, OnDisk(y)) && Pending(g, sb, d, x, y, lh)
    ensures Ready(g, sb, Stopped(g, sb, d, x, y, lh, Length(lh)), y)
  {
    hide Image, RedoLog.Recovers, RedoLog.Clean, RedoLog.Loggable, RedoLog.CommitWrites, RedoLog.Apply;
    PendingWrites(g, sb, d, x, y, lh);
    RedoLog.CommitCrash(g, d, lh, Cached(sb, y), Cached(sb, x), Length(lh));
  }

  /** After k transactions the file holds the first k chunks. */
  lemma {:induction false} RunEffect(sb: Superblock, h: seq<Snapshot>, i: nat, off: nat, addr: seq<byte>, k: nat)
    requires ChunkRun(sb, h, i, off, addr) && k < |h| && AtRest(sb, h[0], i) && off <= h[0].st.inodes[i].size
    ensures WriteEffect(sb, h[0].st, h[k].st, i, off, addr[..Done(|addr|, k)])
  {
    hide Inv, Sized, NoHoles, WriteEffect, Written;
    if k == 0 {
      WriteEmpty(sb, h[0].st, i, off);
      assert addr[..0] == [];
    } else {
      RunEffect(sb, h, i, off, addr, k - 1);
      assert Chunk(sb, h[k - 1], h[k], i, off, addr, k - 1);
      var a, b := addr[..Done(|addr|, k - 1)], addr[1536 * (k - 1)..Done(|addr|, k)];
      assert a + b == addr[..Done(|addr|, k)];
      ChunkEffect(sb, h[k - 1], h[k], i, off, addr, k - 1);
      WriteWrite(sb, h[0].st, h[k - 1].st, h[k].st, i, off, a, b);
    }
  }

  lemma ChunkEffect(sb: Superblock, x: Snapshot, y: Snapshot, i: nat, off: nat, addr: seq<byte>, k: nat)
    requires Chunk(sb, x, y, i, off, addr, k)
    ensures WriteEffect(sb, x.st, y.st, i, off + 1536 * k, addr[1536 * k..Done(|addr|, k + 1)])
  {
    hide WriteEffect, Journaled, Stored, NoHoles;
  }

  /** A disk whose blocks outside the log are those of x boots into the file system x. */
  lemma Boots(g: RedoLog.Geometry, sb: Superblock, x: Snapshot, i: nat, r: RedoLog.Disk)
    requires Layout(g, sb) && AtRest(sb, x, i) && Shape(sb, OnDisk(x)) && RedoLog.SameHome(g, r, Cached(sb, x))
    ensures |r| == sb.size && SameFs(sb, x.st, Mount(sb, r, x.st.owner))
  {
    RestShape(sb, x, i);
    hide AtRest, Image, ReadInode, Unpack, Inv;
    forall b | sb.inodestart <= b < sb.size ensures r[b] == Image(sb, x.st)[b] {
      assert g.Home(b);
    }
    MountImage(sb, x.st, r);
  }

  lemma EffectCarries(sb: Superblock, s: State, t: State, u: State, i: nat, off: nat, src: seq<byte>)
    requires WriteEffect(sb, s, t, i, off, src) && SameFs(sb, t, u)
    ensures WriteEffect(sb, s, u, i, off, src)
  {
    hide Content, Slots, Owners, Bitmap, Addr;
    SameFsKeeps(sb, t, u);
    forall j | 0 <= j < sb.ninodes ensures Sized(sb, u) && Content(sb, u, j) == Content(sb, t, j) {
      SameFsContent(sb, t, u, j);
    }
  }

  /** Crash safety of filewrite. Stop transaction j after any n of its disk writes (n == 0 also
      stands for stopping while the operation still runs), stop the recoveries that follow
      anywhere, any number of times, and let one finish. What the machine then boots into is a
      sound file system that differs from the one before the write in one way: the first j chunks,
      or the first j + 1, have been spliced into the file. */
  lemma FilewriteCrash(g: RedoLog.Geometry, sb: Superblock, d: RedoLog.Disk, h: seq<Snapshot>, lists: seq<seq<int>>,
                       i: nat, off: nat, addr: seq<byte>, j: nat, n: nat, stops: seq<nat>)
    requires Run(g, sb, d, h, lists, i, off, addr) && j < |h| - 1 && n <= Length(lists[j])
    ensures
      var e := DiskAfter(g, sb, d, h, lists, i, off, addr, j);
      && AtRest(sb, h[j + 1], i) && Shape(sb, OnDisk(h[j + 1]))
      && Pending(g, sb, e, h[j], h[j + 1], lists[j])
      && var e' := Stopped(g, sb, e, h[j], h[j + 1], lists[j], n);
      && var k := if n <= |lists[j]| then j else j + 1;
      && RedoLog.Recovers(g, e', Cached(sb, h[k]))
      && var r := RedoLog.Recovered(g, e', Cached(sb, h[k]), stops);
      && |r| == sb.size
      && WriteEffect(sb, h[0].st, Mount(sb, r, h[k].st.owner), i, off, addr[..Done(|addr|, k)])
  {
    hide Layout, AtRest, Chunk, Ready, Pending, Image, Lists, RedoLog.Recovers, DiskAfter, Stopped, RedoLog.Recovered,
      Mount, WriteEffect, SameFs;
    var e := DiskAfter(g, sb, d, h, lists, i, off, addr, j);
    ChunkPending(g, sb, e, h[j], h[j + 1], i, off, addr, j, lists[j]);
    PendingStops(g, sb, e, h[j], h[j + 1], lists[j], n);
    var e' := Stopped(g, sb, e, h[j], h[j + 1], lists[j], n);
    var k := if n <= |lists[j]| then j else j + 1;
    var r := RedoLog.Recovered(g, e', Cached(sb, h[k]), stops);
    Boots(g, sb, h[k], i, r);
    StartsInside(sb, h, i, off, addr);
    RunEffect(sb, h, i, off, addr, k);
    EffectCarries(sb, h[0].st, h[k].st, Mount(sb, r, h[k].st.owner), i, off, addr[..Done(|addr|, k)]);
  }

  /** A stop outside the commits, and so a panic in the middle of a transaction, leaves the file
      system that the last finished transaction made. */
  lemma FilewriteStop(g: RedoLog.Geometry, sb: Superblock, d: RedoLog.Disk, h: seq<Snapshot>, lists: seq<seq<int>>,
                      i: nat, off: nat, addr: seq<byte>, j: nat, stops: seq<nat>)
    requires Run(g, sb, d, h, lists, i, off, addr) && j < |h|
    ensures
      var e := DiskAfter(g, sb, d, h, lists, i, off, addr, j);
      && RedoLog.Recovers(g, e, Cached(sb, h[j]))
      && var r := RedoLog.Recovered(g, e, Cached(sb, h[j]), stops);
      && |r| == sb.size
      && var t := Mount(sb, r, h[j].st.owner);
      && SameFs(sb, h[j].st, t)
      && Inv(sb, t, {}) && Sized(sb, t) && Content(sb, t, i) == Content(sb, h[j].st, i)
  {
    hide Layout, Chunk, Image, Lists, RedoLog.Recovers, DiskAfter, RedoLog.Recovered, Mount, SameFs, Inv, Sized, Content;
    var e := DiskAfter(g, sb, d, h, lists, i, off, addr, j);
    var r := RedoLog.Recovered(g, e, Cached(sb, h[j]), stops);
    Boots(g, sb, h[j], i, r);
    SameFsContent(sb, h[j].st, Mount(sb, r, h[j].st.owner), i);
  }

  lemma StartsInside(sb: Superblock, h: seq<Snapshot>, i: nat, off: nat, addr: seq<byte>)
    requires ChunkRun(sb, h, i, off, addr) && |h| > 1 && AtRest(sb, h[0], i)
    ensures off <= h[0].st.inodes[i].size
  {
    hide Journaled, Stored, NoHoles, Inv, Sized, Content;
    assert Chunk(sb, h[0], h[1], i, off, addr, 0);
  }
}
