/** Crash safety on one concrete disk: the full disk of FsFullDisk, on which a chunk needs all ten
    blocks of its reservation. */
module CrashFull {
  import opened FsCodec
  import opened FsModel
  import opened FsOps
  import opened FsFile
  import opened FsWrite
  import opened FileWrite
  import opened FsTight
  import opened FsFullDisk
  import opened FsImage
  import opened CrashFs
  import RedoLog

  /** The log that mkfs lays out: 30 blocks after the superblock. */
  function FullLog(): RedoLog.Geometry { RedoLog.Geometry(2, 30, 12289) }

  /** The disk, with a log that lists nothing. */
  ghost function FullImage(): RedoLog.Disk
    requires Shape(FullSb(), Full())
  {
    var d := Image(FullSb(), Full());
    ImageAt(FullSb(), Full(), 2);
    d[2 := RedoLog.Header(d[2], [])]
  }

  lemma FullReady()
    ensures Shape(FullSb(), OnDisk(FullSnap())) && AtRest(FullSb(), FullSnap(), 59)
    ensures Layout(FullLog(), FullSb()) && Ready(FullLog(), FullSb(), FullImage(), FullSnap())
  {
    hide FullBlocks, FullInodes, Inv, Sized, NoHoles, Spread, Image, Owner;
    FullFits();
    FullShape();
    assert OnDisk(FullSnap()) == Full();
  }

  /** The chunk that fills the reservation is a run to which FilewriteCrash applies. */
  lemma FullChunk(y: Snapshot, src: seq<byte>, lh: seq<int>)
    requires |src| == 1536 && Written(FullSb(), FullSnap(), y, 59, 5633, src) && Lists(lh, y.logged)
    ensures Shape(FullSb(), Full()) && Run(FullLog(), FullSb(), FullImage(), [FullSnap(), y], [lh], 59, 5633, src)
  {
    hide Written, AtRest, Ready, Lists, FullBlocks, FullInodes, Image, Owner, Layout;
    FullShape();
    FullReady();
    assert src[0..1536] == src;
    assert Chunk(FullSb(), FullSnap(), y, 59, 5633, src, 0);
  }

  /** A run of that chunk, and the file system after a crash at the n-th write of its commit. */
  method FullCrash(src: seq<byte>, n: nat, stops: seq<nat>) returns (fs: FileSystem, ghost lh: seq<int>)
    requires |src| == 1536 && n <= 22
    ensures Shape(FullSb(), Full()) && Lists(lh, fs.logged) && |lh| == 10
    ensures
      var d, h := FullImage(), [FullSnap(), fs.Snap()];
      && Run(FullLog(), FullSb(), d, h, [lh], 59, 5633, src)
      && Shape(FullSb(), OnDisk(h[1])) && Pending(FullLog(), FullSb(), d, h[0], h[1], lh)
      && var e := Stopped(FullLog(), FullSb(), d, h[0], h[1], lh, n);
      && var k := if n <= 10 then 0 else 1;
      && RedoLog.Recovers(FullLog(), e, Cached(FullSb(), h[k]))
      && var r := RedoLog.Recovered(FullLog(), e, Cached(FullSb(), h[k]), stops);
      && |r| == 12289
      && WriteEffect(FullSb(), Full(), Mount(FullSb(), r, h[k].st.owner), 59, 5633, src[..1536 * k])
  {
    hide Written, Run, Lists, Pending, Image, Mount, WriteEffect, FullBlocks, FullInodes, Owner, AtRest, Ready,
      RedoLog.Recovers, RedoLog.Recovered, Stopped, Inv, Shape;
    var ret;
    ret, fs := FullRun(src);
    ghost var y := fs.Snap();
    lh := SomeList(y.logged);
    ListLength(lh, y.logged);
    FullChunk(y, src, lh);
    FilewriteCrash(FullLog(), FullSb(), FullImage(), [FullSnap(), y], [lh], 59, 5633, src, 0, n, stops);
    FirstDisk(FullLog(), FullSb(), FullImage(), [FullSnap(), y], [lh], 59, 5633, src);
  }

  lemma FirstDisk(g: RedoLog.Geometry, sb: Superblock, d: RedoLog.Disk, h: seq<Snapshot>, lists: seq<seq<int>>,
                  i: nat, off: nat, addr: seq<byte>)
    requires Run(g, sb, d, h, lists, i, off, addr)
    ensures |h| > 0 && DiskAfter(g, sb, d, h, lists, i, off, addr, 0) == d
  {
  }

  lemma {:induction false} ListLength(lh: seq<int>, logged: set<nat>)
    requires Lists(lh, logged)
    ensures |lh| == |logged|
    decreases |lh|
  {
    if lh != [] {
      var n := |lh| - 1;
      var b: nat := lh[n];
      var rest := logged - {b};
      assert forall c | c in rest :: c in lh[..n];
      ListLength(lh[..n], rest);
    }
  }
}
