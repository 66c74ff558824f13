/** Reading files: readi of src/fs.c against a flat byte sequence. */
module FsFile {
  import opened FsCodec
  import opened FsModel
  import opened FsOps

  const UINT := 0x1_0000_0000
  const MAXBYTES := 71680        // MAXFILE * 512

  datatype Return = Panic | Return(value: int)

  ghost function ByteAt(sb: Superblock, s: State, i: nat, p: nat): byte
    requires Shape(sb, s) && i < sb.ninodes && p < MAXBYTES
  {
    Data(sb, s, i, p / 512)[p % 512]
  }

  /** Bytes lo..hi of file i, whatever its size. */
  ghost function Bytes(sb: Superblock, s: State, i: nat, lo: nat, hi: nat): (r: seq<byte>)
    requires Shape(sb, s) && i < sb.ninodes && lo <= hi <= MAXBYTES
    ensures |r| == hi - lo
  {
    seq(hi - lo, t requires 0 <= t < hi - lo => ByteAt(sb, s, i, lo + t))
  }

  ghost predicate Sized(sb: Superblock, s: State)
    requires Shape(sb, s)
  {
    forall i | 0 <= i < sb.ninodes :: s.inodes[i].size <= MAXBYTES
  }

  /** What a file is, to its users: a flat sequence of bytes. */
  ghost function Content(sb: Superblock, s: State, i: nat): (r: seq<byte>)
    requires Shape(sb, s) && Sized(sb, s) && i < sb.ninodes
    ensures |r| == s.inodes[i].size
  {
    Bytes(sb, s, i, 0, s.inodes[i].size)
  }

  ghost predicate NoHoles(sb: Superblock, s: State, i: nat)
    requires Shape(sb, s) && i < sb.ninodes
  {
    forall bn | 0 <= bn < MAXFILE && bn * 512 < s.inodes[i].size :: Addr(sb, s, i, SlotOf(bn)) != 0
  }

  /** Whether the uint sum off + n wraps around. */
  predicate Wraps(off: nat, n: nat)
    requires off < UINT && n < UINT
    ensures Wraps(off, n) <==> off + n >= UINT
  {
    (off + n) % UINT < off
  }

  /** Byte `off` of a file is byte o of its block bn. */
  predicate At(off: nat, bn: nat, o: nat) {
    bn == off / 512 && o == off % 512
  }

  lemma AtBlock(off: nat, bn: nat, o: nat)
    requires At(off, bn, o)
    ensures bn == off / 512
  {
  }

  predicate Aligned(off: nat) { off % 512 == 0 }

  /** The block and the byte that offset `off` falls in, and how much of the remaining n bytes
      fits there. */
  method Locate(off: nat, n: nat) returns (bn: nat, o: nat, m: nat)
    requires 0 < n && off + n <= MAXBYTES
    ensures At(off, bn, o) && bn < MAXFILE && o < BSIZE
    ensures 0 < m <= n && o + m <= BSIZE && (m < n ==> Aligned(off + m)) && (Aligned(off) ==> o == 0)
  {
    bn, o := off / 512, off % 512;
    m := Min(n, BSIZE - o);
  }

  /** Bytes off0..off of the file have blocks to live in. */
  ghost predicate SlotsFilled(sb: Superblock, t: State, i: nat, off0: nat, off: nat)
    requires Shape(sb, t) && i < sb.ninodes
  {
    off0 < off ==>
      forall bn | off0 / 512 <= bn < MAXFILE && bn * 512 < off :: Addr(sb, t, i, SlotOf(bn)) != 0
  }

  function Min(a: nat, b: nat): nat { if a < b then a else b }

  lemma SameBytes(sb: Superblock, s: State, s': State, i: nat, lo: nat, hi: nat)
    requires Shape(sb, s) && Shape(sb, s') && i < sb.ninodes && lo <= hi <= MAXBYTES
    requires forall bn | 0 <= bn < MAXFILE :: Data(sb, s', i, bn) == Data(sb, s, i, bn)
    ensures Bytes(sb, s', i, lo, hi) == Bytes(sb, s, i, lo, hi)
  {
    hide Data;
    forall p: nat | p < MAXBYTES ensures ByteAt(sb, s', i, p) == ByteAt(sb, s, i, p) {
      assert p / 512 < MAXFILE;
    }
  }

  /** The next piece of one block extends the bytes read so far. */
  lemma BytesStep(sb: Superblock, s: State, i: nat, lo: nat, off: nat, bn: nat, o: nat, m: nat)
    requires Shape(sb, s) && i < sb.ninodes && lo <= off && off + m <= MAXBYTES && bn < MAXFILE
    requires At(off, bn, o) && o + m <= BSIZE
    ensures Bytes(sb, s, i, lo, off + m) == Bytes(sb, s, i, lo, off) + Data(sb, s, i, bn)[o..o + m]
  {
    hide Data;
    var d := Data(sb, s, i, bn);
    var all, sum := Bytes(sb, s, i, lo, off + m), Bytes(sb, s, i, lo, off) + d[o..o + m];
    forall x | 0 <= x < |all| ensures all[x] == sum[x] {
      if lo + x >= off {
        assert (lo + x) / 512 == bn && (lo + x) % 512 == o + (lo + x - off);
      }
    }
  }

  lemma BytesSlice(sb: Superblock, s: State, i: nat, lo: nat, hi: nat, size: nat)
    requires Shape(sb, s) && i < sb.ninodes && lo <= hi <= size <= MAXBYTES
    ensures Bytes(sb, s, i, 0, size)[lo..hi] == Bytes(sb, s, i, lo, hi)
  {
    hide ByteAt;
  }

  /** What reading may do to the state: fill holes of the file with zeros, nothing else. */
  ghost predicate ReadKeeps(sb: Superblock, s: State, t: State, i: nat) {
    && Shape(sb, s) && i < sb.ninodes
    && Inv(sb, t, {})
    && SameData(sb, s, t)
    && SameMeta(s, t, i)
    && (NoHoles(sb, s, i) ==> t == s)
  }

  lemma ReadStep(sb: Superblock, s: State, t: State, t': State, i: nat, bn: nat, a: nat)
    requires ReadKeeps(sb, s, t, i) && bn * 512 < s.inodes[i].size
    requires Mapped(sb, t, t', i, bn, a) && (Addr(sb, t, i, SlotOf(bn)) != 0 ==> t' == t)
    ensures ReadKeeps(sb, s, t', i)
    ensures Data(sb, s, i, bn) == t'.blocks[a]
  {
    hide Addr, Data, Slots, Owners, Bitmap;
    MappedData(sb, t', i, bn);
    assert Data(sb, t', i, bn) == Data(sb, t, i, bn) == Data(sb, s, i, bn);
  }

  lemma MappedData(sb: Superblock, t: State, i: nat, bn: nat)
    requires Shape(sb, t) && i < sb.ninodes && bn < MAXFILE && 0 < Addr(sb, t, i, SlotOf(bn)) < sb.size
    ensures Data(sb, t, i, bn) == t.blocks[Addr(sb, t, i, SlotOf(bn))]
  {
  }

  lemma ReadPanics(sb: Superblock, s: State, t: State, i: nat, bn: nat)
    requires ReadKeeps(sb, s, t, i) && bn < MAXFILE && bn * 512 < s.inodes[i].size
    requires Addr(sb, t, i, SlotOf(bn)) == 0
    ensures !NoHoles(sb, s, i)
  {
  }

  /** What readi did and when it panics. With an operation outstanding a hole is filled, so only a
      full disk is in the way; with none, log_write stops the first balloc, so what panics is
      exactly a hole in the range. */
  ghost predicate ReadOutcome(sb: Superblock, s: State, t: State, i: nat, lo: nat, hi: nat, inOp: bool, done: bool)
    requires Shape(sb, s) && i < sb.ninodes
  {
    && (done ==> ReadKeeps(sb, s, t, i))
    && (NoHoles(sb, s, i) ==> done)
    && (!inOp ==> t == s && (done <==> SlotsFilled(sb, s, i, lo, hi)))
    && (inOp && !done ==> Shape(sb, t) && AllUsed(sb, t, sb.size))
  }

  /** Read n bytes at offset off. Reading past the end is cut short; reading a hole allocates a
      zeroed block, which no file's contents show. `device` stands for what a device would
      return, `inOp` for log.outstanding >= 1. */
  method Readi(fs: FileSystem, inum: nat, off0: nat, n0: nat, device: int, inOp: bool) returns (ret: Return,
               dst: seq<byte>)
    requires Inv(fs.sb, fs.St(), {}) && inum < fs.sb.ninodes && Sized(fs.sb, fs.St())
    requires off0 < UINT && n0 < UINT
    modifies fs`blocks, fs`inodes, fs`owner, fs`logged
    ensures
      var ip := old(fs.inodes[inum]);
      if ip.kind.Device? then ret == Return(device) && fs.St() == old(fs.St())
      else if off0 > ip.size || off0 + n0 >= UINT then ret == Return(-1) && fs.St() == old(fs.St())
      else
        var n := Min(n0, ip.size - off0);
        && ReadOutcome(fs.sb, old(fs.St()), fs.St(), inum, off0, off0 + n, inOp, ret.Return?)
        && (ret.Return? ==> ret.value == n && dst == Content(fs.sb, old(fs.St()), inum)[off0..off0 + n])
  {
    hide Inv, Shape, ReadKeeps, ReadOutcome, Bytes, NoHoles, Wraps;
    ghost var sb, s := fs.sb, fs.St();
    InvShape(sb, s, {});
    dst := [];
    var ip := fs.inodes[inum];
    assert ip.size <= MAXBYTES;
    if ip.kind.Device? {
      return Return(device), dst;
    }
    if off0 > ip.size || Wraps(off0, n0) {
      return Return(-1), dst;
    }
    var n := n0;
    if off0 + n > ip.size {
      n := ip.size - off0;
    }
    ret, dst := ReadBlocks(fs, inum, off0, n, inOp);
    BytesSlice(sb, s, inum, off0, off0 + n, ip.size);
  }

  lemma ReadKeepsRefl(sb: Superblock, s: State, i: nat)
    requires Inv(sb, s, {}) && i < sb.ninodes
    ensures ReadKeeps(sb, s, s, i)
  {
    hide Addr, Data, Slots, Owners, Bitmap;
  }

  lemma ReadKeepsGives(sb: Superblock, s: State, t: State, i: nat)
    requires ReadKeeps(sb, s, t, i)
    ensures Shape(sb, s) && i < sb.ninodes && Shape(sb, t) && Inv(sb, t, {}) && |t.blocks| == sb.size
    ensures t.inodes[i].size == s.inodes[i].size
  {
    hide Addr, Data, Slots, Owners, Bitmap;
  }

  /** The state before byte `off` of a read that began at lo. */
  ghost predicate Reading(sb: Superblock, s: State, t: State, i: nat, lo: nat, off: nat, inOp: bool) {
    && ReadKeeps(sb, s, t, i)
    && (!inOp ==> t == s && SlotsFilled(sb, s, i, lo, off))
  }

  lemma ReadingStart(sb: Superblock, s: State, i: nat, lo: nat, inOp: bool)
    requires Inv(sb, s, {}) && i < sb.ninodes && lo <= MAXBYTES
    ensures Reading(sb, s, s, i, lo, lo, inOp) && Bytes(sb, s, i, lo, lo) == []
  {
    hide Inv, Addr;
    InvShape(sb, s, {});
    ReadKeepsRefl(sb, s, i);
  }

  lemma ReadingGives(sb: Superblock, s: State, t: State, i: nat, lo: nat, off: nat, inOp: bool)
    requires Reading(sb, s, t, i, lo, off, inOp)
    ensures ReadKeeps(sb, s, t, i) && Shape(sb, s) && i < sb.ninodes && Shape(sb, t) && Inv(sb, t, {})
    ensures |s.inodes| == sb.ninodes && t.inodes[i].size == s.inodes[i].size
  {
    hide Inv, SameData, NoHoles;
    ReadKeepsGives(sb, s, t, i);
  }

  lemma ReadingMore(sb: Superblock, s: State, t: State, t': State, i: nat, lo: nat, off: nat, bn: nat, o: nat,
                    m: nat, inOp: bool)
    requires Reading(sb, s, t, i, lo, off, inOp) && ReadKeeps(sb, s, t', i)
    requires lo <= off && At(off, bn, o) && o + m <= BSIZE && bn < MAXFILE
    requires !inOp ==> t' == t && Addr(sb, t, i, SlotOf(bn)) != 0
    ensures Reading(sb, s, t', i, lo, off + m, inOp)
  {
    hide Addr, ReadKeeps;
    ReadKeepsGives(sb, s, t', i);
    if !inOp {
      forall bn' | lo / 512 <= bn' < MAXFILE && bn' * 512 < off + m ensures Addr(sb, s, i, SlotOf(bn')) != 0 {
        if bn' * 512 < off && lo < off {
          assert SlotsFilled(sb, s, i, lo, off);
        } else {
          assert bn' == bn;
        }
      }
    }
  }

  lemma ReadStops(sb: Superblock, s: State, t: State, t': State, i: nat, lo: nat, off: nat, hi: nat, bn: nat, o: nat,
                  inOp: bool)
    requires Reading(sb, s, t, i, lo, off, inOp) && lo <= off < hi <= s.inodes[i].size <= MAXBYTES
    requires At(off, bn, o) && bn < MAXFILE && Addr(sb, t, i, SlotOf(bn)) == 0
    requires if inOp then Shape(sb, t') && AllUsed(sb, t', sb.size) else t' == t
    ensures ReadOutcome(sb, s, t', i, lo, hi, inOp, false)
  {
    hide Addr, AllUsed, Used;
    ReadPanics(sb, s, t, i, bn);
    assert lo / 512 <= bn && bn * 512 < hi;
  }

  lemma ReadDone(sb: Superblock, s: State, t: State, i: nat, lo: nat, hi: nat, inOp: bool)
    requires Reading(sb, s, t, i, lo, hi, inOp)
    ensures ReadOutcome(sb, s, t, i, lo, hi, inOp, true)
  {
    hide Addr, AllUsed, Used;
  }

  /** One turn of readi's loop: the piece of the block at offset off, of at most n bytes. */
  method ReadPiece(fs: FileSystem, inum: nat, off: nat, n: nat, inOp: bool, ghost s: State, ghost lo: nat)
    returns (r: Option<seq<byte>>)
    requires Reading(fs.sb, s, fs.St(), inum, lo, off, inOp) && inum < fs.sb.ninodes && inum < |s.inodes|
    requires lo <= off && 0 < n && off + n <= s.inodes[inum].size <= MAXBYTES
    modifies fs`blocks, fs`inodes, fs`owner, fs`logged
    ensures Shape(fs.sb, s)
    ensures r.None? ==> ReadOutcome(fs.sb, s, fs.St(), inum, lo, off + n, inOp, false)
    ensures r.Some? ==>
              && 0 < |r.value| <= n
              && Reading(fs.sb, s, fs.St(), inum, lo, off + |r.value|, inOp)
              && Bytes(fs.sb, s, inum, lo, off) + r.value == Bytes(fs.sb, s, inum, lo, off + |r.value|)
  {
    hide Inv, ReadKeeps, Reading, ReadOutcome, Bytes, NoHoles, Mapped, MapLog, Addr, Data, AllUsed, At, Aligned,
      OutOfBlocks, OnlyLogged, SlotOf, Shape;
    ghost var sb, t := fs.sb, fs.St();
    ReadingGives(sb, s, t, inum, lo, off, inOp);
    var bn, o, m := Locate(off, n);
    InSize(off, n, bn, o, s.inodes[inum].size);
    if !inOp {
      var hole := fs.IsHole(inum, bn);
      if hole {
        ReadStops(sb, s, t, t, inum, lo, off, off + n, bn, o, inOp);
        return None;
      }
    }
    var b := fs.Bmap(inum, bn);
    if b.None? {
      FullIsHole(sb, t, fs.St(), inum, bn);
      ReadStops(sb, s, t, fs.St(), inum, lo, off, off + n, bn, o, inOp);
      return None;
    }
    PieceRead(sb, s, t, fs.St(), inum, lo, off, bn, o, m, b.value, inOp);
    var bp := fs.blocks[b.value];
    r := Some(bp[o..o + m]);
  }

  /** bmap took t to t': block a holds the next m bytes. */
  lemma PieceRead(sb: Superblock, s: State, t: State, t': State, i: nat, lo: nat, off: nat, bn: nat, o: nat, m: nat,
                  a: nat,
                  inOp: bool)
    requires Reading(sb, s, t, i, lo, off, inOp) && bn * 512 < s.inodes[i].size <= MAXBYTES
    requires Mapped(sb, t, t', i, bn, a) && (Addr(sb, t, i, SlotOf(bn)) != 0 ==> t' == t)
    requires !inOp ==> Addr(sb, t, i, SlotOf(bn)) != 0
    requires lo <= off && off + m <= MAXBYTES && At(off, bn, o) && o + m <= BSIZE
    ensures Reading(sb, s, t', i, lo, off + m, inOp)
    ensures a < |t'.blocks| && |t'.blocks[a]| == BSIZE
    ensures Bytes(sb, s, i, lo, off) + t'.blocks[a][o..o + m] == Bytes(sb, s, i, lo, off + m)
  {
    hide Inv, ReadKeeps, Reading, Bytes, NoHoles, MapLog, Addr, Data, At, Aligned, SameData;
    ReadingGives(sb, s, t, i, lo, off, inOp);
    ReadStep(sb, s, t, t', i, bn, a);
    MappedBlock(sb, t, t', i, bn, a);
    BytesStep(sb, s, i, lo, off, bn, o, m);
    ReadingMore(sb, s, t, t', i, lo, off, bn, o, m, inOp);
  }

  lemma InSize(off: nat, n: nat, bn: nat, o: nat, size: nat)
    requires At(off, bn, o) && 0 < n && off + n <= size
    ensures bn * 512 < size
  {
  }

  /** The copying loop of readi. */
  method ReadBlocks(fs: FileSystem, inum: nat, off0: nat, n: nat, inOp: bool) returns (ret: Return, dst: seq<byte>)
    requires Inv(fs.sb, fs.St(), {}) && inum < fs.sb.ninodes
    requires off0 + n <= fs.inodes[inum].size <= MAXBYTES
    modifies fs`blocks, fs`inodes, fs`owner, fs`logged
    ensures ReadOutcome(fs.sb, old(fs.St()), fs.St(), inum, off0, off0 + n, inOp, ret.Return?)
    ensures ret.Return? ==> ret.value == n && dst == Bytes(fs.sb, old(fs.St()), inum, off0, off0 + n)
  {
    hide Inv, Shape, ReadKeeps, Reading, ReadOutcome, Bytes, NoHoles;
    ghost var sb, s := fs.sb, fs.St();
    InvShape(sb, s, {});
    ReadingStart(sb, s, inum, off0, inOp);
    dst := [];
    var tot := 0;
    while tot < n
      invariant 0 <= tot <= n
      invariant Reading(sb, s, fs.St(), inum, off0, off0 + tot, inOp)
      invariant dst == Bytes(sb, s, inum, off0, off0 + tot)
    {
      var r := ReadPiece(fs, inum, off0 + tot, n - tot, inOp, s, off0);
      if r.None? {
        return Panic, dst;
      }
      dst := dst + r.value;
      tot := tot + |r.value|;
    }
    ReadDone(sb, s, fs.St(), inum, off0, off0 + n, inOp);
    ret := Return(n);
  }

  lemma FullIsHole(sb: Superblock, s: State, s': State, i: nat, bn: nat)
    requires bn < MAXFILE && i < sb.ninodes && OutOfBlocks(sb, s, s', i, bn) && Shape(sb, s)
    ensures Addr(sb, s, i, SlotOf(bn)) == 0 && Shape(sb, s') && AllUsed(sb, s', sb.size)
  {
  }

  lemma MappedBlock(sb: Superblock, s: State, s': State, i: nat, bn: nat, a: nat)
    requires Mapped(sb, s, s', i, bn, a)
    ensures 0 < a < |s'.blocks| && |s'.blocks[a]| == BSIZE
  {
  }
}
