/** filewrite of src/file.c on an inode: a long write as a series of transactions, each small
    enough for the log. */
module FileWrite {
  import opened FsCodec
  import opened FsModel
  import opened FsOps
  import opened FsFile
  import opened FsJournal
  import opened FsWrite

  const MAXOPBLOCKS := 10
  const CHUNK := 1536          // ((MAXOPBLOCKS - 1 - 1 - 2) / 2) * 512

  class File {
    const ip: nat
    const writable: bool
    var off: nat

    constructor (ip: nat, writable: bool)
      ensures this.ip == ip && this.writable == writable && off == 0
    {
      this.ip := ip;
      this.writable := writable;
      off := 0;
    }
  }

  lemma SpliceSplice(c: seq<byte>, off: nat, a: seq<byte>, b: seq<byte>)
    requires off <= |c|
    ensures off + |a| <= |Splice(c, off, a)|
    ensures Splice(Splice(c, off, a), off + |a|, b) == Splice(c, off, a + b)
  {
  }

  /** Two writes, the second where the first ended, are one write. */
  lemma WriteWrite(sb: Superblock, s: State, t: State, u: State, i: nat, off: nat, a: seq<byte>, b: seq<byte>)
    requires WriteEffect(sb, s, t, i, off, a) && WriteEffect(sb, t, u, i, off + |a|, b)
    ensures WriteEffect(sb, s, u, i, off, a + b)
  {
    hide Content, NoHoles, Slots, Owners, Bitmap;
    SpliceSplice(Content(sb, s, i), off, a, b);
  }

  lemma WriteEmpty(sb: Superblock, s: State, i: nat, off: nat)
    requires Inv(sb, s, {}) && Sized(sb, s) && i < sb.ninodes && off <= s.inodes[i].size
    ensures WriteEffect(sb, s, s, i, off, [])
  {
    hide NoHoles, Slots, Owners, Bitmap, ByteAt;
    assert |Content(sb, s, i)| == s.inodes[i].size;
    hide Content;
  }

  lemma EffectSize(sb: Superblock, s: State, t: State, i: nat, off: nat, a: seq<byte>)
    requires WriteEffect(sb, s, t, i, off, a)
    ensures Shape(sb, t) && Inv(sb, t, {}) && Sized(sb, t) && off + |a| <= t.inodes[i].size <= MAXBYTES
    ensures t.inodes[i].kind == s.inodes[i].kind
    ensures NoHoles(sb, s, i) ==> NoHoles(sb, t, i)
    ensures t.inodes[i].size == if off + |a| > s.inodes[i].size then off + |a| else s.inodes[i].size
  {
    hide NoHoles, Slots, Owners, Bitmap, ByteAt;
    assert |Content(sb, t, i)| == t.inodes[i].size;
    assert |Content(sb, s, i)| == s.inodes[i].size;
  }

  /** A chunk of a file without holes stays within what begin_op reserved for it. */
  lemma ChunkLogs(sb: Superblock, x: Snapshot, y: Snapshot, i: nat, off: nat, src: seq<byte>)
    requires Written(sb, x, y, i, off, src) && x.logged == {} && |src| <= CHUNK && NoHoles(sb, x.st, i)
    ensures |y.logged| <= MAXOPBLOCKS
  {
    hide NoHoles, Inv, Content, Journaled, WriteCost;
    ChunkFits(x.st.inodes[i].size, off, |src|);
  }

  // ----- the series of transactions -----

  /** How many of n bytes k chunks hold. */
  function Done(n: nat, k: nat): nat { Min(1536 * k, n) }

  /** Transaction number k wrote its chunk, from state x to state y. */
  ghost predicate Chunk(sb: Superblock, x: Snapshot, y: Snapshot, i: nat, off: nat, addr: seq<byte>, k: nat) {
    && 1536 * k < |addr|
    && Written(sb, x.(logged := {}), y, i, off + 1536 * k, addr[1536 * k..Done(|addr|, k + 1)])
  }

  /** The states between the transactions of one long write, the first before all of them. */
  ghost predicate ChunkRun(sb: Superblock, h: seq<Snapshot>, i: nat, off: nat, addr: seq<byte>) {
    |h| > 0 && forall k | 0 <= k < |h| - 1 :: Chunk(sb, h[k], h[k + 1], i, off, addr, k)
  }

  /** Every transaction stayed within what begin_op reserved for it. */
  ghost predicate AllFit(h: seq<Snapshot>) {
    forall k | 0 < k < |h| :: |h[k].logged| <= MAXOPBLOCKS
  }

  lemma OneMoreFits(h: seq<Snapshot>, z: Snapshot)
    requires |z.logged| <= MAXOPBLOCKS
    ensures AllFit(h) ==> AllFit(h + [z])
  {
  }

  /** h is the run of the write that began in x and has now reached y, `done` bytes on. */
  ghost predicate History(sb: Superblock, x: Snapshot, y: Snapshot, i: nat, off: nat, addr: seq<byte>, done: nat,
                          h: seq<Snapshot>) {
    && ChunkRun(sb, h, i, off, addr)
    && h[0] == x && h[|h| - 1].(logged := {}) == y.(logged := {})
    && done == Done(|addr|, |h| - 1)
  }

  lemma HistoryStep(sb: Superblock, x: Snapshot, y: Snapshot, z: Snapshot, i: nat, off: nat, addr: seq<byte>, done: nat,
                    n: nat, h: seq<Snapshot>)
    requires History(sb, x, y, i, off, addr, done, h) && y.logged == {}
    requires done < |addr| && n == Min(|addr| - done, CHUNK)
    requires Written(sb, y, z, i, off + done, addr[done..done + n])
    ensures History(sb, x, z, i, off, addr, done + n, h + [z])
  {
    hide Written;
    var k := |h| - 1;
    assert done == 1536 * k && done + n == Done(|addr|, k + 1);
    assert Chunk(sb, h[k], z, i, off, addr, k);
  }

  /** Write all of `addr` at the file's offset, at most CHUNK bytes a transaction. `done` bytes
      have been spliced into the file when it returns; `h` is the state before the first
      transaction and after each one that committed, also when a later one panics. The file is not
      a device. */
  method Filewrite(f: File, fs: FileSystem, addr: seq<byte>)
      returns (ret: Return, done: nat, ghost h: seq<Snapshot>)
    requires Inv(fs.sb, fs.St(), {}) && f.ip < fs.sb.ninodes && Sized(fs.sb, fs.St()) && |fs.dinodes| == fs.sb.ninodes
    requires |addr| < 0x8000_0000 && f.off < UINT - 0x8000_0000
    requires !fs.inodes[f.ip].kind.Device?
    modifies f, fs
    ensures ChunkRun(fs.sb, h, f.ip, old(f.off), addr) && h[0] == old(fs.Snap())
    ensures !f.writable ==> ret == Return(-1) && done == 0 && fs.Snap() == old(fs.Snap()) && f.off == old(f.off)
    ensures ret.Return? && f.writable ==>
              && done <= |addr|
              && f.off == old(f.off) + done
              && ret.value == (if done == |addr| then |addr| else -1)
              && Between(fs.sb, old(fs.Snap()), fs.Snap(), f.ip, old(f.off), addr, done, h)
              && (done < |addr| && old(f.off) <= old(fs.inodes[f.ip].size) ==>
                    old(f.off) + done + Min(|addr| - done, CHUNK) > MAXBYTES)
  {
    hide Inv, Sized, Between;
    done, h := 0, [fs.Snap()];
    if !f.writable {
      return Return(-1), 0, h;
    }
    ret, done, h := WriteChunks(f, fs, addr);
  }

  /** What holds between two transactions of a long write, x being the state when it began. */
  ghost predicate Between(sb: Superblock, x: Snapshot, y: Snapshot, i: nat, off: nat, addr: seq<byte>, done: nat,
                          h: seq<Snapshot>) {
    && Inv(sb, x.st, {}) && i < sb.ninodes && done <= |addr|
    && Inv(sb, y.st, {}) && Sized(sb, y.st) && |x.dinodes| == |y.dinodes| == sb.ninodes
    && y.st.inodes[i].kind == x.st.inodes[i].kind
    && (off <= x.st.inodes[i].size ==> WriteEffect(sb, x.st, y.st, i, off, addr[..done]))
    && (off > x.st.inodes[i].size ==> y.st == x.st && done == 0)
    && (NoHoles(sb, x.st, i) ==> NoHoles(sb, y.st, i) && AllFit(h))
    && (NoHoles(sb, x.st, i) && x.dinodes[i] == x.st.inodes[i] ==> y.dinodes[i] == y.st.inodes[i])
    && History(sb, x, y, i, off, addr, done, h)
  }

  lemma BetweenStart(sb: Superblock, x: Snapshot, i: nat, off: nat, addr: seq<byte>)
    requires Inv(sb, x.st, {}) && Sized(sb, x.st) && i < sb.ninodes && |x.dinodes| == sb.ninodes
    ensures Between(sb, x, x, i, off, addr, 0, [x]) && i < |x.st.inodes| && ChunkRun(sb, [x], i, off, addr)
  {
    hide NoHoles, Slots, Owners, Bitmap, WriteEffect;
    if off <= x.st.inodes[i].size {
      WriteEmpty(sb, x.st, i, off);
    }
    assert addr[..0] == [];
  }

  lemma BetweenRun(sb: Superblock, x: Snapshot, y: Snapshot, i: nat, off: nat, addr: seq<byte>, done: nat,
                   h: seq<Snapshot>)
    requires Between(sb, x, y, i, off, addr, done, h)
    ensures ChunkRun(sb, h, i, off, addr) && h[0] == x
  {
    hide Inv, Sized, NoHoles, WriteEffect, ChunkRun;
  }

  /** begin_op starts with nothing logged. */
  lemma BetweenBegin(sb: Superblock, x: Snapshot, y: Snapshot, i: nat, off: nat, addr: seq<byte>, done: nat,
                     h: seq<Snapshot>)
    requires Between(sb, x, y, i, off, addr, done, h)
    ensures
      var y' := y.(logged := {});
      && Between(sb, x, y', i, off, addr, done, h)
      && Inv(sb, y'.st, {}) && Sized(sb, y'.st) && i < sb.ninodes && |y'.dinodes| == |y'.st.inodes| == sb.ninodes
  {
    hide NoHoles, Slots, Owners, Bitmap, WriteEffect, ChunkRun;
  }

  /** One transaction: writei of the next chunk went from y to z. */
  lemma BetweenStep(sb: Superblock, x: Snapshot, y: Snapshot, z: Snapshot, i: nat, off: nat, addr: seq<byte>, done: nat,
                    n: nat, h: seq<Snapshot>)
    requires Between(sb, x, y, i, off, addr, done, h) && y.logged == {}
    requires off <= x.st.inodes[i].size && done < |addr| && n == Min(|addr| - done, CHUNK)
    requires Written(sb, y, z, i, off + done, addr[done..done + n])
    ensures Between(sb, x, z, i, off, addr, done + n, h + [z])
  {
    hide NoHoles, Inv, Sized, WriteEffect, WriteCost, History, Journaled, AllFit;
    HistoryStep(sb, x, y, z, i, off, addr, done, n, h);
    assert addr[..done] + addr[done..done + n] == addr[..done + n];
    EffectSize(sb, x.st, y.st, i, off, addr[..done]);
    EffectSize(sb, y.st, z.st, i, off + done, addr[done..done + n]);
    WriteWrite(sb, x.st, y.st, z.st, i, off, addr[..done], addr[done..done + n]);
    if NoHoles(sb, y.st, i) {
      ChunkLogs(sb, y, z, i, off + done, addr[done..done + n]);
      OneMoreFits(h, z);
    }
  }

  /** What the value writei returned says about the transaction. */
  lemma BetweenReturns(sb: Superblock, x: Snapshot, y: Snapshot, z: Snapshot, i: nat, off: nat, addr: seq<byte>,
                       done: nat,
                       n: nat, h: seq<Snapshot>, value: int)
    requires Between(sb, x, y, i, off, addr, done, h) && y.logged == {}
    requires done < |addr| && n == Min(|addr| - done, CHUNK) && !x.st.inodes[i].kind.Device?
    requires WriteiReturns(sb, y, z, i, off + done, addr[done..done + n], -1, value)
    ensures value < 0 ==> z == y && value == -1 && (off <= x.st.inodes[i].size ==> off + done + n > MAXBYTES)
    ensures value >= 0 ==> value == n && Between(sb, x, z, i, off, addr, done + n, h + [z])
  {
    hide NoHoles, Slots, Owners, Bitmap, WriteEffect, Written, History;
    if off <= x.st.inodes[i].size {
      EffectSize(sb, x.st, y.st, i, off, addr[..done]);
      if value >= 0 {
        BetweenStep(sb, x, y, z, i, off, addr, done, n, h);
      }
    }
  }

  /** begin_op, writei of bytes i..i+n1 at offset off, end_op. */
  method Transaction(fs: FileSystem, ip: nat, off: nat, addr: seq<byte>, i: nat, n1: nat, ghost x: Snapshot,
                     ghost h: seq<Snapshot>) returns (r: Return)
    requires i <= off < UINT && i < |addr| < UINT && n1 == Min(|addr| - i, CHUNK)
    requires Between(fs.sb, x, fs.Snap(), ip, off - i, addr, i, h)
    requires ip < |x.st.inodes| && !x.st.inodes[ip].kind.Device?
    modifies fs
    ensures r.Return? && r.value < 0 ==>
              && Between(fs.sb, x, fs.Snap(), ip, off - i, addr, i, h)
              && (off - i <= x.st.inodes[ip].size ==> off + n1 > MAXBYTES)
    ensures r.Return? && r.value >= 0 ==>
              r.value == n1 && Between(fs.sb, x, fs.Snap(), ip, off - i, addr, i + n1, h + [fs.Snap()])
  {
    hide Inv, Sized, Between, WriteiReturns, WriteiAccepts;
    ghost var y := fs.Snap();
    BetweenBegin(fs.sb, x, y, ip, off - i, addr, i, h);
    fs.logged := {};
    r := Writei(fs, ip, off, addr[i..i + n1], -1);
    if r.Return? {
      BetweenReturns(fs.sb, x, y.(logged := {}), fs.Snap(), ip, off - i, addr, i, n1, h, r.value);
    }
  }

  /** The chunk loop of filewrite. */
  method WriteChunks(f: File, fs: FileSystem, addr: seq<byte>)
      returns (ret: Return, i: nat, ghost h: seq<Snapshot>)
    requires Inv(fs.sb, fs.St(), {}) && f.ip < fs.sb.ninodes && Sized(fs.sb, fs.St()) && |fs.dinodes| == fs.sb.ninodes
    requires |addr| < 0x8000_0000 && f.off < UINT - 0x8000_0000
    requires !fs.inodes[f.ip].kind.Device?
    modifies f, fs
    ensures ChunkRun(fs.sb, h, f.ip, old(f.off), addr) && h[0] == old(fs.Snap())
    ensures ret.Return? ==>
              && i <= |addr|
              && f.off == old(f.off) + i
              && ret.value == (if i == |addr| then |addr| else -1)
              && Between(fs.sb, old(fs.Snap()), fs.Snap(), f.ip, old(f.off), addr, i, h)
              && (i < |addr| && old(f.off) <= old(fs.inodes[f.ip].size) ==>
                    old(f.off) + i + Min(|addr| - i, CHUNK) > MAXBYTES)
  {
    hide Inv, Sized, Between, WriteiReturns, WriteiAccepts, ChunkRun;
    ghost var sb, x := fs.sb, fs.Snap();
    BetweenStart(sb, x, f.ip, f.off, addr);
    i, h := 0, [x];
    assert |h| > 0;
    while i < |addr|
      invariant 0 <= i <= |addr| && f.off == old(f.off) + i
      invariant |h| > 0 && h[0] == x && ChunkRun(sb, h, f.ip, old(f.off), addr)
      invariant Between(sb, x, fs.Snap(), f.ip, old(f.off), addr, i, h)
    {
      var n1 := |addr| - i;
      if n1 > CHUNK {
        n1 := CHUNK;
      }
      var r := Transaction(fs, f.ip, f.off, addr, i, n1, x, h);
      if r.Panic? {
        return Panic, i, h;
      }
      if r.value > 0 {
        f.off := f.off + r.value;
      }
      if r.value < 0 {
        break;
      }
      h := h + [fs.Snap()];
      i := i + r.value;
      BetweenRun(sb, x, fs.Snap(), f.ip, old(f.off), addr, i, h);
    }
    ret := Return(if i == |addr| then |addr| else -1);
  }
}
