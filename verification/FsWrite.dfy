/** writei of src/fs.c: it splices bytes into one file, leaves every other file alone, and logs a
    bounded number of blocks. */
module FsWrite {
  import opened FsCodec
  import opened FsModel
  import opened FsOps
  import opened FsFile
  import opened FsJournal

  /** The state after the first `tot` bytes of `src` have gone into file i at off0. */
  ghost predicate Wrote(sb: Superblock, s: State, t: State, i: nat, off0: nat, src: seq<byte>, tot: nat) {
    && Shape(sb, s) && i < sb.ninodes && tot <= |src| && off0 + |src| <= MAXBYTES
    && Inv(sb, t, {})
    && SameMeta(s, t, i)
    && OthersSame(sb, s, t, i)
    && BytesWrote(sb, s, t, i, off0, src, tot)
    && SlotsKept(sb, s, t, i)
    && SlotsFilled(sb, t, i, off0, off0 + tot)
  }

  ghost predicate BytesWrote(sb: Superblock, s: State, t: State, i: nat, off0: nat, src: seq<byte>, tot: nat)
    requires Shape(sb, s) && Shape(sb, t) && i < sb.ninodes && tot <= |src|
  {
    forall p | 0 <= p < MAXBYTES ::
      ByteAt(sb, t, i, p) == if off0 <= p < off0 + tot then src[p - off0] else ByteAt(sb, s, i, p)
  }

  ghost predicate SlotsKept(sb: Superblock, s: State, t: State, i: nat)
    requires Shape(sb, s) && Shape(sb, t) && i < sb.ninodes
  {
    forall k | 0 <= k < SLOTS && Addr(sb, s, i, k) != 0 :: Addr(sb, t, i, k) == Addr(sb, s, i, k)
  }

  lemma WroteNothing(sb: Superblock, s: State, i: nat, off0: nat, src: seq<byte>)
    requires Inv(sb, s, {}) && i < sb.ninodes && off0 + |src| <= MAXBYTES
    ensures Wrote(sb, s, s, i, off0, src, 0)
  {
    hide Addr, Data, Slots, Owners, Bitmap;
  }

  /** Mapping a block first changes nothing about what has been written. */
  lemma WroteMapped(sb: Superblock, s: State, t: State, t': State, i: nat, off0: nat, src: seq<byte>, tot: nat,
                    bn: nat, a: nat)
    requires Wrote(sb, s, t, i, off0, src, tot) && Mapped(sb, t, t', i, bn, a)
    ensures Wrote(sb, s, t', i, off0, src, tot)
  {
    hide Addr, Data, Slots, Owners, Bitmap;
    forall p | 0 <= p < MAXBYTES ensures ByteAt(sb, t', i, p) == ByteAt(sb, t, i, p) {
      assert 0 <= p / 512 < MAXFILE;
    }
    OthersTrans(sb, s, t, t', i);
  }

  ghost function Patched(d: Block, o: nat, piece: seq<byte>): (r: Block)
    requires |d| == BSIZE && o + |piece| <= BSIZE
    ensures |r| == BSIZE
  {
    d[..o] + piece + d[o + |piece|..]
  }

  /** Copying `piece` into block a at byte o. */
  ghost function Poked(sb: Superblock, t: State, a: nat, o: nat, piece: seq<byte>): (t': State)
    requires Shape(sb, t) && a < sb.size && o + |piece| <= BSIZE
    ensures Shape(sb, t') && t'.inodes == t.inodes
  {
    WriteBlock(sb, t, a, Patched(t.blocks[a], o, piece))
  }

  /** Copying one piece into a mapped block. */
  lemma WrotePiece(sb: Superblock, s: State, t: State, i: nat, off0: nat, src: seq<byte>, tot: nat,
                   bn: nat, o: nat, piece: seq<byte>, a: nat)
    requires Shape(sb, t) && i < sb.ninodes && bn < MAXFILE && a < sb.size && o + |piece| <= BSIZE
    requires Addr(sb, t, i, SlotOf(bn)) == a != 0 && At(off0 + tot, bn, o)
    requires 0 < |piece| && tot + |piece| <= |src| && piece == src[tot..tot + |piece|]
    requires Wrote(sb, s, t, i, off0, src, tot)
    ensures Wrote(sb, s, Poked(sb, t, a, o, piece), i, off0, src, tot + |piece|)
  {
    hide Patched, Addr, Data, Slots, Owners, Bitmap, WriteBlock, BytesWrote, OthersSame, SlotsKept, SlotsFilled;
    OwnedData(sb, t, i, bn);
    WriteBlockKeeps(sb, t, {}, i, bn, Patched(t.blocks[a], o, piece));
    var t' := Poked(sb, t, a, o, piece);
    PieceBytes(sb, s, t, t', i, off0, src, tot, |piece|);
    PieceRest(sb, s, t, t', i, off0, src, tot, |piece|);
  }

  lemma OwnedData(sb: Superblock, t: State, i: nat, bn: nat)
    requires Inv(sb, t, {}) && i < sb.ninodes && bn < MAXFILE && Addr(sb, t, i, SlotOf(bn)) != 0
    ensures Addr(sb, t, i, SlotOf(bn)) < sb.size && Data(sb, t, i, bn) == t.blocks[Addr(sb, t, i, SlotOf(bn))]
  {
  }

  lemma PieceRest(sb: Superblock, s: State, t: State, t': State, i: nat, off0: nat, src: seq<byte>, tot: nat, m: nat)
    requires Wrote(sb, s, t, i, off0, src, tot) && Shape(sb, t') && SameAddrs(sb, t, t') && 0 < m
    requires (off0 + tot) % 512 + m <= BSIZE && tot + m <= |src|
    requires (off0 + tot) / 512 < MAXFILE && Addr(sb, t, i, SlotOf((off0 + tot) / 512)) != 0
    requires forall i', bn | 0 <= i' < sb.ninodes && i' != i && 0 <= bn < MAXFILE ::
               Data(sb, t', i', bn) == Data(sb, t, i', bn)
    ensures OthersSame(sb, s, t', i) && SlotsKept(sb, s, t', i) && SlotsFilled(sb, t', i, off0, off0 + tot + m)
  {
    hide Addr, Data, Slots, Owners, Bitmap, BytesWrote;
    assert OthersSame(sb, t, t', i);
    OthersTrans(sb, s, t, t', i);
  }

  lemma PieceBytes(sb: Superblock, s: State, t: State, t': State, i: nat, off0: nat, src: seq<byte>, tot: nat, m: nat)
    requires Shape(sb, s) && Shape(sb, t) && Shape(sb, t') && i < sb.ninodes && tot + m <= |src|
    requires off0 + |src| <= MAXBYTES && 0 < m && (off0 + tot) % 512 + m <= BSIZE
    requires BytesWrote(sb, s, t, i, off0, src, tot)
    requires
      var off := off0 + tot;
      forall bn | 0 <= bn < MAXFILE ::
        Data(sb, t', i, bn) ==
        if bn == off / 512 then Patched(Data(sb, t, i, bn), off % 512, src[tot..tot + m])
        else Data(sb, t, i, bn)
    ensures BytesWrote(sb, s, t', i, off0, src, tot + m)
  {
    hide Data;
    var off := off0 + tot;
    forall p | 0 <= p < MAXBYTES
      ensures ByteAt(sb, t', i, p) == if off <= p < off + m then src[p - off0] else ByteAt(sb, t, i, p)
    {
      assert 0 <= p / 512 < MAXFILE;
      if off <= p < off + m {
        assert p / 512 == off / 512 && p % 512 == off % 512 + (p - off);
      } else if p / 512 == off / 512 {
        assert p % 512 < off % 512 || p % 512 >= off % 512 + m;
      }
    }
  }

  // ----- how many blocks a write logs -----

  /** File blocks that the bytes off0..off lie in. */
  function Touched(off0: nat, off: nat): nat
    requires off0 <= off
  {
    if off == off0 then 0 else (off - 1) / 512 - off0 / 512 + 1
  }

  /** Those among them that start at or past the end of a file of the given size. */
  function Fresh(size: nat, off0: nat, off: nat): nat
    requires off0 <= off
  {
    var first := if off0 / 512 * 512 >= size then off0 / 512 else (size + BSIZE - 1) / 512;
    if off == off0 || (off - 1) / 512 < first then 0 else (off - 1) / 512 - first + 1
  }

  /** The indirect block, and the bitmap block of a new one. */
  ghost function IndirectCost(s: State, t: State, i: nat, logged: set<nat>): nat
    requires i < |s.inodes| == |t.inodes| && |s.inodes[i].addrs| == |t.inodes[i].addrs| == NDIRECT + 1
  {
    var ind := t.inodes[i].addrs[NDIRECT];
    (if s.inodes[i].addrs[NDIRECT] == 0 && ind != 0 then 1 else 0) + (if ind != 0 && ind in logged then 1 else 0)
  }

  ghost predicate Cheap(sb: Superblock, s: State, t: State, i: nat, off0: nat, off: nat, base: nat, logged: set<nat>)
    requires Shape(sb, s) && Shape(sb, t) && i < sb.ninodes && off0 <= off
  {
    NoHoles(sb, s, i) ==>
      |logged| <= base + Touched(off0, off) + Fresh(s.inodes[i].size, off0, off) + IndirectCost(s, t, i, logged)
  }

  lemma AddOne(a: set<nat>, x: nat)
    ensures |a + {x}| <= |a| + 1
    ensures x in a ==> a + {x} == a
  {
    if x !in a {
      assert |a + {x}| == |a| + 1;
    }
  }

  /** The next block is touched once, and it is new only if it lies past the old end. */
  lemma NextBlock(size: nat, off0: nat, off: nat, m: nat)
    requires off0 <= off && 0 < m && off % 512 + m <= BSIZE && (off == off0 || off % 512 == 0)
    ensures Touched(off0, off + m) == Touched(off0, off) + 1
    ensures Fresh(size, off0, off + m) ==
            Fresh(size, off0, off) + if off / 512 * 512 >= size then 1 else 0
  {
  }

  /** What the next block adds to the log, when bmap found it missing. */
  lemma NewBlockLog(sb: Superblock, s: State, t: State, t': State, i: nat, bn: nat, a: nat, logged: set<nat>)
    requires Shape(sb, s) && Shape(sb, t) && i < sb.ninodes && SlotsKept(sb, s, t, i)
    requires Mapped(sb, t, t', i, bn, a) && Addr(sb, t, i, SlotOf(bn)) == 0
    ensures
      var ind := t'.inodes[i].addrs[NDIRECT];
      var after := logged + MapLog(sb, t, i, bn, a, ind) + {a};
      |after| + IndirectCost(s, t, i, logged) <= |logged| + 2 + IndirectCost(s, t', i, after)
  {
    hide Addr, Data, Slots, Owners, Bitmap, Mapped, SlotsKept;
    IndirectAfter(sb, s, t, t', i, bn, a);
    var ind := t'.inodes[i].addrs[NDIRECT];
    var after := logged + MapLog(sb, t, i, bn, a, ind) + {a};
    LogSizes(logged, sb.BBlock(a), a, ind, sb.BBlock(ind));
    if bn < NDIRECT {
      assert after == logged + {sb.BBlock(a), a};
    } else if t.inodes[i].addrs[NDIRECT] != 0 {
      assert after == logged + {sb.BBlock(a), a} + {ind};
    } else {
      assert after == logged + {sb.BBlock(a), a} + {ind, sb.BBlock(ind)};
    }
  }

  lemma IndirectAfter(sb: Superblock, s: State, t: State, t': State, i: nat, bn: nat, a: nat)
    requires Shape(sb, s) && Shape(sb, t) && i < sb.ninodes && SlotsKept(sb, s, t, i)
    requires Mapped(sb, t, t', i, bn, a)
    ensures
      var was, ind := t.inodes[i].addrs[NDIRECT], t'.inodes[i].addrs[NDIRECT];
      && Shape(sb, t')
      && bn < MAXFILE
      && (bn < NDIRECT ==> ind == was)
      && (bn >= NDIRECT ==> ind != 0)
      && (was != 0 ==> ind == was)
      && (was == 0 ==> s.inodes[i].addrs[NDIRECT] == 0)
  {
    assert Addr(sb, t, i, NDIRECT) == t.inodes[i].addrs[NDIRECT];
    assert Addr(sb, t', i, NDIRECT) == t'.inodes[i].addrs[NDIRECT];
    assert Addr(sb, s, i, NDIRECT) == s.inodes[i].addrs[NDIRECT];
    assert bn >= NDIRECT ==> t'.inodes[i].addrs[NDIRECT] != 0;
    hide Addr, Data, Slots, Owners, Bitmap;
  }

  lemma LogSizes(l: set<nat>, x: nat, a: nat, ind: nat, y: nat)
    ensures |l + {x, a}| <= |l| + 2
    ensures |l + {x, a} + {ind}| <= |l| + 2 + if ind in l then 0 else 1
    ensures |l + {x, a} + {ind, y}| <= |l| + 4
  {
    AddOne(l, x);
    AddOne(l + {x}, a);
    assert l + {x, a} == l + {x} + {a};
    AddOne(l + {x, a}, ind);
    AddOne(l + {x, a} + {ind}, y);
    assert l + {x, a} + {ind, y} == l + {x, a} + {ind} + {y};
  }

  lemma CheapStep(sb: Superblock, s: State, t: State, t': State, i: nat, off0: nat, off: nat, m: nat, a: nat,
                  base: nat, logged: set<nat>)
    requires Shape(sb, s) && Shape(sb, t) && i < sb.ninodes && off0 <= off && 0 < m
    requires off % 512 + m <= BSIZE && (off == off0 || off % 512 == 0)
    requires SlotsKept(sb, s, t, i) && Mapped(sb, t, t', i, off / 512, a)
    requires Addr(sb, t, i, SlotOf(off / 512)) != 0 ==> t' == t
    requires Cheap(sb, s, t, i, off0, off, base, logged)
    ensures
      var after := logged + MapLog(sb, t, i, off / 512, a, t'.inodes[i].addrs[NDIRECT]) + {a};
      Cheap(sb, s, t', i, off0, off + m, base, after)
  {
    var bn := off / 512;
    var size := s.inodes[i].size;
    NextBlock(size, off0, off, m);
    if Addr(sb, t, i, SlotOf(bn)) == 0 {
      assert Addr(sb, s, i, SlotOf(bn)) == 0;
      NewBlockLog(sb, s, t, t', i, bn, a, logged);
      assert NoHoles(sb, s, i) ==> bn * 512 >= size;
      hide Touched, Fresh, IndirectCost, MapLog, Addr, NoHoles, Mapped, SlotsKept;
    } else {
      assert logged + MapLog(sb, t, i, bn, a, t'.inodes[i].addrs[NDIRECT]) + {a} == logged + {a};
      AddOne(logged, a);
      hide Touched, Fresh, MapLog, Addr, NoHoles, Mapped, SlotsKept;
    }
  }

  /** An upper bound on the distinct blocks one writei logs: data, bitmap, indirect, inode. */
  function WriteCost(size: nat, off: nat, n: nat): nat {
    if n == 0 then 0 else Touched(off, off + n) + Fresh(size, off, off + n) + 3
  }

  /** A chunk of filewrite never logs more than MAXOPBLOCKS, whatever the bitmap looks like, and
      the bound is met by an unaligned append of three blocks. */
  lemma ChunkFits(size: nat, off: nat, n: nat)
    requires off <= size && n <= 1536
    ensures WriteCost(size, off, n) <= 10
    ensures size == off && off % 512 != 0 && n == 1536 ==> WriteCost(size, off, n) == 10
  {
  }

  // ----- the whole write -----

  function Splice(c: seq<byte>, off: nat, src: seq<byte>): (r: seq<byte>)
    requires off <= |c|
  {
    c[..off] + src + if off + |src| <= |c| then c[off + |src|..] else []
  }

  /** The bytes of `src` are now in file i at `off`, its size is the larger of the old one and
      the end of the write, and no other file changed. */
  ghost predicate WriteEffect(sb: Superblock, s: State, t: State, i: nat, off: nat, src: seq<byte>) {
    && Shape(sb, s) && Sized(sb, s) && i < sb.ninodes && off <= s.inodes[i].size
    && Inv(sb, t, {}) && Sized(sb, t)
    && Content(sb, t, i) == Splice(Content(sb, s, i), off, src)
    && t.inodes[i].kind == s.inodes[i].kind
    && (forall j | 0 <= j < sb.ninodes && j != i ::
          Content(sb, t, j) == Content(sb, s, j) && t.inodes[j] == s.inodes[j])
    && (NoHoles(sb, s, i) ==> NoHoles(sb, t, i))
  }

  /** Reading back what was just written returns it. */
  lemma ReadBack(sb: Superblock, s: State, t: State, i: nat, off: nat, src: seq<byte>)
    requires WriteEffect(sb, s, t, i, off, src)
    ensures off + |src| <= |Content(sb, t, i)| && Content(sb, t, i)[off..off + |src|] == src
    ensures |Content(sb, t, i)| == if off + |src| > |Content(sb, s, i)| then off + |src| else |Content(sb, s, i)|
  {
    hide Content, NoHoles, Inv;
  }

  /** The state when writei returns: grown if the write went past the end. */
  ghost function Extended(sb: Superblock, t: State, i: nat, end: nat): (t': State)
    requires Shape(sb, t) && i < sb.ninodes
    ensures Shape(sb, t')
  {
    if end > t.inodes[i].size then Resize(sb, t, i, end) else t
  }

  lemma ExtendedKeeps(sb: Superblock, t: State, i: nat, end: nat)
    requires Inv(sb, t, {}) && i < sb.ninodes
    ensures
      var t' := Extended(sb, t, i, end);
      Inv(sb, t', {}) && SameAddrs(sb, t, t') && SameData(sb, t, t')
  {
    ResizeKeeps(sb, t, {}, i, end);
    hide Addr, Data, Slots, Owners, Bitmap;
  }

  lemma SplicedContent(sb: Superblock, s: State, t: State, t': State, i: nat, off: nat, src: seq<byte>)
    requires Shape(sb, s) && Shape(sb, t) && Shape(sb, t') && Sized(sb, s) && Sized(sb, t') && i < sb.ninodes
    requires off <= s.inodes[i].size && off + |src| <= MAXBYTES
    requires BytesWrote(sb, s, t, i, off, src, |src|) && SameData(sb, t, t')
    requires t'.inodes[i].size == if off + |src| > s.inodes[i].size then off + |src| else s.inodes[i].size
    ensures Content(sb, t', i) == Splice(Content(sb, s, i), off, src)
  {
    hide Data, Shape;
    var got, want := Content(sb, t', i), Splice(Content(sb, s, i), off, src);
    assert |got| == |want|;
    forall p | 0 <= p < |got| ensures got[p] == want[p] {
      assert 0 <= p / 512 < MAXFILE;
      assert ByteAt(sb, t', i, p) == ByteAt(sb, t, i, p);
    }
  }

  lemma WriteDone(sb: Superblock, s: State, t: State, i: nat, off: nat, src: seq<byte>)
    requires Wrote(sb, s, t, i, off, src, |src|) && Sized(sb, s) && off <= s.inodes[i].size
    ensures WriteEffect(sb, s, Extended(sb, t, i, off + |src|), i, off, src)
  {
    hide Addr, Data, Slots, Owners, Bitmap, BytesWrote, Content;
    var t' := Extended(sb, t, i, off + |src|);
    ExtendedKeeps(sb, t, i, off + |src|);
    assert Sized(sb, t');
    SplicedContent(sb, s, t, t', i, off, src);
    forall j | 0 <= j < sb.ninodes && j != i ensures Content(sb, t', j) == Content(sb, s, j) {
      OtherContent(sb, s, t, t', i, j);
    }
    NoHolesAfter(sb, s, t, t', i, off, src);
  }

  lemma OtherContent(sb: Superblock, s: State, t: State, t': State, i: nat, j: nat)
    requires OthersSame(sb, s, t, i) && Shape(sb, t') && SameData(sb, t, t')
    requires i != j && j < sb.ninodes && Sized(sb, s) && Sized(sb, t') && t'.inodes[j] == s.inodes[j]
    ensures Content(sb, t', j) == Content(sb, s, j)
  {
    hide Data;
    SameBytes(sb, s, t', j, 0, s.inodes[j].size);
  }

  lemma NoHolesAfter(sb: Superblock, s: State, t: State, t': State, i: nat, off: nat, src: seq<byte>)
    requires Wrote(sb, s, t, i, off, src, |src|) && off <= s.inodes[i].size
    requires Shape(sb, t') && SameAddrs(sb, t, t')
    requires t'.inodes[i].size == if off + |src| > s.inodes[i].size then off + |src| else s.inodes[i].size
    ensures NoHoles(sb, s, i) ==> NoHoles(sb, t', i)
  {
    hide Addr, Data, Slots, Owners, Bitmap, BytesWrote;
    if NoHoles(sb, s, i) {
      forall bn | 0 <= bn < MAXFILE && bn * 512 < t'.inodes[i].size ensures Addr(sb, t', i, SlotOf(bn)) != 0 {
        if bn * 512 >= s.inodes[i].size {
          assert off / 512 <= bn;
        } else {
          assert Addr(sb, s, i, SlotOf(bn)) != 0;
        }
        assert Addr(sb, t', i, SlotOf(bn)) == Addr(sb, t, i, SlotOf(bn));
      }
    }
  }

  /** The blocks logged so far, one entry to keep the two measures of a write together. */
  ghost predicate Progress(sb: Superblock, s: State, t: State, i: nat, off0: nat, src: seq<byte>, tot: nat,
                           l0: set<nat>, logged: set<nat>) {
    && Wrote(sb, s, t, i, off0, src, tot)
    && Cheap(sb, s, t, i, off0, off0 + tot, |l0|, logged)
    && Journaled(sb, s, t, i, off0, off0 + tot, l0, logged)
    && (NoHoles(sb, s, i) && off0 + tot <= s.inodes[i].size ==> t.inodes == s.inodes)
  }

  lemma ProgressStart(sb: Superblock, s: State, i: nat, off0: nat, src: seq<byte>, logged: set<nat>)
    requires Inv(sb, s, {}) && i < sb.ninodes && off0 + |src| <= MAXBYTES
    ensures Progress(sb, s, s, i, off0, src, 0, logged, logged)
  {
    WroteNothing(sb, s, i, off0, src);
    JournalStart(sb, s, i, off0, logged);
    hide Addr, Wrote, NoHoles, Slots, Owners, Bitmap, Journaled;
  }

  lemma ProgressGives(sb: Superblock, s: State, t: State, i: nat, off0: nat, src: seq<byte>, tot: nat,
                      l0: set<nat>, logged: set<nat>)
    requires Progress(sb, s, t, i, off0, src, tot, l0, logged)
    ensures Inv(sb, t, {}) && Shape(sb, t) && i < sb.ninodes && |t.blocks| == sb.size
    ensures t.inodes[i].size == s.inodes[i].size
    ensures Shape(sb, s) && SlotsOnly(sb, s, t, i, off0, off0 + tot)
  {
    hide Addr, Data, Slots, Owners, Bitmap, BytesWrote, OthersSame, SlotsKept, SlotsFilled;
  }

  /** One turn of writei's loop: bmap took t to t1, then one piece was copied and logged. */
  lemma ProgressStep(sb: Superblock, s: State, t: State, t1: State, i: nat, off0: nat, src: seq<byte>, tot: nat,
                     bn: nat, o: nat, piece: seq<byte>, a: nat, l0: set<nat>, logged: set<nat>)
    requires Progress(sb, s, t, i, off0, src, tot, l0, logged)
    requires At(off0 + tot, bn, o) && (tot == 0 || o == 0)
    requires Shape(sb, t) && Mapped(sb, t, t1, i, bn, a) && (Addr(sb, t, i, SlotOf(bn)) != 0 ==> t1 == t)
    requires 0 < |piece| && tot + |piece| <= |src| && piece == src[tot..tot + |piece|] && o + |piece| <= BSIZE
    requires Shape(sb, t1) && OnlyLogged(t.blocks, t1.blocks, LoggedWith(sb, t, t1, i, bn, a, logged))
    ensures
      && a < sb.size && Shape(sb, t1)
      && Progress(sb, s, Poked(sb, t1, a, o, piece), i, off0, src, tot + |piece|, l0,
                  LoggedWith(sb, t, t1, i, bn, a, logged))
  {
    hide Addr, Data, Slots, Owners, Bitmap, BytesWrote, OthersSame, SlotsKept, SlotsFilled, NoHoles,
      Touched, Fresh, MapLog, Patched, Poked, Journaled, OnlyLogged;
    var off, m := off0 + tot, |piece|;
    WroteMapped(sb, s, t, t1, i, off0, src, tot, bn, a);
    WrotePiece(sb, s, t1, i, off0, src, tot, bn, o, piece, a);
    CheapStep(sb, s, t, t1, i, off0, off, m, a, |l0|, logged);
    InPlace(sb, s, t, i, off0, tot, off + m);
    PokedAddrs(sb, t1, i, bn, a, o, piece);
    JournalStep(sb, s, t, t1, Poked(sb, t1, a, o, piece), i, off0, off, m, a, l0, logged);
  }

  lemma PokedAddrs(sb: Superblock, t: State, i: nat, bn: nat, a: nat, o: nat, piece: seq<byte>)
    requires Inv(sb, t, {}) && i < sb.ninodes && bn < MAXFILE && Addr(sb, t, i, SlotOf(bn)) == a != 0
    requires a < sb.size && o + |piece| <= BSIZE
    ensures SameAddrs(sb, t, Poked(sb, t, a, o, piece)) && OnlyLogged(t.blocks, Poked(sb, t, a, o, piece).blocks, {a})
  {
    WriteBlockKeeps(sb, t, {}, i, bn, Patched(t.blocks[a], o, piece));
  }

  /** Inside a file without holes, the block about to be written exists. */
  lemma InPlace(sb: Superblock, s: State, t: State, i: nat, off0: nat, tot: nat, end: nat)
    requires Shape(sb, s) && Shape(sb, t) && i < sb.ninodes && SlotsKept(sb, s, t, i)
    requires (off0 + tot) / 512 < MAXFILE && off0 + tot < end
    ensures NoHoles(sb, s, i) && end <= s.inodes[i].size ==> Addr(sb, t, i, SlotOf((off0 + tot) / 512)) != 0
  {
    hide Addr;
    if NoHoles(sb, s, i) && end <= s.inodes[i].size {
      var bn := (off0 + tot) / 512;
      assert bn * 512 < s.inodes[i].size;
      assert Addr(sb, s, i, SlotOf(bn)) != 0;
    }
  }

  // ----- the methods -----

  /** One turn of writei's loop: map the block, copy one piece of src into it, log it. */
  method WritePiece(fs: FileSystem, inum: nat, off0: nat, src: seq<byte>, tot: nat, ghost s: State, ghost l0: set<nat>)
      returns (r: Option<nat>)
    requires Progress(fs.sb, s, fs.St(), inum, off0, src, tot, l0, fs.logged)
    requires tot < |src| && off0 + |src| <= MAXBYTES && (tot == 0 || Aligned(off0 + tot))
    modifies fs`blocks, fs`inodes, fs`owner, fs`logged
    ensures r.Some? ==>
              && tot < r.value <= |src|
              && (r.value == |src| || Aligned(off0 + r.value))
              && Progress(fs.sb, s, fs.St(), inum, off0, src, r.value, l0, fs.logged)
    ensures r.None? ==> Stuck(fs.sb, s, fs.St(), inum, off0, off0 + |src|)
  {
    hide Inv, Mapped, MapLog, Addr, AllUsed, Progress, At, OutOfBlocks, SlotsOnly, Stuck, OnlyLogged, Touches;
    ghost var sb, t, l := fs.sb, fs.St(), fs.logged;
    ProgressGives(sb, s, t, inum, off0, src, tot, l0, l);
    var bn, o, m := Locate(off0 + tot, |src| - tot);
    r := fs.Bmap(inum, bn);
    if r.Some? {
      ghost var t1 := fs.St();
      MappedShape(sb, t, t1, inum, bn, r.value);
      var piece := src[tot..tot + m];
      assert LoggedWith(sb, t, t1, inum, bn, r.value, l) == fs.logged + {r.value};
      LogsMore(t.blocks, t1.blocks, fs.logged, {r.value});
      ProgressStep(sb, s, t, t1, inum, off0, src, tot, bn, o, piece, r.value, l0, l);
      var bp := fs.blocks[r.value];
      bp := bp[..o] + piece + bp[o + m..];
      fs.LogWrite(r.value, bp);
      assert fs.St() == Poked(sb, t1, r.value, o, piece);
      assert fs.logged == LoggedWith(sb, t, t1, inum, bn, r.value, l);
      r := Some(tot + m);
    } else {
      assert bn == (off0 + tot) / 512 by { AtBlock(off0 + tot, bn, o); }
      StuckAt(sb, s, t, fs.St(), inum, off0, off0 + tot, off0 + |src|);
    }
  }

  lemma LogsMore(a: seq<Block>, b: seq<Block>, l: set<nat>, m: set<nat>)
    requires OnlyLogged(a, b, l)
    ensures OnlyLogged(a, b, l + m)
  {
  }

  lemma MappedShape(sb: Superblock, s: State, s': State, i: nat, bn: nat, a: nat)
    requires Mapped(sb, s, s', i, bn, a)
    ensures Shape(sb, s') && 0 < a < sb.size
  {
  }

  /** The copying loop of writei. */
  method WriteBlocks(fs: FileSystem, inum: nat, off0: nat, src: seq<byte>) returns (ret: Return)
    requires Inv(fs.sb, fs.St(), {}) && inum < fs.sb.ninodes && off0 + |src| <= MAXBYTES
    modifies fs`blocks, fs`inodes, fs`owner, fs`logged
    ensures ret.Return? ==>
              && ret.value == |src|
              && Progress(fs.sb, old(fs.St()), fs.St(), inum, off0, src, |src|, old(fs.logged), fs.logged)
    ensures ret.Panic? ==> Stuck(fs.sb, old(fs.St()), fs.St(), inum, off0, off0 + |src|)
    ensures src == [] ==> ret.Return? && fs.logged == old(fs.logged)
  {
    hide Inv, Progress, Stuck, Aligned, Shape;
    ghost var sb, s, l0 := fs.sb, fs.St(), fs.logged;
    ProgressStart(sb, s, inum, off0, src, fs.logged);
    var tot := 0;
    while tot < |src|
      invariant 0 <= tot <= |src|
      invariant tot == 0 || tot == |src| || Aligned(off0 + tot)
      invariant Progress(sb, s, fs.St(), inum, off0, src, tot, l0, fs.logged)
      invariant tot == 0 ==> fs.logged == old(fs.logged)
    {
      var r := WritePiece(fs, inum, off0, src, tot, s, l0);
      if r.None? {
        return Panic;
      }
      tot := r.value;
    }
    ret := Return(|src|);
  }

  /** What a finished loop means for the caller of writei. */
  lemma ProgressDone(sb: Superblock, s: State, t: State, i: nat, off: nat, src: seq<byte>, l0: set<nat>, logged: set<nat>)
    requires Progress(sb, s, t, i, off, src, |src|, l0, logged) && Sized(sb, s) && off <= s.inodes[i].size
    ensures Shape(sb, t) && i < sb.ninodes
    ensures WriteEffect(sb, s, Extended(sb, t, i, off + |src|), i, off, src)
    ensures Journaled(sb, s, t, i, off, off + |src|, l0, logged)
    ensures NoHoles(sb, s, i) ==>
              |logged| <= |l0| + Touched(off, off + |src|) + Fresh(s.inodes[i].size, off, off + |src|) + 2
    ensures NoHoles(sb, s, i) && off + |src| <= s.inodes[i].size ==> t.inodes == s.inodes
  {
    WriteDone(sb, s, t, i, off, src);
    hide WriteEffect, NoHoles, Touched, Fresh, Addr, Slots, Owners, Bitmap, BytesWrote, OthersSame, SlotsKept, SlotsFilled,
      Journaled;
  }

  /** A successful writei: the effect on the files; every block that changed is logged, and the
      stored inode of no other file changed; for a file without holes, the bound on the blocks logged
      and the stored inode kept equal to the one in memory. */
  ghost predicate Written(sb: Superblock, x: Snapshot, y: Snapshot, i: nat, off: nat, src: seq<byte>) {
    && WriteEffect(sb, x.st, y.st, i, off, src)
    && Journaled(sb, x.st, y.st, i, off, off + |src|, x.logged, y.logged)
    && Stored(sb, x, y, i)
    && (src != [] && off + |src| > x.st.inodes[i].size ==> sb.IBlock(i) in y.logged)
    && (NoHoles(sb, x.st, i) ==>
          && |y.logged| <= |x.logged| + WriteCost(x.st.inodes[i].size, off, |src|)
          && (x.dinodes[i] == x.st.inodes[i] ==> y.dinodes[i] == y.st.inodes[i]))
  }

  /** Only the stored inode of file i may have changed, and then its block is logged. */
  ghost predicate Stored(sb: Superblock, x: Snapshot, y: Snapshot, i: nat) {
    && i < |x.dinodes| == |y.dinodes| == sb.ninodes
    && (forall j | 0 <= j < sb.ninodes && j != i :: y.dinodes[j] == x.dinodes[j])
    && (y.dinodes[i] != x.dinodes[i] ==> sb.IBlock(i) in y.logged)
  }

  /** A start past the end, a wrap-around and an end past the largest file are refused. */
  predicate WriteiAccepts(ip: Inode, off: nat, src: seq<byte>) {
    !ip.kind.Device? && off <= ip.size && off + |src| <= MAXBYTES
  }

  /** All that a call of writei from x to y may do and return. */
  ghost predicate WriteiReturns(sb: Superblock, x: Snapshot, y: Snapshot, i: nat, off: nat, src: seq<byte>,
                                device: int, value: int) {
    && i < |x.st.inodes|
    && if WriteiAccepts(x.st.inodes[i], off, src) then value == |src| && Written(sb, x, y, i, off, src)
       else y == x && value == if x.st.inodes[i].kind.Device? then device else -1
  }

  /** The end of writei: a file that grew gets its new size and is stored. */
  ghost function Finished(sb: Superblock, y: Snapshot, i: nat, end: nat, n: nat): Snapshot
    requires i < |y.st.inodes| == |y.dinodes|
  {
    if n > 0 && end > y.st.inodes[i].size then
      var ip := y.st.inodes[i].(size := end);
      Snapshot(y.st.(inodes := y.st.inodes[i := ip]), y.dinodes[i := ip], y.logged + {sb.IBlock(i)})
    else y
  }

  /** The last lines of writei. */
  method Grow(fs: FileSystem, inum: nat, end: nat, n: nat)
    requires inum < |fs.inodes| == |fs.dinodes|
    modifies fs`inodes, fs`dinodes, fs`logged
    ensures fs.Snap() == Finished(fs.sb, old(fs.Snap()), inum, end, n)
  {
    if n > 0 && end > fs.inodes[inum].size {
      fs.inodes := fs.inodes[inum := fs.inodes[inum].(size := end)];
      fs.Iupdate(inum);
    }
  }

  /** Storing the inode with a new size. */
  lemma JournalResize(sb: Superblock, s: State, t: State, i: nat, off: nat, end: nat, l0: set<nat>, logged: set<nat>)
    requires Journaled(sb, s, t, i, off, end, l0, logged)
    ensures
      && i < |t.inodes|
      && var t' := t.(inodes := t.inodes[i := t.inodes[i].(size := end)]);
      Journaled(sb, s, t', i, off, end, l0, logged + {sb.IBlock(i)})
  {
    var t' := t.(inodes := t.inodes[i := t.inodes[i].(size := end)]);
    assert SameAddrs(sb, t, t');
    hide Addr;
  }

  lemma FinishWrite(sb: Superblock, x: Snapshot, y: Snapshot, i: nat, off: nat, src: seq<byte>)
    requires Progress(sb, x.st, y.st, i, off, src, |src|, x.logged, y.logged) && Sized(sb, x.st)
    requires i < sb.ninodes && i < |x.st.inodes| && off <= x.st.inodes[i].size
    requires |y.dinodes| == sb.ninodes && y.dinodes == x.dinodes && |y.st.inodes| == sb.ninodes
    requires y.st.inodes[i].size == x.st.inodes[i].size && (src == [] ==> y.logged == x.logged)
    ensures Written(sb, x, Finished(sb, y, i, off + |src|, |src|), i, off, src)
  {
    hide Inv, Sized, Progress, WriteEffect, NoHoles, Touched, Fresh, Journaled;
    ProgressDone(sb, x.st, y.st, i, off, src, x.logged, y.logged);
    AddOne(y.logged, sb.IBlock(i));
    JournalResize(sb, x.st, y.st, i, off, off + |src|, x.logged, y.logged);
  }

  /** Write `src` at offset off. Refuses a start past the end, a wrap-around and an end past the
      largest file; otherwise splices, in one file only. For a file without holes it also logs at
      most WriteCost blocks and leaves the stored inode equal to the one in memory. */
  method Writei(fs: FileSystem, inum: nat, off: nat, src: seq<byte>, device: int) returns (ret: Return)
    requires Inv(fs.sb, fs.St(), {}) && inum < fs.sb.ninodes && Sized(fs.sb, fs.St()) && |fs.dinodes| == fs.sb.ninodes
    requires off < UINT && |src| < UINT
    modifies fs`blocks, fs`inodes, fs`dinodes, fs`owner, fs`logged
    ensures ret.Return? ==> WriteiReturns(fs.sb, old(fs.Snap()), fs.Snap(), inum, off, src, device, ret.value)
    ensures ret.Panic? ==>
              WriteiAccepts(old(fs.inodes[inum]), off, src) && Stuck(fs.sb, old(fs.St()), fs.St(), inum, off, off + |src|)
  {
    hide Inv, Shape, Sized, Progress, Written, Finished, Stuck, SlotsOnly, Wraps;
    ghost var sb, x := fs.sb, fs.Snap();
    InvShape(sb, x.st, {});
    var ip := fs.inodes[inum];
    var n := |src|;
    if ip.kind.Device? {
      return Return(device);
    }
    if off > ip.size || Wraps(off, n) {
      return Return(-1);
    }
    if off + n > MAXBYTES {
      return Return(-1);
    }
    ret := WriteBlocks(fs, inum, off, src);
    if ret.Return? {
      ghost var y := fs.Snap();
      ProgressGives(sb, x.st, y.st, inum, off, src, n, x.logged, y.logged);
      InvShape(sb, y.st, {});
      FinishWrite(sb, x, y, inum, off, src);
      Grow(fs, inum, off + n, n);
    }
  }
}
