/** The bound on the blocks that a chunk of filewrite logs is met: on a full disk whose last free
    blocks lie far apart, the chunk that crosses into the indirect block logs exactly MAXOPBLOCKS. */
module FsTight {
  import opened FsCodec
  import opened FsModel
  import opened FsOps
  import opened FsFile
  import opened FsJournal
  import opened FsWrite

  /** No two free blocks have the same bitmap block. */
  ghost predicate Spread(sb: Superblock, s: State)
    requires Shape(sb, s)
  {
    forall b, c | sb.datastart <= b < c < sb.size && !Used(sb, s, b) && !Used(sb, s, c) :: sb.BBlock(b) != sb.BBlock(c)
  }

  /** File i ends inside its last direct block and has no indirect block. */
  ghost predicate EndsDirect(sb: Superblock, s: State, i: nat)
    requires Shape(sb, s) && i < sb.ninodes
  {
    && s.inodes[i].size / 512 == 11 && s.inodes[i].size % 512 != 0
    && s.inodes[i].addrs[NDIRECT] == 0 && NoHoles(sb, s, i)
  }

  lemma NewWasFree(sb: Superblock, s: State, t: State, i: nat, k: nat, off: nat, end: nat)
    requires Inv(sb, s, {}) && Inv(sb, t, {}) && SlotsOnly(sb, s, t, i, off, end) && i < sb.ninodes && k < SLOTS
    requires Addr(sb, s, i, k) == 0 && Addr(sb, t, i, k) != 0
    ensures sb.datastart <= Addr(sb, t, i, k) < sb.size && !Used(sb, s, Addr(sb, t, i, k))
  {
    hide Addr, Used;
    var b := Addr(sb, t, i, k);
    assert b in t.owner && t.owner[b] == Slot(i, k);
  }

  lemma SlotsApart(sb: Superblock, t: State, i: nat, k: nat, k': nat)
    requires Inv(sb, t, {}) && i < sb.ninodes && k < SLOTS && k' < SLOTS && k != k' && Addr(sb, t, i, k) != 0
    ensures Addr(sb, t, i, k) != Addr(sb, t, i, k')
  {
    hide Addr, Bitmap, Owners;
  }

  /** The blocks of a file that reaches into its fifteenth block. */
  lemma Reaches(sb: Superblock, t: State, i: nat)
    requires Inv(sb, t, {}) && i < sb.ninodes && NoHoles(sb, t, i) && t.inodes[i].size > 14 * 512
    ensures forall k | 11 <= k <= 15 :: Addr(sb, t, i, k) != 0
  {
    hide Addr, Slots, Owners, Bitmap;
    assert Addr(sb, t, i, SlotOf(11)) != 0 && Addr(sb, t, i, SlotOf(12)) != 0;
    assert Addr(sb, t, i, SlotOf(13)) != 0 && Addr(sb, t, i, SlotOf(14)) != 0;
    NeedsIndirect(sb, t, i, 12);
  }

  lemma NoneBeyond(sb: Superblock, s: State, i: nat)
    requires Shape(sb, s) && i < sb.ninodes && s.inodes[i].addrs[NDIRECT] == 0
    ensures forall k | 12 <= k <= 15 :: Addr(sb, s, i, k) == 0
  {
  }

  predicate FourDistinct(a: nat, b: nat, c: nat, d: nat) {
    a != b && a != c && a != d && b != c && b != d && c != d
  }

  lemma DisjointCard(a: set<nat>, b: set<nat>, m: nat)
    requires (forall x | x in a :: x >= m) && (forall x | x in b :: x < m)
    ensures |a + b| == |a| + |b|
  {
    assert a !! b;
  }

  lemma NoLarger(a: set<nat>, b: set<nat>)
    requires a <= b
    ensures |a| <= |b|
  {
    assert b == a + (b - a);
  }

  /** Five data blocks, four bitmap blocks and an inode block, in three areas. */
  lemma TenNumbers(l: set<nat>, a0: nat, b0: nat, b1: nat, b2: nat, b3: nat, m0: nat, m1: nat, m2: nat, m3: nat, ib: nat,
                   hi: nat, lo: nat)
    requires FourDistinct(b0, b1, b2, b3) && a0 !in {b0, b1, b2, b3} && FourDistinct(m0, m1, m2, m3)
    requires a0 >= hi && b0 >= hi && b1 >= hi && b2 >= hi && b3 >= hi > lo > ib
    requires lo <= m0 < hi && lo <= m1 < hi && lo <= m2 < hi && lo <= m3 < hi
    requires {a0, b0, b1, b2, b3} <= l && {m0, m1, m2, m3} <= l && ib in l
    ensures |l| >= 10
  {
    var data, maps := {a0, b0, b1, b2, b3}, {m0, m1, m2, m3};
    assert |data| == 5 && |maps| == 4;
    DisjointCard(data, maps, hi);
    DisjointCard(data + maps, {ib}, lo);
    NoLarger(data + maps + {ib}, l);
  }

  /** The new blocks of that chunk, by slot: all logged, free before, with bitmap blocks of their own. */
  lemma NewBlock(sb: Superblock, x: Snapshot, y: Snapshot, i: nat, off: nat, src: seq<byte>, k: nat)
    requires Inv(sb, x.st, {}) && i < sb.ninodes && EndsDirect(sb, x.st, i)
    requires Written(sb, x, y, i, off, src) && off == x.st.inodes[i].size && |src| == 1536 && 12 <= k <= 15
    ensures Inv(sb, y.st, {})
    ensures
      var b := Addr(sb, y.st, i, k);
      && b in y.logged && sb.BBlock(b) in y.logged
      && sb.bmapstart <= sb.BBlock(b) < sb.datastart <= b < sb.size && !Used(sb, x.st, b)
  {
    hide Addr, Used, Content, Slots, Owners, Bitmap, OnlyLogged, InArea, DataLogged;
    EffectSizes(sb, x, y, i, off, src);
    Reaches(sb, y.st, i);
    NoneBeyond(sb, x.st, i);
    NewWasFree(sb, x.st, y.st, i, k, off, off + 1536);
  }

  lemma EffectSizes(sb: Superblock, x: Snapshot, y: Snapshot, i: nat, off: nat, src: seq<byte>)
    requires Written(sb, x, y, i, off, src) && off == x.st.inodes[i].size && NoHoles(sb, x.st, i)
    ensures Inv(sb, y.st, {}) && NoHoles(sb, y.st, i) && y.st.inodes[i].size == off + |src|
  {
    hide NoHoles, Bytes, Journaled, Slots, Owners, Bitmap, Stored, WriteCost;
    assert |Content(sb, y.st, i)| == off + |src|;
  }

  lemma AtMostTen(sb: Superblock, x: Snapshot, y: Snapshot, i: nat, off: nat, src: seq<byte>)
    requires i < |x.st.inodes| && x.logged == {}
    requires Written(sb, x, y, i, off, src) && NoHoles(sb, x.st, i) && off == x.st.inodes[i].size && |src| == 1536
    ensures |y.logged| <= 10
  {
    hide NoHoles, WriteEffect, Journaled, Stored, WriteCost;
    ChunkFits(x.st.inodes[i].size, off, 1536);
  }

  /** On a disk whose free blocks are spread, that chunk logs exactly ten blocks. */
  lemma TightChunk(sb: Superblock, x: Snapshot, y: Snapshot, i: nat, off: nat, src: seq<byte>)
    requires Inv(sb, x.st, {}) && i < sb.ninodes && EndsDirect(sb, x.st, i) && Spread(sb, x.st) && x.logged == {}
    requires Written(sb, x, y, i, off, src) && off == x.st.inodes[i].size && |src| == 1536
    ensures |y.logged| == 10
  {
    hide Slots, Owners, Bitmap, NoHoles, Spread, Written, Addr, Used;
    AtMostTen(sb, x, y, i, off, src);
    LastDirect(sb, x, y, i, off, src);
    forall k | 12 <= k <= 15
      ensures
        var b := Addr(sb, y.st, i, k);
        && b in y.logged && sb.BBlock(b) in y.logged
        && sb.bmapstart <= sb.BBlock(b) < sb.datastart <= b < sb.size && !Used(sb, x.st, b)
    {
      NewBlock(sb, x, y, i, off, src, k);
    }
    FourApart(sb, x.st, y.st, i);
    var a0, b0, b1, b2, b3 := Addr(sb, y.st, i, 11), Addr(sb, y.st, i, 12), Addr(sb, y.st, i, 13),
      Addr(sb, y.st, i, 14), Addr(sb, y.st, i, 15);
    TenNumbers(y.logged, a0, b0, b1, b2, b3, sb.BBlock(b0), sb.BBlock(b1), sb.BBlock(b2), sb.BBlock(b3), sb.IBlock(i),
               sb.datastart, sb.bmapstart);
  }

  lemma LastDirect(sb: Superblock, x: Snapshot, y: Snapshot, i: nat, off: nat, src: seq<byte>)
    requires Inv(sb, x.st, {}) && i < sb.ninodes && EndsDirect(sb, x.st, i)
    requires Written(sb, x, y, i, off, src) && off == x.st.inodes[i].size && |src| == 1536
    ensures Inv(sb, y.st, {}) && Addr(sb, y.st, i, 11) in y.logged
    ensures sb.datastart <= Addr(sb, y.st, i, 11) < sb.size
    ensures sb.IBlock(i) in y.logged && sb.IBlock(i) < sb.bmapstart < sb.datastart
  {
    hide Addr, Content, Bitmap, OnlyLogged, InArea, NewLogged, SlotsOnly;
    EffectSizes(sb, x, y, i, off, src);
    Reaches(sb, y.st, i);
    assert Touches(off, off + 1536, 11);
    assert Addr(sb, y.st, i, SlotOf(11)) in y.logged;
    SlotArea(sb, y.st, i, 11);
  }

  lemma FourApart(sb: Superblock, s: State, t: State, i: nat)
    requires Shape(sb, s) && Inv(sb, t, {}) && i < sb.ninodes && Spread(sb, s) && Addr(sb, t, i, 11) >= sb.datastart
    requires forall k | 12 <= k <= 15 ::
      sb.datastart <= Addr(sb, t, i, k) < sb.size && !Used(sb, s, Addr(sb, t, i, k))
    ensures
      var b0, b1, b2, b3 := Addr(sb, t, i, 12), Addr(sb, t, i, 13), Addr(sb, t, i, 14), Addr(sb, t, i, 15);
      && FourDistinct(b0, b1, b2, b3) && Addr(sb, t, i, 11) !in {b0, b1, b2, b3}
      && FourDistinct(sb.BBlock(b0), sb.BBlock(b1), sb.BBlock(b2), sb.BBlock(b3))
  {
    hide Addr, Used;
    forall k, k' | 11 <= k < k' <= 15 ensures Addr(sb, t, i, k) != Addr(sb, t, i, k') {
      SlotsApart(sb, t, i, k, k');
    }
    forall k, k' | 12 <= k < k' <= 15 ensures sb.BBlock(Addr(sb, t, i, k)) != sb.BBlock(Addr(sb, t, i, k')) {
      var b, c := Addr(sb, t, i, k), Addr(sb, t, i, k');
      assert b < c || c < b;
    }
  }

  // ----- the chunk does go through -----

  ghost predicate FreeData(sb: Superblock, s: State, f: nat)
    requires Shape(sb, s)
  {
    sb.datastart <= f < sb.size && !Used(sb, s, f)
  }

  /** Where a block that was free and is in use now went. */
  lemma WentTo(sb: Superblock, s: State, t: State, i: nat, f: nat) returns (k: nat)
    requires Inv(sb, s, {}) && i < sb.ninodes && EndsDirect(sb, s, i) && FreeData(sb, s, f)
    requires Inv(sb, t, {}) && SlotsOnly(sb, s, t, i, s.inodes[i].size, s.inodes[i].size + 1536) && Used(sb, t, f)
    ensures 12 <= k <= 15 && Addr(sb, t, i, k) == f
  {
    hide Addr, Used;
    var o := t.owner[f];
    k := o.k;
    assert Addr(sb, t, o.inum, k) == f;
    assert Addr(sb, s, o.inum, k) != f;
    assert Addr(sb, s, i, SlotOf(11)) != 0;
  }

  /** With four blocks free, that chunk does not run out of blocks. */
  lemma NotStuck(sb: Superblock, s: State, t: State, i: nat, f0: nat, f1: nat, f2: nat, f3: nat)
    requires Inv(sb, s, {}) && i < sb.ninodes && EndsDirect(sb, s, i) && FourDistinct(f0, f1, f2, f3)
    requires FreeData(sb, s, f0) && FreeData(sb, s, f1) && FreeData(sb, s, f2) && FreeData(sb, s, f3)
    ensures !Stuck(sb, s, t, i, s.inodes[i].size, s.inodes[i].size + 1536)
  {
    hide Slots, Owners, Bitmap, Addr, Used, NoHoles, SlotsOnly;
    var off := s.inodes[i].size;
    if Inv(sb, t, {}) && AllUsed(sb, t, sb.size) && SlotsOnly(sb, s, t, i, off, off + 1536) {
      var k0 := WentTo(sb, s, t, i, f0);
      var k1 := WentTo(sb, s, t, i, f1);
      var k2 := WentTo(sb, s, t, i, f2);
      var k3 := WentTo(sb, s, t, i, f3);
      AllFilled(sb, s, t, i, k0, k1, k2, k3);
    }
  }

  lemma FourOfFour(k0: nat, k1: nat, k2: nat, k3: nat, k: nat)
    requires 12 <= k0 <= 15 && 12 <= k1 <= 15 && 12 <= k2 <= 15 && 12 <= k3 <= 15 && FourDistinct(k0, k1, k2, k3)
    requires 12 <= k <= 15
    ensures k == k0 || k == k1 || k == k2 || k == k3
  {
  }

  ghost predicate FilledAt(sb: Superblock, t: State, i: nat, k: nat)
    requires Shape(sb, t) && i < sb.ninodes
  {
    12 <= k <= 15 && Addr(sb, t, i, k) != 0
  }

  lemma AllFilled(sb: Superblock, s: State, t: State, i: nat, k0: nat, k1: nat, k2: nat, k3: nat)
    requires Shape(sb, s) && Shape(sb, t) && i < sb.ninodes && EndsDirect(sb, s, i)
    requires SlotsOnly(sb, s, t, i, s.inodes[i].size, s.inodes[i].size + 1536)
    requires FilledAt(sb, t, i, k0) && FilledAt(sb, t, i, k1) && FilledAt(sb, t, i, k2) && FilledAt(sb, t, i, k3)
    requires FourDistinct(k0, k1, k2, k3)
    ensures forall bn | 0 <= bn < MAXFILE && Touches(s.inodes[i].size, s.inodes[i].size + 1536, bn) ::
      Addr(sb, t, i, SlotOf(bn)) != 0
  {
    hide Addr;
    assert Addr(sb, s, i, SlotOf(11)) != 0;
    forall bn | 0 <= bn < MAXFILE && Touches(s.inodes[i].size, s.inodes[i].size + 1536, bn)
      ensures Addr(sb, t, i, SlotOf(bn)) != 0
    {
      if bn != 11 {
        FourOfFour(k0, k1, k2, k3, SlotOf(bn));
      }
    }
  }
}
