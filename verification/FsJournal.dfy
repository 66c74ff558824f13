/** What a write gives to the log: every block it changes, and which slots it may fill. */
module FsJournal {
  import opened FsCodec
  import opened FsModel
  import opened FsOps

  /** Bytes off0..off of a file reach into its block bn. */
  predicate Touches(off0: nat, off: nat, bn: nat) {
    off0 < off && off0 / 512 <= bn && bn * 512 < off
  }

  /** The slots that writing bytes off0..off may fill: those of the blocks, and the indirect block. */
  predicate MayFill(off0: nat, off: nat, k: nat) {
    k == NDIRECT || (k < NDIRECT && Touches(off0, off, k)) || (k > NDIRECT && Touches(off0, off, k - 1))
  }

  ghost predicate SlotsOnly(sb: Superblock, s: State, t: State, i: nat, off0: nat, off: nat)
    requires Shape(sb, s) && Shape(sb, t)
  {
    forall j, k | 0 <= j < sb.ninodes && 0 <= k < SLOTS ::
      Addr(sb, t, j, k) == Addr(sb, s, j, k) || (j == i && Addr(sb, s, j, k) == 0 && MayFill(off0, off, k))
  }

  ghost predicate DataLogged(sb: Superblock, t: State, i: nat, off0: nat, off: nat, logged: set<nat>)
    requires Shape(sb, t) && i < sb.ninodes
  {
    forall bn | 0 <= bn < MAXFILE && Touches(off0, off, bn) :: Addr(sb, t, i, SlotOf(bn)) in logged
  }

  /** A new block is logged, as it was zeroed, and so is its bitmap block. */
  ghost predicate NewLogged(sb: Superblock, s: State, t: State, i: nat, logged: set<nat>)
    requires Shape(sb, s) && Shape(sb, t) && i < sb.ninodes
  {
    forall k | 0 <= k < SLOTS && Addr(sb, s, i, k) == 0 && Addr(sb, t, i, k) != 0 ::
      Addr(sb, t, i, k) in logged && sb.BBlock(Addr(sb, t, i, k)) in logged
  }

  /** Nothing before the inode blocks is logged. */
  ghost predicate InArea(sb: Superblock, l0: set<nat>, logged: set<nat>) {
    forall b | b in logged && b !in l0 :: sb.inodestart <= b < sb.size
  }

  /** From state s with l0 logged, bytes off0..off of file i have been written. */
  ghost predicate Journaled(sb: Superblock, s: State, t: State, i: nat, off0: nat, off: nat, l0: set<nat>,
                            logged: set<nat>) {
    && Shape(sb, s) && Shape(sb, t) && i < sb.ninodes
    && SlotsOnly(sb, s, t, i, off0, off)
    && DataLogged(sb, t, i, off0, off, logged)
    && NewLogged(sb, s, t, i, logged)
    && InArea(sb, l0, logged) && l0 <= logged
    && OnlyLogged(s.blocks, t.blocks, logged)
  }

  lemma JournalStart(sb: Superblock, s: State, i: nat, off: nat, l: set<nat>)
    requires Shape(sb, s) && i < sb.ninodes
    ensures Journaled(sb, s, s, i, off, off, l, l)
  {
    hide Addr;
  }

  /** Writing on can only widen what is touched. */
  lemma TouchesMore(off0: nat, off: nat, m: nat, bn: nat)
    requires off0 <= off && 0 < m && off % 512 + m <= 512
    ensures Touches(off0, off + m, bn) <==> Touches(off0, off, bn) || bn == off / 512
  {
  }

  /** The log after bmap and the log_write of the data block. */
  ghost function LoggedWith(sb: Superblock, t: State, t1: State, i: nat, bn: nat, a: nat, logged: set<nat>): set<nat>
    requires Shape(sb, t) && Shape(sb, t1) && i < sb.ninodes && bn < MAXFILE
  {
    logged + MapLog(sb, t, i, bn, a, t1.inodes[i].addrs[NDIRECT]) + {a}
  }

  /** What bmap did to the slots of the file. */
  lemma MappedNew(sb: Superblock, t: State, t1: State, i: nat, bn: nat, a: nat, k: nat)
    requires Mapped(sb, t, t1, i, bn, a) && (Addr(sb, t, i, SlotOf(bn)) != 0 ==> t1 == t)
    requires k < SLOTS && Addr(sb, t1, i, k) != Addr(sb, t, i, k)
    ensures Shape(sb, t1) && Addr(sb, t, i, k) == 0
    ensures
      var l := MapLog(sb, t, i, bn, a, t1.inodes[i].addrs[NDIRECT]);
      && (k == SlotOf(bn) || (k == NDIRECT && bn >= NDIRECT))
      && Addr(sb, t1, i, k) in l && sb.BBlock(Addr(sb, t1, i, k)) in l
  {
    assert Addr(sb, t, i, NDIRECT) == t.inodes[i].addrs[NDIRECT];
    assert Addr(sb, t1, i, NDIRECT) == t1.inodes[i].addrs[NDIRECT];
    hide Addr, Data, Slots, Owners, Bitmap;
  }

  lemma SlotsStep(sb: Superblock, s: State, t: State, t1: State, t2: State, i: nat, off0: nat, off: nat, m: nat, a: nat)
    requires Shape(sb, s) && Shape(sb, t) && Shape(sb, t2) && i < sb.ninodes && SlotsOnly(sb, s, t, i, off0, off)
    requires off0 <= off && 0 < m && off % 512 + m <= 512 && Mapped(sb, t, t1, i, off / 512, a)
    requires SameAddrs(sb, t1, t2)
    ensures SlotsOnly(sb, s, t2, i, off0, off + m)
  {
    hide Addr, Data, Slots, Owners, Bitmap, Touches;
    forall j, k | 0 <= j < sb.ninodes && 0 <= k < SLOTS
      ensures Addr(sb, t2, j, k) == Addr(sb, s, j, k) || (j == i && Addr(sb, s, j, k) == 0 && MayFill(off0, off + m, k))
    {
      TouchesMore(off0, off, m, k);
      if k > 0 {
        TouchesMore(off0, off, m, k - 1);
      }
      assert Addr(sb, t2, j, k) == Addr(sb, t1, j, k);
    }
  }

  lemma DataStep(sb: Superblock, t: State, t1: State, t2: State, i: nat, off0: nat, off: nat, m: nat, a: nat,
                 logged: set<nat>)
    requires Shape(sb, t) && Shape(sb, t2) && i < sb.ninodes && DataLogged(sb, t, i, off0, off, logged)
    requires off0 <= off && 0 < m && off % 512 + m <= 512 && Mapped(sb, t, t1, i, off / 512, a)
    requires Addr(sb, t, i, SlotOf(off / 512)) != 0 ==> t1 == t
    requires SameAddrs(sb, t1, t2)
    ensures DataLogged(sb, t2, i, off0, off + m, LoggedWith(sb, t, t1, i, off / 512, a, logged))
  {
    hide Data, Slots, Owners, Bitmap, Touches, Addr;
    var after := LoggedWith(sb, t, t1, i, off / 512, a, logged);
    forall bn | 0 <= bn < MAXFILE && Touches(off0, off + m, bn) ensures Addr(sb, t2, i, SlotOf(bn)) in after {
      TouchesMore(off0, off, m, bn);
      assert Addr(sb, t2, i, SlotOf(bn)) == Addr(sb, t1, i, SlotOf(bn));
      if Addr(sb, t1, i, SlotOf(bn)) != Addr(sb, t, i, SlotOf(bn)) {
        MappedNew(sb, t, t1, i, off / 512, a, SlotOf(bn));
      }
    }
  }

  lemma NewStep(sb: Superblock, s: State, t: State, t1: State, t2: State, i: nat, bn: nat, a: nat, logged: set<nat>)
    requires Shape(sb, s) && Shape(sb, t) && Shape(sb, t2) && i < sb.ninodes && NewLogged(sb, s, t, i, logged)
    requires Mapped(sb, t, t1, i, bn, a) && (Addr(sb, t, i, SlotOf(bn)) != 0 ==> t1 == t) && SameAddrs(sb, t1, t2)
    ensures NewLogged(sb, s, t2, i, LoggedWith(sb, t, t1, i, bn, a, logged))
  {
    hide Data, Slots, Owners, Bitmap, Addr;
    var after := LoggedWith(sb, t, t1, i, bn, a, logged);
    forall k | 0 <= k < SLOTS && Addr(sb, s, i, k) == 0 && Addr(sb, t2, i, k) != 0
      ensures Addr(sb, t2, i, k) in after && sb.BBlock(Addr(sb, t2, i, k)) in after
    {
      assert Addr(sb, t2, i, k) == Addr(sb, t1, i, k);
      if Addr(sb, t1, i, k) != Addr(sb, t, i, k) {
        MappedNew(sb, t, t1, i, bn, a, k);
      }
    }
  }

  // A slot's block is a data block, and its bitmap block lies before those.
  lemma SlotArea(sb: Superblock, t: State, i: nat, k: nat)
    requires Inv(sb, t, {}) && i < sb.ninodes && k < SLOTS && Addr(sb, t, i, k) != 0
    ensures sb.inodestart <= sb.BBlock(Addr(sb, t, i, k)) < sb.datastart <= Addr(sb, t, i, k) < sb.size
  {
    var b := Addr(sb, t, i, k);
    assert b in t.owner;
    hide Addr, Bitmap;
  }

  lemma AreaStep(sb: Superblock, t: State, t1: State, i: nat, bn: nat, a: nat, l0: set<nat>, logged: set<nat>)
    requires Shape(sb, t) && i < sb.ninodes && InArea(sb, l0, logged) && Mapped(sb, t, t1, i, bn, a)
    ensures Shape(sb, t1) && InArea(sb, l0, LoggedWith(sb, t, t1, i, bn, a, logged))
  {
    hide Addr, Data, Slots, Owners, Bitmap;
    SlotArea(sb, t1, i, SlotOf(bn));
    if bn >= NDIRECT {
      NeedsIndirect(sb, t1, i, bn);
      SlotArea(sb, t1, i, NDIRECT);
    }
    var l := MapLog(sb, t, i, bn, a, t1.inodes[i].addrs[NDIRECT]);
    forall b | b in l ensures sb.inodestart <= b < sb.size {
    }
  }

  lemma NeedsIndirect(sb: Superblock, t: State, i: nat, bn: nat)
    requires Shape(sb, t) && i < sb.ninodes && NDIRECT <= bn < MAXFILE && Addr(sb, t, i, SlotOf(bn)) != 0
    ensures Addr(sb, t, i, NDIRECT) == t.inodes[i].addrs[NDIRECT] != 0
  {
  }

  /** One block further: bmap took t to t1, and then block a was changed and logged. */
  lemma JournalStep(sb: Superblock, s: State, t: State, t1: State, t2: State, i: nat, off0: nat, off: nat, m: nat, a: nat,
                    l0: set<nat>, logged: set<nat>)
    requires Journaled(sb, s, t, i, off0, off, l0, logged)
    requires off0 <= off && 0 < m && off % 512 + m <= 512 && Mapped(sb, t, t1, i, off / 512, a)
    requires Addr(sb, t, i, SlotOf(off / 512)) != 0 ==> t1 == t
    requires Shape(sb, t1) && Shape(sb, t2) && SameAddrs(sb, t1, t2) && OnlyLogged(t1.blocks, t2.blocks, {a})
    requires off / 512 < MAXFILE
    requires OnlyLogged(t.blocks, t1.blocks, LoggedWith(sb, t, t1, i, off / 512, a, logged))
    ensures Journaled(sb, s, t2, i, off0, off + m, l0, LoggedWith(sb, t, t1, i, off / 512, a, logged))
  {
    hide Mapped, SlotsOnly, DataLogged, NewLogged, InArea, SameAddrs, Addr, MapLog, Shape;
    var after := LoggedWith(sb, t, t1, i, off / 512, a, logged);
    SlotsStep(sb, s, t, t1, t2, i, off0, off, m, a);
    DataStep(sb, t, t1, t2, i, off0, off, m, a, logged);
    NewStep(sb, s, t, t1, t2, i, off / 512, a, logged);
    AreaStep(sb, t, t1, i, off / 512, a, l0, logged);
    OnlyLoggedTwice(s.blocks, t.blocks, t1.blocks, logged, after);
    assert OnlyLogged(t1.blocks, t2.blocks, after);
    OnlyLoggedTwice(s.blocks, t1.blocks, t2.blocks, after, after);
  }

  /** A write of bytes off0..end of file i that ran out of free blocks. */
  ghost predicate Stuck(sb: Superblock, s: State, t: State, i: nat, off0: nat, end: nat) {
    && Shape(sb, s) && Inv(sb, t, {}) && i < sb.ninodes
    && AllUsed(sb, t, sb.size) && SlotsOnly(sb, s, t, i, off0, end)
    && exists bn :: 0 <= bn < MAXFILE && Touches(off0, end, bn) && Addr(sb, t, i, SlotOf(bn)) == 0
  }

  lemma StuckAt(sb: Superblock, s: State, t: State, t1: State, i: nat, off0: nat, off: nat, end: nat)
    requires Shape(sb, s) && Shape(sb, t) && i < sb.ninodes && SlotsOnly(sb, s, t, i, off0, off) && off0 <= off < end
    requires off / 512 < MAXFILE && OutOfBlocks(sb, t, t1, i, off / 512)
    ensures Stuck(sb, s, t1, i, off0, end)
  {
    hide Addr, Slots, Owners, Bitmap, AllUsed;
    var bn := off / 512;
    assert Touches(off0, end, bn) && Addr(sb, t1, i, SlotOf(bn)) == 0;
    forall j, k | 0 <= j < sb.ninodes && 0 <= k < SLOTS
      ensures Addr(sb, t1, j, k) == Addr(sb, s, j, k) || (j == i && Addr(sb, s, j, k) == 0 && MayFill(off0, end, k))
    {
      assert Addr(sb, t1, j, k) == Addr(sb, t, j, k) || k == NDIRECT;
    }
  }
}
