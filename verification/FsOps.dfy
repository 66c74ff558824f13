/** The block and inode routines of src/fs.c, working in place on the file system's state. */
module FsOps {
  import opened FsCodec
  import opened FsModel

  datatype Option<T> = None | Some(value: T)

  /** Exactly slot (i, k) changed, from empty to b, and no file's data did. */
  ghost predicate GrewAt(sb: Superblock, s: State, s': State, i: nat, k: nat, b: nat) {
    && Shape(sb, s) && Shape(sb, s') && i < sb.ninodes && k < SLOTS
    && Addr(sb, s, i, k) == 0 && Addr(sb, s', i, k) == b && 0 < b < sb.size
    && (forall i', k' | 0 <= i' < sb.ninodes && 0 <= k' < SLOTS && !(i' == i && k' == k) ::
          Addr(sb, s', i', k') == Addr(sb, s, i', k'))
    && SameData(sb, s, s')
    && SameMeta(s, s', i)
  }

  /** Only the block numbers of inode i may differ. */
  ghost predicate SameMeta(s: State, s': State, i: nat) {
    && |s'.inodes| == |s.inodes| && i < |s.inodes|
    && s'.inodes == s.inodes[i := s.inodes[i].(addrs := s'.inodes[i].addrs)]
  }

  /** All that bmap promises: block bn of file i is block a, nothing else was moved or lost, and
      no file's data changed. */
  ghost predicate Mapped(sb: Superblock, s: State, s': State, i: nat, bn: nat, a: nat) {
    && Shape(sb, s) && Inv(sb, s', {}) && i < sb.ninodes && bn < MAXFILE
    && Addr(sb, s', i, SlotOf(bn)) == a && 0 < a < sb.size
    && SameData(sb, s, s')
    && SameMeta(s, s', i)
    && (forall i', k' | 0 <= i' < sb.ninodes && 0 <= k' < SLOTS :: 
          Addr(sb, s', i', k') == Addr(sb, s, i', k') ||
          (i' == i && Addr(sb, s, i', k') == 0 && (k' == SlotOf(bn) || (k' == NDIRECT && bn >= NDIRECT))))
  }

  lemma AllocPoint(sb: Superblock, s: State, i: nat, k: nat, b: nat)
    requires Inv(sb, s, {}) && i < sb.ninodes && k <= NDIRECT
    requires b < sb.size && !Used(sb, s, b) && s.inodes[i].addrs[k] == 0
    ensures
      var s' := PointAt(sb, Alloc(sb, s, b), i, k, b);
      Inv(sb, s', {}) && GrewAt(sb, s, s', i, k, b)
  {
    var s1 := Alloc(sb, s, b);
    hide Slots, Owners, Bitmap, Used, Word;
    AllocKeeps(sb, s, {}, b);
    assert {} + {b} == {b} && {b} - {b} == {};
    assert Addr(sb, s, i, k) == 0 && Addr(sb, s1, i, k) == 0;
    hide Addr;
    PointAtKeeps(sb, s1, {b}, i, k, b);
  }

  lemma AllocEntry(sb: Superblock, s: State, i: nat, j: nat, b: nat)
    requires Inv(sb, s, {}) && i < sb.ninodes && j < NINDIRECT
    requires b < sb.size && !Used(sb, s, b)
    requires s.inodes[i].addrs[NDIRECT] != 0 && Word(s.blocks[s.inodes[i].addrs[NDIRECT]], j) == 0
    ensures
      var s' := EntryAt(sb, Alloc(sb, s, b), i, j, b);
      && Inv(sb, s', {})
      && GrewAt(sb, s, s', i, NDIRECT + 1 + j, b)
      && Alloc(sb, s, b).blocks[s.inodes[i].addrs[NDIRECT]] == s.blocks[s.inodes[i].addrs[NDIRECT]]
      && s'.inodes == s.inodes
  {
    var s1 := Alloc(sb, s, b);
    assert Addr(sb, s, i, NDIRECT + 1 + j) == 0;
    AllocKeepsIndirect(sb, s, i, b);
    hide Slots, Owners, Bitmap, Used, Word, SetBit, PutWord, Addr, Data;
    AllocKeeps(sb, s, {}, b);
    assert {} + {b} == {b} && {b} - {b} == {};
    EntryAtKeeps(sb, s1, {b}, i, j, b);
  }

  lemma AllocKeepsIndirect(sb: Superblock, s: State, i: nat, b: nat)
    requires Inv(sb, s, {}) && i < sb.ninodes && b < sb.size && !Used(sb, s, b)
    requires s.inodes[i].addrs[NDIRECT] != 0
    ensures
      var ind := s.inodes[i].addrs[NDIRECT];
      Alloc(sb, s, b).blocks[ind] == s.blocks[ind] && Alloc(sb, s, b).inodes == s.inodes
  {
    IndirectOwned(sb, s, {}, i);
    hide Slots, Owners, SetBit, Bit;
  }

  /** Bit bi of the bitmap block for blocks b, b + 1, ... */
  lemma BitmapBit(sb: Superblock, s: State, b: nat, bi: nat)
    requires Shape(sb, s) && b % 4096 == 0 && bi < BPB && b + bi < sb.size
    ensures sb.BBlock(b + bi) == sb.BBlock(b) < sb.size && (b + bi) % 4096 == bi
    ensures Used(sb, s, b + bi) <==> Test(s.blocks[sb.BBlock(b)][bi / 8], bi % 8)
  {
  }

  /** What balloc writes when it takes block b + bi. */
  lemma AllocBit(sb: Superblock, s: State, b: nat, bi: nat, l: set<nat>)
    requires Shape(sb, s) && b % 4096 == 0 && bi < BPB && b + bi < sb.size
    ensures
      var bp := s.blocks[sb.BBlock(b)];
      Alloc(sb, s, b + bi) == s.(blocks := s.blocks[sb.BBlock(b) := bp[bi / 8 := Or(bp[bi / 8], bi % 8)]][b + bi := Zeros()])
    ensures OnlyLogged(s.blocks, Alloc(sb, s, b + bi).blocks, l + {sb.BBlock(b)} + {b + bi})
    ensures l + {sb.BBlock(b)} + {b + bi} == l + {sb.BBlock(b + bi), b + bi}
  {
    hide Or, Zeros;
    BitmapBit(sb, s, b, bi);
  }

  ghost predicate AllUsed(sb: Superblock, s: State, n: nat)
    requires Shape(sb, s)
  {
    forall x | 0 <= x < n && x < sb.size :: Used(sb, s, x)
  }

  lemma AllUsedNone(sb: Superblock, s: State)
    requires Shape(sb, s)
    ensures AllUsed(sb, s, 0)
  {
  }

  lemma AllUsedNext(sb: Superblock, s: State, n: nat)
    requires Shape(sb, s) && n < sb.size && AllUsed(sb, s, n) && Used(sb, s, n)
    ensures AllUsed(sb, s, n + 1)
  {
    hide Used;
  }

  lemma GrewMaps(sb: Superblock, s: State, s': State, i: nat, bn: nat, b: nat)
    requires bn < MAXFILE && GrewAt(sb, s, s', i, SlotOf(bn), b) && Inv(sb, s', {})
    ensures Mapped(sb, s, s', i, bn, b)
  {
    hide Addr, Data, Slots, Owners, Bitmap;
  }

  lemma GrewTwiceMaps(sb: Superblock, s: State, s1: State, s': State, i: nat, bn: nat, ind: nat, b: nat)
    requires NDIRECT <= bn < MAXFILE && GrewAt(sb, s, s1, i, NDIRECT, ind)
    requires Mapped(sb, s1, s', i, bn, b)
    ensures Mapped(sb, s, s', i, bn, b)
  {
    hide Addr, Data, Slots, Owners, Bitmap;
  }

  lemma AlreadyMapped(sb: Superblock, s: State, i: nat, bn: nat)
    requires Inv(sb, s, {}) && i < sb.ninodes && bn < MAXFILE && Addr(sb, s, i, SlotOf(bn)) != 0
    ensures Mapped(sb, s, s, i, bn, Addr(sb, s, i, SlotOf(bn)))
  {
    hide Addr, Data, Bitmap;
  }

  /** The blocks bmap gives to log_write when it maps block bn of file i to a. */
  ghost function MapLog(sb: Superblock, s: State, i: nat, bn: nat, a: nat, ind: nat): set<nat>
    requires Shape(sb, s) && i < sb.ninodes && bn < MAXFILE
  {
    if Addr(sb, s, i, SlotOf(bn)) != 0 then {}
    else
      {sb.BBlock(a), a}
      + (if bn < NDIRECT then {} else {ind})
      + (if bn < NDIRECT || s.inodes[i].addrs[NDIRECT] != 0 then {} else {sb.BBlock(ind)})
  }

  /** Blocks that were not given to log_write kept their contents. */
  ghost predicate OnlyLogged(before: seq<Block>, after: seq<Block>, logged: set<nat>) {
    |after| == |before| && forall b | 0 <= b < |before| && b !in logged :: after[b] == before[b]
  }

  lemma NoneChanged(a: seq<Block>, l: set<nat>)
    ensures OnlyLogged(a, a, l)
  {
  }

  /** bmap ran out of blocks: all are in use and block bn of file i is still missing; at most the
      indirect block was added. */
  ghost predicate OutOfBlocks(sb: Superblock, s: State, s': State, i: nat, bn: nat) {
    && Shape(sb, s) && Inv(sb, s', {}) && i < sb.ninodes && bn < MAXFILE
    && AllUsed(sb, s', sb.size) && Addr(sb, s', i, SlotOf(bn)) == 0
    && (forall i', k' | 0 <= i' < sb.ninodes && 0 <= k' < SLOTS ::
          Addr(sb, s', i', k') == Addr(sb, s, i', k') ||
          (i' == i && Addr(sb, s, i', k') == 0 && k' == NDIRECT && bn >= NDIRECT))
  }

  lemma NoBlockLeft(sb: Superblock, s: State, i: nat, bn: nat)
    requires Inv(sb, s, {}) && i < sb.ninodes && bn < MAXFILE && AllUsed(sb, s, sb.size)
    requires if bn < NDIRECT then s.inodes[i].addrs[bn] == 0 else s.inodes[i].addrs[NDIRECT] == 0
    ensures OutOfBlocks(sb, s, s, i, bn)
  {
    hide Slots, Owners, Bitmap, AllUsed;
  }

  lemma NoEntryLeft(sb: Superblock, s: State, s1: State, i: nat, bn: nat, ind: nat)
    requires Inv(sb, s, {}) && Inv(sb, s1, {}) && i < sb.ninodes && NDIRECT <= bn < MAXFILE
    requires s1 == s || GrewAt(sb, s, s1, i, NDIRECT, ind)
    requires Addr(sb, s1, i, SlotOf(bn)) == 0 && AllUsed(sb, s1, sb.size)
    ensures OutOfBlocks(sb, s, s1, i, bn)
  {
    hide Addr, Data, Slots, Owners, Bitmap, AllUsed;
  }

  lemma OnlyLoggedTwice(a: seq<Block>, b: seq<Block>, c: seq<Block>, l: set<nat>, m: set<nat>)
    requires OnlyLogged(a, b, l) && OnlyLogged(b, c, m) && l <= m
    ensures OnlyLogged(a, c, m)
  {
  }

  /** Everything a file system call can change. */
  datatype Snapshot = Snapshot(st: State, dinodes: seq<Inode>, logged: set<nat>)

  class FileSystem {
    const sb: Superblock
    var blocks: seq<Block>        // the contents bread returns
    var inodes: seq<Inode>        // in-memory inodes, by number
    var dinodes: seq<Inode>       // the inodes stored in the inode blocks
    ghost var owner: map<nat, Slot>
    ghost var logged: set<nat>    // blocks given to log_write in this transaction

    ghost function St(): State
      reads this
    {
      State(blocks, inodes, owner)
    }

    ghost function Snap(): Snapshot
      reads this
    {
      Snapshot(St(), dinodes, logged)
    }

    /** A file system at rest: the inodes in memory are the stored ones, nothing is logged. */
    constructor (sb: Superblock, blocks: seq<Block>, inodes: seq<Inode>, ghost owner: map<nat, Slot>)
      ensures this.sb == sb && Snap() == Snapshot(State(blocks, inodes, owner), inodes, {})
    {
      this.sb := sb;
      this.blocks, this.inodes, this.dinodes := blocks, inodes, inodes;
      this.owner, this.logged := owner, {};
    }

    /** Whether bmap would have to allocate block bn of the file. */
    method IsHole(inum: nat, bn: nat) returns (hole: bool)
      requires Inv(sb, St(), {}) && inum < sb.ninodes && bn < MAXFILE
      ensures hole <==> Addr(sb, St(), inum, SlotOf(bn)) == 0
    {
      var ind := inodes[inum].addrs[NDIRECT];
      if bn < NDIRECT {
        hole := inodes[inum].addrs[bn] == 0;
      } else if ind == 0 {
        hole := true;
      } else {
        hole := Word(blocks[ind], bn - NDIRECT) == 0;
      }
    }

    /** log_write of a changed buffer. */
    method LogWrite(b: nat, data: Block)
      requires b < |blocks|
      modifies `blocks, `logged
      ensures blocks == old(blocks)[b := data] && logged == old(logged) + {b}
    {
      blocks := blocks[b := data];
      logged := logged + {b};
    }

    /** First fit over the bitmap; None where the source panics for want of a free block. */
    method Balloc() returns (r: Option<nat>)
      requires Shape(sb, St())
      modifies `blocks, `logged
      ensures r.None? ==> blocks == old(blocks) && logged == old(logged) && AllUsed(sb, old(St()), sb.size)
      ensures OnlyLogged(old(blocks), blocks, logged)
      ensures r.Some? ==>
                && r.value < sb.size
                && !Used(sb, old(St()), r.value)
                && AllUsed(sb, old(St()), r.value)
                && St() == Alloc(sb, old(St()), r.value)
                && logged == old(logged) + {sb.BBlock(r.value), r.value}
    {
      hide AllUsed, Used, Alloc, Test, Or, Zeros, OnlyLogged;
      ghost var s := St();
      NoneChanged(blocks, logged);
      AllUsedNone(sb, s);
      var b := 0;
      while b < sb.size
        invariant b % 4096 == 0
        invariant AllUsed(sb, s, if b <= sb.size then b else sb.size)
        invariant St() == s && logged == old(logged)
      {
        var bi := FreeBit(b);
        if bi < BPB && b + bi < sb.size {
          BitmapBit(sb, s, b, bi);
          AllocBit(sb, s, b, bi, logged);
          var bp := blocks[sb.BBlock(b)];
          LogWrite(sb.BBlock(b), bp[bi / 8 := Or(bp[bi / 8], bi % 8)]);
          LogWrite(b + bi, Zeros());
          return Some(b + bi);
        }
        b := b + BPB;
      }
      r := None;
    }

    /** The inner loop of balloc: the first zero bit of the bitmap block of b, if there is one. */
    method FreeBit(b: nat) returns (bi: nat)
      requires Shape(sb, St()) && b % 4096 == 0 && b < sb.size && AllUsed(sb, St(), b)
      ensures bi <= BPB && b + bi <= sb.size && AllUsed(sb, St(), b + bi)
      ensures bi < BPB && b + bi < sb.size ==> !Used(sb, St(), b + bi)
    {
      hide AllUsed, Used, Test;
      BitmapBit(sb, St(), b, 0);
      var bp := blocks[sb.BBlock(b)];
      bi := 0;
      while bi < BPB && b + bi < sb.size
        invariant 0 <= bi <= BPB && b + bi <= sb.size && AllUsed(sb, St(), b + bi)
      {
        BitmapBit(sb, St(), b, bi);
        if !Test(bp[bi / 8], bi % 8) {
          return;
        }
        AllUsedNext(sb, St(), b + bi);
        bi := bi + 1;
      }
    }

    /** False where the source panics on a block that is not in use. */
    method Bfree(b: nat) returns (ok: bool)
      requires Shape(sb, St()) && b < sb.size
      modifies `blocks, `logged
      ensures ok <==> Used(sb, old(St()), b)
      ensures ok ==> St() == Free(sb, old(St()), b) && logged == old(logged) + {sb.BBlock(b)}
      ensures !ok ==> blocks == old(blocks) && logged == old(logged)
      ensures OnlyLogged(old(blocks), blocks, logged)
    {
      var bp := blocks[sb.BBlock(b)];
      var bi := b % 4096;
      var m := bi % 8;
      if !Test(bp[bi / 8], m) {
        return false;
      }
      bp := bp[bi / 8 := AndNot(bp[bi / 8], m)];
      LogWrite(sb.BBlock(b), bp);
      ok := true;
    }

    /** bmap's first half beyond the direct blocks: the indirect block. */
    method LoadIndirect(inum: nat) returns (r: Option<nat>)
      requires Inv(sb, St(), {}) && inum < sb.ninodes
      modifies `blocks, `inodes, `owner, `logged
      ensures r.Some? ==>
                && Inv(sb, St(), {})
                && r.value == inodes[inum].addrs[NDIRECT] != 0
                && (if old(inodes[inum].addrs[NDIRECT]) != 0 then
                      St() == old(St()) && logged == old(logged)
                    else
                      GrewAt(sb, old(St()), St(), inum, NDIRECT, r.value)
                      && logged == old(logged) + {sb.BBlock(r.value), r.value})
      ensures OnlyLogged(old(blocks), blocks, logged)
      ensures r.None? ==>
                && old(inodes[inum].addrs[NDIRECT]) == 0
                && St() == old(St()) && logged == old(logged) && AllUsed(sb, St(), sb.size)
    {
      ghost var s := St();
      hide Slots, Owners, Bitmap, Addr, GrewAt, AllUsed, Used, OnlyLogged;
      assert OnlyLogged(blocks, blocks, logged) by { NoneChanged(blocks, logged); }
      var addr := inodes[inum].addrs[NDIRECT];
      if addr == 0 {
        r := Balloc();
        if r.None? { return; }
        addr := r.value;
        AllocPoint(sb, s, inum, NDIRECT, addr);
        inodes := inodes[inum := inodes[inum].(addrs := inodes[inum].addrs[NDIRECT := addr])];
        owner := owner[addr := Slot(inum, NDIRECT)];
        assert addr != 0 by {
          assert GrewAt(sb, s, St(), inum, NDIRECT, addr);
          GrewNonzero(sb, s, St(), inum, NDIRECT, addr);
        }
      }
      r := Some(addr);
    }

    /** bmap's second half beyond the direct blocks: the entry of the indirect block. */
    method MapEntry(inum: nat, bn: nat, ind: nat) returns (r: Option<nat>)
      requires Inv(sb, St(), {}) && inum < sb.ninodes && NDIRECT <= bn < MAXFILE
      requires ind == inodes[inum].addrs[NDIRECT] != 0
      modifies `blocks, `owner, `logged
      ensures r.Some? ==>
                && Mapped(sb, old(St()), St(), inum, bn, r.value)
                && logged == old(logged) + MapLog(sb, old(St()), inum, bn, r.value, ind)
                && (Addr(sb, old(St()), inum, SlotOf(bn)) != 0 ==> St() == old(St()))
      ensures OnlyLogged(old(blocks), blocks, logged)
      ensures r.None? ==>
                && Addr(sb, old(St()), inum, SlotOf(bn)) == 0
                && St() == old(St()) && logged == old(logged) && AllUsed(sb, St(), sb.size)
    {
      ghost var s := St();
      hide Slots, Owners, Bitmap, GrewAt, AllUsed, Used, Mapped, Word, PutWord;
      assert OnlyLogged(blocks, blocks, logged) by { NoneChanged(blocks, logged); }
      var j := bn - NDIRECT;
      var bp := blocks[ind];
      var addr := Word(bp, j);
      if addr == 0 {
        r := Balloc();
        if r.None? { return; }
        addr := r.value;
        AllocEntry(sb, s, inum, j, addr);
        LogWrite(ind, PutWord(bp, j, addr));
        owner := owner[addr := Slot(inum, NDIRECT + 1 + j)];
        GrewMaps(sb, s, St(), inum, bn, addr);
      } else {
        AlreadyMapped(sb, s, inum, bn);
      }
      r := Some(addr);
    }

    /** The disk block of block bn of file inum, allocating it, and the indirect block, if they
        are missing. None where the source panics: bn out of range or no free block. */
    method Bmap(inum: nat, bn: nat) returns (r: Option<nat>)
      requires Inv(sb, St(), {}) && inum < sb.ninodes
      modifies `blocks, `inodes, `owner, `logged
      ensures r.Some? ==>
                && Mapped(sb, old(St()), St(), inum, bn, r.value)
                && logged == old(logged) + MapLog(sb, old(St()), inum, bn, r.value, inodes[inum].addrs[NDIRECT])
                && (Addr(sb, old(St()), inum, SlotOf(bn)) != 0 ==> St() == old(St()))
      ensures OnlyLogged(old(blocks), blocks, logged) && old(logged) <= logged
      ensures r.None? ==> bn >= MAXFILE || OutOfBlocks(sb, old(St()), St(), inum, bn)
    {
      ghost var s := St();
      hide Slots, Owners, Bitmap, AllUsed, Used, Data, GrewAt, Mapped, OutOfBlocks, OnlyLogged;
      NoneChanged(blocks, logged);
      if bn < NDIRECT {
        var addr := inodes[inum].addrs[bn];
        if addr == 0 {
          r := Balloc();
          if r.None? {
            NoBlockLeft(sb, s, inum, bn);
            return;
          }
          addr := r.value;
          AllocPoint(sb, s, inum, bn, addr);
          inodes := inodes[inum := inodes[inum].(addrs := inodes[inum].addrs[bn := addr])];
          owner := owner[addr := Slot(inum, bn)];
          GrewMaps(sb, s, St(), inum, bn, addr);
        } else {
          AlreadyMapped(sb, s, inum, bn);
        }
        return Some(addr);
      }
      if bn - NDIRECT < NINDIRECT {
        r := LoadIndirect(inum);
        if r.None? {
          NoBlockLeft(sb, s, inum, bn);
          return;
        }
        ghost var s1, l1 := St(), logged;
        var ind := r.value;
        r := MapEntry(inum, bn, ind);
        OnlyLoggedTwice(s.blocks, s1.blocks, blocks, l1, logged);
        if r.None? {
          NoEntryLeft(sb, s, s1, inum, bn, ind);
        }
        if r.Some? && s.inodes[inum].addrs[NDIRECT] == 0 {
          GrewTwiceMaps(sb, s, s1, St(), inum, bn, ind, r.value);
          GrewTwiceLog(sb, s, s1, inum, bn, ind, r.value);
        }
        return;
      }
      r := None;
    }

    /** Write the in-memory inode through to its inode block. */
    method Iupdate(inum: nat)
      requires inum < |inodes| == |dinodes|
      modifies `dinodes, `logged
      ensures dinodes == old(dinodes)[inum := inodes[inum]]
      ensures logged == old(logged) + {sb.IBlock(inum)}
    {
      dinodes := dinodes[inum := inodes[inum]];
      logged := logged + {sb.IBlock(inum)};
    }

    /** Discard the contents of a file. Every block it owned is freed exactly once (bfree never
        panics), every bit of the bitmap still matches ownership, and nothing else changes. */
    method Itrunc(inum: nat) returns (ok: bool)
      requires Inv(sb, St(), {}) && inum < sb.ninodes && |dinodes| == sb.ninodes
      modifies `blocks, `inodes, `dinodes, `owner, `logged
      ensures ok
      ensures Inv(sb, St(), {})
      ensures owner == Kept(old(owner), inum, SLOTS)
      ensures inodes == old(inodes)[inum := Inode(old(inodes[inum].kind), 0, seq(NDIRECT + 1, _ => 0))]
      ensures OthersSame(sb, old(St()), St(), inum)
      ensures dinodes == old(dinodes)[inum := inodes[inum]]
      ensures logged == old(logged) + MapsIn(sb, old(owner), inum, 0, SLOTS) + {sb.IBlock(inum)}
      ensures OnlyLogged(old(blocks), blocks, logged)
    {
      hide Slots, Owners, Bitmap, Addr, OthersSame, Kept, Used, Unmarked, Data, Held, MapsIn, OnlyLogged;
      ghost var s, l := St(), logged;
      ok := FreeDirect(inum);
      ghost var s1, l1 := St(), logged;
      ok := FreeIndirect(inum);
      MapsJoin(sb, s.owner, s1.owner, inum);
      OnlyLoggedTwice(s.blocks, s1.blocks, blocks, l1, logged);
      OthersTrans(sb, s, s1, St(), inum);
      KeptTwice(s.owner, inum);
      assert inodes[inum].addrs == seq(NDIRECT + 1, _ => 0);
      ResizeKeeps(sb, St(), {}, inum, 0);
      ghost var s2 := St();
      inodes := inodes[inum := inodes[inum].(size := 0)];
      OthersTrans(sb, s, s2, St(), inum);
      ghost var l2 := logged;
      Iupdate(inum);
      NoneChanged(blocks, logged);
      OnlyLoggedTwice(s.blocks, blocks, blocks, l2, logged);
    }

    method FreeDirect(inum: nat) returns (ok: bool)
      requires Inv(sb, St(), {}) && inum < sb.ninodes
      modifies `blocks, `inodes, `owner, `logged
      ensures ok
      ensures Inv(sb, St(), {})
      ensures owner == Kept(old(owner), inum, NDIRECT)
      ensures SameMeta(old(St()), St(), inum) && forall k | 0 <= k < NDIRECT :: inodes[inum].addrs[k] == 0
      ensures OthersSame(sb, old(St()), St(), inum)
      ensures logged == old(logged) + MapsIn(sb, old(owner), inum, 0, NDIRECT)
      ensures OnlyLogged(old(blocks), blocks, logged)
    {
      hide Slots, Owners, Bitmap, Addr, OthersSame, Kept, Used, Unmarked, Data, Held, MapsIn, OnlyLogged;
      ghost var s := St();
      NoneChanged(blocks, logged);
      MapsNone(sb, owner, inum, 0);
      KeptNone(s.owner, inum);
      OthersRefl(sb, s, inum);
      ok := true;
      var i := 0;
      while i < NDIRECT
        invariant 0 <= i <= NDIRECT && ok
        invariant Inv(sb, St(), {})
        invariant owner == Kept(s.owner, inum, i)
        invariant SameMeta(s, St(), inum)
        invariant forall k | 0 <= k < i :: inodes[inum].addrs[k] == 0
        invariant forall k | i <= k <= NDIRECT :: inodes[inum].addrs[k] == s.inodes[inum].addrs[k]
        invariant OthersSame(sb, s, St(), inum)
        invariant logged == old(logged) + MapsIn(sb, s.owner, inum, 0, i) && OnlyLogged(s.blocks, blocks, logged)
      {
        ghost var t, l := St(), logged;
        var b := inodes[inum].addrs[i];
        DetachOne(sb, s, t, inum, i);
        MapsDirect(sb, s, inum, i);
        if b != 0 {
          ok := Bfree(b);
          OnlyLoggedTwice(s.blocks, t.blocks, blocks, l, logged);
          inodes := inodes[inum := inodes[inum].(addrs := inodes[inum].addrs[i := 0])];
          owner := owner - {b};
        }
        i := i + 1;
      }
    }

    /** While the entries are freed the indirect block still lists them; the ghost state `g` is
        the one with the indirect block already out of the inode. */
    method FreeIndirect(inum: nat) returns (ok: bool)
      requires Inv(sb, St(), {}) && inum < sb.ninodes
      requires forall k | 0 <= k < NDIRECT :: inodes[inum].addrs[k] == 0
      modifies `blocks, `inodes, `owner, `logged
      ensures ok
      ensures Inv(sb, St(), {})
      ensures owner == Kept(old(owner), inum, SLOTS)
      ensures inodes == old(inodes)[inum := old(inodes[inum]).(addrs := old(inodes[inum].addrs)[NDIRECT := 0])]
      ensures OthersSame(sb, old(St()), St(), inum)
      ensures logged == old(logged) + MapsIn(sb, old(owner), inum, NDIRECT, SLOTS)
      ensures OnlyLogged(old(blocks), blocks, logged)
    {
      hide Slots, Owners, Bitmap, Addr, OthersSame, Kept, Used, Held, HeldFrom, Word, Unmarked, MapsIn, OnlyLogged;
      ghost var s := St();
      ok := true;
      NoneChanged(blocks, logged);
      MapsNone(sb, owner, inum, NDIRECT + 1);
      MapsIndirect(sb, s, inum);
      DetachIndirect(sb, s, inum);
      if inodes[inum].addrs[NDIRECT] != 0 {
        var ind := inodes[inum].addrs[NDIRECT];
        ghost var g := Detach(sb, s, inum, NDIRECT);
        var bp := blocks[ind];
        var j := 0;
        while j < NINDIRECT
          invariant 0 <= j <= NINDIRECT && ok
          invariant Shape(sb, g) && St() == s.(blocks := g.blocks)
          invariant g == Detach(sb, s, inum, NDIRECT).(blocks := g.blocks)
          invariant Inv(sb, g, HeldFrom(s, inum, j)) && OthersSame(sb, s, g, inum)
          invariant logged == old(logged) + MapsIn(sb, s.owner, inum, NDIRECT + 1, NDIRECT + 1 + j)
          invariant OnlyLogged(s.blocks, blocks, logged)
        {
          EntryStep(sb, s, g, inum, j);
          MapsEntry(sb, s, inum, j);
          if Word(bp, j) != 0 {
            ghost var b := Word(bp, j);
            ghost var before, l := blocks, logged;
            UsedByBlocks(sb, g, St(), b);
            ok := Bfree(Word(bp, j));
            OnlyLoggedTwice(s.blocks, before, blocks, l, logged);
            g := Free(sb, g, b);
          }
          j := j + 1;
        }
        LastStep(sb, s, g, inum);
        UsedByBlocks(sb, g, St(), ind);
        ghost var before, l := blocks, logged;
        ok := Bfree(ind);
        OnlyLoggedTwice(s.blocks, before, blocks, l, logged);
        inodes := inodes[inum := inodes[inum].(addrs := inodes[inum].addrs[NDIRECT := 0])];
        owner := g.owner;
      }
    }
  }

  /** The indirect block and the entries from j on. */
  ghost function HeldFrom(s: State, i: nat, j: nat): set<nat> {
    set b | b in s.owner && s.owner[b].inum == i &&
            (s.owner[b].k == NDIRECT || s.owner[b].k >= NDIRECT + 1 + j)
  }

  /** The bitmap blocks of the blocks that slots lo..hi of file i hold. */
  ghost function MapsIn(sb: Superblock, owner: map<nat, Slot>, i: nat, lo: nat, hi: nat): set<nat> {
    set b | b in owner && owner[b].inum == i && lo <= owner[b].k < hi :: sb.BBlock(b)
  }

  lemma MapsNone(sb: Superblock, owner: map<nat, Slot>, i: nat, lo: nat)
    ensures MapsIn(sb, owner, i, lo, lo) == {}
  {
  }

  lemma MapsSplit(sb: Superblock, owner: map<nat, Slot>, i: nat, lo: nat, mid: nat, hi: nat)
    requires lo <= mid <= hi
    ensures MapsIn(sb, owner, i, lo, hi) == MapsIn(sb, owner, i, lo, mid) + MapsIn(sb, owner, i, mid, hi)
  {
    forall m | m in MapsIn(sb, owner, i, lo, hi) ensures m in MapsIn(sb, owner, i, lo, mid) + MapsIn(sb, owner, i, mid, hi) {
      var b :| b in owner && owner[b].inum == i && lo <= owner[b].k < hi && sb.BBlock(b) == m;
    }
  }

  lemma MapsOne(sb: Superblock, s: State, i: nat, k: nat)
    requires Inv(sb, s, {}) && i < sb.ninodes && k < SLOTS
    ensures MapsIn(sb, s.owner, i, k, k + 1) == if Addr(sb, s, i, k) == 0 then {} else {sb.BBlock(Addr(sb, s, i, k))}
  {
    hide Addr, Bitmap;
    assert Addr(sb, s, i, k) != 0 ==> Addr(sb, s, i, k) in s.owner && s.owner[Addr(sb, s, i, k)] == Slot(i, k);
    forall b | b in s.owner && s.owner[b] == Slot(i, k) ensures b == Addr(sb, s, i, k) != 0 {
    }
  }

  lemma MapsDirect(sb: Superblock, s: State, i: nat, k: nat)
    requires Inv(sb, s, {}) && i < sb.ninodes && k < NDIRECT
    ensures
      var b := s.inodes[i].addrs[k];
      MapsIn(sb, s.owner, i, 0, k + 1) == MapsIn(sb, s.owner, i, 0, k) + (if b == 0 then {} else {sb.BBlock(b)})
  {
    hide MapsIn, Slots, Owners, Bitmap;
    MapsSplit(sb, s.owner, i, 0, k, k + 1);
    MapsOne(sb, s, i, k);
  }

  lemma MapsEntry(sb: Superblock, s: State, i: nat, j: nat)
    requires Inv(sb, s, {}) && i < sb.ninodes && s.inodes[i].addrs[NDIRECT] != 0 && j < NINDIRECT
    ensures
      var b, lo := Word(s.blocks[s.inodes[i].addrs[NDIRECT]], j), NDIRECT + 1;
      MapsIn(sb, s.owner, i, lo, lo + j + 1) == MapsIn(sb, s.owner, i, lo, lo + j) + (if b == 0 then {} else {sb.BBlock(b)})
  {
    hide MapsIn, Slots, Owners, Bitmap, Word;
    MapsSplit(sb, s.owner, i, NDIRECT + 1, NDIRECT + 1 + j, NDIRECT + 2 + j);
    MapsOne(sb, s, i, NDIRECT + 1 + j);
  }

  lemma MapsIndirect(sb: Superblock, s: State, i: nat)
    requires Inv(sb, s, {}) && i < sb.ninodes
    ensures
      var ind := s.inodes[i].addrs[NDIRECT];
      MapsIn(sb, s.owner, i, NDIRECT, SLOTS) ==
        if ind == 0 then {} else {sb.BBlock(ind)} + MapsIn(sb, s.owner, i, NDIRECT + 1, SLOTS)
  {
    hide Bitmap, Word;
    if s.inodes[i].addrs[NDIRECT] == 0 {
      forall b | b in s.owner && s.owner[b].inum == i ensures s.owner[b].k < NDIRECT {
        assert Addr(sb, s, i, s.owner[b].k) == b;
      }
    } else {
      MapsSplit(sb, s.owner, i, NDIRECT, NDIRECT + 1, SLOTS);
      MapsOne(sb, s, i, NDIRECT);
    }
  }

  lemma MapsJoin(sb: Superblock, owner: map<nat, Slot>, rest: map<nat, Slot>, i: nat)
    requires rest == Kept(owner, i, NDIRECT)
    ensures MapsIn(sb, owner, i, 0, SLOTS) == MapsIn(sb, owner, i, 0, NDIRECT) + MapsIn(sb, rest, i, NDIRECT, SLOTS)
  {
    MapsSplit(sb, owner, i, 0, NDIRECT, SLOTS);
    assert MapsIn(sb, rest, i, NDIRECT, SLOTS) == MapsIn(sb, owner, i, NDIRECT, SLOTS) by {
      assert forall b :: b in rest && rest[b].inum == i && NDIRECT <= rest[b].k < SLOTS <==>
                         b in owner && owner[b].inum == i && NDIRECT <= owner[b].k < SLOTS;
    }
  }

  lemma UsedByBlocks(sb: Superblock, g: State, t: State, b: nat)
    requires Shape(sb, g) && Shape(sb, t) && g.blocks == t.blocks && b < sb.size
    ensures Used(sb, g, b) == Used(sb, t, b)
    ensures Free(sb, t, b).blocks == Free(sb, g, b).blocks
  {
  }

  /** Before itrunc's second loop. */
  lemma DetachIndirect(sb: Superblock, s: State, i: nat)
    requires Inv(sb, s, {}) && i < sb.ninodes
    requires forall k | 0 <= k < NDIRECT :: s.inodes[i].addrs[k] == 0
    ensures
      if s.inodes[i].addrs[NDIRECT] == 0 then
        Kept(s.owner, i, SLOTS) == s.owner && OthersSame(sb, s, s, i)
        && s.inodes[i].addrs[NDIRECT := 0] == s.inodes[i].addrs
      else
        var g := Detach(sb, s, i, NDIRECT);
        && Inv(sb, g, HeldFrom(s, i, 0))
        && OthersSame(sb, s, g, i)
        && g.owner == Kept(s.owner, i, SLOTS)
  {
    hide Addr, Data, Slots, Owners, Bitmap;
    OnlyIndirect(sb, s, i);
    if s.inodes[i].addrs[NDIRECT] != 0 {
      assert {} + Held(s, i, NDIRECT) == HeldFrom(s, i, 0);
      DetachKeeps(sb, s, {}, i, NDIRECT);
    }
  }

  lemma OnlyIndirect(sb: Superblock, s: State, i: nat)
    requires Inv(sb, s, {}) && i < sb.ninodes
    requires forall k | 0 <= k < NDIRECT :: s.inodes[i].addrs[k] == 0
    ensures forall b | b in s.owner && s.owner[b].inum == i ::
              NDIRECT <= s.owner[b].k < SLOTS && s.inodes[i].addrs[NDIRECT] != 0
  {
    hide Slots, Bitmap, Word;
  }

  lemma EntryStep(sb: Superblock, s: State, g: State, i: nat, j: nat)
    requires Inv(sb, s, {}) && i < sb.ninodes && s.inodes[i].addrs[NDIRECT] != 0 && j < NINDIRECT
    requires Inv(sb, g, HeldFrom(s, i, j)) && OthersSame(sb, s, g, i)
    ensures
      var b := Word(s.blocks[s.inodes[i].addrs[NDIRECT]], j);
      if b == 0 then HeldFrom(s, i, j + 1) == HeldFrom(s, i, j)
      else
        && b < sb.size && Used(sb, g, b)
        && Inv(sb, Free(sb, g, b), HeldFrom(s, i, j + 1))
        && OthersSame(sb, s, Free(sb, g, b), i)
  {
    HeldEntry(sb, s, i, j);
    var b := Word(s.blocks[s.inodes[i].addrs[NDIRECT]], j);
    if b != 0 {
      FreeKeeps(sb, g, HeldFrom(s, i, j), b);
      hide Slots, Owners, Bitmap, Addr, Used, HeldFrom;
      OthersTrans(sb, s, g, Free(sb, g, b), i);
    }
  }

  lemma HeldEntry(sb: Superblock, s: State, i: nat, j: nat)
    requires Inv(sb, s, {}) && i < sb.ninodes && s.inodes[i].addrs[NDIRECT] != 0 && j < NINDIRECT
    ensures
      var b := Word(s.blocks[s.inodes[i].addrs[NDIRECT]], j);
      if b == 0 then HeldFrom(s, i, j + 1) == HeldFrom(s, i, j)
      else b in HeldFrom(s, i, j) && HeldFrom(s, i, j) - {b} == HeldFrom(s, i, j + 1)
  {
    var b := Word(s.blocks[s.inodes[i].addrs[NDIRECT]], j);
    assert Addr(sb, s, i, NDIRECT + 1 + j) == b;
    hide Bitmap, Word, Addr, Shape;
    assert b != 0 ==> b in s.owner && s.owner[b] == Slot(i, NDIRECT + 1 + j);
    assert forall c | c in s.owner && s.owner[c] == Slot(i, NDIRECT + 1 + j) :: c == b && c != 0;
    hide Slots, Owners;
    forall c ensures c in HeldFrom(s, i, j + 1) <==> c in HeldFrom(s, i, j) && (b == 0 || c != b) {
    }
  }

  lemma LastStep(sb: Superblock, s: State, g: State, i: nat)
    requires Inv(sb, s, {}) && i < sb.ninodes && s.inodes[i].addrs[NDIRECT] != 0
    requires Inv(sb, g, HeldFrom(s, i, NINDIRECT)) && OthersSame(sb, s, g, i)
    ensures
      var ind := s.inodes[i].addrs[NDIRECT];
      && Used(sb, g, ind)
      && Inv(sb, Free(sb, g, ind), {})
      && OthersSame(sb, s, Free(sb, g, ind), i)
  {
    var ind := s.inodes[i].addrs[NDIRECT];
    LastHeld(sb, s, i);
    FreeKeeps(sb, g, {ind}, ind);
    assert {ind} - {ind} == {};
    hide Slots, Owners, Bitmap, Addr, Used, HeldFrom;
    OthersTrans(sb, s, g, Free(sb, g, ind), i);
  }

  lemma LastHeld(sb: Superblock, s: State, i: nat)
    requires Inv(sb, s, {}) && i < sb.ninodes && s.inodes[i].addrs[NDIRECT] != 0
    ensures HeldFrom(s, i, NINDIRECT) == {s.inodes[i].addrs[NDIRECT]}
  {
    assert Addr(sb, s, i, NDIRECT) == s.inodes[i].addrs[NDIRECT];
    hide Bitmap, Word, Addr;
  }

  /** The ownership map without the first k slots of inode i. */
  ghost function Kept(o: map<nat, Slot>, i: nat, k: nat): map<nat, Slot> {
    map b | b in o && !(o[b].inum == i && o[b].k < k) :: o[b]
  }

  ghost predicate OthersSame(sb: Superblock, s: State, s': State, i: nat) {
    && Shape(sb, s) && Shape(sb, s')
    && forall i', bn | 0 <= i' < sb.ninodes && i' != i && 0 <= bn < MAXFILE ::
         Data(sb, s', i', bn) == Data(sb, s, i', bn)
  }

  lemma OthersTrans(sb: Superblock, s: State, s1: State, s2: State, i: nat)
    requires OthersSame(sb, s, s1, i) && (OthersSame(sb, s1, s2, i) || (Shape(sb, s2) && SameData(sb, s1, s2)))
    ensures OthersSame(sb, s, s2, i)
  {
    hide Data;
  }

  lemma OthersRefl(sb: Superblock, s: State, i: nat)
    requires Shape(sb, s)
    ensures OthersSame(sb, s, s, i)
  {
  }

  lemma KeptNone(o: map<nat, Slot>, i: nat)
    ensures Kept(o, i, 0) == o
  {
  }

  lemma KeptTwice(o: map<nat, Slot>, i: nat)
    ensures Kept(Kept(o, i, NDIRECT), i, SLOTS) == Kept(o, i, SLOTS)
  {
  }

  /** The only block a slot can own is the one it holds. */
  lemma HeldDirect(sb: Superblock, s: State, loose: set<nat>, i: nat, k: nat)
    requires Inv(sb, s, loose) && i < sb.ninodes && k < NDIRECT
    ensures
      var b := s.inodes[i].addrs[k];
      Held(s, i, k) == if b == 0 then {} else {b}
  {
    assert Addr(sb, s, i, k) == s.inodes[i].addrs[k];
    hide Bitmap, Addr;
  }

  /** One turn of itrunc's first loop: t is the state so far, s the state at the start. */
  lemma DetachOne(sb: Superblock, s: State, t: State, i: nat, k: nat)
    requires Inv(sb, t, {}) && i < sb.ninodes && k < NDIRECT
    requires OthersSame(sb, s, t, i) && t.owner == Kept(s.owner, i, k)
    ensures
      var b := t.inodes[i].addrs[k];
      if b == 0 then t.owner == Kept(s.owner, i, k + 1)
      else
        && b < sb.size && Used(sb, t, b)
        && var t' := Free(sb, Detach(sb, t, i, k), b);
        && Inv(sb, t', {})
        && OthersSame(sb, s, t', i)
        && t'.owner == Kept(s.owner, i, k + 1) == t.owner - {b}
  {
    HeldDirect(sb, t, {}, i, k);
    KeptNext(sb, s.owner, t, i, k);
    var b := t.inodes[i].addrs[k];
    if b != 0 {
      hide Slots, Owners, Bitmap, Addr, Kept, SetBit, ClearBit, Bit, OthersSame;
      var d := Detach(sb, t, i, k);
      DetachKeeps(sb, t, {}, i, k);
      assert {} + {b} == {b} && {b} - {b} == {};
      FreeKeeps(sb, d, {b}, b);
      assert OthersSame(sb, t, d, i);
      OthersTrans(sb, s, t, d, i);
      OthersTrans(sb, s, d, Free(sb, d, b), i);
    }
  }

  lemma KeptNext(sb: Superblock, o: map<nat, Slot>, t: State, i: nat, k: nat)
    requires Inv(sb, t, {}) && i < sb.ninodes && k < NDIRECT && t.owner == Kept(o, i, k)
    ensures Kept(o, i, k + 1) == t.owner - Held(t, i, k)
  {
    hide Inv;
  }

  lemma GrewNonzero(sb: Superblock, s: State, s': State, i: nat, k: nat, b: nat)
    requires GrewAt(sb, s, s', i, k, b)
    ensures 0 < b < sb.size
  {
  }

  lemma GrewTwiceLog(sb: Superblock, s: State, s1: State, i: nat, bn: nat, ind: nat, b: nat)
    requires NDIRECT <= bn < MAXFILE && GrewAt(sb, s, s1, i, NDIRECT, ind)
    ensures Addr(sb, s1, i, SlotOf(bn)) == 0
    ensures MapLog(sb, s, i, bn, b, ind) == {sb.BBlock(ind), ind} + MapLog(sb, s1, i, bn, b, ind)
  {
    assert Addr(sb, s, i, SlotOf(bn)) == 0;
    assert Addr(sb, s1, i, SlotOf(bn)) == Addr(sb, s, i, SlotOf(bn));
    assert Addr(sb, s1, i, NDIRECT) == s1.inodes[i].addrs[NDIRECT];
  }
}
