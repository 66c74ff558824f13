/** The block layer of the file system as values: who owns which block, what the bitmap says,
    and what each file contains. Every lemma here is about one small change of the state that
    src/fs.c makes. */
module FsModel {
  import opened FsCodec

  const NDIRECT := 12
  const MAXFILE := 140         // NDIRECT + NINDIRECT
  const SLOTS := 141           // direct blocks, the indirect block, its entries

  datatype Kind = Unused | Directory | Regular | Device
  datatype Inode = Inode(kind: Kind, size: nat, addrs: seq<nat>)

  /** The superblock, with the first block that balloc may hand out. */
  datatype Superblock = Superblock(size: nat, ninodes: nat, inodestart: nat, bmapstart: nat, datastart: nat) {
    predicate Valid() {
      && 1 <= inodestart
      && inodestart + ninodes / 8 < bmapstart
      && bmapstart + (size - 1) / 4096 < datastart < size
      && size < 0x1_0000_0000
    }

    function BBlock(b: nat): nat { b / 4096 + bmapstart }

    function IBlock(inum: nat): nat { inum / 8 + inodestart }
  }

  /** One place that can hold a block number: slots 0..11 are direct, 12 is the indirect block,
      13 + j is entry j of the indirect block. */
  datatype Slot = Slot(inum: nat, k: nat)

  datatype State = State(blocks: seq<Block>, inodes: seq<Inode>, owner: map<nat, Slot>)

  ghost predicate Shape(sb: Superblock, s: State) {
    && sb.Valid()
    && |s.blocks| == sb.size
    && (forall b | 0 <= b < sb.size :: |s.blocks[b]| == BSIZE)
    && |s.inodes| == sb.ninodes
    && (forall i | 0 <= i < sb.ninodes :: |s.inodes[i].addrs| == NDIRECT + 1)
    && (forall i, k | 0 <= i < sb.ninodes && 0 <= k <= NDIRECT :: s.inodes[i].addrs[k] < sb.size)
  }

  /** The block number held by a slot; 0 for none. */
  ghost function Addr(sb: Superblock, s: State, i: nat, k: nat): nat
    requires Shape(sb, s) && i < sb.ninodes && k < SLOTS
  {
    if k <= NDIRECT then s.inodes[i].addrs[k]
    else if s.inodes[i].addrs[NDIRECT] == 0 then 0
    else Word(s.blocks[s.inodes[i].addrs[NDIRECT]], k - NDIRECT - 1)
  }

  function SlotOf(bn: nat): nat { if bn < NDIRECT then bn else bn + 1 }

  /** The contents of block bn of file i; a hole reads as zeros. */
  ghost function Data(sb: Superblock, s: State, i: nat, bn: nat): (d: Block)
    requires Shape(sb, s) && i < sb.ninodes && bn < MAXFILE
    ensures |d| == BSIZE
  {
    var a := Addr(sb, s, i, SlotOf(bn));
    if a == 0 || a >= sb.size then Zeros() else s.blocks[a]
  }

  ghost predicate Used(sb: Superblock, s: State, b: nat)
    requires Shape(sb, s) && b < sb.size
  {
    Bit(s.blocks[sb.BBlock(b)], b % 4096)
  }

  ghost predicate Slots(sb: Superblock, s: State)
    requires Shape(sb, s)
  {
    forall i, k | 0 <= i < sb.ninodes && 0 <= k < SLOTS && Addr(sb, s, i, k) != 0 ::
      Addr(sb, s, i, k) in s.owner && s.owner[Addr(sb, s, i, k)] == Slot(i, k)
  }

  ghost predicate Owners(sb: Superblock, s: State)
    requires Shape(sb, s)
  {
    forall b | b in s.owner ::
      && sb.datastart <= b < sb.size
      && s.owner[b].inum < sb.ninodes
      && s.owner[b].k < SLOTS
      && Addr(sb, s, s.owner[b].inum, s.owner[b].k) == b
  }

  /** `loose` are blocks marked in use that no slot holds: allocated and not yet attached, or
      detached and not yet freed. */
  ghost predicate Bitmap(sb: Superblock, s: State, loose: set<nat>)
    requires Shape(sb, s)
  {
    && (forall b | 0 <= b < sb.size :: Used(sb, s, b) <==> b < sb.datastart || b in s.owner || b in loose)
    && (forall b | b in loose :: sb.datastart <= b < sb.size && b !in s.owner)
  }

  ghost predicate Inv(sb: Superblock, s: State, loose: set<nat>) {
    Shape(sb, s) && Slots(sb, s) && Owners(sb, s) && Bitmap(sb, s, loose)
  }

  lemma InvShape(sb: Superblock, s: State, loose: set<nat>)
    requires Inv(sb, s, loose)
    ensures Shape(sb, s) && |s.blocks| == sb.size && |s.inodes| == sb.ninodes
  {
    hide Slots, Owners, Bitmap;
  }

  /** What the ownership map buys: two slots never hold the same block, and a bitmap bit is set
      exactly for metadata and for blocks that some slot holds. */
  lemma SingleOwnership(sb: Superblock, s: State)
    requires Inv(sb, s, {})
    ensures forall i, k, i', k' |
              0 <= i < sb.ninodes && 0 <= k < SLOTS && 0 <= i' < sb.ninodes && 0 <= k' < SLOTS
              && Addr(sb, s, i, k) == Addr(sb, s, i', k') != 0 :: i == i' && k == k'
    ensures forall b | 0 <= b < sb.size ::
              Used(sb, s, b) <==>
              b < sb.datastart ||
              exists i, k :: 0 <= i < sb.ninodes && 0 <= k < SLOTS && Addr(sb, s, i, k) == b
  {
    forall b | 0 <= b < sb.size
      ensures Used(sb, s, b) <==>
              b < sb.datastart ||
              exists i, k :: 0 <= i < sb.ninodes && 0 <= k < SLOTS && Addr(sb, s, i, k) == b
    {
      if b in s.owner {
        assert Addr(sb, s, s.owner[b].inum, s.owner[b].k) == b;
      }
    }
  }

  ghost predicate SameAddrs(sb: Superblock, s: State, s': State)
    requires Shape(sb, s) && Shape(sb, s')
  {
    forall i, k | 0 <= i < sb.ninodes && 0 <= k < SLOTS :: Addr(sb, s', i, k) == Addr(sb, s, i, k)
  }

  ghost predicate SameData(sb: Superblock, s: State, s': State)
    requires Shape(sb, s) && Shape(sb, s')
  {
    forall i, bn | 0 <= i < sb.ninodes && 0 <= bn < MAXFILE :: Data(sb, s', i, bn) == Data(sb, s, i, bn)
  }

  /** Blocks outside the set `touched` keep their contents, and no owned block is in it. */
  ghost predicate Frame(sb: Superblock, s: State, s': State, touched: set<nat>)
    requires Shape(sb, s) && Shape(sb, s')
  {
    && s'.inodes == s.inodes
    && (forall b | 0 <= b < sb.size && b !in touched :: s'.blocks[b] == s.blocks[b])
    && (forall b | b in s.owner :: b !in touched)
  }

  lemma FrameKeeps(sb: Superblock, s: State, s': State, loose: set<nat>, touched: set<nat>)
    requires Inv(sb, s, loose) && Shape(sb, s')
    requires Frame(sb, s, s', touched)
    ensures SameAddrs(sb, s, s') && SameData(sb, s, s')
  {
    hide Word, Bit, Bitmap;
    forall i, k | 0 <= i < sb.ninodes && 0 <= k < SLOTS ensures Addr(sb, s', i, k) == Addr(sb, s, i, k) {
      assert Addr(sb, s, i, NDIRECT) == s.inodes[i].addrs[NDIRECT];
    }
    forall i, bn | 0 <= i < sb.ninodes && 0 <= bn < MAXFILE
      ensures Data(sb, s', i, bn) == Data(sb, s, i, bn)
    {
      assert Addr(sb, s', i, SlotOf(bn)) == Addr(sb, s, i, SlotOf(bn));
    }
  }

  lemma SameAddrsKeeps(sb: Superblock, s: State, s': State)
    requires Shape(sb, s) && Shape(sb, s') && SameAddrs(sb, s, s') && s'.owner == s.owner
    requires Slots(sb, s) && Owners(sb, s)
    ensures Slots(sb, s') && Owners(sb, s')
  {
    hide Addr;
  }

  // ----- balloc and bfree -----

  function Marked(sb: Superblock, blocks: seq<Block>, b: nat): (r: seq<Block>)
    requires sb.Valid() && |blocks| == sb.size && b < sb.size && |blocks[sb.BBlock(b)]| == BSIZE
  {
    blocks[sb.BBlock(b) := SetBit(blocks[sb.BBlock(b)], b % 4096)]
  }

  function Unmarked(sb: Superblock, blocks: seq<Block>, b: nat): (r: seq<Block>)
    requires sb.Valid() && |blocks| == sb.size && b < sb.size && |blocks[sb.BBlock(b)]| == BSIZE
  {
    blocks[sb.BBlock(b) := ClearBit(blocks[sb.BBlock(b)], b % 4096)]
  }

  /** Allocating b: its bit set, its contents zeroed. */
  ghost function Alloc(sb: Superblock, s: State, b: nat): (s': State)
    requires Shape(sb, s) && b < sb.size
    ensures Shape(sb, s')
  {
    s.(blocks := Marked(sb, s.blocks, b)[b := Zeros()])
  }

  ghost function Free(sb: Superblock, s: State, b: nat): (s': State)
    requires Shape(sb, s) && b < sb.size
    ensures Shape(sb, s')
  {
    s.(blocks := Unmarked(sb, s.blocks, b))
  }

  lemma AllocUsed(sb: Superblock, s: State, b: nat, x: nat)
    requires Shape(sb, s) && sb.datastart <= b < sb.size && x < sb.size
    ensures Used(sb, Alloc(sb, s, b), x) <==> x == b || Used(sb, s, x)
  {
    if sb.BBlock(x) == sb.BBlock(b) {
      BitOfSet(s.blocks[sb.BBlock(b)], b % 4096, x % 4096);
    }
    hide Bit, SetBit;
  }

  lemma FreeUsed(sb: Superblock, s: State, b: nat, x: nat)
    requires Shape(sb, s) && b < sb.size && x < sb.size
    ensures Used(sb, Free(sb, s, b), x) <==> x != b && Used(sb, s, x)
  {
    if sb.BBlock(x) == sb.BBlock(b) {
      BitOfClear(s.blocks[sb.BBlock(b)], b % 4096, x % 4096);
    }
    hide Bit, ClearBit;
  }

  lemma AllocFrame(sb: Superblock, s: State, loose: set<nat>, b: nat)
    requires Inv(sb, s, loose) && b < sb.size && !Used(sb, s, b)
    ensures sb.datastart <= b && b !in loose && b !in s.owner
    ensures Frame(sb, s, Alloc(sb, s, b), {b, sb.BBlock(b)})
  {
    hide Slots, Bit, SetBit;
  }

  lemma AllocBitmap(sb: Superblock, s: State, loose: set<nat>, b: nat)
    requires Inv(sb, s, loose) && sb.datastart <= b < sb.size && b !in s.owner
    ensures Bitmap(sb, Alloc(sb, s, b), loose + {b})
  {
    var s' := Alloc(sb, s, b);
    forall x | 0 <= x < sb.size ensures Used(sb, s', x) <==> x == b || Used(sb, s, x) {
      AllocUsed(sb, s, b, x);
    }
    hide Used, Slots, Owners;
  }

  lemma AllocKeeps(sb: Superblock, s: State, loose: set<nat>, b: nat)
    requires Inv(sb, s, loose) && b < sb.size && !Used(sb, s, b)
    ensures sb.datastart <= b && b !in loose && b !in s.owner
    ensures Inv(sb, Alloc(sb, s, b), loose + {b})
    ensures SameAddrs(sb, s, Alloc(sb, s, b)) && SameData(sb, s, Alloc(sb, s, b))
  {
    hide Slots, Owners, Bitmap, SameData, SameAddrs, Used, Frame;
    AllocFrame(sb, s, loose, b);
    FrameKeeps(sb, s, Alloc(sb, s, b), loose, {b, sb.BBlock(b)});
    SameAddrsKeeps(sb, s, Alloc(sb, s, b));
    AllocBitmap(sb, s, loose, b);
  }

  lemma FreeFrame(sb: Superblock, s: State, loose: set<nat>, b: nat)
    requires Inv(sb, s, loose) && b in loose
    ensures b < sb.size && Used(sb, s, b)
    ensures Frame(sb, s, Free(sb, s, b), {sb.BBlock(b)})
  {
    hide Slots, Bit, ClearBit;
  }

  lemma FreeBitmap(sb: Superblock, s: State, loose: set<nat>, b: nat)
    requires Inv(sb, s, loose) && b in loose && b < sb.size
    ensures Bitmap(sb, Free(sb, s, b), loose - {b})
  {
    var s' := Free(sb, s, b);
    forall x | 0 <= x < sb.size ensures Used(sb, s', x) <==> x != b && Used(sb, s, x) {
      FreeUsed(sb, s, b, x);
    }
    hide Used, Slots, Owners;
  }

  lemma FreeKeeps(sb: Superblock, s: State, loose: set<nat>, b: nat)
    requires Inv(sb, s, loose) && b in loose
    ensures b < sb.size && Used(sb, s, b)
    ensures Inv(sb, Free(sb, s, b), loose - {b})
    ensures SameAddrs(sb, s, Free(sb, s, b)) && SameData(sb, s, Free(sb, s, b))
  {
    hide Slots, Owners, Bitmap, SameData, SameAddrs, Used, Frame;
    FreeFrame(sb, s, loose, b);
    FrameKeeps(sb, s, Free(sb, s, b), loose, {sb.BBlock(b)});
    SameAddrsKeeps(sb, s, Free(sb, s, b));
    FreeBitmap(sb, s, loose, b);
  }

  // ----- giving a loose, zeroed block to an empty slot -----

  /** `ip->addrs[k] = b` for a direct block or the indirect block. */
  ghost function PointAt(sb: Superblock, s: State, i: nat, k: nat, b: nat): (s': State)
    requires Shape(sb, s) && i < sb.ninodes && k <= NDIRECT && b < sb.size
    ensures Shape(sb, s')
  {
    s.(inodes := s.inodes[i := s.inodes[i].(addrs := s.inodes[i].addrs[k := b])],
       owner := s.owner[b := Slot(i, k)])
  }

  /** `a[j] = b` in the indirect block. */
  ghost function EntryAt(sb: Superblock, s: State, i: nat, j: nat, b: nat): (s': State)
    requires Shape(sb, s) && i < sb.ninodes && j < NINDIRECT
    ensures Shape(sb, s')
  {
    var ind := s.inodes[i].addrs[NDIRECT];
    s.(blocks := s.blocks[ind := PutWord(s.blocks[ind], j, b)],
       owner := s.owner[b := Slot(i, NDIRECT + 1 + j)])
  }

  /** Exactly slot (i, k) changed, from empty to b. */
  ghost predicate Attached(sb: Superblock, s: State, s': State, i: nat, k: nat, b: nat)
    requires Shape(sb, s) && Shape(sb, s') && i < sb.ninodes && k < SLOTS
  {
    && Addr(sb, s, i, k) == 0 && Addr(sb, s', i, k) == b
    && (forall i', k' | 0 <= i' < sb.ninodes && 0 <= k' < SLOTS && !(i' == i && k' == k) ::
          Addr(sb, s', i', k') == Addr(sb, s, i', k'))
    && s'.owner == s.owner[b := Slot(i, k)]
  }

  lemma AttachedSlots(sb: Superblock, s: State, s': State, loose: set<nat>, i: nat, k: nat, b: nat)
    requires Inv(sb, s, loose) && Shape(sb, s') && i < sb.ninodes && k < SLOTS && b in loose
    requires Attached(sb, s, s', i, k, b)
    ensures Slots(sb, s') && Owners(sb, s')
  {
    hide Addr, Used;
    forall i', k' | 0 <= i' < sb.ninodes && 0 <= k' < SLOTS && Addr(sb, s', i', k') != 0
      ensures Addr(sb, s', i', k') in s'.owner && s'.owner[Addr(sb, s', i', k')] == Slot(i', k')
    {
      if !(i' == i && k' == k) {
        assert Addr(sb, s', i', k') == Addr(sb, s, i', k');
      }
    }
    forall c | c in s'.owner
      ensures sb.datastart <= c < sb.size && s'.owner[c].inum < sb.ninodes && s'.owner[c].k < SLOTS
      ensures Addr(sb, s', s'.owner[c].inum, s'.owner[c].k) == c
    {
      if c != b {
        assert Addr(sb, s, s.owner[c].inum, s.owner[c].k) == c;
      }
    }
  }

  lemma AttachedBitmap(sb: Superblock, s: State, s': State, loose: set<nat>, i: nat, k: nat, b: nat)
    requires Inv(sb, s, loose) && Shape(sb, s') && i < sb.ninodes && k < SLOTS && b in loose
    requires Attached(sb, s, s', i, k, b)
    requires forall x | 0 <= x < sb.datastart :: s'.blocks[x] == s.blocks[x]
    ensures Bitmap(sb, s', loose - {b})
  {
    hide Addr, Slots, Owners, Bit;
    forall x | 0 <= x < sb.size ensures Used(sb, s', x) == Used(sb, s, x) {
      assert sb.BBlock(x) < sb.datastart;
    }
    hide Used;
  }

  /** The indirect block itself holds no file data, so writing an entry changes none. */
  lemma AttachedData(sb: Superblock, s: State, s': State, loose: set<nat>, i: nat, k: nat, b: nat)
    requires Inv(sb, s, loose) && Shape(sb, s') && i < sb.ninodes && k < SLOTS && b in loose
    requires Attached(sb, s, s', i, k, b)
    requires b < sb.size && s'.blocks[b] == Zeros()
    requires forall x | x in s.owner && !(s.owner[x] == Slot(i, NDIRECT)) && x < sb.size :: s'.blocks[x] == s.blocks[x]
    ensures SameData(sb, s, s')
  {
    hide Addr, Used, Bitmap, Owners;
    forall i', bn | 0 <= i' < sb.ninodes && 0 <= bn < MAXFILE
      ensures Data(sb, s', i', bn) == Data(sb, s, i', bn)
    {
      var k' := SlotOf(bn);
      if i' == i && k' == k {
      } else {
        assert Addr(sb, s', i', k') == Addr(sb, s, i', k');
      }
    }
  }

  lemma PointAtAttaches(sb: Superblock, s: State, loose: set<nat>, i: nat, k: nat, b: nat)
    requires Inv(sb, s, loose) && i < sb.ninodes && k <= NDIRECT && b in loose
    requires b < sb.size && Addr(sb, s, i, k) == 0 && s.blocks[b] == Zeros()
    ensures Attached(sb, s, PointAt(sb, s, i, k, b), i, k, b)
  {
    var s' := PointAt(sb, s, i, k, b);
    hide Word, Bitmap, Slots, Owners;
    forall i', k' | 0 <= i' < sb.ninodes && 0 <= k' < SLOTS && !(i' == i && k' == k)
      ensures Addr(sb, s', i', k') == Addr(sb, s, i', k')
    {
      if k == NDIRECT && i' == i && k' > NDIRECT {
        WordOfZeros(k' - NDIRECT - 1);
      }
    }
  }

  lemma PointAtKeeps(sb: Superblock, s: State, loose: set<nat>, i: nat, k: nat, b: nat)
    requires Inv(sb, s, loose) && i < sb.ninodes && k <= NDIRECT && b in loose
    requires b < sb.size && Addr(sb, s, i, k) == 0 && s.blocks[b] == Zeros()
    ensures
      var s' := PointAt(sb, s, i, k, b);
      && Inv(sb, s', loose - {b})
      && Attached(sb, s, s', i, k, b)
      && SameData(sb, s, s')
  {
    var s' := PointAt(sb, s, i, k, b);
    hide Addr, Slots, Owners, Bitmap, Attached, SameData;
    PointAtAttaches(sb, s, loose, i, k, b);
    AttachedSlots(sb, s, s', loose, i, k, b);
    AttachedBitmap(sb, s, s', loose, i, k, b);
    AttachedData(sb, s, s', loose, i, k, b);
  }

  lemma IndirectOwned(sb: Superblock, s: State, loose: set<nat>, i: nat)
    requires Inv(sb, s, loose) && i < sb.ninodes && s.inodes[i].addrs[NDIRECT] != 0
    ensures
      var ind := s.inodes[i].addrs[NDIRECT];
      && ind in s.owner && s.owner[ind] == Slot(i, NDIRECT)
      && sb.datastart <= ind < sb.size && ind !in loose
      && forall i' | 0 <= i' < sb.ninodes && i' != i :: s.inodes[i'].addrs[NDIRECT] != ind
  {
    assert Addr(sb, s, i, NDIRECT) == s.inodes[i].addrs[NDIRECT];
    forall i' | 0 <= i' < sb.ninodes && i' != i
      ensures s.inodes[i'].addrs[NDIRECT] != s.inodes[i].addrs[NDIRECT]
    {
      assert Addr(sb, s, i', NDIRECT) == s.inodes[i'].addrs[NDIRECT];
    }
  }

  lemma EntryAtAddr(sb: Superblock, s: State, loose: set<nat>, i: nat, j: nat, b: nat, i': nat, k': nat)
    requires Inv(sb, s, loose) && i < sb.ninodes && j < NINDIRECT && b < sb.size
    requires s.inodes[i].addrs[NDIRECT] != 0 && i' < sb.ninodes && k' < SLOTS
    ensures Addr(sb, EntryAt(sb, s, i, j, b), i', k') ==
            if i' == i && k' == NDIRECT + 1 + j then b else Addr(sb, s, i', k')
  {
    hide Bitmap, Owners, Slots, Word, PutWord;
    IndirectOwned(sb, s, loose, i);
    if k' > NDIRECT && i' == i {
      WordOfPut(s.blocks[s.inodes[i].addrs[NDIRECT]], j, b, k' - NDIRECT - 1);
    }
  }

  lemma EntryAtAttaches(sb: Superblock, s: State, loose: set<nat>, i: nat, j: nat, b: nat)
    requires Inv(sb, s, loose) && i < sb.ninodes && j < NINDIRECT && b in loose && b < sb.size
    requires s.inodes[i].addrs[NDIRECT] != 0 && Addr(sb, s, i, NDIRECT + 1 + j) == 0
    ensures Attached(sb, s, EntryAt(sb, s, i, j, b), i, NDIRECT + 1 + j, b)
  {
    hide Addr, Slots, Owners, Bitmap, Word;
    var s' := EntryAt(sb, s, i, j, b);
    forall i', k' | 0 <= i' < sb.ninodes && 0 <= k' < SLOTS
      ensures Addr(sb, s', i', k') ==
              if i' == i && k' == NDIRECT + 1 + j then b else Addr(sb, s, i', k')
    {
      EntryAtAddr(sb, s, loose, i, j, b, i', k');
    }
  }

  lemma EntryAtKeeps(sb: Superblock, s: State, loose: set<nat>, i: nat, j: nat, b: nat)
    requires Inv(sb, s, loose) && i < sb.ninodes && j < NINDIRECT && b in loose
    requires s.inodes[i].addrs[NDIRECT] != 0 && Addr(sb, s, i, NDIRECT + 1 + j) == 0
    requires b < sb.size && s.blocks[b] == Zeros()
    ensures
      var s' := EntryAt(sb, s, i, j, b);
      && Inv(sb, s', loose - {b})
      && Attached(sb, s, s', i, NDIRECT + 1 + j, b)
      && SameData(sb, s, s')
  {
    hide Addr, Slots, Owners, Bitmap, Attached, SameData, PutWord, Word;
    var s' := EntryAt(sb, s, i, j, b);
    EntryAtAttaches(sb, s, loose, i, j, b);
    IndirectOwned(sb, s, loose, i);
    AttachedSlots(sb, s, s', loose, i, NDIRECT + 1 + j, b);
    AttachedBitmap(sb, s, s', loose, i, NDIRECT + 1 + j, b);
    AttachedData(sb, s, s', loose, i, NDIRECT + 1 + j, b);
  }

  // ----- changing the contents of a block a file already has -----

  ghost function WriteBlock(sb: Superblock, s: State, a: nat, data: Block): (s': State)
    requires Shape(sb, s) && a < sb.size && |data| == BSIZE
    ensures Shape(sb, s')
  {
    s.(blocks := s.blocks[a := data])
  }

  lemma WriteBlockAddrs(sb: Superblock, s: State, loose: set<nat>, i: nat, bn: nat, data: Block)
    requires Inv(sb, s, loose) && i < sb.ninodes && bn < MAXFILE && |data| == BSIZE
    requires Addr(sb, s, i, SlotOf(bn)) != 0
    ensures
      var a := Addr(sb, s, i, SlotOf(bn));
      sb.datastart <= a < sb.size && SameAddrs(sb, s, WriteBlock(sb, s, a, data))
  {
    var a := Addr(sb, s, i, SlotOf(bn));
    assert a in s.owner;
    var s' := WriteBlock(sb, s, a, data);
    hide Word, Bitmap;
    forall i', k' | 0 <= i' < sb.ninodes && 0 <= k' < SLOTS
      ensures Addr(sb, s', i', k') == Addr(sb, s, i', k')
    {
      assert Addr(sb, s, i', NDIRECT) == s.inodes[i'].addrs[NDIRECT];
    }
  }

  lemma WriteBlockBitmap(sb: Superblock, s: State, loose: set<nat>, a: nat, data: Block)
    requires Shape(sb, s) && Bitmap(sb, s, loose) && sb.datastart <= a < sb.size && |data| == BSIZE
    ensures Bitmap(sb, WriteBlock(sb, s, a, data), loose)
  {
    var s' := WriteBlock(sb, s, a, data);
    hide Bit;
    forall x | 0 <= x < sb.size ensures Used(sb, s', x) == Used(sb, s, x) {
      assert sb.BBlock(x) < sb.datastart;
    }
    hide Used;
  }

  /** Writing one block of one file changes that block of that file and no other file data. */
  lemma WriteBlockKeeps(sb: Superblock, s: State, loose: set<nat>, i: nat, bn: nat, data: Block)
    requires Inv(sb, s, loose) && i < sb.ninodes && bn < MAXFILE && |data| == BSIZE
    requires Addr(sb, s, i, SlotOf(bn)) != 0
    ensures
      var a := Addr(sb, s, i, SlotOf(bn));
      && sb.datastart <= a < sb.size
      && var s' := WriteBlock(sb, s, a, data);
      && Inv(sb, s', loose)
      && SameAddrs(sb, s, s')
      && forall i', bn' | 0 <= i' < sb.ninodes && 0 <= bn' < MAXFILE ::
           Data(sb, s', i', bn') == if i' == i && bn' == bn then data else Data(sb, s, i', bn')
  {
    WriteBlockAddrs(sb, s, loose, i, bn, data);
    var a := Addr(sb, s, i, SlotOf(bn));
    var s' := WriteBlock(sb, s, a, data);
    WriteBlockBitmap(sb, s, loose, a, data);
    SameAddrsKeeps(sb, s, s');
    hide Addr, Bitmap;
    forall i', bn' | 0 <= i' < sb.ninodes && 0 <= bn' < MAXFILE
      ensures Data(sb, s', i', bn') == if i' == i && bn' == bn then data else Data(sb, s, i', bn')
    {
      assert Addr(sb, s', i', SlotOf(bn')) == Addr(sb, s, i', SlotOf(bn'));
    }
  }

  ghost function Resize(sb: Superblock, s: State, i: nat, size: nat): (s': State)
    requires Shape(sb, s) && i < sb.ninodes
    ensures Shape(sb, s')
  {
    s.(inodes := s.inodes[i := s.inodes[i].(size := size)])
  }

  lemma ResizeKeeps(sb: Superblock, s: State, loose: set<nat>, i: nat, size: nat)
    requires Inv(sb, s, loose) && i < sb.ninodes
    ensures
      var s' := Resize(sb, s, i, size);
      Inv(sb, s', loose) && SameAddrs(sb, s, s') && SameData(sb, s, s')
  {
    var s' := Resize(sb, s, i, size);
    assert SameAddrs(sb, s, s') by { hide Word, Bitmap; }
    SameAddrsKeeps(sb, s, s');
    assert Bitmap(sb, s', loose) by {
      forall x | 0 <= x < sb.size ensures Used(sb, s', x) == Used(sb, s, x) { }
      hide Used;
    }
    hide Addr, Bitmap, Slots, Owners;
    forall i', bn | 0 <= i' < sb.ninodes && 0 <= bn < MAXFILE
      ensures Data(sb, s', i', bn) == Data(sb, s, i', bn)
    {
      assert Addr(sb, s', i', SlotOf(bn)) == Addr(sb, s, i', SlotOf(bn));
    }
  }

  // ----- taking a block, or the indirect block with all its entries, out of an inode -----

  /** The blocks that go when `ip->addrs[k]` is cleared. */
  ghost function Held(s: State, i: nat, k: nat): set<nat> {
    set b | b in s.owner && s.owner[b].inum == i &&
            (s.owner[b].k == k || (k == NDIRECT && s.owner[b].k > NDIRECT))
  }

  ghost function Detach(sb: Superblock, s: State, i: nat, k: nat): (s': State)
    requires Shape(sb, s) && i < sb.ninodes && k <= NDIRECT
    ensures Shape(sb, s')
  {
    s.(inodes := s.inodes[i := s.inodes[i].(addrs := s.inodes[i].addrs[k := 0])],
       owner := s.owner - Held(s, i, k))
  }

  lemma DetachAddrs(sb: Superblock, s: State, loose: set<nat>, i: nat, k: nat)
    requires Inv(sb, s, loose) && i < sb.ninodes && k <= NDIRECT
    ensures forall i', k' | 0 <= i' < sb.ninodes && 0 <= k' < SLOTS ::
              Addr(sb, Detach(sb, s, i, k), i', k') ==
              if i' == i && (k' == k || (k == NDIRECT && k' > NDIRECT)) then 0 else Addr(sb, s, i', k')
  {
    hide Word, Bitmap, Slots, Owners;
  }

  lemma DetachOwners(sb: Superblock, s: State, loose: set<nat>, i: nat, k: nat)
    requires Inv(sb, s, loose) && i < sb.ninodes && k <= NDIRECT
    ensures Slots(sb, Detach(sb, s, i, k)) && Owners(sb, Detach(sb, s, i, k))
  {
    DetachAddrs(sb, s, loose, i, k);
    var s' := Detach(sb, s, i, k);
    hide Addr, Bitmap;
    forall i', k' | 0 <= i' < sb.ninodes && 0 <= k' < SLOTS && Addr(sb, s', i', k') != 0
      ensures Addr(sb, s', i', k') in s'.owner && s'.owner[Addr(sb, s', i', k')] == Slot(i', k')
    {
      assert Addr(sb, s', i', k') == Addr(sb, s, i', k');
    }
    forall b | b in s'.owner
      ensures sb.datastart <= b < sb.size && s'.owner[b].inum < sb.ninodes && s'.owner[b].k < SLOTS
      ensures Addr(sb, s', s'.owner[b].inum, s'.owner[b].k) == b
    {
      assert b in s.owner && s'.owner[b] == s.owner[b];
    }
  }

  lemma DetachBitmap(sb: Superblock, s: State, loose: set<nat>, i: nat, k: nat)
    requires Inv(sb, s, loose) && i < sb.ninodes && k <= NDIRECT
    ensures Bitmap(sb, Detach(sb, s, i, k), loose + Held(s, i, k))
  {
    var s' := Detach(sb, s, i, k);
    forall x | 0 <= x < sb.size ensures Used(sb, s', x) == Used(sb, s, x) { }
    hide Used, Slots, Addr;
  }

  lemma DetachKeeps(sb: Superblock, s: State, loose: set<nat>, i: nat, k: nat)
    requires Inv(sb, s, loose) && i < sb.ninodes && k <= NDIRECT
    ensures
      var s' := Detach(sb, s, i, k);
      && Inv(sb, s', loose + Held(s, i, k))
      && forall i', bn | 0 <= i' < sb.ninodes && i' != i && 0 <= bn < MAXFILE ::
           Data(sb, s', i', bn) == Data(sb, s, i', bn)
  {
    var s' := Detach(sb, s, i, k);
    hide Addr, Slots, Bitmap, Owners;
    DetachAddrs(sb, s, loose, i, k);
    DetachOwners(sb, s, loose, i, k);
    DetachBitmap(sb, s, loose, i, k);
    forall i', bn | 0 <= i' < sb.ninodes && i' != i && 0 <= bn < MAXFILE
      ensures Data(sb, s', i', bn) == Data(sb, s, i', bn)
    {
      assert Addr(sb, s', i', SlotOf(bn)) == Addr(sb, s, i', SlotOf(bn));
    }
  }
}
