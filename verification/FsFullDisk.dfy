/** A full disk on which the bound is met. 12289 blocks laid out as mkfs does, with four bitmap
    blocks. Files 1 to 58 have all the blocks a file can have, file 59 has its direct blocks, and the
    only free blocks are the last before each of two borders of the bitmap blocks and the first after. */
module FsFullDisk {
  import opened FsCodec
  import opened FsModel
  import opened FsOps
  import opened FsFile
  import opened FsJournal
  import opened FsWrite
  import opened FsTight

  /** boot block, superblock, log of 30 blocks, 4059 inode blocks, 4 bitmap blocks, then data */
  function FullSb(): (sb: Superblock)
    ensures sb.Valid()
  {
    Superblock(12289, 32464, 32, 4091, 4095)
  }

  // ----- bitmap blocks -----

  function Ones(): (d: Block)
    ensures |d| == BSIZE && forall i | 0 <= i < BSIZE :: d[i] == 255
  {
    seq(BSIZE, _ => 255)
  }

  lemma {:induction false} LowBits(n: nat, k: nat)
    requires k < n
    ensures Power2(n) >= 1 && HasBit(Power2(n) - 1, k)
  {
    if k == 0 {
      assert Power2(n) == 2 * Power2(n - 1);
      PowerPositive(n - 1);
    } else {
      LowBits(n - 1, k - 1);
      assert (Power2(n) - 1) / 2 == Power2(n - 1) - 1;
    }
  }

  lemma {:induction false} PowerPositive(n: nat)
    ensures Power2(n) >= 1
  {
    if n > 0 {
      PowerPositive(n - 1);
    }
  }

  lemma OnesBits(k: nat)
    requires k < BPB
    ensures Bit(Ones(), k)
  {
    assert Power2(4) == 16 && Power2(8) == 16 * Power2(4);
    LowBits(8, k % 8);
  }

  /** All bits set but one. */
  function AllBut(k: nat): (d: Block)
    requires k < BPB
    ensures |d| == BSIZE
  {
    ClearBit(Ones(), k)
  }

  lemma AllButBits(k: nat, j: nat)
    requires k < BPB && j < BPB
    ensures Bit(AllBut(k), j) <==> j != k
  {
    hide Bit, ClearBit;
    BitOfClear(Ones(), k, j);
    OnesBits(j);
  }

  // ----- indirect blocks -----

  /** The first n entries are consecutive block numbers from first on. */
  function Entries(first: nat, n: nat): (d: Block)
    requires n <= NINDIRECT
    ensures |d| == BSIZE
  {
    if n == 0 then Zeros() else PutWord(Entries(first, n - 1), n - 1, first + n - 1)
  }

  lemma {:induction false} EntryIs(first: nat, n: nat, j: nat)
    requires j < n <= NINDIRECT && first + n < 0x1_0000_0000
    ensures Word(Entries(first, n), j) == first + j
  {
    hide Word, PutWord;
    WordOfPut(Entries(first, n - 1), n - 1, first + n - 1, j);
    if j < n - 1 {
      EntryIs(first, n - 1, j);
    }
  }

  // ----- the disk -----

  predicate Free(b: nat) { b == 4095 || b == 4096 || b == 12287 || b == 12288 }

  /** The first block of file j. */
  function First(j: nat): nat
    requires j >= 1
  {
    4097 + 141 * (j - 1)
  }

  function FullBlock(b: nat): (d: Block)
    ensures |d| == BSIZE
  {
    if b == 4091 || b == 4093 then AllBut(4095)
    else if b == 4092 || b == 4094 then AllBut(0)
    else if 4097 <= b < 12275 && (b - 4097) % 141 == 12 then Entries(b + 1, 128)
    else Zeros()
  }

  function FullAddrs(j: nat): (r: seq<nat>)
    ensures |r| == NDIRECT + 1
  {
    if 1 <= j <= 58 then seq(13, k => First(j) + k)
    else if j == 59 then seq(12, k => First(59) + k) + [0]
    else seq(13, _ => 0)
  }

  function FullInode(j: nat): Inode {
    Inode(if 1 <= j <= 59 then Regular else Unused,
          if 1 <= j <= 58 then 71680 else if j == 59 then 5633 else 0, FullAddrs(j))
  }

  ghost function OwnerOf(b: nat): Slot
    requires b >= 4097
  {
    Slot((b - 4097) / 141 + 1, (b - 4097) % 141)
  }

  ghost function Owner(): map<nat, Slot> { map b: nat | 4097 <= b < 12287 :: OwnerOf(b) }

  function FullBlocks(): (r: seq<Block>)
    ensures |r| == 12289 && forall b | 0 <= b < 12289 :: r[b] == FullBlock(b)
  {
    seq(12289, b requires 0 <= b => FullBlock(b))
  }

  function FullInodes(): (r: seq<Inode>)
    ensures |r| == 32464 && forall j | 0 <= j < 32464 :: r[j] == FullInode(j)
  {
    seq(32464, j requires 0 <= j => FullInode(j))
  }

  ghost function Full(): State { State(FullBlocks(), FullInodes(), Owner()) }

  lemma FullShape()
    ensures Shape(FullSb(), Full())
  {
    hide FullBlock;
    forall i, k | 0 <= i < 32464 && 0 <= k <= 12 ensures FullAddrs(i)[k] < 12289 {
    }
  }

  /** The block in slot k of file j; 0 for none. */
  function Expected(j: nat, k: nat): nat {
    if 1 <= j <= 58 || (j == 59 && k < 12) then First(j) + k else 0
  }

  lemma FullAddr(j: nat, k: nat)
    requires j < 32464 && k < SLOTS
    ensures Shape(FullSb(), Full()) && Addr(FullSb(), Full(), j, k) == Expected(j, k)
  {
    hide Shape, FullBlock, Word, Entries;
    FullShape();
    assert FullInodes()[j] == FullInode(j);
    if k > 12 && 1 <= j <= 58 {
      IndirectIs(j);
      EntryIs(First(j) + 13, 128, k - 13);
    }
  }

  lemma IndirectIs(j: nat)
    requires 1 <= j <= 58
    ensures First(j) + 12 < 12289 && FullBlocks()[First(j) + 12] == Entries(First(j) + 13, 128)
  {
    hide Entries, AllBut;
    var b := First(j) + 12;
    assert (b - 4097) % 141 == 12;
    assert FullBlocks()[b] == FullBlock(b);
  }

  lemma FullUsed(b: nat)
    requires b < 12289
    ensures Shape(FullSb(), Full()) && (Used(FullSb(), Full(), b) <==> !Free(b))
  {
    FullShape();
    var m := b / 4096 + 4091;
    assert FullBlocks()[m] == FullBlock(m);
    AllButBits(4095, b % 4096);
    AllButBits(0, b % 4096);
    hide Bit, AllBut;
  }

  lemma FullInv()
    ensures Inv(FullSb(), Full(), {})
  {
    var sb, s := FullSb(), Full();
    FullShape();
    hide Shape, Addr, Used, FullBlock, FullInode;
    forall i, k | 0 <= i < sb.ninodes && 0 <= k < SLOTS && Addr(sb, s, i, k) != 0
      ensures Addr(sb, s, i, k) in s.owner && s.owner[Addr(sb, s, i, k)] == Slot(i, k)
    {
      FullAddr(i, k);
    }
    forall b | b in s.owner
      ensures sb.datastart <= b < sb.size && s.owner[b].inum < sb.ninodes && s.owner[b].k < SLOTS
        && Addr(sb, s, s.owner[b].inum, s.owner[b].k) == b
    {
      FullAddr(s.owner[b].inum, s.owner[b].k);
    }
    forall b | 0 <= b < sb.size ensures Used(sb, s, b) <==> b < sb.datastart || b in s.owner {
      FullUsed(b);
    }
  }

  /** File 59 ends inside its last direct block, and the four free blocks have bitmap blocks of
      their own. */
  lemma FullFits()
    ensures Inv(FullSb(), Full(), {}) && Sized(FullSb(), Full())
    ensures EndsDirect(FullSb(), Full(), 59) && Spread(FullSb(), Full()) && Full().inodes[59].size == 5633
    ensures forall f | 0 <= f < 12289 && Free(f) :: FreeData(FullSb(), Full(), f)
  {
    FullInv();
    var sb, s := FullSb(), Full();
    hide Addr, Used, FullBlock;
    assert FullInodes()[59] == FullInode(59);
    forall bn | 0 <= bn < MAXFILE && bn * 512 < s.inodes[59].size ensures Addr(sb, s, 59, SlotOf(bn)) != 0 {
      FullAddr(59, SlotOf(bn));
    }
    forall f | 0 <= f < sb.size ensures Used(sb, s, f) <==> !Free(f) {
      FullUsed(f);
    }
  }

  /** The file system at rest on that disk. */
  ghost function FullSnap(): Snapshot { Snapshot(Full(), FullInodes(), {}) }

  /** On that disk, writing a chunk at the end of file 59 succeeds and logs exactly ten blocks. */
  method FullRun(src: seq<byte>) returns (ret: Return, fs: FileSystem)
    requires |src| == 1536
    ensures ret == Return(1536) && |fs.logged| == 10
    ensures Written(FullSb(), FullSnap(), fs.Snap(), 59, 5633, src)
  {
    hide Inv, EndsDirect, Spread, Stuck, Written, Sized, FullBlocks, FullInodes, Owner;
    FullFits();
    fs := new FileSystem(FullSb(), FullBlocks(), FullInodes(), Owner());
    ghost var x := fs.Snap();
    ret := Writei(fs, 59, 5633, src, -1);
    FullReturns(x, fs.Snap(), src, fs.St());
  }

  lemma FullReturns(x: Snapshot, y: Snapshot, src: seq<byte>, t: State)
    requires x == FullSnap() && |src| == 1536
    ensures !Stuck(FullSb(), Full(), t, 59, 5633, 5633 + 1536)
    ensures WriteiAccepts(FullInodes()[59], 5633, src)
    ensures Written(FullSb(), x, y, 59, 5633, src) ==> |y.logged| == 10
  {
    hide Inv, EndsDirect, Spread, Stuck, Written, Sized;
    FullFits();
    assert FullInodes()[59] == FullInode(59);
    NotStuck(FullSb(), Full(), t, 59, 4095, 4096, 12287, 12288);
    if Written(FullSb(), x, y, 59, 5633, src) {
      TightChunk(FullSb(), x, y, 59, 5633, src);
    }
  }
}
