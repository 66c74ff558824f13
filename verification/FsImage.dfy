/** The file system as the words of its disk blocks: how data and inodes are stored, and what a
    machine that boots from a disk reads back. */
module FsImage {
  import opened FsCodec
  import opened FsModel
  import opened FsFile
  import RedoLog

  const WORDS := 128           // BSIZE / sizeof(uint)
  const INODE := 16            // sizeof(struct dinode) / sizeof(uint)

  // ----- a block of bytes as words -----

  function Pack(d: Block): (w: RedoLog.Block)
    requires |d| == BSIZE
    ensures |w| == WORDS
  {
    seq(WORDS, j requires 0 <= j < WORDS => Word(d, j))
  }

  /** Byte k of a word. */
  function Digit(v: nat, k: nat): byte {
    if k == 0 then Octet(v) else if k == 1 then Octet(v / 0x100)
    else if k == 2 then Octet(v / 0x1_0000) else Octet(v / 0x100_0000)
  }

  function WordAt(w: RedoLog.Block, j: nat): nat {
    if j < |w| && w[j] >= 0 then w[j] else 0
  }

  function Unpack(w: RedoLog.Block): (d: Block)
    ensures |d| == BSIZE
  {
    seq(BSIZE, j requires 0 <= j => Digit(WordAt(w, j / 4), j % 4))
  }

  lemma LowDigit(a: nat, u: nat, v: nat)
    requires a < 0x100 && v == a + 0x100 * u
    ensures v % 0x100 == a && v / 0x100 == u
  {
  }

  lemma Digits(a: nat, b: nat, c: nat, d: nat)
    requires a < 0x100 && b < 0x100 && c < 0x100 && d < 0x100
    ensures
      var v := a + 0x100 * b + 0x1_0000 * c + 0x100_0000 * d;
      v % 0x100 == a && v / 0x100 % 0x100 == b && v / 0x1_0000 % 0x100 == c && v / 0x100_0000 % 0x100 == d
  {
    var w := c + 0x100 * d;
    var u := b + 0x100 * w;
    var v := a + 0x100 * u;
    LowDigit(a, u, v);
    LowDigit(b, w, u);
    LowDigit(c, d, w);
    assert v / 0x1_0000 == w;
    assert v / 0x100_0000 == d;
  }

  lemma UnpackPack(d: Block)
    requires |d| == BSIZE
    ensures Unpack(Pack(d)) == d
  {
    forall j | 0 <= j < BSIZE ensures Unpack(Pack(d))[j] == d[j] {
      var i := j / 4;
      assert j == 4 * i + j % 4;
      Digits(d[4 * i] as int, d[4 * i + 1] as int, d[4 * i + 2] as int, d[4 * i + 3] as int);
      assert WordAt(Pack(d), i) == Word(d, i);
    }
  }

  // ----- inodes -----

  function Code(k: Kind): nat {
    match k case Unused => 0 case Directory => 1 case Regular => 2 case Device => 3
  }

  function KindOf(v: nat): Kind {
    if v == 1 then Directory else if v == 2 then Regular else if v == 3 then Device else Unused
  }

  /** Word k of a stored inode: the type, a word that is not modelled, the size, the addresses. */
  function InodeWord(ip: Inode, k: nat): nat
    requires |ip.addrs| == NDIRECT + 1 && k < INODE
  {
    if k == 0 then Code(ip.kind) else if k == 1 then 0 else if k == 2 then ip.size else ip.addrs[k - 3]
  }

  /** The k-th inode of an inode block. */
  function ReadInode(w: RedoLog.Block, k: nat): Inode {
    Inode(KindOf(WordAt(w, INODE * k)), WordAt(w, INODE * k + 2),
          seq<nat>(NDIRECT + 1, a requires 0 <= a => WordAt(w, INODE * k + 3 + a)))
  }

  /** Word j of the block that holds eight inodes from number `first` on. */
  function TableWord(inodes: seq<Inode>, first: nat, j: nat): nat
    requires j < WORDS && forall i | 0 <= i < |inodes| :: |inodes[i].addrs| == NDIRECT + 1
  {
    if first + j / INODE < |inodes| then InodeWord(inodes[first + j / INODE], j % INODE) else 0
  }

  // ----- the whole disk -----

  /** Every block of the disk when the stored inodes are those of s. */
  ghost function Image(sb: Superblock, s: State): (d: RedoLog.Disk)
    requires Shape(sb, s)
    ensures |d| == sb.size
  {
    seq(sb.size, b requires 0 <= b < sb.size => ImageBlock(sb, s, b))
  }

  ghost function ImageBlock(sb: Superblock, s: State, b: nat): (w: RedoLog.Block)
    requires Shape(sb, s) && b < sb.size
    ensures |w| == WORDS
  {
    if sb.inodestart <= b < sb.bmapstart then
      seq(WORDS, j requires 0 <= j < WORDS => TableWord(s.inodes, 8 * (b - sb.inodestart), j))
    else Pack(s.blocks[b])
  }

  /** What a machine that boots from disk d reads. */
  ghost function Mount(sb: Superblock, d: RedoLog.Disk, owner: map<nat, Slot>): (s: State)
    requires sb.Valid() && |d| == sb.size
    ensures |s.blocks| == sb.size && |s.inodes| == sb.ninodes && s.owner == owner
  {
    State(seq(sb.size, b requires 0 <= b < sb.size => Unpack(d[b])),
          seq(sb.ninodes, i requires 0 <= i < sb.ninodes => ReadInode(d[sb.IBlock(i)], i % 8)), owner)
  }

  lemma TableHolds(sb: Superblock, s: State, i: nat, a: nat)
    requires Shape(sb, s) && i < sb.ninodes && a < INODE
    ensures sb.IBlock(i) < sb.size
    ensures WordAt(ImageBlock(sb, s, sb.IBlock(i)), INODE * (i % 8) + a) == InodeWord(s.inodes[i], a)
  {
    hide InodeWord;
    var k := i % 8;
    assert (INODE * k + a) / INODE == k && (INODE * k + a) % INODE == a;
    assert 8 * (sb.IBlock(i) - sb.inodestart) + k == i;
  }

  lemma ReadsInode(sb: Superblock, s: State, i: nat)
    requires Shape(sb, s) && i < sb.ninodes
    ensures sb.IBlock(i) < sb.size && ReadInode(ImageBlock(sb, s, sb.IBlock(i)), i % 8) == s.inodes[i]
  {
    hide ImageBlock, WordAt;
    var ip := s.inodes[i];
    TableHolds(sb, s, i, 0);
    TableHolds(sb, s, i, 2);
    var got := ReadInode(ImageBlock(sb, s, sb.IBlock(i)), i % 8);
    forall a | 0 <= a <= NDIRECT ensures got.addrs[a] == ip.addrs[a] {
      TableHolds(sb, s, i, 3 + a);
    }
    assert got.addrs == ip.addrs;
  }

  /** Booting from a disk that holds the image reads back the inodes and, past the inode blocks,
      the contents of every block. */
  lemma MountImage(sb: Superblock, s: State, d: RedoLog.Disk)
    requires Shape(sb, s) && |d| == sb.size
    requires forall b | sb.inodestart <= b < sb.size :: d[b] == Image(sb, s)[b]
    ensures
      var t := Mount(sb, d, s.owner);
      t.inodes == s.inodes && forall b | sb.bmapstart <= b < sb.size :: t.blocks[b] == s.blocks[b]
  {
    hide ImageBlock, ReadInode, Unpack;
    var t := Mount(sb, d, s.owner);
    forall i | 0 <= i < sb.ninodes ensures t.inodes[i] == s.inodes[i] {
      ReadsInode(sb, s, i);
      assert sb.inodestart <= sb.IBlock(i);
    }
    forall b | sb.bmapstart <= b < sb.size ensures t.blocks[b] == s.blocks[b] {
      PlainBlock(sb, s, b);
      UnpackPack(s.blocks[b]);
    }
  }

  lemma PlainBlock(sb: Superblock, s: State, b: nat)
    requires Shape(sb, s) && sb.bmapstart <= b < sb.size
    ensures ImageBlock(sb, s, b) == Pack(s.blocks[b])
  {
  }

  // ----- a file system is its inodes and the blocks past them -----

  ghost predicate SameFs(sb: Superblock, s: State, t: State) {
    && t.inodes == s.inodes && t.owner == s.owner
    && |s.blocks| == |t.blocks| == sb.size
    && (forall b | 0 <= b < sb.size :: |t.blocks[b]| == BSIZE)
    && (forall b | sb.bmapstart <= b < sb.size :: t.blocks[b] == s.blocks[b])
  }

  lemma SameAddr(sb: Superblock, s: State, t: State, i: nat, k: nat)
    requires Inv(sb, s, {}) && SameFs(sb, s, t) && i < sb.ninodes && k < SLOTS
    ensures Shape(sb, t) && Addr(sb, t, i, k) == Addr(sb, s, i, k)
    ensures Addr(sb, s, i, k) != 0 ==> sb.bmapstart <= Addr(sb, s, i, k) < sb.size
  {
    hide Bitmap, Used;
    assert Addr(sb, s, i, NDIRECT) == s.inodes[i].addrs[NDIRECT];
  }

  lemma SameFsKeeps(sb: Superblock, s: State, t: State)
    requires Inv(sb, s, {}) && SameFs(sb, s, t)
    ensures Inv(sb, t, {}) && SameAddrs(sb, s, t) && SameData(sb, s, t)
  {
    hide Addr;
    forall i, k | 0 <= i < sb.ninodes && 0 <= k < SLOTS
      ensures Shape(sb, t) && Addr(sb, t, i, k) == Addr(sb, s, i, k)
    {
      SameAddr(sb, s, t, i, k);
    }
    forall i, bn | 0 <= i < sb.ninodes && 0 <= bn < MAXFILE ensures Data(sb, t, i, bn) == Data(sb, s, i, bn) {
      SameAddr(sb, s, t, i, SlotOf(bn));
    }
    forall b | 0 <= b < sb.size ensures Used(sb, t, b) == Used(sb, s, b) {
      assert sb.bmapstart <= sb.BBlock(b) < sb.datastart;
    }
  }

  lemma SameFsContent(sb: Superblock, s: State, t: State, i: nat)
    requires Inv(sb, s, {}) && Sized(sb, s) && SameFs(sb, s, t) && i < sb.ninodes
    ensures Inv(sb, t, {}) && Sized(sb, t) && Content(sb, t, i) == Content(sb, s, i)
  {
    SameFsKeeps(sb, s, t);
    hide Inv, Addr, Data;
    SameBytes(sb, s, t, i, 0, s.inodes[i].size);
  }
}
