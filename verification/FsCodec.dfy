/** How src/fs.c reads numbers and bits out of a block of bytes. */
module FsCodec {
  const BSIZE := 512
  const BPB := 4096            // bitmap bits per block
  const NINDIRECT := 128       // 512 / sizeof(uint)

  newtype byte = x: int | 0 <= x < 0x100

  type Block = seq<byte>

  function Zeros(): (d: Block)
    ensures |d| == BSIZE && forall i | 0 <= i < BSIZE :: d[i] == 0
  {
    seq(BSIZE, _ => 0)
  }

  /** The i-th uint of a block, least significant byte first. */
  function Word(d: Block, i: nat): (r: nat)
    requires |d| == BSIZE && i < NINDIRECT
  {
    d[4 * i] as int + 0x100 * (d[4 * i + 1] as int)
    + 0x1_0000 * (d[4 * i + 2] as int) + 0x100_0000 * (d[4 * i + 3] as int)
  }

  function Octet(v: nat): byte {
    (v % 0x100) as byte
  }

  /** Assigning `a[i] = v` where `a` is the block seen as uints. */
  function PutWord(d: Block, i: nat, v: nat): (r: Block)
    requires |d| == BSIZE && i < NINDIRECT
    ensures |r| == BSIZE
  {
    d[4 * i := Octet(v)][4 * i + 1 := Octet(v / 0x100)]
     [4 * i + 2 := Octet(v / 0x1_0000)][4 * i + 3 := Octet(v / 0x100_0000)]
  }

  lemma FourDigits(v: nat)
    requires v < 0x1_0000_0000
    ensures v == v % 0x100 + 0x100 * (v / 0x100 % 0x100) + 0x1_0000 * (v / 0x1_0000 % 0x100)
                 + 0x100_0000 * (v / 0x100_0000 % 0x100)
  {
  }

  lemma WordOfPut(d: Block, i: nat, v: nat, j: nat)
    requires |d| == BSIZE && i < NINDIRECT && j < NINDIRECT && v < 0x1_0000_0000
    ensures Word(PutWord(d, i, v), j) == if j == i then v else Word(d, j)
  {
    var r := PutWord(d, i, v);
    if i == j {
      FourDigits(v);
    } else {
      hide Octet;
      assert r[4 * j] == d[4 * j] && r[4 * j + 1] == d[4 * j + 1];
      assert r[4 * j + 2] == d[4 * j + 2] && r[4 * j + 3] == d[4 * j + 3];
    }
  }

  /** Byte by byte: words are stored least significant byte first. */
  lemma PutWordBytes(d: Block, i: nat, v: nat, j: nat)
    requires |d| == BSIZE && i < NINDIRECT && j < BSIZE
    ensures PutWord(d, i, v)[j] as int ==
      if j < 4 * i || j >= 4 * i + 4 then d[j] as int
      else (if j == 4 * i then v else if j == 4 * i + 1 then v / 0x100 else if j == 4 * i + 2 then v / 0x1_0000
            else v / 0x100_0000) % 0x100
  {
  }

  lemma WordOfZeros(i: nat)
    requires i < NINDIRECT
    ensures Word(Zeros(), i) == 0
  {
  }

  // ----- the bits of a byte -----

  predicate HasBit(x: nat, k: nat) {
    if k == 0 then x % 2 == 1 else HasBit(x / 2, k - 1)
  }

  function WithBit(x: nat, k: nat): nat {
    if k == 0 then x / 2 * 2 + 1 else 2 * WithBit(x / 2, k - 1) + x % 2
  }

  function WithoutBit(x: nat, k: nat): nat {
    if k == 0 then x / 2 * 2 else 2 * WithoutBit(x / 2, k - 1) + x % 2
  }

  function Power2(n: nat): nat { if n == 0 then 1 else 2 * Power2(n - 1) }

  lemma {:induction false} BitsFit(x: nat, k: nat, n: nat)
    requires k < n && x < Power2(n)
    ensures WithBit(x, k) < Power2(n) && WithoutBit(x, k) < Power2(n)
  {
    if k > 0 {
      BitsFit(x / 2, k - 1, n - 1);
    }
  }

  lemma {:induction false} BitsChanged(x: nat, i: nat, j: nat)
    ensures HasBit(WithBit(x, i), j) <==> i == j || HasBit(x, j)
    ensures HasBit(WithoutBit(x, i), j) <==> i != j && HasBit(x, j)
  {
    hide WithBit, WithoutBit, HasBit;
    BitStep(x, i);
    if i > 0 && j > 0 {
      BitsChanged(x / 2, i - 1, j - 1);
      TestStep(WithBit(x, i), j);
      TestStep(WithoutBit(x, i), j);
      TestStep(x, j);
    } else if j == 0 {
      TestStep(WithBit(x, i), 0);
      TestStep(WithoutBit(x, i), 0);
      TestStep(x, 0);
    } else {
      TestStep(WithBit(x, 0), j);
      TestStep(WithoutBit(x, 0), j);
      TestStep(x, j);
    }
  }

  /** Halving and the lowest bit of the changed number. */
  lemma BitStep(x: nat, i: nat)
    ensures i == 0 ==> WithBit(x, i) / 2 == x / 2 && WithBit(x, i) % 2 == 1
    ensures i == 0 ==> WithoutBit(x, i) / 2 == x / 2 && WithoutBit(x, i) % 2 == 0
    ensures i > 0 ==> WithBit(x, i) / 2 == WithBit(x / 2, i - 1) && WithBit(x, i) % 2 == x % 2
    ensures i > 0 ==> WithoutBit(x, i) / 2 == WithoutBit(x / 2, i - 1) && WithoutBit(x, i) % 2 == x % 2
  {
  }

  lemma TestStep(x: nat, j: nat)
    ensures HasBit(x, j) <==> if j == 0 then x % 2 == 1 else HasBit(x / 2, j - 1)
  {
  }

  lemma ByteFits(x: byte, k: nat)
    requires k < 8
    ensures WithBit(x as int, k) < 0x100 && WithoutBit(x as int, k) < 0x100
  {
    assert Power2(4) == 16 && Power2(8) == 16 * Power2(4);
    BitsFit(x as int, k, 8);
  }

  /** Whether x & (1 << k) is non-zero. */
  predicate Test(x: byte, k: nat) { HasBit(x as int, k) }

  /** x | (1 << k) */
  function Or(x: byte, k: nat): (r: byte)
    requires k < 8
  {
    ByteFits(x, k);
    WithBit(x as int, k) as byte
  }

  /** x & ~(1 << k) */
  function AndNot(x: byte, k: nat): (r: byte)
    requires k < 8
  {
    ByteFits(x, k);
    WithoutBit(x as int, k) as byte
  }

  /** Bit k of a bitmap block. */
  function Bit(d: Block, k: nat): (r: bool)
    requires |d| == BSIZE && k < BPB
  {
    Test(d[k / 8], k % 8)
  }

  function SetBit(d: Block, k: nat): (r: Block)
    requires |d| == BSIZE && k < BPB
    ensures |r| == BSIZE
  {
    d[k / 8 := Or(d[k / 8], k % 8)]
  }

  function ClearBit(d: Block, k: nat): (r: Block)
    requires |d| == BSIZE && k < BPB
    ensures |r| == BSIZE
  {
    d[k / 8 := AndNot(d[k / 8], k % 8)]
  }

  /** x shifted right by k. */
  function Shifted(x: nat, k: nat): nat
    requires k < 8
  {
    if k == 0 then x else if k == 1 then x / 2 else if k == 2 then x / 4 else if k == 3 then x / 8
    else if k == 4 then x / 16 else if k == 5 then x / 32 else if k == 6 then x / 64 else x / 128
  }

  /** Bit k is in byte k / 8, at the place worth 2 to the power k % 8. */
  lemma BitIs(d: Block, k: nat)
    requires |d| == BSIZE && k < BPB
    ensures Bit(d, k) <==> Shifted(d[k / 8] as int, k % 8) % 2 == 1
  {
    HasBitIs(d[k / 8] as int, k % 8);
  }

  lemma {:induction false} HasBitIs(x: nat, k: nat)
    requires k < 8
    ensures HasBit(x, k) <==> Shifted(x, k) % 2 == 1
  {
    if k > 0 {
      HasBitIs(x / 2, k - 1);
      ShiftedTwice(x, k);
    }
  }

  lemma ShiftedTwice(x: nat, k: nat)
    requires 1 <= k < 8
    ensures Shifted(x / 2, k - 1) == Shifted(x, k)
  {
  }

  lemma BitOfSet(d: Block, k: nat, j: nat)
    requires |d| == BSIZE && k < BPB && j < BPB
    ensures Bit(SetBit(d, k), j) <==> j == k || Bit(d, j)
  {
    hide HasBit, WithBit;
    if j / 8 == k / 8 {
      BitsChanged(d[k / 8] as int, k % 8, j % 8);
    }
  }

  lemma BitOfClear(d: Block, k: nat, j: nat)
    requires |d| == BSIZE && k < BPB && j < BPB
    ensures Bit(ClearBit(d, k), j) <==> j != k && Bit(d, j)
  {
    hide HasBit, WithoutBit;
    if j / 8 == k / 8 {
      BitsChanged(d[k / 8] as int, k % 8, j % 8);
    }
  }
}
