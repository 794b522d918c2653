/**
 What the bytes of a disk block mean to fs.c (xv6/fs.h): 32-bit little-endian words in an indirect
 block, dinodes of 16 words in an inode block, bits in a free-map block.  The readings Word, Inode
 and Bit stay folded; the methods are the code's accesses.
 */
module DiskFormat {
  import opened Basics
  import opened Folding

  const BSIZE: nat := 512
  const NDIRECT: nat := 12
  const NINDIRECT: nat := 128    // BSIZE / sizeof(uint)
  const DINODE: nat := 16        // words in a dinode
  const IPB: nat := 8            // BSIZE / sizeof(struct dinode)
  const BPB: nat := 4096         // BSIZE * 8
  const SHORT: nat := 0x1_0000

  type Block = seq<Byte>

  function Zero(): (b: Block)
    ensures |b| == BSIZE && forall k :: 0 <= k < BSIZE ==> b[k] == 0
  {
    seq(BSIZE, _ => 0)
  }

  function Join(b0: int, b1: int, b2: int, b3: int): int {
    b0 + 0x100 * b1 + 0x1_0000 * b2 + 0x100_0000 * b3
  }

  /** The bytes at o, the lowest first, as a number of 16 and of 32 bits. */
  function Short(b: Block, o: int): int
    requires 0 <= o && o + 2 <= |b|
  {
    var lo: int, hi: int := b[o], b[o + 1];
    lo + 256 * hi
  }

  function Long(b: Block, o: int): int
    requires 0 <= o && o + 4 <= |b|
  {
    var b0: int, b1: int, b2: int, b3: int := b[o], b[o + 1], b[o + 2], b[o + 3];
    b0 + 256 * b1 + 65536 * b2 + 16777216 * b3
  }

  ghost predicate IsWord(b: Block, i: int, w: int)
    requires |b| == BSIZE && 0 <= i < NINDIRECT
  {
    forall u :: Show(Codec, u) ==> w == Join(b[4 * i], b[4 * i + 1], b[4 * i + 2], b[4 * i + 3])
  }

  /** Word i of a block. */
  ghost function Word(b: Block, i: int): (w: int)
    requires |b| == BSIZE && 0 <= i < NINDIRECT
    ensures IsWord(b, i, w)
  {
    assert IsWord(b, i, Join(b[4 * i], b[4 * i + 1], b[4 * i + 2], b[4 * i + 3]));
    var w :| IsWord(b, i, w);
    w
  }

  lemma ZeroWords()
    ensures forall i :: 0 <= i < NINDIRECT ==> Word(Zero(), i) == 0
  {
    assert Show(Codec, 0);
  }

  lemma SameWord(b: Block, r: Block, i: int)
    requires |b| == BSIZE && |r| == BSIZE && 0 <= i < NINDIRECT
    requires forall k :: 4 * i <= k < 4 * i + 4 ==> r[k] == b[k]
    ensures Word(r, i) == Word(b, i)
  {
    assert Show(Codec, 0);
  }

  method GetWord(b: Block, i: int) returns (w: int)
    requires |b| == BSIZE && 0 <= i < NINDIRECT
    ensures w == Word(b, i) && 0 <= w < UINT
  {
    assert Show(Codec, 0);
    w := Join(b[4 * i], b[4 * i + 1], b[4 * i + 2], b[4 * i + 3]);
  }

  lemma Split(w: int)
    requires 0 <= w < UINT
    ensures 0 <= w / 0x100_0000 < 0x100
    ensures Join(w % 0x100, w / 0x100 % 0x100, w / 0x1_0000 % 0x100, w / 0x100_0000) == w
  {
    Quotients(w);
    var w1 := w / 0x100;
    var w2 := w1 / 0x100;
    assert w == 0x100 * w1 + w % 0x100 && w1 == 0x100 * w2 + w1 % 0x100 && w2 == 0x100 * (w2 / 0x100) + w2 % 0x100;
  }

  lemma Quotients(w: int)
    requires 0 <= w < UINT
    ensures w / 0x1_0000 == w / 0x100 / 0x100 && w / 0x100_0000 == w / 0x1_0000 / 0x100
  {
  }

  method PutBytes(b: Block, i: int, b0: Byte, b1: Byte, b2: Byte, b3: Byte) returns (r: Block)
    requires |b| == BSIZE && 0 <= i < NINDIRECT
    ensures |r| == BSIZE && Word(r, i) == Join(b0, b1, b2, b3)
    ensures forall j :: 0 <= j < NINDIRECT && j != i ==> Word(r, j) == Word(b, j)
  {
    r := b[4 * i := b0][4 * i + 1 := b1][4 * i + 2 := b2][4 * i + 3 := b3];
    forall j | 0 <= j < NINDIRECT && j != i
      ensures Word(r, j) == Word(b, j)
    {
      SameWord(b, r, j);
    }
    assert Show(Codec, 0);
  }

  method PutWord(b: Block, i: int, w: int) returns (r: Block)
    requires |b| == BSIZE && 0 <= i < NINDIRECT && 0 <= w < UINT
    ensures |r| == BSIZE && Word(r, i) == w
    ensures forall j :: 0 <= j < NINDIRECT && j != i ==> Word(r, j) == Word(b, j)
  {
    Split(w);
    r := PutBytes(b, i, w % 0x100, w / 0x100 % 0x100, w / 0x1_0000 % 0x100, w / 0x100_0000);
  }

  /** struct dinode; shorts are taken as unsigned. */
  datatype Dinode = Dinode(kind: int, major: int, minor: int, nlink: int, size: int, addrs: seq<int>)

  predicate IsShort(x: int) {
    0 <= x < SHORT
  }

  ghost predicate WellFormed(d: Dinode) {
    && IsShort(d.kind) && IsShort(d.major) && IsShort(d.minor) && IsShort(d.nlink)
    && 0 <= d.size < UINT
    && |d.addrs| == NDIRECT + 1 && forall k :: 0 <= k < |d.addrs| ==> 0 <= d.addrs[k] < UINT
  }

  ghost function Decode(b: Block, k: int): Dinode
    requires |b| == BSIZE && 0 <= k < IPB
  {
    var w := DINODE * k;
    Dinode(Word(b, w) % SHORT, Word(b, w) / SHORT, Word(b, w + 1) % SHORT, Word(b, w + 1) / SHORT, Word(b, w + 2),
           seq(NDIRECT + 1, j requires 0 <= j <= NDIRECT => Word(b, w + 3 + j)))
  }

  ghost predicate IsInode(b: Block, k: int, d: Dinode)
    requires |b| == BSIZE && 0 <= k < IPB
  {
    forall u :: Show(Inodes, u) ==> d == Decode(b, k)
  }

  /** Dinode k of an inode block. */
  ghost function Inode(b: Block, k: int): (d: Dinode)
    requires |b| == BSIZE && 0 <= k < IPB
    ensures IsInode(b, k, d)
  {
    assert IsInode(b, k, Decode(b, k));
    var d :| IsInode(b, k, d);
    d
  }

  /** Where the fields of dinode k are: struct dinode of fs.h, 64 bytes. */
  ghost predicate InodeBytes(b: Block, k: int, d: Dinode)
    requires |b| == BSIZE && 0 <= k < IPB
  {
    && d.kind == Short(b, 64 * k) && d.major == Short(b, 64 * k + 2)
    && d.minor == Short(b, 64 * k + 4) && d.nlink == Short(b, 64 * k + 6)
    && d.size == Long(b, 64 * k + 8)
    && |d.addrs| == 13 && forall j :: 0 <= j < 13 ==> d.addrs[j] == Long(b, 64 * k + 12 + 4 * j)
  }

  lemma Halves(b0: Byte, b1: Byte, b2: Byte, b3: Byte)
    ensures Join(b0, b1, b2, b3) % SHORT == b0 + 256 * b1 && Join(b0, b1, b2, b3) / SHORT == b2 + 256 * b3
  {
  }

  lemma WordHalves(b: Block, i: int)
    requires |b| == BSIZE && 0 <= i < NINDIRECT
    ensures Word(b, i) == Long(b, 4 * i)
    ensures Word(b, i) % SHORT == Short(b, 4 * i) && Word(b, i) / SHORT == Short(b, 4 * i + 2)
  {
    assert Show(Codec, 0);
    Halves(b[4 * i], b[4 * i + 1], b[4 * i + 2], b[4 * i + 3]);
  }

  lemma InodeLayout(b: Block, k: int)
    requires |b| == BSIZE && 0 <= k < IPB
    ensures InodeBytes(b, k, Inode(b, k))
  {
    assert Show(Inodes, 0);
    WordHalves(b, DINODE * k);
    WordHalves(b, DINODE * k + 1);
    WordHalves(b, DINODE * k + 2);
    forall j | 0 <= j < 13
      ensures Inode(b, k).addrs[j] == Long(b, 64 * k + 12 + 4 * j)
    {
      WordHalves(b, DINODE * k + 3 + j);
    }
  }

  lemma SameInode(b: Block, r: Block, k: int)
    requires |b| == BSIZE && |r| == BSIZE && 0 <= k < IPB
    requires forall w :: DINODE * k <= w < DINODE * (k + 1) ==> Word(r, w) == Word(b, w)
    ensures Inode(r, k) == Inode(b, k)
  {
    assert Show(Inodes, 0);
    assert Decode(r, k).addrs == Decode(b, k).addrs;
  }

  method GetInode(b: Block, k: int) returns (d: Dinode)
    requires |b| == BSIZE && 0 <= k < IPB
    ensures d == Inode(b, k) && WellFormed(d) && InodeBytes(b, k, d)
  {
    InodeLayout(b, k);
    var x := GetWord(b, DINODE * k);
    var y := GetWord(b, DINODE * k + 1);
    var z := GetWord(b, DINODE * k + 2);
    var addrs := [];
    while |addrs| < NDIRECT + 1
      invariant |addrs| <= NDIRECT + 1
      invariant forall j :: 0 <= j < |addrs| ==> addrs[j] == Word(b, DINODE * k + 3 + j) && 0 <= addrs[j] < UINT
    {
      var a := GetWord(b, DINODE * k + 3 + |addrs|);
      addrs := addrs + [a];
    }
    d := Dinode(x % SHORT, x / SHORT, y % SHORT, y / SHORT, z, addrs);
    assert Show(Inodes, 0);
    assert d.addrs == Decode(b, k).addrs;
  }

  method PutInode(b: Block, k: int, d: Dinode) returns (r: Block)
    requires |b| == BSIZE && 0 <= k < IPB && WellFormed(d)
    ensures |r| == BSIZE && Inode(r, k) == d && InodeBytes(r, k, d)
    ensures forall j :: 0 <= j < IPB && j != k ==> Inode(r, j) == Inode(b, j)
  {
    r := PutFields(b, k, d);
    InodeLayout(r, k);
  }

  method PutFields(b: Block, k: int, d: Dinode) returns (r: Block)
    requires |b| == BSIZE && 0 <= k < IPB && WellFormed(d)
    ensures |r| == BSIZE && Inode(r, k) == d
    ensures forall j :: 0 <= j < IPB && j != k ==> Inode(r, j) == Inode(b, j)
  {
    ghost var lo := DINODE * k;
    r := PutWord(b, DINODE * k, d.kind + SHORT * d.major);
    r := PutWord(r, DINODE * k + 1, d.minor + SHORT * d.nlink);
    r := PutWord(r, DINODE * k + 2, d.size);
    var j := 0;
    while j < NDIRECT + 1
      invariant 0 <= j <= NDIRECT + 1 && |r| == BSIZE
      invariant Word(r, lo) == d.kind + SHORT * d.major
      invariant Word(r, lo + 1) == d.minor + SHORT * d.nlink && Word(r, lo + 2) == d.size
      invariant forall i :: 0 <= i < j ==> Word(r, lo + 3 + i) == d.addrs[i]
      invariant forall w :: 0 <= w < NINDIRECT && !(lo <= w < lo + DINODE) ==> Word(r, w) == Word(b, w)
    {
      r := PutWord(r, DINODE * k + 3 + j, d.addrs[j]);
      j := j + 1;
    }
    assert Inode(r, k) == d by {
      assert Show(Inodes, 0);
      assert Decode(r, k).addrs == d.addrs;
    }
    forall i | 0 <= i < IPB && i != k
      ensures Inode(r, i) == Inode(b, i)
    {
      SameInode(b, r, i);
    }
  }

  /** 1 << j */
  function Mask(j: nat): (m: int)
    ensures m > 0
  {
    if j == 0 then 1 else 2 * Mask(j - 1)
  }

  /** (x & (1 << j)) != 0 */
  predicate HasBit(x: int, j: nat)
    decreases j
  {
    if j == 0 then x % 2 == 1 else HasBit(x / 2, j - 1)
  }

  lemma {:induction false} SetMask(x: int, j: nat, i: nat)
    requires !HasBit(x, j)
    ensures HasBit(x + Mask(j), i) == (i == j || HasBit(x, i))
    decreases j
  {
    if j > 0 && i > 0 {
      assert (x + Mask(j)) / 2 == x / 2 + Mask(j - 1);
      SetMask(x / 2, j - 1, i - 1);
    }
  }

  lemma {:induction false} ClearMask(x: int, j: nat, i: nat)
    requires HasBit(x, j)
    ensures HasBit(x - Mask(j), i) == (i != j && HasBit(x, i))
    decreases j
  {
    if j > 0 && i > 0 {
      assert (x - Mask(j)) / 2 == x / 2 - Mask(j - 1);
      ClearMask(x / 2, j - 1, i - 1);
    }
  }

  /** A byte stays a byte: bounds for the values below 2 * 2^n. */
  lemma {:induction false} MaskRange(x: int, j: nat, n: nat)
    requires j <= n && 0 <= x < 2 * Mask(n)
    ensures !HasBit(x, j) ==> x + Mask(j) < 2 * Mask(n)
    ensures HasBit(x, j) ==> 0 <= x - Mask(j)
  {
    if j > 0 {
      MaskRange(x / 2, j - 1, n - 1);
    } else if n > 0 {
      assert Mask(n) == 2 * Mask(n - 1);
    }
  }

  /** 1 << j for a bit of a byte. */
  function Power(j: int): int
    requires 0 <= j < 8
  {
    [1, 2, 4, 8, 16, 32, 64, 128][j]
  }

  lemma MaskPower(j: nat)
    requires j < 8
    ensures Mask(j) == Power(j)
  {
    assert Mask(1) == 2 && Mask(2) == 4 && Mask(3) == 8;
    assert Mask(4) == 16 && Mask(5) == 32 && Mask(6) == 64 && Mask(7) == 128;
  }

  lemma {:induction false} BitPower(x: int, j: nat)
    requires 0 <= x && j < 8
    ensures HasBit(x, j) <==> x / Power(j) % 2 == 1
    decreases j
  {
    if j > 0 {
      BitPower(x / 2, j - 1);
      Halved(x, j);
    }
  }

  lemma Halved(x: int, j: nat)
    requires 0 <= x && 0 < j < 8
    ensures x / 2 / Power(j - 1) == x / Power(j)
  {
    if j == 1 {
      assert x / 2 / 1 == x / 2;
    } else if j == 2 {
      assert x / 2 / 2 == x / 4;
    } else if j == 3 {
      assert x / 2 / 4 == x / 8;
    } else if j == 4 {
      assert x / 2 / 8 == x / 16;
    } else if j == 5 {
      assert x / 2 / 16 == x / 32;
    } else if j == 6 {
      assert x / 2 / 32 == x / 64;
    } else {
      assert x / 2 / 64 == x / 128;
    }
  }

  ghost predicate IsBit(b: Block, i: int, v: bool)
    requires |b| == BSIZE && 0 <= i < BPB
  {
    forall u :: Show(Codec, u) ==> v == HasBit(b[i / 8], i % 8)
  }

  /** Bit i of a free-map block. */
  ghost function Bit(b: Block, i: int): (v: bool)
    requires |b| == BSIZE && 0 <= i < BPB
    ensures IsBit(b, i, v)
  {
    assert IsBit(b, i, HasBit(b[i / 8], i % 8));
    var v :| IsBit(b, i, v);
    v
  }

  method TestBit(b: Block, i: int) returns (v: bool)
    requires |b| == BSIZE && 0 <= i < BPB
    ensures v == Bit(b, i) && (v <==> b[i / 8] / Power(i % 8) % 2 == 1)
  {
    assert Show(Codec, 0);
    BitPower(b[i / 8], i % 8);
    MaskPower(i % 8);
    v := HasBit(b[i / 8], i % 8);
  }

  /** data[bi/8] |= m or data[bi/8] &= ~m, where the bit is not v yet. */
  method PutBit(b: Block, i: int, v: bool) returns (r: Block)
    requires |b| == BSIZE && 0 <= i < BPB && Bit(b, i) != v
    ensures |r| == BSIZE && forall j :: 0 <= j < BPB ==> Bit(r, j) == if j == i then v else Bit(b, j)
    ensures 0 <= b[i / 8] + (if v then Power(i % 8) else -Power(i % 8)) < 256
    ensures r == b[i / 8 := b[i / 8] + if v then Power(i % 8) else -Power(i % 8)]
  {
    MaskPower(i % 8);
    var m := Mask(i % 8);
    assert Show(Codec, 0);
    ghost var x: int := b[i / 8];
    MaskRange(x, i % 8, 7);
    r := b[i / 8 := if v then b[i / 8] + m else b[i / 8] - m];
    forall j | 0 <= j < BPB
      ensures Bit(r, j) == if j == i then v else Bit(b, j)
    {
      if j / 8 == i / 8 {
        if v { SetMask(x, i % 8, j % 8); } else { ClearMask(x, i % 8, j % 8); }
      }
    }
  }
}
