/**
 The file system as bytes on the disk (xv6/fs.h): where the size, the block numbers and the bytes of a file are,
 and which bit of the free map is a block's.
 */
module FileImage {
  import opened Basics
  import opened Folding
  import opened DiskFormat
  import opened Files

  /** The block that holds part n of file i, or 0, from the bytes of the disk alone. */
  function PartAddress(disk: Disk, inodestart: nat, i: nat, n: nat): int
    requires (forall b :: 0 <= b < |disk| ==> |disk[b]| == 512) && inodestart + i / 8 < |disk| && n < 140
  {
    var home, o := disk[inodestart + i / 8], 64 * (i % 8);
    if n < 12 then Long(home, o + 12 + 4 * n) else
      var t := Long(home, o + 60);
      if 0 < t < |disk| then Long(disk[t], 4 * (n - 12)) else 0
  }

  function ImageByte(disk: Disk, inodestart: nat, i: nat, k: nat): int
    requires (forall b :: 0 <= b < |disk| ==> |disk[b]| == 512) && inodestart + i / 8 < |disk| && k < 140 * 512
  {
    var a := PartAddress(disk, inodestart, i, k / 512);
    if 0 < a < |disk| then disk[a][k % 512] else 0
  }

  lemma AddressIsImage(sb: Super, disk: Disk, i: nat, n: nat)
    requires Fits(sb) && |disk| == sb.size && Blocks(disk) && i < sb.ninodes && n < 140
    ensures |OnDisk(sb, disk, i).addrs| == 13
    ensures BlockAt(disk, OnDisk(sb, disk, i), n) == PartAddress(disk, sb.inodestart, i, n)
  {
    InodeLayout(disk[IBlock(sb, i)], i % 8);
    var t := OnDisk(sb, disk, i).addrs[12];
    if n >= 12 && 0 < t < |disk| {
      WordHalves(disk[t], n - 12);
    }
  }

  /** The contents of a file are the bytes in the blocks that the bytes of its dinode and its indirect block name. */
  lemma ContentIsImage(sb: Super, disk: Disk, i: nat)
    requires Fits(sb) && |disk| == sb.size && Blocks(disk) && i < sb.ninodes
    requires OnDisk(sb, disk, i).size <= 140 * 512
    ensures var d := OnDisk(sb, disk, i);
      && d.size == Long(disk[sb.inodestart + i / 8], 64 * (i % 8) + 8) && |d.addrs| == 13 && 0 <= d.size
      && |Content(disk, d)| == d.size
      && forall k :: 0 <= k < d.size ==> Content(disk, d)[k] == ImageByte(disk, sb.inodestart, i, k)
  {
    InodeLayout(disk[IBlock(sb, i)], i % 8);
    var d := OnDisk(sb, disk, i);
    forall k | 0 <= k < d.size
      ensures Content(disk, d)[k] == ImageByte(disk, sb.inodestart, i, k)
    {
      AddressIsImage(sb, disk, i, k / 512);
    }
  }

  /** The free map has the bit of block b in byte b / 8, counted over its blocks. */
  lemma MapIsImage(sb: Super, disk: Disk, b: nat)
    requires Fits(sb) && |disk| == sb.size && Blocks(disk) && b < sb.size
    ensures BitAt(sb, disk, b) <==> disk[sb.bmapstart + b / 4096][b % 4096 / 8] / Power(b % 8) % 2 == 1
  {
    var block, j := disk[sb.bmapstart + b / 4096], b % 4096;
    assert j % 8 == b % 8;
    assert Show(Codec, 0) && IsBit(block, j, Bit(block, j));
    BitPower(block[j / 8], j % 8);
  }
}
