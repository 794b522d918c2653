/**
 The content layer of the file system (xv6/fs.c): blocks, inodes and the bytes of a file.  The disk is
 what bread returns, that is the contents last written with log_write.  Every block has a use, which
 names the one place that refers to it.
 */
module Files {
  import opened Basics
  import opened Folding
  import opened DiskFormat

  const MAXFILE: nat := NDIRECT + NINDIRECT

  type Disk = seq<Block>

  datatype Super = Super(size: nat, ninodes: nat, inodestart: nat, bmapstart: nat)

  /** First block after the boot block, the super block, the log, the inodes and the free map. */
  function DataStart(sb: Super): nat {
    sb.bmapstart + sb.size / BPB + 1
  }

  predicate Fits(sb: Super) {
    && 1 < sb.inodestart && 0 < sb.ninodes
    && sb.inodestart + sb.ninodes / IPB + 1 <= sb.bmapstart && DataStart(sb) <= sb.size < UINT
  }

  function IBlock(sb: Super, i: nat): nat {
    i / IPB + sb.inodestart
  }

  function BBlock(sb: Super, b: nat): nat {
    b / BPB + sb.bmapstart
  }

  /** What a block is for: nothing, the boot block to the free map, about to be used, block n of file i,
      or the indirect block of file i. */
  datatype Use = Free | Meta | Held | Data(i: int, n: int) | Indirect(i: int)

  ghost predicate Blocks(disk: Disk) {
    forall b :: 0 <= b < |disk| ==> |disk[b]| == BSIZE
  }

  /** The block that holds part n of the file, or 0. */
  ghost function BlockAt(disk: Disk, d: Dinode, n: int): int
    requires Blocks(disk) && |d.addrs| == NDIRECT + 1 && 0 <= n < MAXFILE
  {
    var t := d.addrs[NDIRECT];
    if n < NDIRECT then d.addrs[n] else if t == 0 || !(0 <= t < |disk|) then 0 else Word(disk[t], n - NDIRECT)
  }

  ghost predicate BitAt(sb: Super, disk: Disk, b: nat)
    requires Blocks(disk) && BBlock(sb, b) < |disk|
  {
    Bit(disk[BBlock(sb, b)], b % BPB)
  }

  ghost predicate Shape(sb: Super, disk: Disk, ino: seq<Dinode>, use: seq<Use>) {
    && Fits(sb) && |disk| == sb.size && |use| == sb.size && |ino| == sb.ninodes && Blocks(disk)
    && forall i :: 0 <= i < |ino| ==> WellFormed(ino[i])
  }

  ghost predicate Down(sb: Super, disk: Disk, ino: seq<Dinode>, use: seq<Use>)
    requires Shape(sb, disk, ino, use)
  {
    && (forall i, n :: 0 <= i < |ino| && 0 <= n < MAXFILE && BlockAt(disk, ino[i], n) != 0 ==>
      0 < BlockAt(disk, ino[i], n) < sb.size && use[BlockAt(disk, ino[i], n)] == Data(i, n))
    && (forall i :: 0 <= i < |ino| && ino[i].addrs[NDIRECT] != 0 ==>
      0 < ino[i].addrs[NDIRECT] < sb.size && use[ino[i].addrs[NDIRECT]] == Indirect(i))
  }

  ghost predicate Placed(sb: Super, disk: Disk, ino: seq<Dinode>, use: seq<Use>, b: int)
    requires Shape(sb, disk, ino, use) && 0 <= b < sb.size
  {
    && (use[b].Data? ==>
      0 <= use[b].i < |ino| && 0 <= use[b].n < MAXFILE && BlockAt(disk, ino[use[b].i], use[b].n) == b)
    && (use[b].Indirect? ==> 0 <= use[b].i < |ino| && ino[use[b].i].addrs[NDIRECT] == b)
    && (use[b].Meta? <==> b < DataStart(sb))
  }

  ghost predicate Up(sb: Super, disk: Disk, ino: seq<Dinode>, use: seq<Use>)
    requires Shape(sb, disk, ino, use)
  {
    forall b :: 0 <= b < sb.size ==> Placed(sb, disk, ino, use, b)
  }

  /** The free map is exact. */
  ghost predicate Exact(sb: Super, disk: Disk, use: seq<Use>)
    requires Fits(sb) && |disk| == sb.size && |use| == sb.size && Blocks(disk)
  {
    forall b :: 0 <= b < sb.size ==> BitAt(sb, disk, b) == !use[b].Free?
  }

  /** Every block is used as `use` says, and the free map has it so. */
  ghost predicate Laid(sb: Super, disk: Disk, ino: seq<Dinode>, use: seq<Use>) {
    Shape(sb, disk, ino, use) && Down(sb, disk, ino, use) && Up(sb, disk, ino, use) && Exact(sb, disk, use)
  }

  ghost predicate Sound(sb: Super, disk: Disk, ino: seq<Dinode>, use: seq<Use>) {
    && Shape(sb, disk, ino, use)
    && (forall i :: 0 <= i < |ino| && ino[i].addrs[NDIRECT] != 0 ==> 0 < ino[i].addrs[NDIRECT] < sb.size)
    && forall u :: Show(Uses, u) ==> Laid(sb, disk, ino, use)
  }

  ghost predicate SameIndirect(disk: Disk, disk': Disk, use: seq<Use>) {
    |disk'| == |disk| == |use| && forall b :: 0 <= b < |use| && use[b].Indirect? ==> disk'[b] == disk[b]
  }

  lemma SameBlockAt(sb: Super, disk: Disk, disk': Disk, ino: seq<Dinode>, use: seq<Use>, i: int, n: int)
    requires Sound(sb, disk, ino, use) && SameIndirect(disk, disk', use)
    requires Blocks(disk') && 0 <= i < |ino| && 0 <= n < MAXFILE
    ensures BlockAt(disk', ino[i], n) == BlockAt(disk, ino[i], n)
  {
    assert Show(Uses, 0);
    assert ino[i].addrs[NDIRECT] != 0 ==> use[ino[i].addrs[NDIRECT]] == Indirect(i);
  }

  /** Writes to other blocks leave the links alone. */
  lemma KeepSound(sb: Super, disk: Disk, disk': Disk, ino: seq<Dinode>, use: seq<Use>)
    requires Sound(sb, disk, ino, use) && SameIndirect(disk, disk', use) && Blocks(disk') && Exact(sb, disk', use)
    ensures Sound(sb, disk', ino, use)
  {
    assert Show(Uses, 0);
    forall i, n | 0 <= i < |ino| && 0 <= n < MAXFILE
      ensures BlockAt(disk', ino[i], n) == BlockAt(disk, ino[i], n)
    {
      SameBlockAt(sb, disk, disk', ino, use, i, n);
    }
    forall b | 0 <= b < sb.size
      ensures Placed(sb, disk', ino, use, b)
    {
      assert Placed(sb, disk, ino, use, b);
    }
  }

  /** The free map is in blocks of its own. */
  lemma SameMap(sb: Super, disk: Disk, use: seq<Use>, b: int, c: Block)
    requires Fits(sb) && |disk| == sb.size && |use| == sb.size && Blocks(disk) && Exact(sb, disk, use)
    requires 0 <= b < sb.size && !(sb.bmapstart <= b < DataStart(sb)) && |c| == BSIZE
    ensures Blocks(disk[b := c]) && Exact(sb, disk[b := c], use)
  {
    forall x | 0 <= x < sb.size
      ensures BitAt(sb, disk[b := c], x) == !use[x].Free?
    {
      assert BitAt(sb, disk, x) == !use[x].Free?;
    }
  }

  /** A block that is not in the free map and not indirect may be written. */
  lemma WriteBlock(sb: Super, disk: Disk, ino: seq<Dinode>, use: seq<Use>, b: int, c: Block)
    requires Sound(sb, disk, ino, use) && 0 <= b < sb.size
    requires !(sb.bmapstart <= b < DataStart(sb)) && !use[b].Indirect? && |c| == BSIZE
    ensures Sound(sb, disk[b := c], ino, use)
  {
    assert Show(Uses, 0);
    SameMap(sb, disk, use, b, c);
    KeepSound(sb, disk, disk[b := c], ino, use);
  }

  ghost predicate MapSet(sb: Super, disk: Disk, b: int, m: Block, v: bool)
    requires Fits(sb) && |disk| == sb.size && Blocks(disk) && 0 <= b < sb.size
  {
    |m| == BSIZE && forall j :: 0 <= j < BPB ==> Bit(m, j) == if j == b % BPB then v else Bit(disk[BBlock(sb, b)], j)
  }

  /** Setting or clearing the bit of a block that nothing refers to. */
  lemma SetUseLaid(sb: Super, disk: Disk, ino: seq<Dinode>, use: seq<Use>, b: int, m: Block, u: Use)
    requires Laid(sb, disk, ino, use) && DataStart(sb) <= b < sb.size && !use[b].Data? && !use[b].Indirect?
    requires u.Free? || u.Held?
    requires MapSet(sb, disk, b, m, u.Held?)
    ensures Laid(sb, disk[BBlock(sb, b) := m], ino, use[b := u])
  {
    var disk', use' := disk[BBlock(sb, b) := m], use[b := u];
    assert Placed(sb, disk, ino, use, BBlock(sb, b));
    forall x | 0 <= x < sb.size
      ensures BitAt(sb, disk', x) == !use'[x].Free?
    {
      assert BitAt(sb, disk, x) == !use[x].Free?;
    }
    forall i, n | 0 <= i < |ino| && 0 <= n < MAXFILE
      ensures BlockAt(disk', ino[i], n) == BlockAt(disk, ino[i], n)
    {
      SameBlockAt(sb, disk, disk', ino, use, i, n);
    }
    forall x | 0 <= x < sb.size
      ensures Placed(sb, disk', ino, use', x)
    {
      assert Placed(sb, disk, ino, use, x);
    }
  }

  lemma SetUse(sb: Super, disk: Disk, ino: seq<Dinode>, use: seq<Use>, b: int, m: Block, u: Use)
    requires Sound(sb, disk, ino, use) && DataStart(sb) <= b < sb.size && !use[b].Data? && !use[b].Indirect?
    requires u.Free? || u.Held?
    requires MapSet(sb, disk, b, m, u.Held?)
    ensures Sound(sb, disk[BBlock(sb, b) := m], ino, use[b := u])
  {
    assert Show(Uses, 0);
    SetUseLaid(sb, disk, ino, use, b, m, u);
  }

  function SetAddr(d: Dinode, k: nat, b: int): Dinode
    requires k < |d.addrs|
  {
    d.(addrs := d.addrs[k := b])
  }

  lemma LinkDirectLaid(sb: Super, disk: Disk, ino: seq<Dinode>, use: seq<Use>, i: int, n: nat, b: int)
    requires Laid(sb, disk, ino, use) && 0 <= i < |ino| && n < NDIRECT && ino[i].addrs[n] == 0
    requires 0 < b < sb.size && use[b].Held?
    ensures Laid(sb, disk, ino[i := SetAddr(ino[i], n, b)], use[b := Data(i, n)])
  {
    var ino', use' := ino[i := SetAddr(ino[i], n, b)], use[b := Data(i, n)];
    forall k, m | 0 <= k < |ino| && 0 <= m < MAXFILE
      ensures BlockAt(disk, ino'[k], m) == if k == i && m == n then b else BlockAt(disk, ino[k], m)
    {
    }
    forall x | 0 <= x < sb.size
      ensures Placed(sb, disk, ino', use', x)
    {
      assert Placed(sb, disk, ino, use, x);
    }
    assert Exact(sb, disk, use');
    assert Down(sb, disk, ino', use') && Up(sb, disk, ino', use');
  }

  lemma LinkDirect(sb: Super, disk: Disk, ino: seq<Dinode>, use: seq<Use>, i: int, n: nat, b: int)
    requires Sound(sb, disk, ino, use) && 0 <= i < |ino| && n < NDIRECT && ino[i].addrs[n] == 0
    requires 0 < b < sb.size && use[b].Held?
    ensures Sound(sb, disk, ino[i := SetAddr(ino[i], n, b)], use[b := Data(i, n)])
  {
    assert Show(Uses, 0);
    LinkDirectLaid(sb, disk, ino, use, i, n, b);
  }

  lemma LinkIndirectLaid(sb: Super, disk: Disk, ino: seq<Dinode>, use: seq<Use>, i: int, b: int)
    requires Laid(sb, disk, ino, use) && 0 <= i < |ino| && ino[i].addrs[NDIRECT] == 0
    requires 0 < b < sb.size && use[b].Held? && forall j :: 0 <= j < NINDIRECT ==> Word(disk[b], j) == 0
    ensures Laid(sb, disk, ino[i := SetAddr(ino[i], NDIRECT, b)], use[b := Indirect(i)])
  {
    var ino', use' := ino[i := SetAddr(ino[i], NDIRECT, b)], use[b := Indirect(i)];
    forall k, m | 0 <= k < |ino| && 0 <= m < MAXFILE
      ensures BlockAt(disk, ino'[k], m) == BlockAt(disk, ino[k], m)
    {
    }
    forall x | 0 <= x < sb.size
      ensures Placed(sb, disk, ino', use', x)
    {
      assert Placed(sb, disk, ino, use, x);
    }
    assert Exact(sb, disk, use');
    assert Down(sb, disk, ino', use') && Up(sb, disk, ino', use');
  }

  lemma LinkIndirect(sb: Super, disk: Disk, ino: seq<Dinode>, use: seq<Use>, i: int, b: int)
    requires Sound(sb, disk, ino, use) && 0 <= i < |ino| && ino[i].addrs[NDIRECT] == 0
    requires 0 < b < sb.size && use[b].Held? && forall j :: 0 <= j < NINDIRECT ==> Word(disk[b], j) == 0
    ensures Sound(sb, disk, ino[i := SetAddr(ino[i], NDIRECT, b)], use[b := Indirect(i)])
  {
    assert Show(Uses, 0);
    LinkIndirectLaid(sb, disk, ino, use, i, b);
  }

  ghost predicate WordSet(c: Block, c': Block, j: int, w: int) {
    && |c| == BSIZE && |c'| == BSIZE
    && forall k :: 0 <= k < NINDIRECT ==> Word(c', k) == if k == j then w else Word(c, k)
  }

  lemma LinkEntryLaid(sb: Super, disk: Disk, ino: seq<Dinode>, use: seq<Use>, i: int, n: nat, c: Block, b: int)
    requires Laid(sb, disk, ino, use) && 0 <= i < |ino| && NDIRECT <= n < MAXFILE && ino[i].addrs[NDIRECT] != 0
    requires BlockAt(disk, ino[i], n) == 0 && 0 < b < sb.size && use[b].Held?
    requires WordSet(disk[ino[i].addrs[NDIRECT]], c, n - NDIRECT, b)
    ensures Laid(sb, disk[ino[i].addrs[NDIRECT] := c], ino, use[b := Data(i, n)])
  {
    var t := ino[i].addrs[NDIRECT];
    var disk', use' := disk[t := c], use[b := Data(i, n)];
    assert Placed(sb, disk, ino, use, t);
    SameMap(sb, disk, use, t, c);
    assert forall x :: 0 <= x < sb.size ==> BitAt(sb, disk', x) == !use'[x].Free?;
    forall k, m | 0 <= k < |ino| && 0 <= m < MAXFILE
      ensures BlockAt(disk', ino[k], m) == if k == i && m == n then b else BlockAt(disk, ino[k], m)
    {
      var s := ino[k].addrs[NDIRECT];
      assert s != 0 ==> use[s] == Indirect(k);
    }
    forall x | 0 <= x < sb.size
      ensures Placed(sb, disk', ino, use', x)
    {
      assert Placed(sb, disk, ino, use, x);
    }
  }

  lemma LinkEntry(sb: Super, disk: Disk, ino: seq<Dinode>, use: seq<Use>, i: int, n: nat, c: Block, b: int)
    requires Sound(sb, disk, ino, use) && 0 <= i < |ino| && NDIRECT <= n < MAXFILE && ino[i].addrs[NDIRECT] != 0
    requires BlockAt(disk, ino[i], n) == 0 && 0 < b < sb.size && use[b].Held?
    requires WordSet(disk[ino[i].addrs[NDIRECT]], c, n - NDIRECT, b)
    ensures Sound(sb, disk[ino[i].addrs[NDIRECT] := c], ino, use[b := Data(i, n)])
  {
    assert Show(Uses, 0);
    LinkEntryLaid(sb, disk, ino, use, i, n, c, b);
  }

  /** Nothing a reader of the file can see has changed. */
  ghost predicate SameFile(disk: Disk, d: Dinode, disk': Disk, d': Dinode) {
    && d' == d && Blocks(disk) && Blocks(disk') && |disk'| == |disk| && |d.addrs| == NDIRECT + 1
    && forall n :: 0 <= n < MAXFILE ==> SamePart(disk, d, disk', n)
  }

  ghost predicate SamePart(disk: Disk, d: Dinode, disk': Disk, n: int)
    requires Blocks(disk) && Blocks(disk') && |disk'| == |disk| && |d.addrs| == NDIRECT + 1 && 0 <= n < MAXFILE
  {
    var a := BlockAt(disk, d, n);
    BlockAt(disk', d, n) == a && (0 < a < |disk| ==> disk'[a] == disk[a])
  }

  /** The files other than i are as they were. */
  ghost predicate Others(disk: Disk, ino: seq<Dinode>, disk': Disk, ino': seq<Dinode>, i: int) {
    |ino'| == |ino| && forall u :: Show(OtherFiles, u) ==> forall k :: 0 <= k < |ino| && k != i ==>
      SameFile(disk, ino[k], disk', ino'[k])
  }

  lemma OthersThen(disk0: Disk, ino0: seq<Dinode>, disk1: Disk, ino1: seq<Dinode>, disk2: Disk, ino2: seq<Dinode>,
      i: int)
    requires Others(disk0, ino0, disk1, ino1, i) && Others(disk1, ino1, disk2, ino2, i)
    ensures Others(disk0, ino0, disk2, ino2, i)
  {
    assert Show(OtherFiles, 0);
    forall k | 0 <= k < |ino0| && k != i
      ensures SameFile(disk0, ino0[k], disk2, ino2[k])
    {
      forall n | 0 <= n < MAXFILE
        ensures SamePart(disk0, ino0[k], disk2, n)
      {
        assert SamePart(disk0, ino0[k], disk1, n) && SamePart(disk1, ino1[k], disk2, n);
      }
    }
  }

  /** Blocks of other files, and all indirect blocks of other files, are unchanged. */
  lemma OthersKept(sb: Super, disk: Disk, disk': Disk, ino: seq<Dinode>, ino': seq<Dinode>, use: seq<Use>, i: int)
    requires Sound(sb, disk, ino, use) && |disk'| == |disk| && Blocks(disk') && |ino'| == |ino|
    requires forall k :: 0 <= k < |ino| && k != i ==> ino'[k] == ino[k]
    requires forall b :: 0 <= b < sb.size && (use[b].Data? || use[b].Indirect?) && use[b].i != i ==> disk'[b] == disk[b]
    ensures Others(disk, ino, disk', ino', i)
  {
    assert Show(Uses, 0);
    forall k | 0 <= k < |ino| && k != i
      ensures SameFile(disk, ino[k], disk', ino'[k])
    {
      assert ino[k].addrs[NDIRECT] != 0 ==> use[ino[k].addrs[NDIRECT]] == Indirect(k);
      forall n | 0 <= n < MAXFILE
        ensures SamePart(disk, ino[k], disk', n)
      {
        assert BlockAt(disk, ino[k], n) != 0 ==> use[BlockAt(disk, ino[k], n)] == Data(k, n);
      }
    }
  }

  /** The file may have gained blocks of zeros and is otherwise the same. */
  ghost predicate Extends(disk: Disk, d: Dinode, disk': Disk, d': Dinode) {
    && Blocks(disk) && Blocks(disk') && |disk'| == |disk| && |d.addrs| == NDIRECT + 1 && |d'.addrs| == NDIRECT + 1
    && d' == d.(addrs := d'.addrs)
    && forall n :: 0 <= n < MAXFILE ==> ExtendsPart(disk, d, disk', d', n)
  }

  ghost predicate ExtendsPart(disk: Disk, d: Dinode, disk': Disk, d': Dinode, n: int)
    requires Blocks(disk) && Blocks(disk') && |disk'| == |disk| && |d.addrs| == NDIRECT + 1 && |d'.addrs| == NDIRECT + 1
    requires 0 <= n < MAXFILE
  {
    var a, a' := BlockAt(disk, d, n), BlockAt(disk', d', n);
    if a != 0 then a' == a && (0 < a < |disk| ==> disk'[a] == disk[a]) else 0 < a' < |disk| ==> disk'[a'] == Zero()
  }

  lemma ExtendsThen(disk0: Disk, d0: Dinode, disk1: Disk, d1: Dinode, disk2: Disk, d2: Dinode)
    requires Extends(disk0, d0, disk1, d1) && Extends(disk1, d1, disk2, d2)
    ensures Extends(disk0, d0, disk2, d2)
  {
    forall n | 0 <= n < MAXFILE
      ensures ExtendsPart(disk0, d0, disk2, d2, n)
    {
      assert ExtendsPart(disk0, d0, disk1, d1, n) && ExtendsPart(disk1, d1, disk2, d2, n);
    }
  }

  /** What readers and the inode blocks see of a new block: nothing. */
  lemma Taken(sb: Super, disk: Disk, ino: seq<Dinode>, use: seq<Use>, b: int, m: Block)
    requires Sound(sb, disk, ino, use) && 0 <= b < sb.size && use[b].Free? && MapSet(sb, disk, b, m, true)
    ensures var disk' := disk[BBlock(sb, b) := m][b := Zero()];
      Sound(sb, disk', ino, use[b := Held]) && Others(disk, ino, disk', ino, -1) && DataStart(sb) <= b
  {
    assert Show(Uses, 0);
    assert Placed(sb, disk, ino, use, b) && Placed(sb, disk, ino, use, BBlock(sb, b));
    SetUse(sb, disk, ino, use, b, m, Held);
    WriteBlock(sb, disk[BBlock(sb, b) := m], ino, use[b := Held], b, Zero());
    OthersKept(sb, disk, disk[BBlock(sb, b) := m][b := Zero()], ino, ino, use, -1);
  }

  lemma OthersAll(disk: Disk, ino: seq<Dinode>, disk': Disk, i: int)
    requires Others(disk, ino, disk', ino, -1) && 0 <= i < |ino|
    ensures Others(disk, ino, disk', ino, i) && Extends(disk, ino[i], disk', ino[i])
  {
    assert Show(OtherFiles, 0);
    assert SameFile(disk, ino[i], disk', ino[i]);
    forall n | 0 <= n < MAXFILE
      ensures ExtendsPart(disk, ino[i], disk', ino[i], n)
    {
      assert SamePart(disk, ino[i], disk', n);
    }
  }

  /** The blocks logged since are in the free map, or the indirect block or one of the parts lo, ...,
      hi - 1 of file i. */
  ghost predicate LoggedIn(sb: Super, use: seq<Use>, logged: set<int>, logged': set<int>, i: int, lo: int, hi: int) {
    forall u :: Show(Loggings, u) ==> forall x :: x in logged' && x !in logged ==> Target(sb, use, i, lo, hi, x)
  }

  predicate Target(sb: Super, use: seq<Use>, i: int, lo: int, hi: int, x: int) {
    && 0 <= x < |use|
    && (sb.bmapstart <= x < DataStart(sb) || use[x] == Indirect(i) ||
        (use[x].Data? && use[x].i == i && lo <= use[x].n < hi))
  }

  ghost predicate SameInodeBlocks(sb: Super, disk: Disk, disk': Disk) {
    |disk'| == |disk| && forall b :: 0 <= b < sb.bmapstart && b < |disk| ==> disk'[b] == disk[b]
  }

  ghost predicate UsesStay(use: seq<Use>, use': seq<Use>) {
    |use'| == |use| && forall b :: 0 <= b < |use| && !use[b].Free? ==> use'[b] == use[b]
  }

  /** What bmap may do for file i: give it blocks. */
  ghost predicate Gains(sb: Super, disk: Disk, ino: seq<Dinode>, use: seq<Use>, disk': Disk, ino': seq<Dinode>,
      use': seq<Use>, i: int) {
    && UsesStay(use, use') && SameInodeBlocks(sb, disk, disk')
    && Others(disk, ino, disk', ino', i) && 0 <= i < |ino| && Extends(disk, ino[i], disk', ino'[i])
  }

  lemma GainsThen(sb: Super, disk0: Disk, ino0: seq<Dinode>, use0: seq<Use>, disk1: Disk, ino1: seq<Dinode>,
      use1: seq<Use>, disk2: Disk, ino2: seq<Dinode>, use2: seq<Use>, i: int)
    requires Gains(sb, disk0, ino0, use0, disk1, ino1, use1, i) && Gains(sb, disk1, ino1, use1, disk2, ino2, use2, i)
    ensures Gains(sb, disk0, ino0, use0, disk2, ino2, use2, i)
  {
    OthersThen(disk0, ino0, disk1, ino1, disk2, ino2, i);
    ExtendsThen(disk0, ino0[i], disk1, ino1[i], disk2, ino2[i]);
  }

  lemma GainsNothing(sb: Super, disk: Disk, ino: seq<Dinode>, use: seq<Use>, i: int)
    requires Sound(sb, disk, ino, use) && 0 <= i < |ino|
    ensures Gains(sb, disk, ino, use, disk, ino, use, i)
  {
    OthersKept(sb, disk, disk, ino, ino, use, -1);
    OthersAll(disk, ino, disk, i);
  }

  lemma GainsDirect(sb: Super, disk: Disk, ino: seq<Dinode>, use: seq<Use>, i: int, n: nat, b: int)
    requires Sound(sb, disk, ino, use) && 0 <= i < |ino| && n < NDIRECT && ino[i].addrs[n] == 0
    requires 0 < b < sb.size && disk[b] == Zero() && use[b].Held?
    ensures Others(disk, ino, disk, ino[i := SetAddr(ino[i], n, b)], i)
    ensures Extends(disk, ino[i], disk, SetAddr(ino[i], n, b))
  {
    OthersKept(sb, disk, disk, ino, ino[i := SetAddr(ino[i], n, b)], use, i);
  }

  lemma GainsIndirect(sb: Super, disk: Disk, ino: seq<Dinode>, use: seq<Use>, i: int, b: int)
    requires Sound(sb, disk, ino, use) && 0 <= i < |ino| && ino[i].addrs[NDIRECT] == 0
    requires 0 < b < sb.size && disk[b] == Zero() && use[b].Held?
    ensures Others(disk, ino, disk, ino[i := SetAddr(ino[i], NDIRECT, b)], i)
    ensures Extends(disk, ino[i], disk, SetAddr(ino[i], NDIRECT, b))
  {
    OthersKept(sb, disk, disk, ino, ino[i := SetAddr(ino[i], NDIRECT, b)], use, i);
    ZeroWords();
  }

  lemma EntryPart(sb: Super, disk: Disk, ino: seq<Dinode>, use: seq<Use>, i: int, n: nat, c: Block, b: int, m: int)
    requires Sound(sb, disk, ino, use) && 0 <= i < |ino|
    requires NDIRECT <= n < MAXFILE && 0 < ino[i].addrs[NDIRECT] < sb.size
    requires BlockAt(disk, ino[i], n) == 0 && 0 < b < sb.size && disk[b] == Zero() && use[b].Held? && 0 <= m < MAXFILE
    requires use[ino[i].addrs[NDIRECT]] == Indirect(i)
    requires WordSet(disk[ino[i].addrs[NDIRECT]], c, n - NDIRECT, b)
    ensures ExtendsPart(disk, ino[i], disk[ino[i].addrs[NDIRECT] := c], ino[i], m)
  {
    assert Show(Uses, 0);
    var a := BlockAt(disk, ino[i], m);
    assert a != 0 ==> 0 < a < sb.size && use[a] == Data(i, m);
    assert BlockAt(disk[ino[i].addrs[NDIRECT] := c], ino[i], m) == if m == n then b else a;
  }

  lemma GainsEntry(sb: Super, disk: Disk, ino: seq<Dinode>, use: seq<Use>, i: int, n: nat, c: Block, b: int)
    requires Sound(sb, disk, ino, use) && 0 <= i < |ino| && NDIRECT <= n < MAXFILE && ino[i].addrs[NDIRECT] != 0
    requires BlockAt(disk, ino[i], n) == 0 && 0 < b < sb.size && disk[b] == Zero() && use[b].Held?
    requires WordSet(disk[ino[i].addrs[NDIRECT]], c, n - NDIRECT, b)
    ensures Others(disk, ino, disk[ino[i].addrs[NDIRECT] := c], ino, i)
    ensures Extends(disk, ino[i], disk[ino[i].addrs[NDIRECT] := c], ino[i])
    ensures SameInodeBlocks(sb, disk, disk[ino[i].addrs[NDIRECT] := c])
  {
    assert Show(Uses, 0);
    var t := ino[i].addrs[NDIRECT];
    var disk' := disk[t := c];
    assert use[t] == Indirect(i) && Placed(sb, disk, ino, use, t);
    OthersKept(sb, disk, disk', ino, ino, use, i);
    var d := ino[i];
    forall m | 0 <= m < MAXFILE
      ensures ExtendsPart(disk, d, disk', d, m)
    {
      EntryPart(sb, disk, ino, use, i, n, c, b, m);
    }
  }

  /** The state after balloc has returned block a to bmap. */
  ghost predicate JustTaken(sb: Super, disk: Disk, ino: seq<Dinode>, use: seq<Use>, disk': Disk, a: int) {
    && |use| == sb.size && DataStart(sb) <= a < sb.size && use[a].Free?
    && Sound(sb, disk', ino, use[a := Held]) && disk'[a] == Zero()
    && Others(disk, ino, disk', ino, -1) && SameInodeBlocks(sb, disk, disk')
  }

  lemma SameParts(disk: Disk, ino: seq<Dinode>, disk': Disk, i: int, n: int)
    requires Others(disk, ino, disk', ino, -1) && 0 <= i < |ino| && 0 <= n < MAXFILE
    ensures Blocks(disk) && Blocks(disk') && |ino[i].addrs| == NDIRECT + 1
    ensures BlockAt(disk', ino[i], n) == BlockAt(disk, ino[i], n)
  {
    assert Show(OtherFiles, 0);
    assert SameFile(disk, ino[i], disk', ino[i]);
    assert SamePart(disk, ino[i], disk', n);
  }

  lemma DirectDone(sb: Super, disk: Disk, ino: seq<Dinode>, use: seq<Use>, disk': Disk, i: int, n: nat, a: int)
    requires JustTaken(sb, disk, ino, use, disk', a) && 0 <= i < |ino| && n < NDIRECT && ino[i].addrs[n] == 0
    ensures var ino', use' := ino[i := SetAddr(ino[i], n, a)], use[a := Data(i, n)];
      Sound(sb, disk', ino', use') && Gains(sb, disk, ino, use, disk', ino', use', i)
  {
    OthersAll(disk, ino, disk', i);
    LinkDirect(sb, disk', ino, use[a := Held], i, n, a);
    GainsDirect(sb, disk', ino, use[a := Held], i, n, a);
    var ino' := ino[i := SetAddr(ino[i], n, a)];
    OthersThen(disk, ino, disk', ino, disk', ino', i);
    ExtendsThen(disk, ino[i], disk', ino[i], disk', ino'[i]);
    assert use[a := Held][a := Data(i, n)] == use[a := Data(i, n)];
  }

  lemma IndirectDone(sb: Super, disk: Disk, ino: seq<Dinode>, use: seq<Use>, disk': Disk, i: int, a: int)
    requires JustTaken(sb, disk, ino, use, disk', a) && 0 <= i < |ino| && ino[i].addrs[NDIRECT] == 0
    ensures var ino', use' := ino[i := SetAddr(ino[i], NDIRECT, a)], use[a := Indirect(i)];
      Sound(sb, disk', ino', use') && Gains(sb, disk, ino, use, disk', ino', use', i)
  {
    OthersAll(disk, ino, disk', i);
    ZeroWords();
    LinkIndirect(sb, disk', ino, use[a := Held], i, a);
    GainsIndirect(sb, disk', ino, use[a := Held], i, a);
    var ino' := ino[i := SetAddr(ino[i], NDIRECT, a)];
    OthersThen(disk, ino, disk', ino, disk', ino', i);
    ExtendsThen(disk, ino[i], disk', ino[i], disk', ino'[i]);
    assert use[a := Held][a := Indirect(i)] == use[a := Indirect(i)];
  }

  lemma EntryDone(sb: Super, disk: Disk, ino: seq<Dinode>, use: seq<Use>, disk': Disk, i: int, n: nat, c: Block, a: int)
    requires JustTaken(sb, disk, ino, use, disk', a) && 0 <= i < |ino|
    requires NDIRECT <= n < MAXFILE && ino[i].addrs[NDIRECT] != 0
    requires BlockAt(disk', ino[i], n) == 0 && WordSet(disk'[ino[i].addrs[NDIRECT]], c, n - NDIRECT, a)
    ensures var disk2, use' := disk'[ino[i].addrs[NDIRECT] := c], use[a := Data(i, n)];
      Sound(sb, disk2, ino, use') && Gains(sb, disk, ino, use, disk2, ino, use', i)
  {
    assert Show(Uses, 0);
    OthersAll(disk, ino, disk', i);
    LinkEntry(sb, disk', ino, use[a := Held], i, n, c, a);
    GainsEntry(sb, disk', ino, use[a := Held], i, n, c, a);
    var disk2 := disk'[ino[i].addrs[NDIRECT] := c];
    OthersThen(disk, ino, disk', ino, disk2, ino, i);
    ExtendsThen(disk, ino[i], disk', ino[i], disk2, ino[i]);
    assert use[a := Held][a := Data(i, n)] == use[a := Data(i, n)];
  }

  lemma LoggedMore(sb: Super, use1: seq<Use>, use2: seq<Use>, l0: set<int>, l1: set<int>, l2: set<int>, i: int, lo: int,
      hi: int, n: int)
    requires LoggedIn(sb, use1, l0, l1, i, lo, hi) && UsesStay(use1, use2)
    requires LoggedIn(sb, use2, l1, l2, i, n, n + 1) && lo <= n < hi
    ensures LoggedIn(sb, use2, l0, l2, i, lo, hi)
  {
    assert forall x :: Target(sb, use1, i, lo, hi, x) ==> Target(sb, use2, i, lo, hi, x);
    assert forall x :: Target(sb, use2, i, n, n + 1, x) ==> Target(sb, use2, i, lo, hi, x);
  }

  const MAXSIZE: nat := MAXFILE * BSIZE

  /** Byte k of a file; a part without a block reads as zeros. */
  ghost function ByteAt(disk: Disk, d: Dinode, k: int): int
    requires Blocks(disk) && |d.addrs| == NDIRECT + 1 && 0 <= k < MAXSIZE
  {
    var a := BlockAt(disk, d, k / BSIZE);
    if 0 < a < |disk| then disk[a][k % BSIZE] else 0
  }

  ghost predicate NoHoles(disk: Disk, d: Dinode) {
    && Blocks(disk) && |d.addrs| == NDIRECT + 1 && 0 <= d.size <= MAXSIZE
    && forall k :: 0 <= k < d.size ==> BlockAt(disk, d, k / BSIZE) != 0
  }

  /** The contents of a file. */
  ghost function Content(disk: Disk, d: Dinode): seq<int>
    requires Blocks(disk) && |d.addrs| == NDIRECT + 1 && 0 <= d.size <= MAXSIZE
  {
    seq(d.size, k requires 0 <= k < d.size => ByteAt(disk, d, k))
  }

  /** Bytes lo, ..., hi - 1 of the file are now those of src; the other bytes are as before, and no part
      has lost its block. */
  ghost predicate Overwrites(disk: Disk, d: Dinode, disk': Disk, d': Dinode, lo: int, hi: int, src: seq<int>) {
    && Blocks(disk) && Blocks(disk') && |d.addrs| == NDIRECT + 1 && |d'.addrs| == NDIRECT + 1
    && d' == d.(addrs := d'.addrs) && lo <= hi <= lo + |src|
    && (forall n :: 0 <= n < MAXFILE && BlockAt(disk, d, n) != 0 ==> BlockAt(disk', d', n) == BlockAt(disk, d, n))
    && (forall k :: 0 <= k < MAXSIZE ==>
      ByteAt(disk', d', k) == if lo <= k < hi then src[k - lo] else ByteAt(disk, d, k))
  }

  lemma ExtendsBytes(sb: Super, disk: Disk, d: Dinode, disk': Disk, d': Dinode, lo: int, src: seq<int>)
    requires Extends(disk, d, disk', d')
    ensures Overwrites(disk, d, disk', d', lo, lo, src)
  {
    forall n | 0 <= n < MAXFILE
      ensures BlockAt(disk, d, n) != 0 ==> BlockAt(disk', d', n) == BlockAt(disk, d, n)
    {
      assert ExtendsPart(disk, d, disk', d', n);
    }
    forall k | 0 <= k < MAXSIZE
      ensures ByteAt(disk', d', k) == ByteAt(disk, d, k)
    {
      assert ExtendsPart(disk, d, disk', d', k / BSIZE);
    }
  }

  lemma OverwritesThen(disk0: Disk, d0: Dinode, disk1: Disk, d1: Dinode, disk2: Disk, d2: Dinode, lo: int, mid: int,
      hi: int, src: seq<int>)
    requires Overwrites(disk0, d0, disk1, d1, lo, mid, src) && mid <= hi <= lo + |src|
    requires Overwrites(disk1, d1, disk2, d2, mid, hi, src[mid - lo..])
    ensures Overwrites(disk0, d0, disk2, d2, lo, hi, src)
  {
  }

  /** Part of a block replaced. */
  function Patch(b: Block, o: nat, src: seq<Byte>): (r: Block)
    requires o + |src| <= |b|
    ensures |r| == |b| && forall k :: 0 <= k < |b| ==> r[k] == if o <= k < o + |src| then src[k - o] else b[k]
  {
    b[..o] + src + b[o + |src|..]
  }

  lemma WriteChunk(sb: Super, disk: Disk, ino: seq<Dinode>, use: seq<Use>, i: int, off: nat, src: seq<Byte>)
    requires Sound(sb, disk, ino, use) && 0 <= i < |ino| && off < MAXSIZE && off % BSIZE + |src| <= BSIZE
    requires BlockAt(disk, ino[i], off / BSIZE) != 0
    ensures var a := BlockAt(disk, ino[i], off / BSIZE);
      && 0 < a < |disk| && use[a] == Data(i, off / BSIZE) && DataStart(sb) <= a
      && var disk' := disk[a := Patch(disk[a], off % BSIZE, src)];
      && Sound(sb, disk', ino, use) && Others(disk, ino, disk', ino, i)
      && Overwrites(disk, ino[i], disk', ino[i], off, off + |src|, src)
  {
    assert Show(Uses, 0);
    var a := BlockAt(disk, ino[i], off / BSIZE);
    assert use[a] == Data(i, off / BSIZE);
    assert Placed(sb, disk, ino, use, a);
    var c := Patch(disk[a], off % BSIZE, src);
    var disk' := disk[a := c];
    WriteBlock(sb, disk, ino, use, a, c);
    OthersKept(sb, disk, disk', ino, ino, use, i);
    forall n | 0 <= n < MAXFILE
      ensures BlockAt(disk', ino[i], n) == BlockAt(disk, ino[i], n)
      ensures BlockAt(disk, ino[i], n) == a ==> n == off / BSIZE
    {
      SameBlockAt(sb, disk, disk', ino, use, i, n);
    }
    forall k | 0 <= k < MAXSIZE
      ensures ByteAt(disk', ino[i], k) == if off <= k < off + |src| then src[k - off] else ByteAt(disk, ino[i], k)
    {
      assert k / BSIZE == off / BSIZE ==> (off <= k < off + |src| <==> off % BSIZE <= k % BSIZE < off % BSIZE + |src|);
    }
  }

  /** Dinode i as it is on disk. */
  ghost function OnDisk(sb: Super, disk: Disk, i: nat): Dinode
    requires Fits(sb) && |disk| == sb.size && Blocks(disk) && i < sb.ninodes
  {
    Inode(disk[IBlock(sb, i)], i % IPB)
  }

  /** The inode cache is write-through. */
  ghost predicate WrittenThrough(sb: Super, disk: Disk, ino: seq<Dinode>, but: int)
    requires Fits(sb) && |disk| == sb.size && Blocks(disk) && |ino| == sb.ninodes
  {
    forall i :: 0 <= i < sb.ninodes && i != but ==> OnDisk(sb, disk, i) == ino[i]
  }

  lemma StillThrough(sb: Super, disk: Disk, ino: seq<Dinode>, disk': Disk, ino': seq<Dinode>, but: int)
    requires Fits(sb) && |disk| == sb.size && Blocks(disk) && Blocks(disk') && |ino| == sb.ninodes && |ino'| == |ino|
    requires SameInodeBlocks(sb, disk, disk') && WrittenThrough(sb, disk, ino, but)
    requires forall i :: 0 <= i < |ino| && i != but ==> ino'[i] == ino[i]
    ensures WrittenThrough(sb, disk', ino', but)
  {
    forall i | 0 <= i < sb.ninodes && i != but
      ensures OnDisk(sb, disk', i) == ino'[i]
    {
      assert OnDisk(sb, disk, i) == ino[i];
    }
  }

  /** The bytes after writing src at off, which may extend the file. */
  ghost function Overlay(s: seq<int>, off: nat, src: seq<int>): seq<int>
    requires off <= |s|
  {
    if off + |src| <= |s| then s[..off] + src + s[off + |src|..] else s[..off] + src
  }

  lemma OverlayContent(disk: Disk, d: Dinode, disk': Disk, d': Dinode, off: nat, src: seq<int>, z: nat)
    requires Overwrites(disk, d, disk', d', off, off + |src|, src) && off <= d.size <= MAXSIZE && off + |src| <= MAXSIZE
    requires z == if off + |src| > d.size then off + |src| else d.size
    ensures Content(disk', d'.(size := z)) == Overlay(Content(disk, d), off, src)
  {
    var c, o := Content(disk', d'.(size := z)), Overlay(Content(disk, d), off, src);
    assert |c| == |o|;
    forall k | 0 <= k < z
      ensures c[k] == o[k]
    {
      assert ByteAt(disk', d'.(size := z), k) == ByteAt(disk', d', k);
    }
  }

  lemma Resized(sb: Super, disk: Disk, ino: seq<Dinode>, use: seq<Use>, i: int, z: nat)
    requires Sound(sb, disk, ino, use) && 0 <= i < |ino| && z < UINT
    ensures Sound(sb, disk, ino[i := ino[i].(size := z)], use)
    ensures Others(disk, ino, disk, ino[i := ino[i].(size := z)], i)
    ensures forall n :: 0 <= n < MAXFILE ==> BlockAt(disk, ino[i].(size := z), n) == BlockAt(disk, ino[i], n)
  {
    assert Show(Uses, 0);
    var ino' := ino[i := ino[i].(size := z)];
    OthersKept(sb, disk, disk, ino, ino', use, i);
    forall k, n | 0 <= k < |ino| && 0 <= n < MAXFILE
      ensures BlockAt(disk, ino'[k], n) == BlockAt(disk, ino[k], n)
    {
    }
    forall b | 0 <= b < sb.size
      ensures Placed(sb, disk, ino', use, b)
    {
      assert Placed(sb, disk, ino, use, b);
    }
  }

  /** What a turn of the loop in writei does to file i. */
  ghost predicate Wrote(sb: Super, disk: Disk, ino: seq<Dinode>, use: seq<Use>, disk': Disk, ino': seq<Dinode>,
      use': seq<Use>, i: int, lo: int, hi: int, src: seq<int>) {
    forall u :: Show(Overlays, u) ==> WroteAll(sb, disk, ino, use, disk', ino', use', i, lo, hi, src)
  }

  ghost predicate WroteAll(sb: Super, disk: Disk, ino: seq<Dinode>, use: seq<Use>, disk': Disk, ino': seq<Dinode>,
      use': seq<Use>, i: int, lo: int, hi: int, src: seq<int>) {
    && UsesStay(use, use') && SameInodeBlocks(sb, disk, disk') && Others(disk, ino, disk', ino', i)
    && 0 <= i < |ino| && Overwrites(disk, ino[i], disk', ino'[i], lo, hi, src)
  }

  lemma WroteNext(sb: Super, disk: Disk, ino: seq<Dinode>, use: seq<Use>, disk1: Disk, ino1: seq<Dinode>,
      use1: seq<Use>, i: int, off: nat, src: seq<Byte>)
    requires Gains(sb, disk, ino, use, disk1, ino1, use1, i) && Sound(sb, disk1, ino1, use1)
    requires off < MAXSIZE && off % BSIZE + |src| <= BSIZE && BlockAt(disk1, ino1[i], off / BSIZE) != 0
    ensures var a := BlockAt(disk1, ino1[i], off / BSIZE);
      && 0 < a < |disk1| && use1[a] == Data(i, off / BSIZE)
      && var disk2 := disk1[a := Patch(disk1[a], off % BSIZE, src)];
      && Sound(sb, disk2, ino1, use1) && Wrote(sb, disk, ino, use, disk2, ino1, use1, i, off, off + |src|, src)
  {
    var a := BlockAt(disk1, ino1[i], off / BSIZE);
    WriteChunk(sb, disk1, ino1, use1, i, off, src);
    var disk2 := disk1[a := Patch(disk1[a], off % BSIZE, src)];
    OthersThen(disk, ino, disk1, ino1, disk2, ino1, i);
    ExtendsBytes(sb, disk, ino[i], disk1, ino1[i], off, src);
    assert src[off - off..] == src;
    OverwritesThen(disk, ino[i], disk1, ino1[i], disk2, ino1[i], off, off, off + |src|, src);
  }

  lemma WroteThen(sb: Super, disk: Disk, ino: seq<Dinode>, use: seq<Use>, disk1: Disk, ino1: seq<Dinode>,
      use1: seq<Use>, disk2: Disk, ino2: seq<Dinode>, use2: seq<Use>, i: int, lo: int, mid: int, hi: int,
      src: seq<Byte>)
    requires Wrote(sb, disk, ino, use, disk1, ino1, use1, i, lo, mid, src) && lo <= mid <= hi <= lo + |src|
    requires Wrote(sb, disk1, ino1, use1, disk2, ino2, use2, i, mid, hi, src[mid - lo..hi - lo])
    ensures Wrote(sb, disk, ino, use, disk2, ino2, use2, i, lo, hi, src)
  {
    assert Show(Overlays, 0);
    OthersThen(disk, ino, disk1, ino1, disk2, ino2, i);
  }

  ghost predicate NoHolesBelow(disk: Disk, d: Dinode, z: int)
    requires Blocks(disk) && |d.addrs| == NDIRECT + 1
  {
    forall u :: Show(Holes, u) ==> forall k :: 0 <= k < z && k < MAXSIZE ==> BlockAt(disk, d, k / BSIZE) != 0
  }

  lemma NoHolesNext(disk: Disk, d: Dinode, disk': Disk, d': Dinode, off: nat, m: nat, src: seq<int>)
    requires Overwrites(disk, d, disk', d', off, off + m, src) && NoHolesBelow(disk, d, off) && off < MAXSIZE
    requires off % BSIZE + m <= BSIZE && BlockAt(disk', d', off / BSIZE) != 0
    ensures NoHolesBelow(disk', d', off + m)
  {
    assert Show(Holes, 0);
    forall k | 0 <= k < off + m && k < MAXSIZE
      ensures BlockAt(disk', d', k / BSIZE) != 0
    {
      assert k >= off ==> k / BSIZE == off / BSIZE;
      assert k < off ==> BlockAt(disk, d, k / BSIZE) != 0;
    }
  }

  lemma WroteParts(sb: Super, disk: Disk, ino: seq<Dinode>, use: seq<Use>, disk': Disk, ino': seq<Dinode>,
      use': seq<Use>, i: int, lo: int, hi: int, src: seq<int>)
    requires Wrote(sb, disk, ino, use, disk', ino', use', i, lo, hi, src)
    ensures UsesStay(use, use') && SameInodeBlocks(sb, disk, disk') && Others(disk, ino, disk', ino', i)
    ensures 0 <= i < |ino| && ino'[i].size == ino[i].size
  {
    assert Show(Overlays, 0);
  }

  lemma WroteNothing(sb: Super, disk: Disk, ino: seq<Dinode>, use: seq<Use>, i: int, off: int, src: seq<int>)
    requires Sound(sb, disk, ino, use) && 0 <= i < |ino|
    ensures Wrote(sb, disk, ino, use, disk, ino, use, i, off, off, src)
  {
    GainsNothing(sb, disk, ino, use, i);
    ExtendsBytes(sb, disk, ino[i], disk, ino[i], off, src);
  }

  /** Within the old size there is a block to write to. */
  lemma NotNew(sb: Super, disk: Disk, ino: seq<Dinode>, use: seq<Use>, disk': Disk, ino': seq<Dinode>, use': seq<Use>,
      i: int, lo: int, off: nat, src: seq<int>)
    requires 0 <= i < |ino| && NoHoles(disk, ino[i]) && off < ino[i].size
    requires Wrote(sb, disk, ino, use, disk', ino', use', i, lo, off, src)
    ensures i < |ino'| && Blocks(disk') && |ino'[i].addrs| == NDIRECT + 1 && BlockAt(disk', ino'[i], off / BSIZE) != 0
  {
    assert Show(Overlays, 0);
    assert BlockAt(disk, ino[i], off / BSIZE) != 0;
  }

  /** One more turn. */
  lemma TurnDone(sb: Super, disk0: Disk, ino0: seq<Dinode>, use0: seq<Use>, disk1: Disk, ino1: seq<Dinode>,
      use1: seq<Use>, disk2: Disk, ino2: seq<Dinode>, use2: seq<Use>, i: int, lo: nat, off: nat, m: nat, src: seq<Byte>,
      chunk: seq<Byte>)
    requires Wrote(sb, disk0, ino0, use0, disk1, ino1, use1, i, lo, off, src) && lo <= off && off + m <= lo + |src|
    requires Wrote(sb, disk1, ino1, use1, disk2, ino2, use2, i, off, off + m, chunk)
    requires chunk == src[off - lo..off + m - lo]
    requires 0 <= i < |ino1| && i < |ino2| && Blocks(disk1)
    requires |ino1[i].addrs| == NDIRECT + 1 && NoHolesBelow(disk1, ino1[i], off)
    requires Blocks(disk2) && |ino2[i].addrs| == NDIRECT + 1 && off < MAXSIZE && off % BSIZE + m <= BSIZE
    requires BlockAt(disk2, ino2[i], off / BSIZE) != 0
    ensures Wrote(sb, disk0, ino0, use0, disk2, ino2, use2, i, lo, off + m, src)
    ensures NoHolesBelow(disk2, ino2[i], off + m) && UsesStay(use1, use2)
  {
    WroteThen(sb, disk0, ino0, use0, disk1, ino1, use1, disk2, ino2, use2, i, lo, off, off + m, src);
    assert Show(Overlays, 0);
    NoHolesNext(disk1, ino1[i], disk2, ino2[i], off, m, chunk);
  }

  lemma OthersInodes(disk: Disk, ino: seq<Dinode>, disk': Disk, ino': seq<Dinode>, i: int)
    requires Others(disk, ino, disk', ino', i)
    ensures |ino'| == |ino| && forall k :: 0 <= k < |ino| && k != i ==> ino'[k] == ino[k]
  {
    assert Show(OtherFiles, 0);
    assert forall k :: 0 <= k < |ino| && k != i ==> SameFile(disk, ino[k], disk', ino'[k]);
  }

  /** What is the same for a reader has the same contents. */
  lemma SameContent(disk: Disk, d: Dinode, disk': Disk)
    requires SameFile(disk, d, disk', d) && NoHoles(disk, d)
    ensures NoHoles(disk', d) && Content(disk', d) == Content(disk, d)
  {
    forall k | 0 <= k < d.size
      ensures BlockAt(disk', d, k / BSIZE) != 0 && ByteAt(disk', d, k) == ByteAt(disk, d, k)
    {
      assert SamePart(disk, d, disk', k / BSIZE);
    }
    assert Content(disk', d) == Content(disk, d);
  }

  lemma SameIn(disk: Disk, ino: seq<Dinode>, disk': Disk, ino': seq<Dinode>, i: int, k: int)
    requires Others(disk, ino, disk', ino', i) && 0 <= k < |ino| && k != i
    ensures SameFile(disk, ino[k], disk', ino'[k])
  {
    assert Show(OtherFiles, 0);
  }

  /** A write to file i changes no byte of a file k. */
  lemma OtherBytes(disk: Disk, ino: seq<Dinode>, disk': Disk, ino': seq<Dinode>, i: int, k: int)
    requires Others(disk, ino, disk', ino', i) && 0 <= k < |ino| && k != i && NoHoles(disk, ino[k])
    ensures NoHoles(disk', ino'[k]) && ino'[k] == ino[k] && Content(disk', ino'[k]) == Content(disk, ino[k])
  {
    SameIn(disk, ino, disk', ino', i, k);
    SameContent(disk, ino[k], disk');
  }

  lemma FilledTo(sb: Super, disk: Disk, ino: seq<Dinode>, use: seq<Use>, disk': Disk, ino': seq<Dinode>, use': seq<Use>,
      i: int, off: nat, src: seq<Byte>, z: nat)
    requires 0 <= i < |ino| && i < |ino'| && Blocks(disk') && |ino'[i].addrs| == NDIRECT + 1
    requires Wrote(sb, disk, ino, use, disk', ino', use', i, off, off + |src|, src)
    requires NoHoles(disk, ino[i]) && off <= ino[i].size
    requires NoHolesBelow(disk', ino'[i], off + |src|)
    requires z == (if off + |src| > ino[i].size then off + |src| else ino[i].size) <= MAXSIZE
    ensures NoHoles(disk', ino'[i].(size := z))
    ensures Content(disk', ino'[i].(size := z)) == Overlay(Content(disk, ino[i]), off, src)
  {
    assert Show(Holes, 0);
    assert Show(Overlays, 0);
    OverlayContent(disk, ino[i], disk', ino'[i], off, src, z);
    var d := ino'[i].(size := z);
    forall k | 0 <= k < z
      ensures BlockAt(disk', d, k / BSIZE) != 0
    {
      assert BlockAt(disk', d, k / BSIZE) == BlockAt(disk', ino'[i], k / BSIZE);
      assert k < ino[i].size ==> BlockAt(disk, ino[i], k / BSIZE) != 0;
    }
  }

  lemma UnlinkDirectLaid(sb: Super, disk: Disk, ino: seq<Dinode>, use: seq<Use>, i: int, n: nat)
    requires Laid(sb, disk, ino, use) && 0 <= i < |ino| && n < NDIRECT && ino[i].addrs[n] != 0
    ensures 0 < ino[i].addrs[n] < sb.size && use[ino[i].addrs[n]] == Data(i, n)
    ensures Laid(sb, disk, ino[i := SetAddr(ino[i], n, 0)], use[ino[i].addrs[n] := Held])
  {
    var b := ino[i].addrs[n];
    assert BlockAt(disk, ino[i], n) == b;
    var ino', use' := ino[i := SetAddr(ino[i], n, 0)], use[b := Held];
    forall k, m | 0 <= k < |ino| && 0 <= m < MAXFILE
      ensures BlockAt(disk, ino'[k], m) == if k == i && m == n then 0 else BlockAt(disk, ino[k], m)
    {
    }
    forall x | 0 <= x < sb.size
      ensures Placed(sb, disk, ino', use', x)
    {
      assert Placed(sb, disk, ino, use, x);
    }
    assert Exact(sb, disk, use');
    assert Down(sb, disk, ino', use') && Up(sb, disk, ino', use');
  }

  lemma UnlinkDirect(sb: Super, disk: Disk, ino: seq<Dinode>, use: seq<Use>, i: int, n: nat)
    requires Sound(sb, disk, ino, use) && 0 <= i < |ino| && n < NDIRECT && ino[i].addrs[n] != 0
    ensures 0 < ino[i].addrs[n] < sb.size && use[ino[i].addrs[n]] == Data(i, n)
    ensures Sound(sb, disk, ino[i := SetAddr(ino[i], n, 0)], use[ino[i].addrs[n] := Held])
  {
    assert Show(Uses, 0);
    UnlinkDirectLaid(sb, disk, ino, use, i, n);
  }

  lemma UnlinkIndirectLaid(sb: Super, disk: Disk, ino: seq<Dinode>, use: seq<Use>, i: int)
    requires Laid(sb, disk, ino, use) && 0 <= i < |ino| && ino[i].addrs[NDIRECT] != 0
    requires forall n :: NDIRECT <= n < MAXFILE ==> BlockAt(disk, ino[i], n) == 0
    ensures 0 < ino[i].addrs[NDIRECT] < sb.size
    ensures Laid(sb, disk, ino[i := SetAddr(ino[i], NDIRECT, 0)], use[ino[i].addrs[NDIRECT] := Held])
  {
    var b := ino[i].addrs[NDIRECT];
    var ino', use' := ino[i := SetAddr(ino[i], NDIRECT, 0)], use[b := Held];
    assert use[b] == Indirect(i);
    forall k, m | 0 <= k < |ino| && 0 <= m < MAXFILE
      ensures BlockAt(disk, ino'[k], m) == BlockAt(disk, ino[k], m)
    {
    }
    forall x | 0 <= x < sb.size
      ensures Placed(sb, disk, ino', use', x)
    {
      assert Placed(sb, disk, ino, use, x);
    }
    assert Exact(sb, disk, use');
    assert Down(sb, disk, ino', use') && Up(sb, disk, ino', use');
  }

  lemma UnlinkIndirect(sb: Super, disk: Disk, ino: seq<Dinode>, use: seq<Use>, i: int)
    requires Sound(sb, disk, ino, use) && 0 <= i < |ino| && ino[i].addrs[NDIRECT] != 0
    requires forall n :: NDIRECT <= n < MAXFILE ==> BlockAt(disk, ino[i], n) == 0
    ensures 0 < ino[i].addrs[NDIRECT] < sb.size
    ensures Sound(sb, disk, ino[i := SetAddr(ino[i], NDIRECT, 0)], use[ino[i].addrs[NDIRECT] := Held])
  {
    assert Show(Uses, 0);
    UnlinkIndirectLaid(sb, disk, ino, use, i);
  }

  lemma UnlinkEntryLaid(sb: Super, disk: Disk, ino: seq<Dinode>, use: seq<Use>, i: int, n: nat, c: Block)
    requires Laid(sb, disk, ino, use) && 0 <= i < |ino| && NDIRECT <= n < MAXFILE && ino[i].addrs[NDIRECT] != 0
    requires 0 < ino[i].addrs[NDIRECT] < sb.size && WordSet(disk[ino[i].addrs[NDIRECT]], c, n - NDIRECT, 0)
    ensures var b := BlockAt(disk, ino[i], n); var disk' := disk[ino[i].addrs[NDIRECT] := c];
      if b == 0 then Laid(sb, disk', ino, use)
        else 0 < b < sb.size && use[b] == Data(i, n) && Laid(sb, disk', ino, use[b := Held])
  {
    var t, b := ino[i].addrs[NDIRECT], BlockAt(disk, ino[i], n);
    var disk' := disk[t := c];
    assert b != 0 ==> 0 < b < sb.size && use[b] == Data(i, n);
    var use' := if b == 0 then use else use[b := Held];
    assert Placed(sb, disk, ino, use, t);
    SameMap(sb, disk, use, t, c);
    assert forall x :: 0 <= x < sb.size ==> BitAt(sb, disk', x) == !use'[x].Free?;
    forall k, m | 0 <= k < |ino| && 0 <= m < MAXFILE
      ensures BlockAt(disk', ino[k], m) == if k == i && m == n then 0 else BlockAt(disk, ino[k], m)
    {
      var s := ino[k].addrs[NDIRECT];
      assert s != 0 ==> use[s] == Indirect(k);
    }
    forall x | 0 <= x < sb.size
      ensures Placed(sb, disk', ino, use', x)
    {
      assert Placed(sb, disk, ino, use, x);
    }
  }

  lemma UnlinkEntry(sb: Super, disk: Disk, ino: seq<Dinode>, use: seq<Use>, i: int, n: nat, c: Block)
    requires Sound(sb, disk, ino, use) && 0 <= i < |ino| && NDIRECT <= n < MAXFILE && ino[i].addrs[NDIRECT] != 0
    requires 0 < ino[i].addrs[NDIRECT] < sb.size && WordSet(disk[ino[i].addrs[NDIRECT]], c, n - NDIRECT, 0)
    ensures var b := BlockAt(disk, ino[i], n); var disk' := disk[ino[i].addrs[NDIRECT] := c];
      if b == 0 then Sound(sb, disk', ino, use)
        else 0 < b < sb.size && use[b] == Data(i, n) && Sound(sb, disk', ino, use[b := Held])
  {
    assert Show(Uses, 0);
    UnlinkEntryLaid(sb, disk, ino, use, i, n, c);
  }

  lemma FreeUse(sb: Super, disk: Disk, ino: seq<Dinode>, ino': seq<Dinode>, use: seq<Use>, b: int, m: Block)
    requires Shape(sb, disk, ino, use) && 0 <= b < sb.size
    requires Sound(sb, disk, ino', use[b := Held]) && MapSet(sb, disk, b, m, false)
    ensures DataStart(sb) <= b && Sound(sb, disk[BBlock(sb, b) := m], ino', use[b := Free])
  {
    assert Show(Uses, 0);
    assert Placed(sb, disk, ino', use[b := Held], b);
    SetUse(sb, disk, ino', use[b := Held], b, m, Free);
    assert use[b := Held][b := Free] == use[b := Free];
  }

  /** The first j words of an indirect block taken as zero. */
  ghost function WithoutFirst(b: Block, j: nat): (c: Block)
    requires |b| == BSIZE && j <= NINDIRECT
    ensures |c| == BSIZE
  {
    Zero()[..4 * j] + b[4 * j..]
  }

  lemma WithoutWords(b: Block, j: nat, k: nat)
    requires |b| == BSIZE && j <= NINDIRECT && k < NINDIRECT
    ensures Word(WithoutFirst(b, j), k) == if k < j then 0 else Word(b, k)
  {
    if k < j {
      SameWord(Zero(), WithoutFirst(b, j), k);
      ZeroWords();
    } else {
      SameWord(b, WithoutFirst(b, j), k);
    }
  }

  /** The blocks of the first n parts of file i are free now; the other uses are as before. */
  ghost predicate Freed(use: seq<Use>, use': seq<Use>, i: int, n: int) {
    && |use'| == |use|
    && forall b :: 0 <= b < |use| ==> use'[b] == if use[b].Data? && use[b].i == i && use[b].n < n then Free else use[b]
  }

  /** The addresses left when the first k have been cleared. */
  ghost predicate AddrsFrom(d: Dinode, d': Dinode, k: int) {
    && |d.addrs| == NDIRECT + 1 && |d'.addrs| == NDIRECT + 1 && d' == d.(addrs := d'.addrs)
    && forall j :: 0 <= j <= NDIRECT ==> d'.addrs[j] == if j < k then 0 else d.addrs[j]
  }

  lemma SetSame(d: Dinode, k: nat)
    requires k < |d.addrs| && d.addrs[k] == 0
    ensures SetAddr(d, k, 0) == d
  {
    assert d.addrs[k := 0] == d.addrs;
  }

  lemma FreedNone(sb: Super, disk: Disk, ino: seq<Dinode>, use: seq<Use>, i: int)
    requires Sound(sb, disk, ino, use)
    ensures Freed(use, use, i, 0)
  {
    assert Show(Uses, 0);
    forall b | 0 <= b < |use|
      ensures use[b].Data? ==> use[b].n >= 0
    {
      assert Placed(sb, disk, ino, use, b);
    }
  }

  lemma FreedNext(sb: Super, disk: Disk, ino: seq<Dinode>, use0: seq<Use>, use: seq<Use>, i: int, n: nat, b: int)
    requires Sound(sb, disk, ino, use) && Freed(use0, use, i, n)
    requires 0 <= i < |ino| && n < MAXFILE && b == BlockAt(disk, ino[i], n)
    ensures Freed(use0, if b == 0 then use else if 0 <= b < |use| then use[b := Free] else use, i, n + 1)
  {
    assert Show(Uses, 0);
    forall x | 0 <= x < |use| && use[x].Data? && use[x].i == i && use[x].n == n
      ensures x == b && b != 0
    {
      assert Placed(sb, disk, ino, use, x);
    }
    assert b != 0 ==> use[b] == Data(i, n);
  }

  lemma DirectFreed(sb: Super, disk: Disk, ino: seq<Dinode>, use: seq<Use>, i: int, n: nat, m: Block)
    requires Sound(sb, disk, ino, use) && 0 <= i < |ino| && n < NDIRECT && 0 < ino[i].addrs[n] < sb.size
    requires MapSet(sb, disk, ino[i].addrs[n], m, false)
    ensures var b := ino[i].addrs[n]; var disk', ino' := disk[BBlock(sb, b) := m], ino[i := SetAddr(ino[i], n, 0)];
      Sound(sb, disk', ino', use[b := Free]) && Others(disk, ino, disk', ino', i) && SameInodeBlocks(sb, disk, disk')
  {
    assert Show(Uses, 0);
    var b := ino[i].addrs[n];
    UnlinkDirect(sb, disk, ino, use, i, n);
    var disk', ino' := disk[BBlock(sb, b) := m], ino[i := SetAddr(ino[i], n, 0)];
    FreeUse(sb, disk, ino, ino', use, b, m);
    assert Placed(sb, disk, ino, use, BBlock(sb, b));
    OthersKept(sb, disk, disk', ino, ino', use, i);
  }

  ghost predicate InMap(sb: Super, b: int) {
    sb.bmapstart <= b < DataStart(sb)
  }

  /** Only the free map has changed. */
  ghost predicate SameButMap(sb: Super, disk: Disk, disk': Disk) {
    |disk'| == |disk| && forall b :: 0 <= b < |disk| && !InMap(sb, b) ==> disk'[b] == disk[b]
  }

  lemma MapOthers(sb: Super, disk: Disk, disk': Disk, ino: seq<Dinode>, ino': seq<Dinode>, use: seq<Use>, i: int)
    requires Sound(sb, disk, ino, use) && SameButMap(sb, disk, disk') && Blocks(disk') && |ino'| == |ino|
    requires forall k :: 0 <= k < |ino| && k != i ==> ino'[k] == ino[k]
    ensures Others(disk, ino, disk', ino', i)
  {
    assert Show(Uses, 0);
    forall b | 0 <= b < sb.size && (use[b].Data? || use[b].Indirect?)
      ensures disk'[b] == disk[b]
    {
      assert Placed(sb, disk, ino, use, b);
    }
    OthersKept(sb, disk, disk', ino, ino', use, i);
  }

  /** itrunc leaves the entries of the indirect block as they are: the disk if it cleared them. */
  ghost function Shade(disk: Disk, t: int, j: nat): Disk
    requires 0 <= t < |disk| && |disk[t]| == BSIZE && j <= NINDIRECT
  {
    disk[t := WithoutFirst(disk[t], j)]
  }

  lemma ShadeNext(b: Block, j: nat)
    requires |b| == BSIZE && j < NINDIRECT
    ensures WordSet(WithoutFirst(b, j), WithoutFirst(b, j + 1), j, 0)
  {
    var c, c' := WithoutFirst(b, j), WithoutFirst(b, j + 1);
    forall k | 0 <= k < NINDIRECT
      ensures Word(c', k) == if k == j then 0 else Word(c, k)
    {
      WithoutWords(b, j, k);
      WithoutWords(b, j + 1, k);
    }
  }

  /** A state in the second loop of itrunc. */
  ghost predicate Shaded(sb: Super, disk: Disk, ino: seq<Dinode>, use: seq<Use>, i: int, j: nat) {
    && |disk| == sb.size && Blocks(disk) && 0 <= i < |ino| && |ino[i].addrs| == NDIRECT + 1 && j <= NINDIRECT
    && 0 < ino[i].addrs[NDIRECT] < sb.size && Sound(sb, Shade(disk, ino[i].addrs[NDIRECT], j), ino, use)
  }

  lemma ShadedWord(sb: Super, disk: Disk, ino: seq<Dinode>, use: seq<Use>, i: int, j: nat)
    requires Shaded(sb, disk, ino, use, i, j) && j < NINDIRECT
    ensures var t := ino[i].addrs[NDIRECT]; var b := Word(disk[t], j);
      && BlockAt(Shade(disk, t, j), ino[i], NDIRECT + j) == b && !InMap(sb, t)
      && (b != 0 ==> 0 < b < sb.size && use[b] == Data(i, NDIRECT + j) && BitAt(sb, disk, b))
  {
    assert Show(Uses, 0);
    var t := ino[i].addrs[NDIRECT];
    WithoutWords(disk[t], j, j);
    var s := Shade(disk, t, j);
    var b := Word(disk[t], j);
    assert BlockAt(s, ino[i], NDIRECT + j) == b;
    assert Placed(sb, s, ino, use, t);
    if b != 0 {
      assert use[b] == Data(i, NDIRECT + j);
      assert BitAt(sb, s, b) == !use[b].Free?;
    }
  }

  lemma EntryFreed(sb: Super, disk: Disk, ino: seq<Dinode>, use: seq<Use>, i: int, j: nat, m: Block)
    requires Shaded(sb, disk, ino, use, i, j) && j < NINDIRECT && 0 < Word(disk[ino[i].addrs[NDIRECT]], j) < sb.size
    requires MapSet(sb, disk, Word(disk[ino[i].addrs[NDIRECT]], j), m, false)
    ensures var b := Word(disk[ino[i].addrs[NDIRECT]], j);
      Shaded(sb, disk[BBlock(sb, b) := m], ino, use[b := Free], i, j + 1)
  {
    var t := ino[i].addrs[NDIRECT];
    var b := Word(disk[t], j);
    ShadedWord(sb, disk, ino, use, i, j);
    ShadeNext(disk[t], j);
    var s, s' := Shade(disk, t, j), Shade(disk, t, j + 1);
    assert s[t := WithoutFirst(disk[t], j + 1)] == s';
    UnlinkEntry(sb, s, ino, use, i, NDIRECT + j, WithoutFirst(disk[t], j + 1));
    FreeUse(sb, s', ino, ino, use, b, m);
    assert s'[BBlock(sb, b) := m] == Shade(disk[BBlock(sb, b) := m], t, j + 1);
  }

  lemma EntryNone(sb: Super, disk: Disk, ino: seq<Dinode>, use: seq<Use>, i: int, j: nat)
    requires Shaded(sb, disk, ino, use, i, j) && j < NINDIRECT && Word(disk[ino[i].addrs[NDIRECT]], j) == 0
    ensures Shaded(sb, disk, ino, use, i, j + 1)
  {
    var t := ino[i].addrs[NDIRECT];
    ShadedWord(sb, disk, ino, use, i, j);
    ShadeNext(disk[t], j);
    assert Shade(disk, t, j)[t := WithoutFirst(disk[t], j + 1)] == Shade(disk, t, j + 1);
    UnlinkEntry(sb, Shade(disk, t, j), ino, use, i, NDIRECT + j, WithoutFirst(disk[t], j + 1));
  }

  lemma ShadedBit(sb: Super, disk: Disk, ino: seq<Dinode>, use: seq<Use>, i: int)
    requires Shaded(sb, disk, ino, use, i, NINDIRECT)
    ensures var t := ino[i].addrs[NDIRECT]; BitAt(sb, disk, t) && use[t] == Indirect(i)
  {
    assert Show(Uses, 0);
    var t := ino[i].addrs[NDIRECT];
    var s := Shade(disk, t, NINDIRECT);
    assert use[t] == Indirect(i) && Placed(sb, s, ino, use, t) && BitAt(sb, s, t) == !use[t].Free?;
  }

  lemma ShadeGone(sb: Super, disk: Disk, ino: seq<Dinode>, use: seq<Use>, i: int, m: Block)
    requires Shaded(sb, disk, ino, use, i, NINDIRECT) && MapSet(sb, disk, ino[i].addrs[NDIRECT], m, false)
    ensures var t := ino[i].addrs[NDIRECT];
      && Sound(sb, disk[BBlock(sb, t) := m], ino[i := SetAddr(ino[i], NDIRECT, 0)], use[t := Free])
      && !InMap(sb, t) && use[t] == Indirect(i)
  {
    assert Show(Uses, 0);
    var t := ino[i].addrs[NDIRECT];
    var s, ino' := Shade(disk, t, NINDIRECT), ino[i := SetAddr(ino[i], NDIRECT, 0)];
    assert Placed(sb, s, ino, use, t);
    assert use[t] == Indirect(i);
    forall n | NDIRECT <= n < MAXFILE
      ensures BlockAt(s, ino[i], n) == 0
    {
      WithoutWords(disk[t], NINDIRECT, n - NDIRECT);
    }
    UnlinkIndirect(sb, s, ino, use, i);
    FreeUse(sb, s, ino, ino', use, t, m);
    WriteBlock(sb, s[BBlock(sb, t) := m], ino', use[t := Free], t, disk[t]);
    assert s[BBlock(sb, t) := m][t := disk[t]] == disk[BBlock(sb, t) := m];
  }

  predicate OwnedBy(u: Use, i: int) {
    (u.Data? || u.Indirect?) && u.i == i
  }

  /** Every block of file i is free now, and no other block has changed use. */
  ghost predicate AllFreed(use: seq<Use>, use': seq<Use>, i: int) {
    |use'| == |use| && forall b :: 0 <= b < |use| ==> use'[b] == if OwnedBy(use[b], i) then Free else use[b]
  }

  lemma FreedAll(sb: Super, disk0: Disk, ino0: seq<Dinode>, use0: seq<Use>, disk: Disk, ino: seq<Dinode>, use: seq<Use>,
      i: int)
    requires Sound(sb, disk0, ino0, use0) && Sound(sb, disk, ino, use) && 0 <= i < |ino| && |ino0| == |ino|
    requires ino[i].addrs[NDIRECT] == 0
    requires
      var t := ino0[i].addrs[NDIRECT];
      if t == 0 then Freed(use0, use, i, NDIRECT)
      else 0 <= t < |use| && use[t] == Free && Freed(use0, use[t := Indirect(i)], i, MAXFILE)
    ensures AllFreed(use0, use, i)
  {
    assert Show(Uses, 0);
    var t := ino0[i].addrs[NDIRECT];
    assert t != 0 ==> use0[t] == Indirect(i);
    forall b | 0 <= b < |use0|
      ensures use[b] == if OwnedBy(use0[b], i) then Free else use0[b]
    {
      assert Placed(sb, disk0, ino0, use0, b) && Placed(sb, disk, ino, use, b);
    }
  }

  lemma InGroup(b: nat, bi: nat)
    requires b % BPB == 0 && bi < BPB
    ensures (b + bi) / BPB == b / BPB && (b + bi) % BPB == bi
  {
  }

  /** What has not been logged is as it was. */
  ghost predicate Unlogged(disk: Disk, disk': Disk, logged: set<int>) {
    |disk'| == |disk| && forall u :: Show(Changes, u) ==> forall b :: 0 <= b < |disk| && b !in logged ==>
      disk'[b] == disk[b]
  }

  // ----- Blocks taken and blocks free -----

  ghost predicate IsFreeCount(use: seq<Use>, n: int) {
    forall u :: Show(Supply, u) ==> n == |FreeSet(use)|
  }

  ghost function FreeSet(use: seq<Use>): set<int> {
    set b | 0 <= b < |use| && use[b].Free?
  }

  /** How many blocks are free. */
  ghost function FreeBlocks(use: seq<Use>): (n: nat)
    ensures IsFreeCount(use, n)
  {
    assert IsFreeCount(use, |FreeSet(use)|);
    var n: nat :| IsFreeCount(use, n);
    n
  }

  /** The parts of a file that have a block; -1 stands for the indirect block. */
  ghost function PartsHeld(disk: Disk, d: Dinode): set<int>
    requires Blocks(disk) && |d.addrs| == NDIRECT + 1
  {
    (set n | 0 <= n < MAXFILE && BlockAt(disk, d, n) != 0) + (if d.addrs[NDIRECT] != 0 then {-1} else {})
  }

  ghost predicate InParts(disk: Disk, d: Dinode, n: int)
    requires Blocks(disk) && |d.addrs| == NDIRECT + 1
  {
    if n == -1 then d.addrs[NDIRECT] != 0 else 0 <= n < MAXFILE && BlockAt(disk, d, n) != 0
  }

  lemma PartsAre(disk: Disk, d: Dinode)
    requires Blocks(disk) && |d.addrs| == NDIRECT + 1
    ensures forall n :: n in PartsHeld(disk, d) <==> InParts(disk, d, n)
  {
  }

  /** The parts that part n of a file takes. */
  function PartNeeds(n: int): set<int> {
    {n} + (if n >= NDIRECT then {-1} else {})
  }

  predicate Touches(off: nat, end: nat, n: int) {
    off < end && off / BSIZE <= n <= (end - 1) / BSIZE
  }

  /** The parts that bytes off, ..., end - 1 of a file take. */
  ghost function Needed(off: nat, end: nat): (s: set<int>)
    ensures AreNeeded(off, end, s)
  {
    assert AreNeeded(off, end, Touched(off, end));
    var s :| AreNeeded(off, end, s);
    s
  }

  ghost predicate AreNeeded(off: nat, end: nat, s: set<int>) {
    forall u :: Show(Supply, u) ==> s == Touched(off, end)
  }

  function Touched(off: nat, end: nat): set<int> {
    (set n | off / BSIZE <= n <= end / BSIZE && Touches(off, end, n)) +
    (if off < end && (end - 1) / BSIZE >= NDIRECT then {-1} else {})
  }

  lemma NeededOnce(off: nat, end: nat)
    requires off < end && off % BSIZE + (end - off) <= BSIZE
    ensures Needed(off, end) == PartNeeds(off / BSIZE)
  {
    assert Show(Supply, 0);
  }

  lemma NothingNeeded(off: nat)
    ensures Needed(off, off) == {}
  {
    assert Show(Supply, 0);
  }

  lemma NeededMore(off: nat, mid: nat, end: nat)
    requires off <= mid <= end
    ensures Needed(off, end) == Needed(off, mid) + Needed(mid, end)
  {
    assert Show(Supply, 0);
  }

  lemma NeededUpTo(off: nat, mid: nat, end: nat)
    requires off <= mid <= end
    ensures Needed(off, mid) <= Needed(off, end)
  {
    assert Show(Supply, 0);
  }

  ghost predicate IsNewCount(disk: Disk, d: Dinode, off: nat, end: nat, n: int) {
    Blocks(disk) && |d.addrs| == NDIRECT + 1 && forall u :: Show(Supply, u) ==>
      n == |Needed(off, end) - PartsHeld(disk, d)|
  }

  /** How many blocks a write of bytes off, ..., end - 1 adds to the file. */
  ghost function NewBlocks(disk: Disk, d: Dinode, off: nat, end: nat): (n: nat)
    requires Blocks(disk) && |d.addrs| == NDIRECT + 1
    ensures IsNewCount(disk, d, off, end, n)
  {
    assert IsNewCount(disk, d, off, end, |Needed(off, end) - PartsHeld(disk, d)|);
    var n: nat :| IsNewCount(disk, d, off, end, n);
    n
  }

  /** A write inside the file needs no new blocks. */
  lemma NoneNew(disk: Disk, d: Dinode, off: nat, end: nat)
    requires NoHoles(disk, d) && end <= d.size
    ensures NewBlocks(disk, d, off, end) == 0
  {
    assert Show(Supply, 0);
    forall n | n in Touched(off, end)
      ensures n in PartsHeld(disk, d)
    {
      var m := if n == -1 then (end - 1) / BSIZE else n;
      assert BlockAt(disk, d, m * BSIZE / BSIZE) != 0;
      PartsAre(disk, d);
    }
    assert Touched(off, end) - PartsHeld(disk, d) == {};
  }

  /** Blocks have been taken for the file, for parts in `want` and one for each part gained: for all of these parts
      if ok, and otherwise until no block was free. */
  ghost predicate Supplied(use: seq<Use>, disk: Disk, d: Dinode, use': seq<Use>, disk': Disk, d': Dinode,
      want: set<int>, ok: bool) {
    && Blocks(disk) && |d.addrs| == NDIRECT + 1 && Blocks(disk') && |d'.addrs| == NDIRECT + 1
    && SuppliedNow(use, disk, d, use', disk', d', want, ok)
  }

  ghost predicate SuppliedNow(use: seq<Use>, disk: Disk, d: Dinode, use': seq<Use>, disk': Disk, d': Dinode,
      want: set<int>, ok: bool): (r: bool)
    requires Blocks(disk) && |d.addrs| == NDIRECT + 1 && Blocks(disk') && |d'.addrs| == NDIRECT + 1
    ensures IsSupplied(use, disk, d, use', disk', d', want, ok, r)
  {
    assert IsSupplied(use, disk, d, use', disk', d', want, ok,
        SuppliedAll(use, PartsHeld(disk, d), use', PartsHeld(disk', d'), want, ok));
    var r :| IsSupplied(use, disk, d, use', disk', d', want, ok, r);
    r
  }

  ghost predicate IsSupplied(use: seq<Use>, disk: Disk, d: Dinode, use': seq<Use>, disk': Disk, d': Dinode,
      want: set<int>, ok: bool, r: bool)
    requires Blocks(disk) && |d.addrs| == NDIRECT + 1 && Blocks(disk') && |d'.addrs| == NDIRECT + 1
  {
    forall u :: Show(Supply, u) ==>
      (r <==> SuppliedAll(use, PartsHeld(disk, d), use', PartsHeld(disk', d'), want, ok))
  }

  ghost predicate SuppliedAll(use: seq<Use>, parts: set<int>, use': seq<Use>, parts': set<int>, want: set<int>,
      ok: bool) {
    && |FreeSet(use')| + |parts'| == |FreeSet(use)| + |parts|
    && parts <= parts' <= parts + want
    && if ok then want <= parts' else FreeSet(use') == {} && !(want <= parts')
  }

  lemma SuppliedAlready(use: seq<Use>, disk: Disk, d: Dinode, want: set<int>)
    requires Blocks(disk) && |d.addrs| == NDIRECT + 1 && want <= PartsHeld(disk, d)
    ensures Supplied(use, disk, d, use, disk, d, want, true)
  {
    assert Show(Supply, 0);
  }

  lemma SuppliedNone(use: seq<Use>, disk: Disk, d: Dinode, n: int)
    requires Blocks(disk) && |d.addrs| == NDIRECT + 1 && !InParts(disk, d, n)
    requires forall b :: 0 <= b < |use| ==> !use[b].Free?
    ensures Supplied(use, disk, d, use, disk, d, {n}, false)
  {
    assert Show(Supply, 0);
    PartsAre(disk, d);
    assert n in {n} && n !in PartsHeld(disk, d);
  }

  lemma OneLessFree(use: seq<Use>, a: int, x: Use)
    requires 0 <= a < |use| && use[a].Free? && !x.Free?
    ensures |FreeSet(use[a := x])| == |FreeSet(use)| - 1
  {
    assert FreeSet(use) == FreeSet(use[a := x]) + {a};
  }

  lemma SuppliedOne(use: seq<Use>, disk: Disk, d: Dinode, a: int, x: Use, disk': Disk, d': Dinode, n: int)
    requires Blocks(disk) && |d.addrs| == NDIRECT + 1 && Blocks(disk') && |d'.addrs| == NDIRECT + 1
    requires 0 <= a < |use| && use[a].Free? && !x.Free? && !InParts(disk, d, n)
    requires forall m :: InParts(disk', d', m) <==> m == n || InParts(disk, d, m)
    ensures Supplied(use, disk, d, use[a := x], disk', d', {n}, true)
  {
    assert Show(Supply, 0);
    OneLessFree(use, a, x);
    PartsAre(disk, d);
    PartsAre(disk', d');
    assert PartsHeld(disk', d') == PartsHeld(disk, d) + {n};
  }

  lemma SuppliedThen(use0: seq<Use>, disk0: Disk, d0: Dinode, use1: seq<Use>, disk1: Disk, d1: Dinode, use2: seq<Use>,
      disk2: Disk, d2: Dinode, want: set<int>, more: set<int>, all: set<int>, ok: bool)
    requires Supplied(use0, disk0, d0, use1, disk1, d1, want, true)
    requires Supplied(use1, disk1, d1, use2, disk2, d2, more, ok) && all == want + more
    ensures Supplied(use0, disk0, d0, use2, disk2, d2, all, ok)
  {
    assert Show(Supply, 0);
  }

  /** The rest of the parts is out of reach too. */
  lemma SuppliedShort(use: seq<Use>, disk: Disk, d: Dinode, use': seq<Use>, disk': Disk, d': Dinode, want: set<int>,
      all: set<int>)
    requires Supplied(use, disk, d, use', disk', d', want, false) && want <= all
    ensures Supplied(use, disk, d, use', disk', d', all, false)
  {
    assert Show(Supply, 0);
  }

  lemma SuppliedSame(use: seq<Use>, disk: Disk, d: Dinode, use': seq<Use>, disk1: Disk, d1: Dinode, disk': Disk,
      d': Dinode, want: set<int>)
    requires Supplied(use, disk, d, use', disk1, d1, want, true) && Blocks(disk') && |d'.addrs| == NDIRECT + 1
    requires forall n :: InParts(disk', d', n) <==> InParts(disk1, d1, n)
    ensures Supplied(use, disk, d, use', disk', d', want, true)
  {
    assert Show(Supply, 0);
    PartsAre(disk1, d1);
    PartsAre(disk', d');
    assert PartsHeld(disk', d') == PartsHeld(disk1, d1);
  }

  lemma SameHeld(disk: Disk, ino: seq<Dinode>, disk': Disk, i: int)
    requires Others(disk, ino, disk', ino, -1) && 0 <= i < |ino|
    ensures Blocks(disk) && Blocks(disk') && |ino[i].addrs| == NDIRECT + 1
    ensures forall n :: InParts(disk', ino[i], n) <==> InParts(disk, ino[i], n)
  {
    SameParts(disk, ino, disk', i, 0);
    forall n | 0 <= n < MAXFILE
      ensures BlockAt(disk', ino[i], n) == BlockAt(disk, ino[i], n)
    {
      SameParts(disk, ino, disk', i, n);
    }
  }

  lemma StillSupplied(sb: Super, disk: Disk, disk': Disk, ino: seq<Dinode>, use: seq<Use>, i: int)
    requires Sound(sb, disk, ino, use) && SameIndirect(disk, disk', use) && Blocks(disk') && 0 <= i < |ino|
    ensures forall n :: InParts(disk', ino[i], n) <==> InParts(disk, ino[i], n)
  {
    forall n | 0 <= n < MAXFILE
      ensures BlockAt(disk', ino[i], n) == BlockAt(disk, ino[i], n)
    {
      SameBlockAt(sb, disk, disk', ino, use, i, n);
    }
  }

  lemma DirectSupplied(disk: Disk, ino: seq<Dinode>, use: seq<Use>, disk': Disk, i: int, n: nat, a: int)
    requires Others(disk, ino, disk', ino, -1) && 0 <= i < |ino| && n < NDIRECT && |ino[i].addrs| == NDIRECT + 1
    requires 0 < a < |use| && use[a].Free? && ino[i].addrs[n] == 0
    ensures Supplied(use, disk, ino[i], use[a := Data(i, n)], disk', SetAddr(ino[i], n, a), {n}, true)
  {
    SameHeld(disk, ino, disk', i);
    var d' := SetAddr(ino[i], n, a);
    forall m
      ensures InParts(disk', d', m) <==> m == n || InParts(disk', ino[i], m)
    {
    }
    SuppliedOne(use, disk, ino[i], a, Data(i, n), disk', d', n);
  }

  lemma IndirectSupplied(disk: Disk, ino: seq<Dinode>, use: seq<Use>, disk': Disk, i: int, a: int)
    requires Others(disk, ino, disk', ino, -1) && 0 <= i < |ino| && |ino[i].addrs| == NDIRECT + 1
    requires 0 < a < |use| == |disk'| && use[a].Free? && ino[i].addrs[NDIRECT] == 0 && disk'[a] == Zero()
    ensures Supplied(use, disk, ino[i], use[a := Indirect(i)], disk', SetAddr(ino[i], NDIRECT, a), {-1}, true)
  {
    SameHeld(disk, ino, disk', i);
    ZeroWords();
    var d' := SetAddr(ino[i], NDIRECT, a);
    forall m
      ensures InParts(disk', d', m) <==> m == -1 || InParts(disk', ino[i], m)
    {
    }
    SuppliedOne(use, disk, ino[i], a, Indirect(i), disk', d', -1);
  }

  lemma EntrySupplied(disk: Disk, ino: seq<Dinode>, use: seq<Use>, disk': Disk, i: int, n: nat, c: Block, a: int)
    requires Others(disk, ino, disk', ino, -1) && 0 <= i < |ino| && |ino[i].addrs| == NDIRECT + 1 && Blocks(disk')
    requires NDIRECT <= n < MAXFILE && 0 < a < |use| == |disk'| && use[a].Free? && BlockAt(disk', ino[i], n) == 0
    requires 0 < ino[i].addrs[NDIRECT] < |disk'| && WordSet(disk'[ino[i].addrs[NDIRECT]], c, n - NDIRECT, a)
    ensures Supplied(use, disk, ino[i], use[a := Data(i, n)], disk'[ino[i].addrs[NDIRECT] := c], ino[i], {n}, true)
  {
    SameHeld(disk, ino, disk', i);
    var disk2 := disk'[ino[i].addrs[NDIRECT] := c];
    forall m
      ensures InParts(disk2, ino[i], m) <==> m == n || InParts(disk', ino[i], m)
    {
    }
    SuppliedOne(use, disk, ino[i], a, Data(i, n), disk2, ino[i], n);
  }

  /** The blocks suffice exactly if there are as many free as new ones are needed. */
  lemma SuppliedIff(use: seq<Use>, disk: Disk, d: Dinode, use': seq<Use>, disk': Disk, d': Dinode, off: nat, end: nat,
      ok: bool)
    requires Supplied(use, disk, d, use', disk', d', Needed(off, end), ok)
    ensures ok <==> NewBlocks(disk, d, off, end) <= FreeBlocks(use)
    ensures ok ==> FreeBlocks(use') == FreeBlocks(use) - NewBlocks(disk, d, off, end)
  {
    assert Show(Supply, 0);
    var want, parts, parts' := Needed(off, end), PartsHeld(disk, d), PartsHeld(disk', d');
    assert parts + want == parts + (want - parts);
    if ok {
      assert parts' == parts + want;
    } else {
      FewerParts(parts', parts + want);
    }
  }

  lemma FewerParts(a: set<int>, b: set<int>)
    requires a <= b && a != b
    ensures |a| < |b|
  {
    assert b == a + (b - a);
  }

  class Fs {
    const sb: Super
    var disk: Disk
    var icache: seq<Dinode>
    ghost var use: seq<Use>
    ghost var stable: Disk // the disk when the operation began
    ghost var logged: set<int> // what it has logged since

    constructor (sb: Super, disk: Disk, icache: seq<Dinode>, ghost use: seq<Use>)
      requires Sound(sb, disk, icache, use)
      ensures Valid() && this.disk == disk && this.icache == icache && this.use == use
    {
      this.sb, this.disk, this.icache, this.use, stable, logged := sb, disk, icache, use, disk, {};
    }

    ghost predicate Valid()
      reads `disk, `icache, `use, `stable, `logged
    {
      Sound(sb, disk, icache, use) && Unlogged(stable, disk, logged)
    }

    /** No block is free. */
    ghost predicate Full()
      reads `use
    {
      forall x :: 0 <= x < |use| ==> !use[x].Free?
    }

    /** log_write of block b with the contents c. */
    method LogWrite(b: int, c: Block)
      requires 0 <= b < |disk| && Unlogged(stable, disk, logged)
      modifies `disk, `logged
      ensures disk == old(disk)[b := c] && logged == old(logged) + {b} && Unlogged(stable, disk, logged)
    {
      disk := disk[b := c];
      logged := logged + {b};
    }

    /** The inner loop of balloc, over the free-map block with the bit of block b first. */
    method FindInMap(b: nat) returns (ok: bool, x: nat)
      requires Valid() && b % BPB == 0 && b < sb.size
      ensures ok ==> b <= x < sb.size && use[x].Free? && forall y :: b <= y < x ==> !use[y].Free?
      ensures !ok ==> forall y :: b <= y < b + BPB && y < sb.size ==> !use[y].Free?
    {
      var bp := disk[BBlock(sb, b)];
      var bi := 0;
      while bi < BPB && b + bi < sb.size
        invariant 0 <= bi <= BPB && forall y :: b <= y < b + bi && y < sb.size ==> !use[y].Free?
      {
        var used := TestBit(bp, bi);
        InGroup(b, bi);
        assert BitAt(sb, disk, b + bi) == !use[b + bi].Free? by {
          assert Show(Uses, 0);
        }
        if !used {
          return true, b + bi;
        }
        bi := bi + 1;
      }
      ok, x := false, 0;
    }

    /** The block found by the loops of balloc. */
    method FindFree() returns (ok: bool, b: nat)
      requires Valid()
      ensures ok ==> b < sb.size && use[b].Free? && forall x :: 0 <= x < b ==> !use[x].Free?
      ensures !ok ==> forall x :: 0 <= x < sb.size ==> !use[x].Free?
    {
      b := 0;
      while b < sb.size
        invariant b % BPB == 0 && forall x :: 0 <= x < b && x < sb.size ==> !use[x].Free?
      {
        var x;
        ok, x := FindInMap(b);
        if ok {
          return true, x;
        }
        b := b + BPB;
      }
      ok := false;
    }
  
    /** A zeroed block; without one the kernel panics, which is ok == false. */
    method Balloc() returns (ok: bool, b: nat)
      requires Valid()
      modifies `disk, `use, `logged
      ensures !ok ==> disk == old(disk) && use == old(use) && Full()
      ensures ok ==> JustTaken(sb, old(disk), icache, old(use), disk, b) && use == old(use)[b := Held]
      ensures ok ==> logged == old(logged) + {BBlock(sb, b), b} && Unlogged(stable, disk, logged)
      ensures ok ==> forall x :: 0 <= x < b ==> !old(use)[x].Free?
    {
      ok, b := FindFree();
      if !ok { return; }
      assert BitAt(sb, disk, b) == !use[b].Free? by {
        assert Show(Uses, 0);
      }
      var m := PutBit(disk[BBlock(sb, b)], b % BPB, true);
      Taken(sb, disk, icache, use, b, m);
      LogWrite(BBlock(sb, b), m);
      use := use[b := Held];
      LogWrite(b, Zero());
    }
  
    /** bmap for a part of the file whose number is in the inode itself. */
    method MapDirect(i: int, n: nat) returns (ok: bool, a: int)
      requires Valid() && 0 <= i < |icache| && n < NDIRECT
      modifies `disk, `icache, `use, `logged
      ensures !ok ==> Full()
      ensures |icache| == |old(icache)|
      ensures Supplied(old(use), old(disk), old(icache)[i], use, disk, icache[i], {n}, ok)
      ensures ok ==> Valid() && Gains(sb, old(disk), old(icache), old(use), disk, icache, use, i)
      ensures ok ==> a == BlockAt(disk, icache[i], n) && a != 0 && LoggedIn(sb, use, old(logged), logged, i, n, n + 1)
      ensures old(icache)[i].addrs[n] != 0 ==>
        ok && icache == old(icache) && disk == old(disk) && use == old(use) && logged == old(logged)
    {
      a := icache[i].addrs[n];
      if a != 0 {
        GainsNothing(sb, disk, icache, use, i);
        SuppliedAlready(use, disk, icache[i], {n});
        return true, a;
      }
      ok, a := Balloc();
      if !ok {
        SuppliedNone(use, disk, icache[i], n);
        return;
      }
      DirectDone(sb, old(disk), icache, old(use), disk, i, n, a);
      DirectSupplied(old(disk), icache, old(use), disk, i, n, a);
      icache := icache[i := SetAddr(icache[i], n, a)];
      use := old(use)[a := Data(i, n)];
    }

    /** The indirect block of file i, made if there is none. */
    method MapIndirect(i: int) returns (ok: bool, a: int)
      requires Valid() && 0 <= i < |icache|
      modifies `disk, `icache, `use, `logged
      ensures !ok ==> Full()
      ensures |icache| == |old(icache)|
      ensures Supplied(old(use), old(disk), old(icache)[i], use, disk, icache[i], {-1}, ok)
      ensures ok ==> Valid() && Gains(sb, old(disk), old(icache), old(use), disk, icache, use, i)
      ensures ok ==> a == icache[i].addrs[NDIRECT] && a != 0 && LoggedIn(sb, use, old(logged), logged, i, 0, 0)
      ensures old(icache)[i].addrs[NDIRECT] != 0 ==>
        ok && icache == old(icache) && disk == old(disk) && use == old(use) && logged == old(logged)
      ensures ok && old(icache)[i].addrs[NDIRECT] == 0 ==> forall j :: 0 <= j < NINDIRECT ==> Word(disk[a], j) == 0
    {
      a := icache[i].addrs[NDIRECT];
      if a != 0 {
        GainsNothing(sb, disk, icache, use, i);
        SuppliedAlready(use, disk, icache[i], {-1});
        return true, a;
      }
      ok, a := Balloc();
      if !ok {
        SuppliedNone(use, disk, icache[i], -1);
        return;
      }
      IndirectDone(sb, old(disk), icache, old(use), disk, i, a);
      IndirectSupplied(old(disk), icache, old(use), disk, i, a);
      ZeroWords();
      icache := icache[i := SetAddr(icache[i], NDIRECT, a)];
      use := old(use)[a := Indirect(i)];
    }

    /** bmap for a part whose number is, or is to be, in the indirect block. */
    method MapEntry(i: int, n: nat) returns (ok: bool, a: int)
      requires Valid() && 0 <= i < |icache| && NDIRECT <= n < MAXFILE && icache[i].addrs[NDIRECT] != 0
      modifies `disk, `use, `logged
      ensures !ok ==> Full()
      ensures Supplied(old(use), old(disk), icache[i], use, disk, icache[i], {n}, ok)
      ensures ok ==> Valid() && Gains(sb, old(disk), icache, old(use), disk, icache, use, i)
      ensures ok ==> a == BlockAt(disk, icache[i], n) && a != 0 && LoggedIn(sb, use, old(logged), logged, i, n, n + 1)
      ensures BlockAt(old(disk), icache[i], n) != 0 ==>
        ok && disk == old(disk) && use == old(use) && logged == old(logged)
    {
      var t := icache[i].addrs[NDIRECT];
      var bp := disk[t];
      a := GetWord(bp, n - NDIRECT);
      if a != 0 {
        GainsNothing(sb, disk, icache, use, i);
        SuppliedAlready(use, disk, icache[i], {n});
        return true, a;
      }
      ok, a := NewEntry(i, n);
    }

    /** A new block for such a part. */
    method NewEntry(i: int, n: nat) returns (ok: bool, a: int)
      requires Valid() && 0 <= i < |icache| && NDIRECT <= n < MAXFILE && icache[i].addrs[NDIRECT] != 0
      requires BlockAt(disk, icache[i], n) == 0
      modifies `disk, `use, `logged
      ensures !ok ==> Full()
      ensures Supplied(old(use), old(disk), icache[i], use, disk, icache[i], {n}, ok)
      ensures ok ==> Valid() && Gains(sb, old(disk), icache, old(use), disk, icache, use, i)
      ensures ok ==> a == BlockAt(disk, icache[i], n) && a != 0 && LoggedIn(sb, use, old(logged), logged, i, n, n + 1)
    {
      var t := icache[i].addrs[NDIRECT];
      assert use[t] == Indirect(i) by {
        assert Show(Uses, 0);
      }
      ok, a := Balloc();
      if !ok {
        SuppliedNone(use, disk, icache[i], n);
        return;
      }
      SameParts(old(disk), icache, disk, i, n);
      var c := PutWord(disk[t], n - NDIRECT, a);
      EntryDone(sb, old(disk), icache, old(use), disk, i, n, c, a);
      EntrySupplied(old(disk), icache, old(use), disk, i, n, c, a);
      LogWrite(t, c);
      use := old(use)[a := Data(i, n)];
    }
  
    /** The block of part n of file i, made if there is none. */
    method Bmap(i: int, n: nat) returns (ok: bool, a: int)
      requires Valid() && 0 <= i < |icache| && n < MAXFILE
      modifies `disk, `icache, `use, `logged
      ensures !ok ==> Full()
      ensures |icache| == |old(icache)|
      ensures Supplied(old(use), old(disk), old(icache)[i], use, disk, icache[i], PartNeeds(n), ok)
      ensures ok ==> Valid() && Gains(sb, old(disk), old(icache), old(use), disk, icache, use, i)
      ensures ok ==> a == BlockAt(disk, icache[i], n) && a != 0 && LoggedIn(sb, use, old(logged), logged, i, n, n + 1)
      ensures BlockAt(old(disk), old(icache)[i], n) != 0 ==>
        ok && icache == old(icache) && disk == old(disk) && use == old(use) && logged == old(logged)
    {
      if n < NDIRECT {
        ok, a := MapDirect(i, n);
        assert PartNeeds(n) == {n};
      } else {
        ok, a := MapIndirect(i);
        if !ok {
          SuppliedShort(old(use), old(disk), old(icache)[i], use, disk, icache[i], {-1}, PartNeeds(n));
          return;
        }
        ghost var disk1, ino1, use1, l1 := disk, icache, use, logged;
        ok, a := MapEntry(i, n);
        SuppliedThen(old(use), old(disk), old(icache)[i], use1, disk1, ino1[i], use, disk, icache[i],
            {-1}, {n}, PartNeeds(n), ok);
        if ok {
          GainsThen(sb, old(disk), old(icache), old(use), disk1, ino1, use1, disk, icache, use, i);
        }
      }
    }
  
    /** Reads from file i, which is not a device; -1 stands for the source's error return. */
    method Readi(i: int, off0: nat, n0: nat) returns (r: int, dst: seq<Byte>)
      requires Valid() && 0 <= i < |icache| && NoHoles(disk, icache[i]) && off0 < UINT && n0 < UINT
      modifies `disk, `icache, `use, `logged
      ensures disk == old(disk) && icache == old(icache) && use == old(use) && logged == old(logged)
      ensures r == -1 <==> off0 > icache[i].size || off0 + n0 >= UINT
      ensures r != -1 ==>
        && r == |dst|
        && dst == Content(disk, icache[i])[off0..if off0 + n0 > icache[i].size then icache[i].size else off0 + n0]
    {
      dst := [];
      if off0 > icache[i].size || (off0 + n0) % UINT < off0 { return -1, dst; }
      var n := if off0 + n0 > icache[i].size then icache[i].size - off0 else n0;
      var tot, off := 0, off0;
      while tot < n
        invariant tot <= n && off == off0 + tot && |dst| == tot
        invariant disk == old(disk) && icache == old(icache) && use == old(use) && logged == old(logged)
        invariant forall k :: 0 <= k < tot ==> dst[k] == ByteAt(disk, icache[i], off0 + k)
      {
        assert BlockAt(disk, icache[i], off / BSIZE) != 0;
        var _, a := Bmap(i, off / BSIZE);
        assert 0 < a < |disk| by {
          assert Show(Uses, 0);
        }
        var bp := disk[a];
        var m := if n - tot < BSIZE - off % BSIZE then n - tot else BSIZE - off % BSIZE;
        ghost var was := dst;
        dst := dst + bp[off % BSIZE..off % BSIZE + m];
        forall k | 0 <= k < tot + m
          ensures dst[k] == ByteAt(disk, icache[i], off0 + k)
        {
          if k >= tot {
            assert (off0 + k) / BSIZE == off / BSIZE;
          }
        }
        tot, off := tot + m, off + m;
      }
      r := n;
    }
  
    method Iupdate(i: int)
      requires Valid() && 0 <= i < |icache| && WrittenThrough(sb, disk, icache, i)
      modifies `disk, `logged
      ensures Valid() && WrittenThrough(sb, disk, icache, -1) && Others(old(disk), icache, disk, icache, -1)
      ensures logged == old(logged) + {IBlock(sb, i)}
    {
      var b := IBlock(sb, i);
      var bp := PutInode(disk[b], i % IPB, icache[i]);
      assert Placed(sb, disk, icache, use, b) by {
        assert Show(Uses, 0);
      }
      WriteBlock(sb, disk, icache, use, b, bp);
      OthersKept(sb, disk, disk[b := bp], icache, icache, use, -1);
      forall k | 0 <= k < sb.ninodes
        ensures OnDisk(sb, disk[b := bp], k) == icache[k]
      {
        assert k != i ==> OnDisk(sb, disk, k) == icache[k];
      }
      LogWrite(b, bp);
    }
  
    /** ilock of an inode that has left the cache: because the cache is write-through, nothing is lost. */
    method Ilock(i: int) returns (d: Dinode)
      requires Valid() && 0 <= i < |icache| && WrittenThrough(sb, disk, icache, -1)
      ensures d == icache[i] && WellFormed(d)
    {
      assert OnDisk(sb, disk, i) == icache[i];
      d := GetInode(disk[IBlock(sb, i)], i % IPB);
    }

    /** A turn of the loop in writei. */
    method WriteStep(i: int, off: nat, src: seq<Byte>) returns (ok: bool)
      requires Valid() && 0 <= i < |icache| && off < MAXSIZE && off % BSIZE + |src| <= BSIZE
      modifies `disk, `icache, `use, `logged
      ensures !ok ==> Full()
      ensures |icache| == |old(icache)|
      ensures Supplied(old(use), old(disk), old(icache)[i], use, disk, icache[i], PartNeeds(off / BSIZE), ok)
      ensures ok ==> Valid() && Wrote(sb, old(disk), old(icache), old(use), disk, icache, use, i, off, off + |src|, src)
      ensures ok ==> BlockAt(disk, icache[i], off / BSIZE) != 0
      ensures ok ==> LoggedIn(sb, use, old(logged), logged, i, off / BSIZE, off / BSIZE + 1)
      ensures ok && BlockAt(old(disk), old(icache)[i], off / BSIZE) != 0 ==> icache == old(icache)
    {
      var a: int;
      ok, a := Bmap(i, off / BSIZE);
      if !ok { return; }
      WroteNext(sb, old(disk), old(icache), old(use), disk, icache, use, i, off, src);
      ghost var m := disk;
      LogWrite(a, Patch(disk[a], off % BSIZE, src));
      SameBlockAt(sb, m, disk, icache, use, i, off / BSIZE);
      StillSupplied(sb, m, disk, icache, use, i);
      SuppliedSame(old(use), old(disk), old(icache)[i], use, m, icache[i], disk, icache[i], PartNeeds(off / BSIZE));
    }
  
    /** The loop of writei. */
    method WriteLoop(i: int, off0: nat, src: seq<Byte>) returns (ok: bool)
      requires Valid() && 0 <= i < |icache| && NoHoles(disk, icache[i])
      requires off0 <= icache[i].size && off0 + |src| <= MAXSIZE
      modifies `disk, `icache, `use, `logged
      ensures !ok ==> Full()
      ensures |icache| == |old(icache)|
      ensures Supplied(old(use), old(disk), old(icache)[i], use, disk, icache[i], Needed(off0, off0 + |src|), ok)
      ensures ok ==>
        Valid() && Wrote(sb, old(disk), old(icache), old(use), disk, icache, use, i, off0, off0 + |src|, src)
      ensures ok ==> NoHolesBelow(disk, icache[i], off0 + |src|)
      ensures ok && off0 + |src| <= old(icache)[i].size ==> icache == old(icache)
      ensures ok ==> LoggedIn(sb, use, old(logged), logged, i, off0 / BSIZE, (off0 + |src| + BSIZE - 1) / BSIZE)
    {
      var n := |src|;
      var tot, off := 0, off0;
      ghost var hi := (off0 + n + BSIZE - 1) / BSIZE;
      WroteNothing(sb, disk, icache, use, i, off, src);
      NothingNeeded(off0);
      SuppliedAlready(use, disk, icache[i], Needed(off0, off0));
      while tot < n
        invariant tot <= n && off == off0 + tot && Valid() && |icache| == |old(icache)|
        invariant Supplied(old(use), old(disk), old(icache)[i], use, disk, icache[i], Needed(off0, off), true)
        invariant Wrote(sb, old(disk), old(icache), old(use), disk, icache, use, i, off0, off, src)
        invariant NoHolesBelow(disk, icache[i], off)
        invariant off <= old(icache)[i].size ==> icache == old(icache)
        invariant LoggedIn(sb, use, old(logged), logged, i, off0 / BSIZE, hi)
      {
        var m := if n - tot < BSIZE - off % BSIZE then n - tot else BSIZE - off % BSIZE;
        ok := WriteTurn(i, off0, off, src, m, old(disk), old(icache), old(use), old(logged));
        if !ok {
          NeededUpTo(off0, off + m, off0 + n);
          SuppliedShort(old(use), old(disk), old(icache)[i], use, disk, icache[i], Needed(off0, off + m),
              Needed(off0, off0 + n));
          return;
        }
        tot, off := tot + m, off + m;
      }
      ok := true;
    }

    /** One turn of it, after it has written the bytes from off0 up to off and nothing else since disk0, ino0, use0
        and logged0. */
    method WriteTurn(i: int, off0: nat, off: nat, src: seq<Byte>, m: nat, ghost disk0: Disk, ghost ino0: seq<Dinode>,
        ghost use0: seq<Use>, ghost logged0: set<int>) returns (ok: bool)
      requires Valid() && 0 <= i < |icache| == |ino0| && off0 <= off && off + m <= off0 + |src| <= MAXSIZE && 0 < m
      requires off % BSIZE + m <= BSIZE && Blocks(disk0) && |ino0[i].addrs| == NDIRECT + 1 && NoHoles(disk0, ino0[i])
      requires Wrote(sb, disk0, ino0, use0, disk, icache, use, i, off0, off, src) && NoHolesBelow(disk, icache[i], off)
      requires off <= ino0[i].size ==> icache == ino0
      requires Supplied(use0, disk0, ino0[i], use, disk, icache[i], Needed(off0, off), true)
      requires LoggedIn(sb, use, logged0, logged, i, off0 / BSIZE, (off0 + |src| + BSIZE - 1) / BSIZE)
      modifies `disk, `icache, `use, `logged
      ensures !ok ==> Full()
      ensures |icache| == |old(icache)|
      ensures Supplied(use0, disk0, ino0[i], use, disk, icache[i], Needed(off0, off + m), ok)
      ensures ok ==> Valid() && Wrote(sb, disk0, ino0, use0, disk, icache, use, i, off0, off + m, src)
      ensures ok ==> NoHolesBelow(disk, icache[i], off + m)
      ensures ok && off + m <= ino0[i].size ==> icache == ino0
      ensures ok ==> LoggedIn(sb, use, logged0, logged, i, off0 / BSIZE, (off0 + |src| + BSIZE - 1) / BSIZE)
    {
      if off < ino0[i].size {
        NotNew(sb, disk0, ino0, use0, disk, icache, use, i, off0, off, src);
      }
      var chunk := src[off - off0..off - off0 + m];
      ok := WriteStep(i, off, chunk);
      NeededOnce(off, off + m);
      NeededMore(off0, off, off + m);
      SuppliedThen(use0, disk0, ino0[i], old(use), old(disk), old(icache)[i], use, disk, icache[i],
          Needed(off0, off), PartNeeds(off / BSIZE), Needed(off0, off + m), ok);
      if !ok { return; }
      TurnDone(sb, disk0, ino0, use0, old(disk), old(icache), old(use), disk, icache, use, i, off0, off, m, src, chunk);
      LoggedMore(sb, old(use), use, logged0, old(logged), logged, i, off0 / BSIZE,
          (off0 + |src| + BSIZE - 1) / BSIZE, off / BSIZE);
    }

    /** Sets the size and writes the inode: the end of itrunc, and of writei for a file that has grown. */
    method SetSize(i: int, z: nat)
      requires Valid() && 0 <= i < |icache| && WrittenThrough(sb, disk, icache, i)
      requires NoHoles(disk, icache[i].(size := z))
      modifies `disk, `icache, `logged
      ensures Valid() && WrittenThrough(sb, disk, icache, -1) && Others(old(disk), old(icache), disk, icache, i)
      ensures icache == old(icache)[i := old(icache)[i].(size := z)] && logged == old(logged) + {IBlock(sb, i)}
      ensures NoHoles(disk, icache[i]) && Content(disk, icache[i]) == Content(old(disk), icache[i])
      ensures Blocks(old(disk)) && |old(icache)[i].addrs| == NDIRECT + 1
      ensures forall n :: InParts(disk, icache[i], n) <==> InParts(old(disk), old(icache)[i], n)
    {
      Resized(sb, disk, icache, use, i, z);
      icache := icache[i := icache[i].(size := z)];
      StillThrough(sb, disk, old(icache), disk, icache, i);
      Iupdate(i);
      SameHeld(old(disk), icache, disk, i);
      SameIn(old(disk), icache, disk, icache, -1, i);
      SameContent(old(disk), icache[i], disk);
      OthersAll(old(disk), icache, disk, i);
      OthersThen(old(disk), old(icache), old(disk), icache, disk, icache, i);
    }

    /** Writes to file i, which is not a device.  ok == false is the panic for a full disk; r == -1 stands
        for the source's error return. */
    method Writei(i: int, off: nat, src: seq<Byte>) returns (ok: bool, r: int)
      requires Valid() && 0 <= i < |icache| && NoHoles(disk, icache[i]) && WrittenThrough(sb, disk, icache, -1)
      requires off < UINT && |src| < UINT
      modifies `disk, `icache, `use, `logged
      ensures !ok ==> Full()
      ensures off > old(icache)[i].size || off + |src| > MAXSIZE || off + |src| <= old(icache)[i].size ==> ok
      ensures |icache| == |old(icache)|
      ensures off <= old(icache)[i].size && off + |src| <= MAXSIZE ==>
        && (ok <==> NewBlocks(old(disk), old(icache)[i], off, off + |src|) <= FreeBlocks(old(use)))
        && Supplied(old(use), old(disk), old(icache)[i], use, disk, icache[i], Needed(off, off + |src|), ok)
      ensures ok && (off > old(icache)[i].size || off + |src| > MAXSIZE) ==>
        r == -1 && disk == old(disk) && icache == old(icache) && use == old(use) && logged == old(logged)
      ensures ok && off <= old(icache)[i].size && off + |src| <= MAXSIZE ==>
        && r == |src| && Valid() && WrittenThrough(sb, disk, icache, -1) && NoHoles(disk, icache[i])
        && Others(old(disk), old(icache), disk, icache, i) && UsesStay(old(use), use)
        && Content(disk, icache[i]) == Overlay(Content(old(disk), old(icache)[i]), off, src)
        && LoggedIn(sb, use, old(logged), logged - {IBlock(sb, i)}, i, off / BSIZE, (off + |src| + BSIZE - 1) / BSIZE)
    {
      if off > icache[i].size || (off + |src|) % UINT < off { return true, -1; }
      if off + |src| > MAXSIZE { return true, -1; }
      ok := WriteLoop(i, off, src);
      SuppliedIff(old(use), old(disk), old(icache)[i], use, disk, icache[i], off, off + |src|, ok);
      if off + |src| <= old(icache)[i].size {
        NoneNew(old(disk), old(icache)[i], off, off + |src|);
      }
      if !ok { return false, -1; }
      ghost var z := if off + |src| > old(icache)[i].size then off + |src| else old(icache)[i].size;
      WroteParts(sb, old(disk), old(icache), old(use), disk, icache, use, i, off, off + |src|, src);
      FilledTo(sb, old(disk), old(icache), old(use), disk, icache, use, i, off, src, z);
      OthersInodes(old(disk), old(icache), disk, icache, i);
      if |src| > 0 && off + |src| > icache[i].size {
        ghost var disk1, ino1 := disk, icache;
        StillThrough(sb, old(disk), old(icache), disk, icache, i);
        SetSize(i, off + |src|);
        OthersThen(old(disk), old(icache), disk1, ino1, disk, icache, i);
        SuppliedSame(old(use), old(disk), old(icache)[i], use, disk1, ino1[i], disk, icache[i],
            Needed(off, off + |src|));
      } else {
        StillThrough(sb, old(disk), old(icache), disk, icache, -1);
        assert icache[i] == icache[i].(size := z);
      }
      r := |src|;
    }
  
    /** Clears the bit of block b; the panic for a bit that is clear already cannot happen. */
    method Bfree(b: int) returns (ghost m: Block)
      requires Fits(sb) && |disk| == sb.size && Blocks(disk) && 0 <= b < sb.size && BitAt(sb, disk, b)
      requires Unlogged(stable, disk, logged)
      modifies `disk, `logged
      ensures MapSet(sb, old(disk), b, m, false) && disk == old(disk)[BBlock(sb, b) := m]
      ensures logged == old(logged) + {BBlock(sb, b)} && Unlogged(stable, disk, logged)
    {
      var bp := disk[BBlock(sb, b)];
      bp := PutBit(bp, b % BPB, false);
      LogWrite(BBlock(sb, b), bp);
      m := bp;
    }
  
    /** A turn of the first loop of itrunc. */
    method FreeAddr(i: int, k: nat, ghost use0: seq<Use>)
      requires Valid() && 0 <= i < |icache| && k < NDIRECT && Freed(use0, use, i, k)
      modifies `disk, `icache, `use, `logged
      ensures Valid() && Freed(use0, use, i, k + 1) && SameInodeBlocks(sb, old(disk), disk)
      ensures Others(old(disk), old(icache), disk, icache, i)
      ensures icache == old(icache)[i := SetAddr(old(icache)[i], k, 0)]
    {
      var b := icache[i].addrs[k];
      assert b == BlockAt(disk, icache[i], k);
      FreedNext(sb, disk, icache, use0, use, i, k, b);
      if b != 0 {
        assert 0 < b < sb.size && use[b] == Data(i, k) && BitAt(sb, disk, b) by {
          assert Show(Uses, 0);
        }
        var m := Bfree(b);
        DirectFreed(sb, old(disk), icache, use, i, k, m);
        icache := icache[i := SetAddr(icache[i], k, 0)];
        use := use[b := Free];
      } else {
        GainsNothing(sb, disk, icache, use, i);
        SetSame(icache[i], k);
        assert icache == icache[i := icache[i]];
      }
    }

    /** The first loop of itrunc. */
    method FreeDirect(i: int)
      requires Valid() && 0 <= i < |icache|
      modifies `disk, `icache, `use, `logged
      ensures Valid() && Freed(old(use), use, i, NDIRECT) && SameInodeBlocks(sb, old(disk), disk)
      ensures Others(old(disk), old(icache), disk, icache, i) && AddrsFrom(old(icache)[i], icache[i], NDIRECT)
    {
      GainsNothing(sb, disk, icache, use, i);
      FreedNone(sb, disk, icache, use, i);
      var k := 0;
      while k < NDIRECT
        invariant 0 <= k <= NDIRECT && Valid() && Freed(old(use), use, i, k) && SameInodeBlocks(sb, old(disk), disk)
        invariant Others(old(disk), old(icache), disk, icache, i) && AddrsFrom(old(icache)[i], icache[i], k)
      {
        ghost var disk1, ino1 := disk, icache;
        FreeAddr(i, k, old(use));
        OthersThen(old(disk), old(icache), disk1, ino1, disk, icache, i);
        k := k + 1;
      }
    }
  
    /** A turn of the second loop of itrunc. */
    method FreeEntry(i: int, j: nat, ghost use0: seq<Use>)
      requires Shaded(sb, disk, icache, use, i, j) && j < NINDIRECT && Freed(use0, use, i, NDIRECT + j)
      requires Unlogged(stable, disk, logged)
      modifies `disk, `use, `logged
      ensures Shaded(sb, disk, icache, use, i, j + 1)
      ensures Freed(use0, use, i, NDIRECT + j + 1) && SameButMap(sb, old(disk), disk)
      ensures Unlogged(stable, disk, logged)
    {
      var t := icache[i].addrs[NDIRECT];
      var b := GetWord(disk[t], j);
      ShadedWord(sb, disk, icache, use, i, j);
      FreedNext(sb, Shade(disk, t, j), icache, use0, use, i, NDIRECT + j, b);
      if b != 0 {
        var m := Bfree(b);
        EntryFreed(sb, old(disk), icache, use, i, j, m);
        use := use[b := Free];
      } else {
        EntryNone(sb, disk, icache, use, i, j);
      }
    }

    /** The second loop of itrunc. */
    method FreeEntries(i: int, ghost use0: seq<Use>)
      requires Valid() && 0 <= i < |icache| && icache[i].addrs[NDIRECT] != 0 && Freed(use0, use, i, NDIRECT)
      modifies `disk, `use, `logged
      ensures Shaded(sb, disk, icache, use, i, NINDIRECT)
      ensures Freed(use0, use, i, MAXFILE) && SameButMap(sb, old(disk), disk)
      ensures Unlogged(stable, disk, logged)
    {
      ghost var t := icache[i].addrs[NDIRECT];
      assert WithoutFirst(disk[t], 0) == disk[t];
      assert Shade(disk, t, 0) == disk;
      var j := 0;
      while j < NINDIRECT
        invariant 0 <= j <= NINDIRECT && Shaded(sb, disk, icache, use, i, j) && Freed(use0, use, i, NDIRECT + j)
        invariant SameButMap(sb, old(disk), disk) && Unlogged(stable, disk, logged)
      {
        FreeEntry(i, j, use0);
        j := j + 1;
      }
    }

    method FreeIndirect(i: int, ghost use0: seq<Use>)
      requires Valid() && 0 <= i < |icache| && icache[i].addrs[NDIRECT] != 0 && Freed(use0, use, i, NDIRECT)
      modifies `disk, `icache, `use, `logged
      ensures Valid() && icache == old(icache)[i := SetAddr(old(icache)[i], NDIRECT, 0)]
      ensures SameButMap(sb, old(disk), disk)
      ensures var t := old(icache)[i].addrs[NDIRECT];
        0 <= t < |use| && Freed(use0, use[t := Indirect(i)], i, MAXFILE) && use[t] == Free
    {
      FreeEntries(i, use0);
      var t := icache[i].addrs[NDIRECT];
      ghost var disk1 := disk;
      ShadedBit(sb, disk, icache, use, i);
      var m := Bfree(t);
      ShadeGone(sb, disk1, icache, use, i, m);
      icache := icache[i := SetAddr(icache[i], NDIRECT, 0)];
      assert use == use[t := Free][t := Indirect(i)];
      use := use[t := Free];
    }
  
    /** itrunc up to the change of size. */
    method FreeParts(i: int)
      requires Valid() && 0 <= i < |icache|
      modifies `disk, `icache, `use, `logged
      ensures Valid() && Others(old(disk), old(icache), disk, icache, i) && SameInodeBlocks(sb, old(disk), disk)
      ensures AllFreed(old(use), use, i) && AddrsFrom(old(icache)[i], icache[i], NDIRECT + 1)
    {
      FreeDirect(i);
      if icache[i].addrs[NDIRECT] != 0 {
        ghost var disk1, ino1, use1 := disk, icache, use;
        FreeIndirect(i, old(use));
        MapOthers(sb, disk1, disk, ino1, icache, use1, i);
        OthersThen(old(disk), old(icache), disk1, ino1, disk, icache, i);
      }
      FreedAll(sb, old(disk), old(icache), old(use), disk, icache, use, i);
    }

    method Itrunc(i: int)
      requires Valid() && 0 <= i < |icache| && WrittenThrough(sb, disk, icache, -1)
      modifies `disk, `icache, `use, `logged
      ensures Valid() && WrittenThrough(sb, disk, icache, -1) && Others(old(disk), old(icache), disk, icache, i)
      ensures AllFreed(old(use), use, i)
      ensures icache[i].size == 0 && AddrsFrom(old(icache)[i].(size := 0), icache[i], NDIRECT + 1)
    {
      FreeParts(i);
      ghost var disk1, ino1 := disk, icache;
      OthersInodes(old(disk), old(icache), disk, icache, i);
      StillThrough(sb, old(disk), old(icache), disk, icache, i);
      SetSize(i, 0);
      OthersThen(old(disk), old(icache), disk1, ino1, disk, icache, i);
    }
  }
}
