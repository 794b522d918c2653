/**
 filewrite (xv6/file.c): a write is cut into chunks that fit in a transaction of the log.
 */
module FileWrite {
  import opened Basics
  import opened DiskFormat
  import opened Folding
  import opened Files
  import LogSpace

  /** The blocks of parts lo, ..., lo + n - 1 of a file. */
  ghost function Parts(disk: Disk, d: Dinode, lo: nat, n: nat): (s: set<int>)
    requires Blocks(disk) && |d.addrs| == NDIRECT + 1 && lo + n <= MAXFILE
    ensures |s| <= n && forall k :: lo <= k < lo + n ==> BlockAt(disk, d, k) in s
  {
    if n == 0 then {} else Parts(disk, d, lo, n - 1) + {BlockAt(disk, d, lo + n - 1)}
  }

  lemma FewerIn<T>(a: set<T>, b: set<T>)
    requires a <= b
    ensures |a| <= |b|
  {
    assert b == a + (b - a);
  }

  /** Blocks of inodes, of the free map or of files: none of the log. */
  ghost predicate PastLog(sb: Super, logged: set<int>) {
    forall x :: x in logged ==> sb.inodestart <= x < sb.size
  }

  /** A transaction of a chunk: at most 7 blocks, none of the log. */
  ghost predicate Modest(sb: Super, logged: set<int>) {
    forall u :: Show(Modesty, u) ==> |logged| <= 7 < LogSpace.MAXOPBLOCKS && PastLog(sb, logged)
  }

  /** With a single block of free map, writing the parts lo, ..., hi - 1 of a file logs at most 3 + hi - lo
      blocks: the map, the indirect block, the inode and the parts. */
  lemma FewBlocks(sb: Super, disk: Disk, ino: seq<Dinode>, use: seq<Use>, before: set<int>, logged: set<int>, i: int,
      lo: nat, hi: nat)
    requires Sound(sb, disk, ino, use) && 0 <= i < |ino| && lo <= hi <= MAXFILE && sb.size < BPB
    requires LoggedIn(sb, use, before, logged - {IBlock(sb, i)}, i, lo, hi)
    ensures |logged - before| <= 3 + hi - lo && PastLog(sb, logged - before)
  {
    assert Show(Loggings, 0) && Show(Uses, 0);
    var few := {IBlock(sb, i), sb.bmapstart, ino[i].addrs[NDIRECT]} + Parts(disk, ino[i], lo, hi - lo);
    forall x | x in logged - before
      ensures x in few && sb.inodestart <= x < sb.size
    {
      if x != IBlock(sb, i) {
        assert Target(sb, use, i, lo, hi, x);
        assert Placed(sb, disk, ino, use, x);
      }
    }
    FewerIn(logged - before, few);
  }

  const MAX: nat := (LogSpace.MAXOPBLOCKS - 1 - 1 - 2) / 2 * 512

  lemma ChunkParts(off: nat, n: nat)
    requires n <= MAX
    ensures (off + n + BSIZE - 1) / BSIZE - off / BSIZE <= 4
  {
  }

  lemma OverlayThen(s: seq<int>, off: nat, a: seq<int>, b: seq<int>)
    requires off <= |s|
    ensures off + |a| <= |Overlay(s, off, a)| && Overlay(Overlay(s, off, a), off + |a|, b) == Overlay(s, off, a + b)
  {
  }

  /** The contents s when the first k bytes of src have been written at off to a file with the contents s0. */
  ghost predicate Progress(s0: seq<int>, off: nat, src: seq<int>, k: nat, s: seq<int>) {
    k <= |src| && forall u :: Show(Written, u) ==>
      if off <= |s0| then s == Overlay(s0, off, src[..k]) && off + k <= |s| else k == 0 && s == s0
  }

  lemma ProgressStart(s0: seq<int>, off: nat, src: seq<int>)
    ensures Progress(s0, off, src, 0, s0)
  {
  }

  lemma ProgressReaches(s0: seq<int>, off: nat, src: seq<int>, k: nat, s: seq<int>)
    requires Progress(s0, off, src, k, s)
    ensures off + k <= |s| <==> off <= |s0|
  {
    assert Show(Written, 0);
  }

  /** s' is s with src at off. */
  ghost predicate Wrote(s: seq<int>, off: nat, src: seq<int>, s': seq<int>) {
    off <= |s| && forall u :: Show(ChunkBytes, u) ==> s' == Overlay(s, off, src)
  }

  ghost predicate IsPart(src: seq<int>, k: nat, n: nat, part: seq<int>) {
    k + n <= |src| && |part| == n && forall u :: Show(Slices, u) ==> part == src[k..k + n]
  }

  method Part(src: seq<Byte>, k: nat, n: nat) returns (part: seq<Byte>)
    requires k + n <= |src|
    ensures IsPart(src, k, n, part)
  {
    part := src[k..k + n];
  }

  lemma ProgressNext(s0: seq<int>, off: nat, src: seq<int>, k: nat, n: nat, chunk: seq<int>, s: seq<int>, s': seq<int>)
    requires Progress(s0, off, src, k, s) && IsPart(src, k, n, chunk) && Wrote(s, off + k, chunk, s')
    ensures Progress(s0, off, src, k + n, s')
  {
    assert Show(Written, 0) && Show(ChunkBytes, 0) && Show(Slices, 0);
    OverlayThen(s0, off, src[..k], src[k..k + n]);
    assert src[..k] + src[k..k + n] == src[..k + n];
  }

  function Chunk(n: nat): nat {
    if n > MAX then MAX else n
  }

  ghost predicate Usable(fs: Fs, i: int)
    reads fs
  {
    forall u :: Show(Usability, u) ==> UsableNow(fs, i)
  }

  ghost predicate UsableNow(fs: Fs, i: int)
    reads fs
  {
    && fs.Valid() && 0 <= i < |fs.icache| && NoHoles(fs.disk, fs.icache[i])
    && WrittenThrough(fs.sb, fs.disk, fs.icache, -1)
    && fs.sb.size < BPB
  }

  ghost function Bytes(fs: Fs, i: int): (s: seq<int>)
    requires Usable(fs, i)
    reads fs
    ensures |s| <= MAXSIZE
  {
    assert Show(Usability, 0);
    Content(fs.disk, fs.icache[i])
  }

  lemma OthersSame(fs: Fs, i: int)
    requires Usable(fs, i)
    ensures Others(fs.disk, fs.icache, fs.disk, fs.icache, i)
  {
    assert Show(Usability, 0);
    GainsNothing(fs.sb, fs.disk, fs.icache, fs.use, i);
  }

  /** What the disk holds between two transactions of a write: `done` bytes are in the file, by a
      transaction of the blocks `logged`. */
  datatype Version = Version(disk: Disk, ino: seq<Dinode>, logged: set<int>, done: nat)

  /** The inodes on the disk are `ino`, and file i has the contents s0 with the first v.done bytes of src at off. */
  ghost predicate Stored(sb: Super, i: int, s0: seq<int>, off: nat, src: seq<int>, v: Version) {
    forall u :: Show(Stores, u) ==>
      && Fits(sb) && |v.disk| == sb.size && Blocks(v.disk)
      && |v.ino| == sb.ninodes && WrittenThrough(sb, v.disk, v.ino, -1)
      && 0 <= i < |v.ino| && |v.ino[i].addrs| == NDIRECT + 1 && 0 <= v.ino[i].size <= MAXSIZE
      && Progress(s0, off, src, v.done, Content(v.disk, v.ino[i]))
  }

  /** The transaction of one chunk leads from v to v'. */
  ghost predicate Follows(sb: Super, src: seq<int>, v: Version, v': Version) {
    && Modest(sb, v'.logged) && Unlogged(v.disk, v'.disk, v'.logged)
    && v.done < |src| && v'.done == v.done + Chunk(|src| - v.done)
  }

  /** The versions of the disk from before a write on. */
  ghost predicate Trace(sb: Super, i: int, s0: seq<int>, off: nat, src: seq<int>, t: seq<Version>) {
    && |t| > 0
    && forall u :: Show(Versions, u) ==>
      && (forall j :: 0 <= j < |t| ==> Stored(sb, i, s0, off, src, t[j]))
      && (forall j :: 0 < j < |t| ==> Follows(sb, src, t[j - 1], t[j]))
      && (forall j :: 0 <= j < |t| ==> Others(t[0].disk, t[0].ino, t[j].disk, t[j].ino, i))
  }

  lemma TraceNext(sb: Super, i: int, s0: seq<int>, off: nat, src: seq<int>, t: seq<Version>, v: Version)
    requires Trace(sb, i, s0, off, src, t) && Stored(sb, i, s0, off, src, v) && Follows(sb, src, t[|t| - 1], v)
    requires Others(t[|t| - 1].disk, t[|t| - 1].ino, v.disk, v.ino, i)
    ensures Trace(sb, i, s0, off, src, t + [v])
  {
    assert Show(Versions, 0);
    OthersThen(t[0].disk, t[0].ino, t[|t| - 1].disk, t[|t| - 1].ino, v.disk, v.ino, i);
  }

  /** The file as it is on the disk now. */
  lemma StoredNow(fs: Fs, i: int, s0: seq<int>, off: nat, src: seq<int>, v: Version)
    requires Usable(fs, i) && v.disk == fs.disk && v.ino == fs.icache && Progress(s0, off, src, v.done, Bytes(fs, i))
    ensures Stored(fs.sb, i, s0, off, src, v)
  {
    assert Show(Usability, 0);
  }

  ghost predicate IsReached(fs: Fs, i: int, s0: seq<int>, off: nat, src: seq<int>, k: nat, t: seq<Version>,
      use0: seq<Use>, r: bool)
    reads fs
  {
    forall u :: Show(Turns, u) ==> (r <==> ReachedNow(fs, i, s0, off, src, k, t, use0))
  }

  /** k bytes are written, and the last version is on the disk. */
  ghost predicate Reached(fs: Fs, i: int, s0: seq<int>, off: nat, src: seq<int>, k: nat, t: seq<Version>,
      use0: seq<Use>): (r: bool)
    reads fs
    ensures IsReached(fs, i, s0, off, src, k, t, use0, r)
  {
    assert IsReached(fs, i, s0, off, src, k, t, use0, ReachedNow(fs, i, s0, off, src, k, t, use0));
    var r :| IsReached(fs, i, s0, off, src, k, t, use0, r);
    r
  }

  ghost predicate ReachedNow(fs: Fs, i: int, s0: seq<int>, off: nat, src: seq<int>, k: nat, t: seq<Version>,
      use0: seq<Use>)
    reads fs
  {
    && Usable(fs, i) && Progress(s0, off, src, k, Bytes(fs, i)) && Trace(fs.sb, i, s0, off, src, t)
    && t[|t| - 1].disk == fs.disk && t[|t| - 1].ino == fs.icache && t[|t| - 1].done == k
    && Taken(fs, i, use0, t[0], Needed(off, off + k), true)
  }

  /** The blocks taken since version v, when the uses were use0. */
  ghost predicate Taken(fs: Fs, i: int, use0: seq<Use>, v: Version, want: set<int>, ok: bool)
    reads fs
  {
    0 <= i < |v.ino| && i < |fs.icache| && Supplied(use0, v.disk, v.ino[i], fs.use, fs.disk, fs.icache[i], want, ok)
  }

  lemma ReachedStart(fs: Fs, i: int, off: nat, src: seq<int>)
    requires Usable(fs, i)
    ensures Reached(fs, i, Bytes(fs, i), off, src, 0, [Version(fs.disk, fs.icache, {}, 0)], fs.use)
  {
    ProgressStart(Bytes(fs, i), off, src);
    StoredNow(fs, i, Bytes(fs, i), off, src, Version(fs.disk, fs.icache, {}, 0));
    OthersSame(fs, i);
    assert Show(Turns, 0) && Show(Usability, 0);
    NothingNeeded(off);
    SuppliedAlready(fs.use, fs.disk, fs.icache[i], {});
  }

  lemma ReachedNext(fs: Fs, i: int, s0: seq<int>, off: nat, src: seq<int>, k: nat, got: nat, t: seq<Version>,
      use0: seq<Use>)
    requires Usable(fs, i) && k < |src| && got == Chunk(|src| - k) && Progress(s0, off, src, k + got, Bytes(fs, i))
    requires Trace(fs.sb, i, s0, off, src, t) && t[|t| - 1].done == k
    requires Modest(fs.sb, fs.logged) && Unlogged(t[|t| - 1].disk, fs.disk, fs.logged)
    requires Others(t[|t| - 1].disk, t[|t| - 1].ino, fs.disk, fs.icache, i)
    requires Taken(fs, i, use0, t[0], Needed(off, off + k + got), true)
    ensures Reached(fs, i, s0, off, src, k + got, t + [Version(fs.disk, fs.icache, fs.logged, k + got)], use0)
  {
    var v := Version(fs.disk, fs.icache, fs.logged, k + got);
    StoredNow(fs, i, s0, off, src, v);
    TraceNext(fs.sb, i, s0, off, src, t, v);
    assert Show(Turns, 0);
  }

  lemma ReachedEnd(fs: Fs, i: int, s0: seq<int>, off: nat, src: seq<int>, k: nat, t: seq<Version>, use0: seq<Use>)
    requires Reached(fs, i, s0, off, src, k, t, use0)
    ensures ReachedNow(fs, i, s0, off, src, k, t, use0) && Others(t[0].disk, t[0].ino, fs.disk, fs.icache, i)
  {
    assert Show(Turns, 0) && Show(Versions, 0);
  }

  lemma ReachedStill(fs: Fs, i: int, s0: seq<int>, off: nat, src: seq<int>, k: nat, t: seq<Version>, use0: seq<Use>)
    requires Usable(fs, i) && Progress(s0, off, src, k, Bytes(fs, i)) && Trace(fs.sb, i, s0, off, src, t)
    requires t[|t| - 1].disk == fs.disk && t[|t| - 1].ino == fs.icache && t[|t| - 1].done == k
    requires Taken(fs, i, use0, t[0], Needed(off, off + k), true)
    ensures Reached(fs, i, s0, off, src, k, t, use0)
  {
    assert Show(Turns, 0);
  }

  /** One turn of the loop: a transaction of its own.  Without a panic it has logged at most 7 blocks, and
      either the chunk is in the file or it does not fit and the file is as before. */
  method WriteChunk(fs: Fs, i: int, off: nat, src: seq<Byte>) returns (ok: bool, r: int)
    requires Usable(fs, i) && off < UINT && |src| <= MAX
    modifies fs
    ensures !ok ==> fs.Full()
    ensures |fs.icache| == |old(fs.icache)| && 0 <= i < |fs.icache|
    ensures if off <= |old(Bytes(fs, i))| && off + |src| <= MAXSIZE
      then Supplied(old(fs.use), old(fs.disk), old(fs.icache)[i], fs.use, fs.disk, fs.icache[i],
        Needed(off, off + |src|), ok)
      else ok && fs.use == old(fs.use)
    ensures ok ==> Modest(fs.sb, fs.logged) && Unlogged(old(fs.disk), fs.disk, fs.logged)
    ensures ok ==> Usable(fs, i) && Others(old(fs.disk), old(fs.icache), fs.disk, fs.icache, i)
    ensures ok ==>
      if off <= |old(Bytes(fs, i))| && off + |src| <= MAXSIZE
      then r == |src| && Wrote(old(Bytes(fs, i)), off, src, Bytes(fs, i))
      else r == -1 && Bytes(fs, i) == old(Bytes(fs, i)) && fs.disk == old(fs.disk) && fs.icache == old(fs.icache)
  {
    assert Show(Usability, 0);
    fs.stable, fs.logged := fs.disk, {}; // begin_op
    GainsNothing(fs.sb, fs.disk, fs.icache, fs.use, i);
    ok, r := fs.Writei(i, off, src);
    if ok && r != -1 {
      ghost var hi := (off + |src| + BSIZE - 1) / BSIZE;
      ChunkParts(off, |src|);
      FewBlocks(fs.sb, fs.disk, fs.icache, fs.use, {}, fs.logged, i, off / BSIZE, hi);
      assert fs.logged - {} == fs.logged;
    }
  }

  /** The chunks end after 1536, 3072, ... bytes, and the last one at the end of the data. */
  lemma {:induction false} ChunkEnds(sb: Super, i: int, s0: seq<int>, off: nat, src: seq<int>, t: seq<Version>, n: nat)
    requires Trace(sb, i, s0, off, src, t) && t[0].done == 0 && n < |t|
    ensures t[n].done == if 1536 * n < |src| then 1536 * n else |src|
  {
    if n > 0 {
      ChunkEnds(sb, i, s0, off, src, t, n - 1);
      assert Follows(sb, src, t[n - 1], t[n]) by {
        assert Show(Versions, 0);
      }
    }
  }

  /** In no interleaving of operations as small as these chunks does log_write run out of log space. */
  lemma ChunksFit()
    ensures LogSpace.PanicFree(7, LogSpace.LOGSIZE)
  {
    LogSpace.PanicFreeIff(7);
  }

  /** The chunk from byte k on. */
  method WriteTurn(fs: Fs, i: int, off0: nat, src: seq<Byte>, k: nat, ghost s0: seq<int>, ghost t: seq<Version>,
      ghost use0: seq<Use>)
    returns (ok: bool, got: int, ghost t': seq<Version>)
    requires k < |src| && off0 + k < UINT && Reached(fs, i, s0, off0, src, k, t, use0) && |t| > 0
    modifies fs
    ensures |t'| > 0 && t'[0] == t[0]
    ensures !ok ==>
      && fs.Full() && Trace(fs.sb, i, s0, off0, src, t) && off0 + k + Chunk(|src| - k) <= MAXSIZE
      && Taken(fs, i, use0, t[0], Needed(off0, off0 + k + Chunk(|src| - k)), false)
    ensures ok && got < 0 ==>
      Reached(fs, i, s0, off0, src, k, t, use0) && (off0 <= |s0| ==> off0 + k + Chunk(|src| - k) > MAXSIZE)
    ensures ok && got >= 0 ==>
      got == Chunk(|src| - k) && off0 + k + got <= MAXSIZE && Reached(fs, i, s0, off0, src, k + got, t', use0)
  {
    ReachedEnd(fs, i, s0, off0, src, k, t, use0);
    var n1 := Chunk(|src| - k);
    var chunk := Part(src, k, n1);
    ProgressReaches(s0, off0, src, k, Bytes(fs, i));
    ghost var use1, disk1, d1 := fs.use, fs.disk, fs.icache[i];
    ok, got := WriteChunk(fs, i, off0 + k, chunk);
    t' := t;
    if !ok || got >= 0 {
      NeededMore(off0, off0 + k, off0 + k + n1);
      SuppliedThen(use0, t[0].disk, t[0].ino[i], use1, disk1, d1, fs.use, fs.disk, fs.icache[i],
          Needed(off0, off0 + k), Needed(off0 + k, off0 + k + n1), Needed(off0, off0 + k + n1), ok);
    }
    if ok && got >= 0 {
      assert got == n1;
      ProgressNext(s0, off0, src, k, got, chunk, old(Bytes(fs, i)), Bytes(fs, i));
      ReachedNext(fs, i, s0, off0, src, k, got, t, use0);
      t' := t + [Version(fs.disk, fs.icache, fs.logged, k + got)];
    } else if ok {
      ReachedStill(fs, i, s0, off0, src, k, t, use0);
    }
  }

  /** The loop. */
  method WriteChunks(fs: Fs, i: int, off0: nat, src: seq<Byte>, ghost s0: seq<int>, ghost use0: seq<Use>)
    returns (ok: bool, off: nat, k: nat, ghost t: seq<Version>)
    requires Usable(fs, i) && off0 < UINT && |src| < 0x8000_0000 && s0 == Bytes(fs, i) && use0 == fs.use
    modifies fs
    ensures !ok ==>
      && fs.Full() && Trace(fs.sb, i, s0, off0, src, t) && k < |src| && off0 + k + Chunk(|src| - k) <= MAXSIZE
      && Taken(fs, i, use0, t[0], Needed(off0, off0 + k + Chunk(|src| - k)), false)
    ensures ok ==> k <= |src| && off == off0 + k && Reached(fs, i, s0, off0, src, k, t, use0)
    ensures ok && k < |src| && off0 <= |s0| ==> off0 + k + Chunk(|src| - k) > MAXSIZE
    ensures |t| > 0 && t[0] == Version(old(fs.disk), old(fs.icache), {}, 0)
  {
    ok, off, k := true, off0, 0;
    ReachedStart(fs, i, off0, src);
    t := [Version(fs.disk, fs.icache, {}, 0)];
    while k < |src|
      invariant k <= |src| && off == off0 + k && off < UINT && ok
      invariant Reached(fs, i, s0, off0, src, k, t, use0) && |t| > 0
      invariant t[0] == Version(old(fs.disk), old(fs.icache), {}, 0)
    {
      var got: int;
      ghost var t';
      ok, got, t' := WriteTurn(fs, i, off0, src, k, s0, t, use0);
      if !ok || got < 0 { break; }
      off, k, t := off + got, k + got, t';
    }
  }

  /** ok == false is the panic for a full disk.  `done` bytes get into the file; they are all of src unless the
      write would start past the end of the file or the next chunk would end past the largest file size. */
  method Filewrite(fs: Fs, i: int, off0: nat, src: seq<Byte>)
    returns (ok: bool, r: int, off: nat, ghost done: nat, ghost t: seq<Version>)
    requires Usable(fs, i) && off0 < UINT && |src| < 0x8000_0000
    modifies fs
    ensures !ok ==> fs.Full()
    ensures ok ==> Usable(fs, i) && Others(old(fs.disk), old(fs.icache), fs.disk, fs.icache, i)
    ensures ok ==> off == off0 + done && r == if done == |src| then |src| else -1
    ensures ok ==> Progress(old(Bytes(fs, i)), off0, src, done, Bytes(fs, i))
    ensures ok && done < |src| && off0 <= |old(Bytes(fs, i))| ==> off0 + done + Chunk(|src| - done) > MAXSIZE
    ensures 0 <= i < |old(fs.icache)| && Blocks(old(fs.disk)) && |old(fs.icache)[i].addrs| == NDIRECT + 1
    ensures ok ==> NewBlocks(old(fs.disk), old(fs.icache)[i], off0, off0 + done) <= FreeBlocks(old(fs.use))
    ensures !ok ==> done < |src| && off0 + done + Chunk(|src| - done) <= MAXSIZE
    ensures !ok ==>
      NewBlocks(old(fs.disk), old(fs.icache)[i], off0, off0 + done + Chunk(|src| - done)) > FreeBlocks(old(fs.use))
    ensures Trace(fs.sb, i, old(Bytes(fs, i)), off0, src, t) && t[0] == Version(old(fs.disk), old(fs.icache), {}, 0)
    ensures ok ==> t[|t| - 1].disk == fs.disk && t[|t| - 1].ino == fs.icache && t[|t| - 1].done == done
  {
    ghost var s0 := Bytes(fs, i);
    var k: nat;
    assert 0 <= i < |fs.icache| by {
      assert Show(Usability, 0);
    }
    ghost var use0, disk0, d0 := fs.use, fs.disk, fs.icache[i];
    ok, off, k, t := WriteChunks(fs, i, off0, src, s0, use0);
    if ok {
      ReachedEnd(fs, i, s0, off0, src, k, t, use0);
    }
    ghost var end := if ok then off0 + k else off0 + k + Chunk(|src| - k);
    SuppliedIff(use0, disk0, d0, fs.use, fs.disk, fs.icache[i], off0, end, ok);
    r := if ok && k == |src| then |src| else -1;
    done := k;
  }
}
