/**
 Several operations in one transaction of the log (xv6/log.c:9-21): writes to any files, one after the other,
 between the first begin_op and the last end_op.  A crash leaves the effects of all of them or of none.
 */
module GroupCommit {
  import opened Basics
  import opened CrashedWrite
  import opened DiskFormat
  import opened FileWrite
  import opened Files
  import opened Folding
  import LogSpace
  import Wal

  /** A write of src at byte off of file i. */
  datatype Request = Request(i: int, off: nat, src: seq<Byte>)

  /** No file has a hole, and the inodes are on disk. */
  ghost predicate Whole(sb: Super, disk: Disk, ino: seq<Dinode>) {
    && Fits(sb) && |disk| == sb.size && Blocks(disk) && |ino| == sb.ninodes && WrittenThrough(sb, disk, ino, -1)
    && forall i :: 0 <= i < |ino| ==> NoHoles(disk, ino[i])
  }

  /** The contents of all files. */
  ghost function Contents(sb: Super, disk: Disk, ino: seq<Dinode>): (c: seq<seq<int>>)
    requires Whole(sb, disk, ino)
    ensures |c| == |ino|
  {
    seq(|ino|, i requires 0 <= i < |ino| => Content(disk, ino[i]))
  }

  /** What a request does to the contents; one that starts past the end of the file, or ends past the largest
      file size, does nothing. */
  ghost function Perform(c: seq<seq<int>>, q: Request): (r: seq<seq<int>>)
    requires 0 <= q.i < |c|
    ensures |r| == |c|
  {
    if q.off <= |c[q.i]| && q.off + |q.src| <= MAXSIZE then c[q.i := Overlay(c[q.i], q.off, q.src)] else c
  }

  ghost predicate Requests(n: nat, qs: seq<Request>) {
    forall j :: 0 <= j < |qs| ==> 0 <= qs[j].i < n && qs[j].off < UINT && |qs[j].src| <= MAX
  }

  ghost function PerformAll(c: seq<seq<int>>, qs: seq<Request>): (r: seq<seq<int>>)
    requires Requests(|c|, qs)
    ensures |r| == |c|
  {
    if qs == [] then c else Perform(PerformAll(c, qs[..|qs| - 1]), qs[|qs| - 1])
  }

  lemma PerformNext(c: seq<seq<int>>, qs: seq<Request>, q: Request)
    requires Requests(|c|, qs) && 0 <= q.i < |c| && q.off < UINT && |q.src| <= MAX
    ensures Requests(|c|, qs + [q]) && PerformAll(c, qs + [q]) == Perform(PerformAll(c, qs), q)
  {
    assert (qs + [q])[..|qs|] == qs;
  }

  lemma WroteWhole(sb: Super, disk: Disk, ino: seq<Dinode>, disk': Disk, ino': seq<Dinode>, q: Request)
    requires Whole(sb, disk, ino) && 0 <= q.i < |ino| == |ino'| && |disk'| == |disk| && Blocks(disk')
    requires WrittenThrough(sb, disk', ino', -1) && NoHoles(disk', ino'[q.i]) && Others(disk, ino, disk', ino', q.i)
    requires q.off <= ino[q.i].size && q.off + |q.src| <= MAXSIZE
    requires Content(disk', ino'[q.i]) == Overlay(Content(disk, ino[q.i]), q.off, q.src)
    ensures Whole(sb, disk', ino') && Contents(sb, disk', ino') == Perform(Contents(sb, disk, ino), q)
  {
    forall k | 0 <= k < |ino| && k != q.i
      ensures NoHoles(disk', ino'[k]) && Content(disk', ino'[k]) == Content(disk, ino[k])
    {
      SameIn(disk, ino, disk', ino', q.i, k);
      SameContent(disk, ino[k], disk');
    }
  }

  /** In the middle of a transaction that began with the disk fs.stable and the contents c0. */
  ghost predicate Underway(fs: Fs, c0: seq<seq<int>>, qs: seq<Request>)
    reads fs
  {
    forall u :: Show(Group, u) ==> UnderwayNow(fs, c0, qs)
  }

  ghost predicate UnderwayNow(fs: Fs, c0: seq<seq<int>>, qs: seq<Request>)
    reads fs
  {
    && fs.Valid() && fs.sb.size < BPB && Whole(fs.sb, fs.disk, fs.icache) && |c0| == |fs.icache|
    && Requests(|c0|, qs) && Contents(fs.sb, fs.disk, fs.icache) == PerformAll(c0, qs)
    && |fs.logged| <= 7 * |qs| && PastLog(fs.sb, fs.logged)
  }

  lemma MoreLogged(sb: Super, before: set<int>, logged: set<int>)
    requires PastLog(sb, before) && PastLog(sb, logged - before)
    ensures |logged| <= |before| + |logged - before| && PastLog(sb, logged)
  {
    FewerIn(logged, before + (logged - before));
    forall x | x in logged
      ensures sb.inodestart <= x < sb.size
    {
      assert x in before || x in logged - before;
    }
  }

  lemma UnderwayNext(fs: Fs, c0: seq<seq<int>>, qs: seq<Request>, q: Request)
    requires fs.Valid() && fs.sb.size < BPB && Whole(fs.sb, fs.disk, fs.icache) && |c0| == |fs.icache|
    requires Requests(|c0|, qs) && 0 <= q.i < |c0| && q.off < UINT && |q.src| <= MAX
    requires Contents(fs.sb, fs.disk, fs.icache) == Perform(PerformAll(c0, qs), q)
    requires |fs.logged| <= 7 * |qs| + 7 && PastLog(fs.sb, fs.logged)
    ensures Underway(fs, c0, qs + [q])
  {
    PerformNext(c0, qs, q);
  }

  lemma UnderwayOpen(fs: Fs, c0: seq<seq<int>>, qs: seq<Request>)
    requires Underway(fs, c0, qs)
    ensures UnderwayNow(fs, c0, qs)
  {
    assert Show(Group, 0);
  }

  /** One operation: a write to a file. */
  method WriteOne(fs: Fs, q: Request, ghost c: seq<seq<int>>) returns (ok: bool)
    requires fs.Valid() && fs.sb.size < BPB && Whole(fs.sb, fs.disk, fs.icache) && 0 <= q.i < |fs.icache|
    requires q.off < UINT && |q.src| <= MAX && PastLog(fs.sb, fs.logged) && c == Contents(fs.sb, fs.disk, fs.icache)
    modifies fs`disk, fs`icache, fs`use, fs`logged
    ensures !ok ==> fs.Full()
    ensures ok ==> fs.Valid() && Whole(fs.sb, fs.disk, fs.icache) && |fs.icache| == |old(fs.icache)|
    ensures ok ==> Contents(fs.sb, fs.disk, fs.icache) == Perform(c, q)
    ensures ok ==> |fs.logged| <= |old(fs.logged)| + 7 && PastLog(fs.sb, fs.logged)
  {
    ghost var disk, ino, before := fs.disk, fs.icache, fs.logged;
    var r;
    ok, r := fs.Writei(q.i, q.off, q.src);
    if ok && r != -1 {
      ghost var hi := (q.off + |q.src| + BSIZE - 1) / BSIZE;
      ChunkParts(q.off, |q.src|);
      FewBlocks(fs.sb, fs.disk, fs.icache, fs.use, before, fs.logged, q.i, q.off / BSIZE, hi);
      WroteWhole(fs.sb, disk, ino, fs.disk, fs.icache, q);
      MoreLogged(fs.sb, before, fs.logged);
    }
  }

  /** One more operation of the transaction. */
  method WriteMore(fs: Fs, q: Request, ghost c0: seq<seq<int>>, ghost qs: seq<Request>) returns (ok: bool)
    requires Underway(fs, c0, qs) && 0 <= q.i < |c0| && q.off < UINT && |q.src| <= MAX
    modifies fs`disk, fs`icache, fs`use, fs`logged
    ensures !ok ==> fs.Full()
    ensures ok ==> Underway(fs, c0, qs + [q])
  {
    UnderwayOpen(fs, c0, qs);
    ok := WriteOne(fs, q, PerformAll(c0, qs));
    if ok {
      UnderwayNext(fs, c0, qs, q);
    }
  }

  /** The operations qs in one transaction; ok == false is the panic for a full disk. */
  method WriteGroup(fs: Fs, qs: seq<Request>) returns (ok: bool)
    requires fs.Valid() && fs.sb.size < BPB && Whole(fs.sb, fs.disk, fs.icache) && Requests(|fs.icache|, qs)
    modifies fs
    ensures !ok ==> fs.Full()
    ensures ok ==>
      && Whole(fs.sb, fs.disk, fs.icache) && |fs.icache| == |old(fs.icache)|
      && Contents(fs.sb, fs.disk, fs.icache) == PerformAll(old(Contents(fs.sb, fs.disk, fs.icache)), qs)
      && Unlogged(old(fs.disk), fs.disk, fs.logged) && |fs.logged| <= 7 * |qs| && PastLog(fs.sb, fs.logged)
  {
    ghost var c0 := Contents(fs.sb, fs.disk, fs.icache);
    fs.stable, fs.logged := fs.disk, {};
    ok := true;
    assert Underway(fs, c0, []);
    var j := 0;
    while j < |qs|
      invariant j <= |qs| && ok && fs.stable == old(fs.disk) && Underway(fs, c0, qs[..j])
    {
      assert qs[..j + 1] == qs[..j] + [qs[j]];
      ok := WriteMore(fs, qs[j], c0, qs[..j]);
      if !ok {
        return;
      }
      j := j + 1;
    }
    assert qs[..j] == qs;
    assert Show(Group, 0);
  }

  /** The commit of the transaction crashes after k block writes, and recovery any number of times: the files are
      all as before the operations, or have the effects of all of them, as the header write had happened or not. */
  lemma AllOrNothing(sb: Super, l: Wal.Layout, disk: Disk, ino: seq<Dinode>, disk': Disk, ino': seq<Dinode>,
      qs: seq<Request>, logged: set<int>, d: Wal.Disk, tx: seq<Wal.Write>, k: nat, crashes: seq<nat>)
    requires Whole(sb, disk, ino) && Whole(sb, disk', ino') && Requests(|ino|, qs)
    requires Contents(sb, disk', ino') == PerformAll(Contents(sb, disk, ino), qs)
    requires Unlogged(disk, disk', logged) && PastLog(sb, logged) && LogPlaced(sb, l)
    requires Holds(l, d, disk) && Carries(l, tx, disk', logged) && k <= 2 * |tx| + 2
    ensures var e := Crashed(l, d, tx, k, crashes);
      && |e| == |disk|
      && var m := Mount(l, e, disk);
      if k <= |tx| then Whole(sb, m, ino) && Contents(sb, m, ino) == Contents(sb, disk, ino)
      else Whole(sb, m, ino') && Contents(sb, m, ino') == PerformAll(Contents(sb, disk, ino), qs)
  {
    CrashedHolds(l, d, disk, disk', logged, tx, k, crashes);
    assert Show(Changes, 0);
    Mounted(l, Crashed(l, d, tx, k, crashes), if k <= |tx| then disk else disk', disk);
  }
}
