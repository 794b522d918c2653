/**
 A write to a file over the redo log (xv6/file.c and xv6/fs.c over xv6/log.c): whichever block write a crash
 follows, recovery leaves the file with the chunks whose header write had happened, and with no part of another.
 */
module CrashedWrite {
  import opened Basics
  import opened DiskFormat
  import opened FileWrite
  import opened Files
  import opened Folding
  import LogSpace
  import Wal

  // ----- A block as words and as bytes -----

  /** Byte m of a little-endian word. */
  function ByteOf(w: Wal.Word, m: nat): Byte
    requires m < 4
  {
    (if m == 0 then w else if m == 1 then w / 0x100 else if m == 2 then w / 0x1_0000 else w / 0x100_0000) % 0x100
  }

  lemma Lowest(b: Byte, more: nat)
    ensures (b + 0x100 * more) % 0x100 == b && (b + 0x100 * more) / 0x100 == more
  {
  }

  lemma BytesOfJoin(b0: Byte, b1: Byte, b2: Byte, b3: Byte)
    ensures 0 <= Join(b0, b1, b2, b3) < UINT
    ensures var w := Join(b0, b1, b2, b3);
      ByteOf(w, 0) == b0 && ByteOf(w, 1) == b1 && ByteOf(w, 2) == b2 && ByteOf(w, 3) == b3
  {
    Lowest(b2, b3);
    Lowest(b1, b2 + 0x100 * b3);
    Lowest(b0, b1 + 0x100 * (b2 + 0x100 * b3));
    Quotients(Join(b0, b1, b2, b3));
  }

  lemma WordBytes(b: Block, i: nat)
    requires |b| == BSIZE && i < NINDIRECT
    ensures 0 <= Word(b, i) < UINT && forall m :: 0 <= m < 4 ==> ByteOf(Word(b, i), m) == b[4 * i + m]
  {
    assert Show(Codec, 0);
    BytesOfJoin(b[4 * i], b[4 * i + 1], b[4 * i + 2], b[4 * i + 3]);
  }

  ghost function WordIn(b: Block, i: nat): Wal.Word
    requires |b| == BSIZE && i < NINDIRECT
  {
    WordBytes(b, i);
    Word(b, i)
  }

  /** A block as the log sees it, and back. */
  ghost function Encode(b: Block): Wal.Block
    requires |b| == BSIZE
  {
    seq(Wal.WORDS, i requires 0 <= i < Wal.WORDS => WordIn(b, i))
  }

  function Decode(w: Wal.Block): (b: Block)
    ensures |b| == BSIZE
  {
    seq(BSIZE, k requires 0 <= k < BSIZE => ByteOf(w[k / 4], k % 4))
  }

  lemma RoundTrip(b: Block)
    requires |b| == BSIZE
    ensures Decode(Encode(b)) == b
  {
    forall k | 0 <= k < BSIZE
      ensures Decode(Encode(b))[k] == b[k]
    {
      WordBytes(b, k / 4);
    }
  }

  // ----- A file system on a disk with a log -----

  /** The log lies between the super block and the inodes. */
  ghost predicate LogPlaced(sb: Super, l: Wal.Layout) {
    l.Valid() && 1 < l.start && l.start + l.size <= sb.inodestart && l.nblocks == sb.size
  }

  /** The log is empty, and the home blocks of d are those of `disk`. */
  ghost predicate Holds(l: Wal.Layout, d: Wal.Disk, disk: Disk) {
    && Wal.WellFormed(l, d) && Wal.Count(l, d) == 0 && |disk| == |d| && Blocks(disk)
    && forall u :: Show(Images, u) ==> forall b: nat :: b < |d| && l.Home(b) ==> d[b] == Encode(disk[b])
  }

  /** What bread returns of d; the blocks of the log, which the file system does not read, are those of `was`. */
  ghost function Mount(l: Wal.Layout, d: Wal.Disk, was: Disk): Disk
    requires |was| == |d|
  {
    seq(|d|, b requires 0 <= b < |d| => if l.Home(b) then Decode(d[b]) else was[b])
  }

  lemma Mounted(l: Wal.Layout, d: Wal.Disk, disk: Disk, was: Disk)
    requires Holds(l, d, disk) && |was| == |disk| && forall b: nat :: b < |disk| && !l.Home(b) ==> was[b] == disk[b]
    ensures Mount(l, d, was) == disk
  {
    assert Show(Images, 0);
    forall b | 0 <= b < |d|
      ensures Mount(l, d, was)[b] == disk[b]
    {
      if l.Home(b) {
        RoundTrip(disk[b]);
      }
    }
  }

  /** tx writes the blocks `logged` with their contents in `disk`. */
  ghost predicate Carries(l: Wal.Layout, tx: seq<Wal.Write>, disk: Disk, logged: set<int>) {
    && Wal.IsTransaction(l, tx) && Blocks(disk)
    && forall u :: Show(Cargo, u) ==>
      && (forall j :: 0 <= j < |tx| ==>
        tx[j].blockno in logged && tx[j].blockno < |disk| && tx[j].data == Encode(disk[tx[j].blockno]))
      && (forall b :: b in logged ==> exists j :: 0 <= j < |tx| && tx[j].blockno == b)
  }

  lemma NewestHeld(l: Wal.Layout, d: Wal.Disk, disk: Disk, disk': Disk, logged: set<int>, tx: seq<Wal.Write>, b: nat)
    requires Holds(l, d, disk) && Unlogged(disk, disk', logged) && Carries(l, tx, disk', logged) && b < |d| && l.Home(b)
    ensures Wal.Newest(d[b], b, tx) == Encode(disk'[b])
  {
    assert Show(Images, 0) && Show(Cargo, 0) && Show(Changes, 0);
  }

  /** A crash after k block writes of a commit, then crashes in recovery, then a recovery that completes. */
  ghost function Crashed(l: Wal.Layout, d: Wal.Disk, tx: seq<Wal.Write>, k: nat, crashes: seq<nat>): Wal.Disk
    requires Wal.WellFormed(l, d) && Wal.Count(l, d) == 0 && Wal.IsTransaction(l, tx) && k <= 2 * |tx| + 2
  {
    Wal.CrashAtomicity(l, d, tx, k, crashes);
    Wal.Recover(l, Wal.Reboots(l, Wal.Apply(d, Wal.CommitWrites(l, d, tx)[..k]), crashes))
  }

  /** One transaction: the header write alone decides between the disk before it and the disk after it. */
  lemma CrashedHolds(l: Wal.Layout, d: Wal.Disk, disk: Disk, disk': Disk, logged: set<int>, tx: seq<Wal.Write>, k: nat,
      crashes: seq<nat>)
    requires Holds(l, d, disk) && Unlogged(disk, disk', logged) && Carries(l, tx, disk', logged) && k <= 2 * |tx| + 2
    ensures k <= |tx| ==> Holds(l, Crashed(l, d, tx, k, crashes), disk)
    ensures k > |tx| ==> Holds(l, Crashed(l, d, tx, k, crashes), disk')
  {
    Wal.CrashAtomicity(l, d, tx, k, crashes);
    assert Show(Images, 0);
    forall b: nat | b < |d| && l.Home(b)
      ensures Wal.Newest(d[b], b, tx) == Encode(disk'[b])
    {
      NewestHeld(l, d, disk, disk', logged, tx, b);
    }
  }

  lemma CommittedHolds(l: Wal.Layout, d: Wal.Disk, disk: Disk, disk': Disk, logged: set<int>, tx: seq<Wal.Write>)
    requires Holds(l, d, disk) && Unlogged(disk, disk', logged) && Carries(l, tx, disk', logged)
    ensures Holds(l, Wal.Apply(d, Wal.CommitWrites(l, d, tx)), disk')
  {
    Wal.CommitDone(l, d, tx);
    var e := Wal.Apply(d, Wal.CommitWrites(l, d, tx));
    forall b: nat | b < |d| && l.Home(b)
      ensures e[b] == Encode(disk'[b])
    {
      NewestHeld(l, d, disk, disk', logged, tx, b);
      assert Wal.HomeOf(l, e)[b] == Wal.Overlay(Wal.HomeOf(l, d), tx)[b];
    }
  }

  // ----- A whole write -----

  ghost predicate AllTransactions(l: Wal.Layout, txs: seq<seq<Wal.Write>>) {
    forall j :: 0 <= j < |txs| ==> Wal.IsTransaction(l, txs[j])
  }

  /** The disk once the transactions txs are committed. */
  ghost function After(l: Wal.Layout, d: Wal.Disk, txs: seq<seq<Wal.Write>>): (e: Wal.Disk)
    requires Wal.WellFormed(l, d) && Wal.Count(l, d) == 0 && AllTransactions(l, txs)
    ensures Wal.WellFormed(l, e) && Wal.Count(l, e) == 0
  {
    if txs == [] then d
    else
      var e, tx := After(l, d, txs[..|txs| - 1]), txs[|txs| - 1];
      Wal.CommitDone(l, e, tx);
      Wal.Apply(e, Wal.CommitWrites(l, e, tx))
  }

  /** txs are the transactions of the first chunks. */
  ghost predicate Chunks(l: Wal.Layout, txs: seq<seq<Wal.Write>>, t: seq<Version>) {
    |txs| < |t| && forall j :: 0 <= j < |txs| ==> Carries(l, txs[j], t[j + 1].disk, t[j + 1].logged)
  }

  lemma TraceAt(sb: Super, i: int, s0: seq<int>, off: nat, src: seq<int>, t: seq<Version>, n: nat)
    requires Trace(sb, i, s0, off, src, t) && 0 < n < |t|
    ensures Follows(sb, src, t[n - 1], t[n])
  {
    assert Show(Versions, 0);
  }

  lemma {:induction false} AfterHolds(sb: Super, l: Wal.Layout, i: int, s0: seq<int>, off: nat, src: seq<int>,
      t: seq<Version>, d: Wal.Disk, txs: seq<seq<Wal.Write>>)
    requires Trace(sb, i, s0, off, src, t) && Holds(l, d, t[0].disk) && Chunks(l, txs, t)
    ensures AllTransactions(l, txs) && Holds(l, After(l, d, txs), t[|txs|].disk)
  {
    if txs != [] {
      var n := |txs| - 1;
      AfterHolds(sb, l, i, s0, off, src, t, d, txs[..n]);
      TraceAt(sb, i, s0, off, src, t, n + 1);
      CommittedHolds(l, After(l, d, txs[..n]), t[n].disk, t[n + 1].disk, t[n + 1].logged, txs[n]);
    }
  }

  /** No transaction of the write touches the log's own blocks. */
  lemma {:induction false} LogUntouched(sb: Super, l: Wal.Layout, i: int, s0: seq<int>, off: nat, src: seq<int>,
      t: seq<Version>, n: nat)
    requires Trace(sb, i, s0, off, src, t) && LogPlaced(sb, l) && n < |t|
    ensures |t[n].disk| == |t[0].disk| && forall b: nat :: b < |t[0].disk| && !l.Home(b) && b < l.nblocks ==>
      t[n].disk[b] == t[0].disk[b]
  {
    if n > 0 {
      LogUntouched(sb, l, i, s0, off, src, t, n - 1);
      TraceAt(sb, i, s0, off, src, t, n);
      assert Show(Modesty, 0) && Show(Changes, 0);
    }
  }

  /** On `disk`, file i has the contents s0 with the first `done` bytes of src at off, and every other file is as in v.
      */
  ghost predicate Shows(sb: Super, i: int, s0: seq<int>, off: nat, src: seq<int>, v: Version, disk: Disk, done: nat) {
    && Fits(sb) && |disk| == sb.size && Blocks(disk) && 0 <= i < sb.ninodes
    && var ino := seq(sb.ninodes, k requires 0 <= k < sb.ninodes => OnDisk(sb, disk, k));
    && 0 <= ino[i].size <= MAXSIZE && |ino[i].addrs| == NDIRECT + 1
    && Progress(s0, off, src, done, Content(disk, ino[i])) && Others(v.disk, v.ino, disk, ino, i)
  }

  lemma StoredShows(sb: Super, i: int, s0: seq<int>, off: nat, src: seq<int>, t: seq<Version>, n: nat)
    requires Trace(sb, i, s0, off, src, t) && n < |t|
    ensures Shows(sb, i, s0, off, src, t[0], t[n].disk, t[n].done)
  {
    assert Show(Versions, 0) && Show(Stores, 0);
  }

  /** The write crashes after k block writes of the commit of a chunk, the chunks before it being committed.  The
      recovered disk is the version before that chunk or the one after it, as the chunk's header write had
      happened or not: the file has a prefix of src written that ends between chunks, and every other file is
      as before the write. */
  lemma CrashDuringWrite(sb: Super, l: Wal.Layout, i: int, s0: seq<int>, off: nat, src: seq<int>, t: seq<Version>,
      d: Wal.Disk, txs: seq<seq<Wal.Write>>, k: nat, crashes: seq<nat>)
    requires Trace(sb, i, s0, off, src, t) && LogPlaced(sb, l) && Holds(l, d, t[0].disk)
    requires txs != [] && Chunks(l, txs, t) && k <= 2 * |txs[|txs| - 1]| + 2
    ensures var m := |txs| - 1; AllTransactions(l, txs[..m]) && Wal.IsTransaction(l, txs[m])
    ensures var m := |txs| - 1; var n := if k <= |txs[m]| then m else m + 1;
      var e := Crashed(l, After(l, d, txs[..m]), txs[m], k, crashes);
      && |e| == |t[0].disk| && Mount(l, e, t[0].disk) == t[n].disk
      && Shows(sb, i, s0, off, src, t[0], Mount(l, e, t[0].disk), t[n].done)
  {
    var m := |txs| - 1;
    var n := if k <= |txs[m]| then m else m + 1;
    AfterHolds(sb, l, i, s0, off, src, t, d, txs[..m]);
    TraceAt(sb, i, s0, off, src, t, m + 1);
    var c := After(l, d, txs[..m]);
    CrashedHolds(l, c, t[m].disk, t[m + 1].disk, t[m + 1].logged, txs[m], k, crashes);
    LogUntouched(sb, l, i, s0, off, src, t, n);
    Mounted(l, Crashed(l, c, txs[m], k, crashes), t[n].disk, t[0].disk);
    StoredShows(sb, i, s0, off, src, t, n);
  }

  // ----- The log has room for every chunk -----

  lemma {:induction false} Listed<T>(s: set<T>) returns (q: seq<T>)
    ensures |q| == |s| && (forall j :: 0 <= j < |q| ==> q[j] in s) && (forall x :: x in s ==> x in q)
    ensures forall i, j :: 0 <= i < j < |q| ==> q[i] != q[j]
  {
    if s == {} {
      q := [];
    } else {
      var x :| x in s;
      q := Listed(s - {x});
      q := q + [x];
    }
  }

  lemma FitsLog(sb: Super, l: Wal.Layout, disk: Disk, logged: set<int>) returns (tx: seq<Wal.Write>)
    requires LogPlaced(sb, l) && |logged| < l.size && |logged| <= LogSpace.LOGSIZE && PastLog(sb, logged)
    requires |disk| == sb.size && Blocks(disk)
    ensures Carries(l, tx, disk, logged)
  {
    var q := Listed(logged);
    tx := seq(|q|, j requires 0 <= j < |q| => Wal.Write(q[j], Encode(disk[q[j]])));
    forall b | b in logged
      ensures exists j :: 0 <= j < |tx| && tx[j].blockno == b
    {
      var j :| 0 <= j < |q| && q[j] == b;
      assert tx[j].blockno == b;
    }
  }

  /** A log with room for 7 blocks takes the transaction of every chunk. */
  lemma ChunkFitsLog(sb: Super, l: Wal.Layout, disk: Disk, logged: set<int>) returns (tx: seq<Wal.Write>)
    requires LogPlaced(sb, l) && l.size > 7 && Modest(sb, logged) && |disk| == sb.size && Blocks(disk)
    ensures Carries(l, tx, disk, logged)
  {
    assert Show(Modesty, 0);
    tx := FitsLog(sb, l, disk, logged);
  }
}
