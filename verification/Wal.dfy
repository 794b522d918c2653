/**
 The on-disk redo log of xv6/log.c: what a crash after any single block write leaves behind,
 and what recovery makes of it.  One block write is one atomic step (xv6/memide.c:38-60).
 */
module Wal {
  import opened Basics
  import opened Folding
  import opened LogSpace

  const WORDS: nat := 128 // 32-bit words in a block, BSIZE / sizeof(int)

  type Word = x: int | 0 <= x < UINT
  type Block = s: seq<Word> | |s| == WORDS witness seq(WORDS, _ => 0)
  type Disk = seq<Block>

  datatype Write = Write(blockno: Word, data: Block)

  /** Where the log sits: a header block at `start`, then `size - 1` log blocks. */
  datatype Layout = Layout(nblocks: nat, start: nat, size: nat) {
    predicate Valid() {
      1 <= size && start + size <= nblocks <= UINT
    }

    predicate InLog(b: nat) {
      start <= b < start + size
    }

    predicate Home(b: nat) {
      b < nblocks && !InLog(b)
    }
  }

  /** A block write; a block number past the end panics in iderw and changes nothing. */
  function Put1(d: Disk, w: Write): (r: Disk)
    ensures |r| == |d|
  {
    if w.blockno < |d| then d[w.blockno := w.data] else d
  }

  function Apply(d: Disk, ws: seq<Write>): (r: Disk)
    ensures |r| == |d|
  {
    if ws == [] then d else Put1(Apply(d, ws[..|ws| - 1]), ws[|ws| - 1])
  }

  predicate Distinct(ws: seq<Write>) {
    forall i, j :: 0 <= i < j < |ws| ==> ws[i].blockno != ws[j].blockno
  }

  lemma {:induction false} ApplyConcat(d: Disk, a: seq<Write>, b: seq<Write>)
    ensures Apply(d, a + b) == Apply(Apply(d, a), b)
  {
    if b == [] {
      assert a + b == a;
    } else {
      assert (a + b)[..|a + b| - 1] == a + b[..|b| - 1];
      ApplyConcat(d, a, b[..|b| - 1]);
    }
  }

  /** One more write of a script. */
  lemma ApplyNext(d: Disk, ws: seq<Write>, k: nat)
    requires k < |ws|
    ensures Apply(d, ws[..k + 1]) == Put1(Apply(d, ws[..k]), ws[k])
    ensures forall before: seq<Write> :: before + ws[..k] + [ws[k]] == before + ws[..k + 1]
  {
    assert ws[..k + 1][..k] == ws[..k];
    assert ws[..k + 1] == ws[..k] + [ws[k]];
    forall before: seq<Write> ensures before + ws[..k] + [ws[k]] == before + ws[..k + 1] {
    }
  }

  lemma {:induction false} ApplyDistinct(d: Disk, ws: seq<Write>)
    requires Distinct(ws)
    requires forall i :: 0 <= i < |ws| ==> ws[i].blockno < |d|
    ensures forall i :: 0 <= i < |ws| ==> Apply(d, ws)[ws[i].blockno] == ws[i].data
    ensures forall b :: 0 <= b < |d| && (forall i :: 0 <= i < |ws| ==> ws[i].blockno != b) ==>
              Apply(d, ws)[b] == d[b]
  {
    if ws != [] {
      ApplyDistinct(d, ws[..|ws| - 1]);
    }
  }

  // ----- The header block -----

  function Count(l: Layout, d: Disk): nat
    requires l.Valid() && |d| == l.nblocks
  {
    d[l.start][0]
  }

  function Target(l: Layout, d: Disk, i: nat): nat
    requires l.Valid() && |d| == l.nblocks && i < LOGSIZE
  {
    d[l.start][1 + i]
  }

  /** The i-th log block. */
  function Slot(l: Layout, d: Disk, i: nat): Block
    requires l.Valid() && |d| == l.nblocks && i < l.size - 1
  {
    d[l.start + 1 + i]
  }

  /** write_head's copy loop: block numbers into words 1, 2, ... of the header block. */
  function PutTargets(b: Block, blocks: seq<Word>): (r: Block)
    requires |blocks| <= LOGSIZE
    ensures r[0] == b[0]
    ensures forall i :: 0 <= i < |blocks| ==> r[1 + i] == blocks[i]
  {
    if blocks == [] then b
    else PutTargets(b, blocks[..|blocks| - 1])[|blocks| := blocks[|blocks| - 1]]
  }

  function PutHeader(b: Block, blocks: seq<Word>): (r: Block)
    requires |blocks| <= LOGSIZE
    ensures r[0] == |blocks|
    ensures forall i :: 0 <= i < |blocks| ==> r[1 + i] == blocks[i]
  {
    PutTargets(b[0 := |blocks|], blocks)
  }

  /** What recovery may rely on: the header names distinct home blocks, no more than fit. */
  ghost predicate WellFormed(l: Layout, d: Disk) {
    && l.Valid()
    && |d| == l.nblocks
    && Count(l, d) <= LOGSIZE
    && Count(l, d) < l.size
    && (forall i :: 0 <= i < Count(l, d) ==> l.Home(Target(l, d, i)))
    && (forall u :: Show(Distinctness, u) ==> forall i, j :: 0 <= i < j < Count(l, d) ==>
      Target(l, d, i) != Target(l, d, j))
  }

  /** The contents of home block b once recovery has run. */
  ghost function Recovered(l: Layout, d: Disk, b: nat): Block
    requires WellFormed(l, d) && l.Home(b)
  {
    if exists i :: 0 <= i < Count(l, d) && Target(l, d, i) == b
    then
      var i :| 0 <= i < Count(l, d) && Target(l, d, i) == b;
      Slot(l, d, i)
    else d[b]
  }

  /** What the disk means: the home contents the next boot will see. */
  ghost function Meaning(l: Layout, d: Disk): map<nat, Block>
    requires WellFormed(l, d)
  {
    map b: nat | b < l.nblocks && l.Home(b) :: Recovered(l, d, b)
  }

  /** The home blocks of a disk image. */
  ghost function HomeOf(l: Layout, d: Disk): map<nat, Block>
    requires |d| == l.nblocks
  {
    map b: nat | b < l.nblocks && l.Home(b) :: d[b]
  }

  lemma EmptyLogMeansHome(l: Layout, d: Disk)
    requires WellFormed(l, d) && Count(l, d) == 0
    ensures Meaning(l, d) == HomeOf(l, d)
  {
  }

  /** Overlaying a transaction's blocks on home contents. */
  ghost function Overlay(m: map<nat, Block>, tx: seq<Write>): map<nat, Block> {
    map b | b in m :: Newest(m[b], b, tx)
  }

  ghost function Newest(was: Block, b: nat, tx: seq<Write>): Block {
    if exists i :: 0 <= i < |tx| && tx[i].blockno == b
    then
      var i :| 0 <= i < |tx| && tx[i].blockno == b;
      tx[i].data
    else was
  }

  ghost predicate IsTransaction(l: Layout, tx: seq<Write>) {
    && |tx| <= LOGSIZE
    && |tx| < l.size
    && (forall u :: Show(Distinctness, u) ==> Distinct(tx))
    && (forall i :: 0 <= i < |tx| ==> l.Home(tx[i].blockno))
  }

  // ----- The writes of commit and of recovery, in order -----

  function Blocknos(tx: seq<Write>): (r: seq<Word>)
    ensures |r| == |tx|
  {
    seq(|tx|, i requires 0 <= i < |tx| => tx[i].blockno)
  }

  function LogWrites(l: Layout, tx: seq<Write>): (r: seq<Write>)
    requires l.Valid() && |tx| < l.size
    ensures |r| == |tx|
  {
    seq(|tx|, i requires 0 <= i < |tx| => Write(l.start + 1 + i, tx[i].data))
  }

  /** commit: the log blocks, the header, the home blocks, the cleared header. */
  ghost function CommitWrites(l: Layout, d: Disk, tx: seq<Write>): (r: seq<Write>)
    requires WellFormed(l, d) && IsTransaction(l, tx)
    ensures |r| == 2 * |tx| + 2
  {
    var committed := PutHeader(d[l.start], Blocknos(tx));
    LogWrites(l, tx) + [Write(l.start, committed)] + tx + [Write(l.start, PutHeader(committed, []))]
  }

  /** ws is what a commit of tx writes, folded. */
  ghost predicate Commits(l: Layout, d: Disk, tx: seq<Write>, ws: seq<Write>) {
    && WellFormed(l, d)
    && IsTransaction(l, tx)
    && forall u :: Show(Script, u) ==> ws == CommitWrites(l, d, tx)
  }

  /** The transaction a disk's log holds. */
  ghost function Logged(l: Layout, d: Disk): (tx: seq<Write>)
    requires WellFormed(l, d)
    ensures IsTransaction(l, tx)
    ensures |tx| == Count(l, d)
  {
    seq(Count(l, d), i requires 0 <= i < Count(l, d) => Write(Target(l, d, i), Slot(l, d, i)))
  }

  /** recover_from_log: the home blocks, then the cleared header. */
  ghost function RecoverWrites(l: Layout, d: Disk): (r: seq<Write>)
    requires WellFormed(l, d)
    ensures |r| == Count(l, d) + 1
  {
    Logged(l, d) + [Write(l.start, PutHeader(d[l.start], []))]
  }

  // ----- One write at a time -----

  lemma RecoveredAt(l: Layout, d: Disk, i: nat)
    requires WellFormed(l, d) && i < Count(l, d)
    ensures Recovered(l, d, Target(l, d, i)) == Slot(l, d, i)
  {
    assert Show(Distinctness, 0);
  }

  lemma NewestAt(was: Block, tx: seq<Write>, i: nat)
    requires i < |tx| && Distinct(tx)
    ensures Newest(was, tx[i].blockno, tx) == tx[i].data
  {
  }

  /** Disks with one header, the same live log blocks, and home blocks that may differ only where
      the log covers them, mean the same. */
  lemma SameMeaning(l: Layout, d: Disk, e: Disk)
    requires WellFormed(l, d) && |e| == |d| && e[l.start] == d[l.start]
    requires forall i :: 0 <= i < Count(l, d) ==> Slot(l, e, i) == Slot(l, d, i)
    requires forall b :: 0 <= b < |d| && l.Home(b) && e[b] != d[b] ==>
               exists i :: 0 <= i < Count(l, d) && Target(l, d, i) == b
    ensures WellFormed(l, e) && Meaning(l, e) == Meaning(l, d)
  {
    assert forall i :: 0 <= i < Count(l, d) ==> Target(l, e, i) == Target(l, d, i);
    forall b: nat | b < l.nblocks && l.Home(b)
      ensures Recovered(l, e, b) == Recovered(l, d, b)
    {
      if i :| 0 <= i < Count(l, d) && Target(l, d, i) == b {
        RecoveredAt(l, d, i);
        RecoveredAt(l, e, i);
      }
    }
  }

  /** The home writes of a logged transaction, any number of them, change no meaning. */
  lemma InstallPrefix(l: Layout, d: Disk, k: nat)
    requires WellFormed(l, d) && k <= Count(l, d)
    ensures var e := Apply(d, Logged(l, d)[..k]);
            && WellFormed(l, e) && e[l.start] == d[l.start] && Meaning(l, e) == Meaning(l, d)
            && (forall i :: 0 <= i < k ==> e[Target(l, e, i)] == Slot(l, e, i))
  {
    var ws := Logged(l, d)[..k];
    assert Distinct(ws) by {
      assert Show(Distinctness, 0);
    }
    ApplyDistinct(d, ws);
    var e := Apply(d, ws);
    forall b | 0 <= b < |d| && e[b] != d[b]
      ensures l.Home(b) && exists i :: 0 <= i < Count(l, d) && Target(l, d, i) == b
    {
      var i :| 0 <= i < |ws| && ws[i].blockno == b;
      assert Target(l, d, i) == b;
    }
    SameMeaning(l, d, e);
    forall i | 0 <= i < k ensures e[Target(l, e, i)] == Slot(l, e, i) {
      assert ws[i].blockno == Target(l, d, i) == Target(l, e, i);
    }
  }

  /** Clearing the header once every logged block is home changes no meaning. */
  lemma ClearHeader(l: Layout, d: Disk)
    requires WellFormed(l, d)
    requires forall i :: 0 <= i < Count(l, d) ==> d[Target(l, d, i)] == Slot(l, d, i)
    ensures var e := Put1(d, Write(l.start, PutHeader(d[l.start], [])));
            && WellFormed(l, e) && Count(l, e) == 0 && Meaning(l, e) == Meaning(l, d)
            && (forall b: nat :: b < l.nblocks && l.Home(b) ==> e[b] == Meaning(l, d)[b])
  {
    var e := Put1(d, Write(l.start, PutHeader(d[l.start], [])));
    forall b: nat | b < l.nblocks && l.Home(b)
      ensures Recovered(l, e, b) == Recovered(l, d, b) == e[b]
    {
      if i :| 0 <= i < Count(l, d) && Target(l, d, i) == b {
        RecoveredAt(l, d, i);
      }
    }
  }

  // ----- Recovery -----

  /** Any number of recovery's writes leave a disk that means the same, ready to recover again. */
  lemma RecoverPrefix(l: Layout, d: Disk, k: nat)
    requires WellFormed(l, d) && k <= |RecoverWrites(l, d)|
    ensures var e := Apply(d, RecoverWrites(l, d)[..k]);
            && WellFormed(l, e) && Meaning(l, e) == Meaning(l, d)
            && (k == |RecoverWrites(l, d)| ==>
                  && Count(l, e) == 0
                  && (forall b: nat :: b < l.nblocks && l.Home(b) ==> e[b] == Meaning(l, d)[b]))
  {
    var n := Count(l, d);
    var ws := RecoverWrites(l, d);
    if k <= n {
      assert ws[..k] == Logged(l, d)[..k];
      InstallPrefix(l, d, k);
    } else {
      assert ws[..k] == ws && ws[..|ws| - 1] == Logged(l, d) == Logged(l, d)[..n];
      InstallPrefix(l, d, n);
      ClearHeader(l, Apply(d, Logged(l, d)));
    }
  }

  /** Crash after `crashes[0]` writes of a recovery, then after `crashes[1]` of the next, and so on. */
  ghost function Reboots(l: Layout, d: Disk, crashes: seq<nat>): (e: Disk)
    requires WellFormed(l, d)
    ensures WellFormed(l, e) && Meaning(l, e) == Meaning(l, d)
    decreases |crashes|
  {
    if crashes == [] then d
    else
      var ws := RecoverWrites(l, d);
      var k := if crashes[0] <= |ws| then crashes[0] else |ws|;
      RecoverPrefix(l, d, k);
      Reboots(l, Apply(d, ws[..k]), crashes[1..])
  }

  /** A recovery that runs to its end. */
  ghost function Recover(l: Layout, d: Disk): (e: Disk)
    requires WellFormed(l, d)
    ensures |e| == l.nblocks && Count(l, e) == 0
    ensures forall b: nat :: b < l.nblocks && l.Home(b) ==> e[b] == Meaning(l, d)[b]
  {
    var ws := RecoverWrites(l, d);
    RecoverPrefix(l, d, |ws|);
    Apply(d, ws[..|ws|])
  }

  // ----- Commit -----

  /** The log writes put the transaction in the log blocks and touch nothing else. */
  lemma LogWritten(l: Layout, d: Disk, tx: seq<Write>, k: nat)
    requires l.Valid() && |d| == l.nblocks && |tx| < l.size && k <= |tx|
    ensures var e := Apply(d, LogWrites(l, tx)[..k]);
            && e[l.start] == d[l.start]
            && (forall i :: 0 <= i < k ==> Slot(l, e, i) == tx[i].data)
            && (forall b: nat :: b < l.nblocks && l.Home(b) ==> e[b] == d[b])
  {
    var ws := LogWrites(l, tx)[..k];
    ApplyDistinct(d, ws);
    var e := Apply(d, ws);
    forall i | 0 <= i < k ensures Slot(l, e, i) == tx[i].data {
      assert ws[i].blockno == l.start + 1 + i;
    }
  }

  lemma HomeKept(l: Layout, d: Disk, tx: seq<Write>, k: nat, b: nat)
    requires l.Valid() && |d| == l.nblocks && |tx| < l.size && k <= |tx| && l.Home(b)
    ensures Apply(d, LogWrites(l, tx)[..k])[b] == d[b]
  {
    LogWritten(l, d, tx, k);
  }

  lemma LogPrefix(l: Layout, d: Disk, tx: seq<Write>, k: nat)
    requires WellFormed(l, d) && Count(l, d) == 0 && IsTransaction(l, tx) && k <= |tx|
    ensures var e := Apply(d, LogWrites(l, tx)[..k]);
            && WellFormed(l, e) && e[l.start] == d[l.start] && Meaning(l, e) == Meaning(l, d)
            && (forall i :: 0 <= i < k ==> Slot(l, e, i) == tx[i].data)
            && (forall b: nat :: b < l.nblocks && l.Home(b) ==> e[b] == d[b])
  {
    LogWritten(l, d, tx, k);
    var e := Apply(d, LogWrites(l, tx)[..k]);
    SameMeaning(l, d, e);
  }

  lemma LogHeld(l: Layout, c: Disk, tx: seq<Write>)
    requires l.Valid() && |c| == l.nblocks && IsTransaction(l, tx) && Count(l, c) == |tx|
    requires forall i :: 0 <= i < |tx| ==> Target(l, c, i) == tx[i].blockno && Slot(l, c, i) == tx[i].data
    ensures WellFormed(l, c) && Logged(l, c) == tx
  {
    assert Show(Distinctness, 0);
  }

  /** A disk whose log holds tx, over home blocks that a disk with an empty log also has. */
  lemma LogHolds(l: Layout, d: Disk, c: Disk, tx: seq<Write>)
    requires WellFormed(l, d) && Count(l, d) == 0 && IsTransaction(l, tx)
    requires |c| == |d| && Count(l, c) == |tx|
    requires forall i :: 0 <= i < |tx| ==> Target(l, c, i) == tx[i].blockno && Slot(l, c, i) == tx[i].data
    requires forall b: nat :: b < l.nblocks && l.Home(b) ==> c[b] == d[b]
    ensures WellFormed(l, c) && Logged(l, c) == tx && Meaning(l, c) == Overlay(Meaning(l, d), tx)
  {
    LogHeld(l, c, tx);
    forall b: nat | b < l.nblocks && l.Home(b)
      ensures Recovered(l, c, b) == Newest(Meaning(l, d)[b], b, tx)
    {
      if i :| 0 <= i < |tx| && tx[i].blockno == b {
        RecoveredAt(l, c, i);
        assert Distinct(tx) by {
          assert Show(Distinctness, 0);
        }
        NewestAt(Meaning(l, d)[b], tx, i);
      } else {
        assert forall i :: 0 <= i < |tx| ==> Target(l, c, i) != b;
      }
    }
  }

  lemma HeaderNames(l: Layout, c: Disk, tx: seq<Write>, b: Block)
    requires l.Valid() && |c| == l.nblocks && |tx| <= LOGSIZE && c[l.start] == PutHeader(b, Blocknos(tx))
    ensures Count(l, c) == |tx|
    ensures forall i :: 0 <= i < |tx| ==> Target(l, c, i) == tx[i].blockno
  {
    forall i | 0 <= i < |tx| ensures Target(l, c, i) == tx[i].blockno {
      assert Blocknos(tx)[i] == tx[i].blockno;
    }
  }

  /** The header write is the commit point: before it the old contents, after it the new. */
  lemma CommitPoint(l: Layout, d: Disk, tx: seq<Write>)
    requires WellFormed(l, d) && Count(l, d) == 0 && IsTransaction(l, tx)
    ensures var c := Apply(d, LogWrites(l, tx) + [Write(l.start, PutHeader(d[l.start], Blocknos(tx)))]);
            && WellFormed(l, c) && Logged(l, c) == tx && Meaning(l, c) == Overlay(Meaning(l, d), tx)
            && c[l.start] == PutHeader(d[l.start], Blocknos(tx))
  {
    var ws := LogWrites(l, tx);
    var h := Write(l.start, PutHeader(d[l.start], Blocknos(tx)));
    assert ws[..|tx|] == ws;
    LogPrefix(l, d, tx, |tx|);
    var e := Apply(d, ws);
    assert (ws + [h])[..|ws|] == ws;
    var c := e[l.start := h.data];
    assert Apply(d, ws + [h]) == c;
    assert forall i :: 0 <= i < |tx| ==> Slot(l, c, i) == Slot(l, e, i);
    HeaderNames(l, c, tx, d[l.start]);
    LogHolds(l, d, c, tx);
  }

  /** What the disk has at the commit point: the number of blocks and their numbers in the header, their contents in the
      blocks after it, and every home block as it was. */
  lemma LogImage(l: Layout, d: Disk, tx: seq<Write>)
    requires WellFormed(l, d) && Count(l, d) == 0 && IsTransaction(l, tx)
    ensures var c := Apply(d, CommitWrites(l, d, tx)[..|tx| + 1]);
            && c[l.start][0] == |tx|
            && (forall i :: 0 <= i < |tx| ==> c[l.start][i + 1] == tx[i].blockno)
            && (forall i :: 0 <= i < |tx| ==> c[l.start + i + 1] == tx[i].data)
            && (forall b: nat :: b < l.nblocks && l.Home(b) ==> c[b] == d[b])
  {
    var ws := LogWrites(l, tx);
    var h := Write(l.start, PutHeader(d[l.start], Blocknos(tx)));
    assert CommitWrites(l, d, tx)[..|tx| + 1] == ws + [h];
    assert ws[..|tx|] == ws && (ws + [h])[..|ws|] == ws;
    LogWritten(l, d, tx, |tx|);
    var c := Apply(d, ws)[l.start := h.data];
    assert Apply(d, ws + [h]) == c;
    HeaderNames(l, c, tx, d[l.start]);
    forall i | 0 <= i < |tx|
      ensures c[l.start][i + 1] == tx[i].blockno && c[l.start + i + 1] == tx[i].data
    {
      assert Target(l, c, i) == tx[i].blockno;
      assert Slot(l, Apply(d, ws), i) == tx[i].data;
    }
  }

  /** From the commit point on, a commit writes what a recovery of that disk would. */
  lemma CommitTail(l: Layout, d: Disk, tx: seq<Write>, k: nat)
    requires WellFormed(l, d) && Count(l, d) == 0 && IsTransaction(l, tx) && |tx| < k <= 2 * |tx| + 2
    ensures var e := Apply(d, CommitWrites(l, d, tx)[..k]);
            && WellFormed(l, e)
            && Meaning(l, e) == Overlay(Meaning(l, d), tx)
            && (k == 2 * |tx| + 2 ==> Count(l, e) == 0)
  {
    var ws := CommitWrites(l, d, tx);
    var front := LogWrites(l, tx) + [Write(l.start, PutHeader(d[l.start], Blocknos(tx)))];
    CommitPoint(l, d, tx);
    var c := Apply(d, front);
    var i := k - |tx| - 1;
    assert ws == front + RecoverWrites(l, c);
    assert ws[..k] == front + RecoverWrites(l, c)[..i];
    ApplyConcat(d, front, RecoverWrites(l, c)[..i]);
    RecoverPrefix(l, c, i);
  }

  /** Every crash point of commit: the old contents through the log writes, the new ones from the
      header write on.  After the last write the log is empty again. */
  lemma CommitPrefix(l: Layout, d: Disk, tx: seq<Write>, k: nat)
    requires WellFormed(l, d) && Count(l, d) == 0 && IsTransaction(l, tx) && k <= 2 * |tx| + 2
    ensures var e := Apply(d, CommitWrites(l, d, tx)[..k]);
            && WellFormed(l, e)
            && Meaning(l, e) == (if k <= |tx| then Meaning(l, d) else Overlay(Meaning(l, d), tx))
            && (k == 2 * |tx| + 2 ==> Count(l, e) == 0)
  {
    if k <= |tx| {
      assert CommitWrites(l, d, tx)[..k] == LogWrites(l, tx)[..k];
      LogPrefix(l, d, tx, k);
    } else {
      CommitTail(l, d, tx, k);
    }
  }

  /** A commit that runs to its end. */
  lemma CommitDone(l: Layout, d: Disk, tx: seq<Write>)
    requires WellFormed(l, d) && Count(l, d) == 0 && IsTransaction(l, tx)
    ensures var e := Apply(d, CommitWrites(l, d, tx));
            && WellFormed(l, e)
            && Count(l, e) == 0
            && HomeOf(l, e) == Overlay(HomeOf(l, d), tx)
  {
    var ws := CommitWrites(l, d, tx);
    assert ws[..|ws|] == ws;
    CommitPrefix(l, d, tx, |ws|);
    EmptyLogMeansHome(l, d);
    EmptyLogMeansHome(l, Apply(d, ws));
  }

  /** Crash atomicity: crash commit after any k block writes, let recovery crash and restart any
      number of times, then complete: every home block is old, or every home block is new, and the
      header write alone decides which. */
  lemma CrashAtomicity(l: Layout, d: Disk, tx: seq<Write>, k: nat, crashes: seq<nat>)
    requires WellFormed(l, d) && Count(l, d) == 0 && IsTransaction(l, tx) && k <= 2 * |tx| + 2
    ensures WellFormed(l, Apply(d, CommitWrites(l, d, tx)[..k]))
    ensures var e := Recover(l, Reboots(l, Apply(d, CommitWrites(l, d, tx)[..k]), crashes));
            && |e| == l.nblocks
            && Count(l, e) == 0
            && forall b: nat :: b < l.nblocks && l.Home(b) ==>
                 e[b] == (if k <= |tx| then d[b] else Newest(d[b], b, tx))
  {
    CommitPrefix(l, d, tx, k);
    forall b: nat | b < l.nblocks && l.Home(b) ensures Meaning(l, d)[b] == d[b] {
    }
  }

  // ----- Whole runs -----

  /** Every crash point of a run recovers to one of the versions the file system has committed, and
      later crash points never to an earlier version: after k writes, to versions[epoch[k]]. */
  ghost predicate Durable(l: Layout, base: Disk, writes: seq<Write>, versions: seq<map<nat, Block>>, epoch: seq<nat>) {
    forall u :: Show(CrashPoints, u) ==> EveryCrashPoint(l, base, writes, versions, epoch)
  }

  ghost predicate EveryCrashPoint(l: Layout, base: Disk, writes: seq<Write>, versions: seq<map<nat, Block>>,
      epoch: seq<nat>) {
    && |epoch| == |writes| + 1
    && (forall k :: 0 <= k <= |writes| ==> RecoversTo(l, Apply(base, writes[..k]), versions, epoch[k]))
    && (forall j, k :: 0 <= j < k <= |writes| ==> epoch[j] <= epoch[k])
    && epoch[|writes|] + 1 == |versions|
  }

  ghost predicate RecoversTo(l: Layout, d: Disk, versions: seq<map<nat, Block>>, v: nat) {
    v < |versions| && WellFormed(l, d) && Meaning(l, d) == versions[v]
  }

  /** Epochs after the first k writes of a commit of n blocks on top of a run. */
  ghost function Epochs(epoch: seq<nat>, n: nat, k: nat): (r: seq<nat>)
    requires |epoch| > 0
    ensures |r| == |epoch| + k
    ensures (forall i, j :: 0 <= i < j < |epoch| ==> epoch[i] <= epoch[j]) ==>
              forall i, j :: 0 <= i < j < |r| ==> r[i] <= r[j]
    ensures r[|r| - 1] == epoch[|epoch| - 1] + if k <= n then 0 else 1
    ensures forall j :: 0 <= j < |epoch| ==> r[j] == epoch[j]
    ensures forall j :: |epoch| <= j < |r| ==> r[j] == epoch[|epoch| - 1] + if j - |epoch| < n then 0 else 1
  {
    var v := epoch[|epoch| - 1];
    epoch + seq(k, i => if i < n then v else v + 1)
  }

  /** Crash point j of a run with the first k writes of a commit on top. */
  lemma CommitOnRun(l: Layout, base: Disk, writes: seq<Write>, tx: seq<Write>, k: nat, j: nat)
    requires WellFormed(l, Apply(base, writes)) && Count(l, Apply(base, writes)) == 0
    requires IsTransaction(l, tx) && k <= 2 * |tx| + 2 && |writes| < j <= |writes| + k
    ensures var d := Apply(base, writes);
            var e := Apply(base, (writes + CommitWrites(l, d, tx)[..k])[..j]);
            && WellFormed(l, e)
            && Meaning(l, e) == (if j - |writes| <= |tx| then Meaning(l, d) else Overlay(Meaning(l, d), tx))
  {
    var d := Apply(base, writes);
    var cw := CommitWrites(l, d, tx);
    var i := j - |writes|;
    assert (writes + cw[..k])[..j] == writes + cw[..i];
    ApplyConcat(base, writes, cw[..i]);
    CommitPrefix(l, d, tx, i);
  }

  lemma CommitCrashPoints(l: Layout, base: Disk, writes: seq<Write>, versions: seq<map<nat, Block>>, epoch: seq<nat>,
      tx: seq<Write>, k: nat)
    requires EveryCrashPoint(l, base, writes, versions, epoch)
    requires WellFormed(l, Apply(base, writes)) && Count(l, Apply(base, writes)) == 0
    requires IsTransaction(l, tx) && k <= 2 * |tx| + 2
    ensures var d := Apply(base, writes);
            EveryCrashPoint(l, base, writes + CommitWrites(l, d, tx)[..k],
                            if k <= |tx| then versions else versions + [Overlay(Meaning(l, d), tx)],
                            Epochs(epoch, |tx|, k))
  {
    var d := Apply(base, writes);
    assert writes[..|writes|] == writes;
    assert RecoversTo(l, d, versions, epoch[|writes|]);
    var ws := writes + CommitWrites(l, d, tx)[..k];
    var vs := if k <= |tx| then versions else versions + [Overlay(Meaning(l, d), tx)];
    var es := Epochs(epoch, |tx|, k);
    forall j | 0 <= j <= |ws| ensures RecoversTo(l, Apply(base, ws[..j]), vs, es[j]) {
      if j <= |writes| {
        assert ws[..j] == writes[..j];
        assert RecoversTo(l, Apply(base, writes[..j]), versions, epoch[j]);
      } else {
        CommitOnRun(l, base, writes, tx, k, j);
      }
    }
  }

  /** A commit, whole or cut short after any k of its writes, keeps the run durable. */
  lemma DurableCommit(l: Layout, base: Disk, writes: seq<Write>, versions: seq<map<nat, Block>>, epoch: seq<nat>,
      tx: seq<Write>, k: nat)
    requires Durable(l, base, writes, versions, epoch)
    requires WellFormed(l, Apply(base, writes)) && Count(l, Apply(base, writes)) == 0
    requires IsTransaction(l, tx) && k <= 2 * |tx| + 2
    ensures |epoch| == |writes| + 1
    ensures var d := Apply(base, writes);
            Durable(l, base, writes + CommitWrites(l, d, tx)[..k],
                    if k <= |tx| then versions else versions + [Overlay(Meaning(l, d), tx)],
                    Epochs(epoch, |tx|, k))
  {
    assert Show(CrashPoints, 0);
    CommitCrashPoints(l, base, writes, versions, epoch, tx, k);
  }

  /** The same, for a run that has got part-way through a commit, or to its end. */
  lemma DurableAfter(l: Layout, base: Disk, before: seq<Write>, after: seq<Write>, versions: seq<map<nat, Block>>,
      epoch: seq<nat>, tx: seq<Write>, ws: seq<Write>)
      returns (vs: seq<map<nat, Block>>, es: seq<nat>)
    requires Durable(l, base, before, versions, epoch)
    requires Commits(l, Apply(base, before), tx, ws) && Count(l, Apply(base, before)) == 0
    requires before <= after <= before + ws
    ensures Durable(l, base, after, vs, es) && versions <= vs && epoch <= es
    ensures after == before + ws ==>
              && Apply(base, after) == Apply(Apply(base, before), ws)
              && vs == versions + [Overlay(Meaning(l, Apply(base, before)), tx)]
  {
    assert Show(Script, 0);
    var d := Apply(base, before);
    var k := |after| - |before|;
    assert after == before + ws[..k];
    DurableCommit(l, base, before, versions, epoch, tx, k);
    ApplyConcat(base, before, ws);
    vs := if k <= |tx| then versions else versions + [Overlay(Meaning(l, d), tx)];
    es := Epochs(epoch, |tx|, k);
  }

  ghost function Zeros(k: nat): (r: seq<nat>)
    ensures |r| == k
  {
    seq(k, _ => 0)
  }

  lemma RecoveryDone(l: Layout, d: Disk)
    requires WellFormed(l, d)
    ensures var e := Apply(d, RecoverWrites(l, d));
            && WellFormed(l, e)
            && Count(l, e) == 0
            && HomeOf(l, e) == Meaning(l, d)
  {
    var ws := RecoverWrites(l, d);
    assert ws[..|ws|] == ws;
    RecoverPrefix(l, d, |ws|);
    EmptyLogMeansHome(l, Apply(d, ws));
  }

  /** A recovery, whole or cut short, is a run with one version. */
  lemma DurableRecovery(l: Layout, d: Disk, writes: seq<Write>)
    requires WellFormed(l, d) && writes <= RecoverWrites(l, d)
    ensures Durable(l, d, writes, [Meaning(l, d)], Zeros(|writes| + 1))
  {
    var ws := RecoverWrites(l, d);
    forall j | 0 <= j <= |writes| ensures RecoversTo(l, Apply(d, writes[..j]), [Meaning(l, d)], 0) {
      assert writes[..j] == ws[..j];
      RecoverPrefix(l, d, j);
    }
  }
}
