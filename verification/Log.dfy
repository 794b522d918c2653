/**
 xv6/log.c over the buffer cache.  A commit reads and writes only through the cache, block by block.
 */
module Log {
  import opened Basics
  import opened BufferCache
  import opened Folding
  import opened LogSpace
  import opened Wal

  /** What the log relies on of one buffer, `blocks` being the blocks of the transaction that are not
      home yet: only those are pinned, and only the log itself uses the log's own blocks. */
  ghost predicate SettledBuffer(l: Layout, x: Buf, blocks: seq<Word>) {
    && (x.dirty ==> x.blockno in blocks)
    && (x.refcnt > 0 ==> l.Home(x.blockno))
  }

  ghost predicate Settled(l: Layout, bufs: seq<Buf>, blocks: seq<Word>) {
    forall u :: Show(Pins, u) ==> forall i :: 0 <= i < |bufs| ==> SettledBuffer(l, bufs[i], blocks)
  }

  ghost predicate AllHome(l: Layout, blocks: seq<Word>) {
    forall u :: Show(Pins, u) ==> forall b :: b in blocks ==> l.Home(b)
  }

  /** All of these blocks are pinned. */
  ghost predicate Held(bufs: seq<Buf>, blocks: seq<Word>) {
    forall u :: Show(Pins, u) ==> forall k :: 0 <= k < |blocks| ==> InDirty(bufs, blocks[k])
  }

  ghost predicate Unlocked(bufs: seq<Buf>, b: nat) {
    forall i :: 0 <= i < |bufs| && Holds(bufs[i], b) ==> !bufs[i].locked
  }

  ghost predicate AllUnlocked(bufs: seq<Buf>, blocks: seq<Word>) {
    forall u :: Show(Pins, u) ==> forall k :: 0 <= k < |blocks| ==> Unlocked(bufs, blocks[k])
  }

  lemma HeldAt(bufs: seq<Buf>, blocks: seq<Word>, b: Word)
    requires b in blocks
    ensures Held(bufs, blocks) ==> InDirty(bufs, b)
    ensures AllUnlocked(bufs, blocks) ==> Unlocked(bufs, b)
  {
    assert Show(Pins, 0);
  }

  /** A buffer before and after a process uses the cache without logging. */
  ghost predicate UsedBuffer(l: Layout, x: Buf, x': Buf) {
    && x'.dirty == x.dirty
    && (x.dirty ==> x'.dev == x.dev && x'.blockno == x.blockno)
    && (x'.refcnt > 0 ==> l.Home(x'.blockno) || (x.refcnt > 0 && x'.blockno == x.blockno))
  }

  lemma Used(l: Layout, bufs: seq<Buf>, blocks: seq<Word>, i: nat, x: Buf)
    requires Settled(l, bufs, blocks) && Held(bufs, blocks) && i < |bufs| && UsedBuffer(l, bufs[i], x)
    ensures Settled(l, bufs[i := x], blocks) && Held(bufs[i := x], blocks)
  {
    assert Show(Pins, 0);
    assert SettledBuffer(l, bufs[i], blocks);
    forall k | 0 <= k < |blocks|
      ensures InDirty(bufs[i := x], blocks[k])
    {
      StaysDirty(bufs, i, x, blocks[k]);
    }
  }

  /** A buffer becomes pinned and its block part of the transaction. */
  lemma Grown(l: Layout, bufs: seq<Buf>, blocks: seq<Word>, more: seq<Word>, i: nat)
    requires Settled(l, bufs, blocks) && Held(bufs, blocks) && i < |bufs| && bufs[i].dev == FSDEV
    requires forall b :: b in more <==> b in blocks || b == bufs[i].blockno
    ensures var after := bufs[i := bufs[i].(dirty := true)]; Settled(l, after, more) && Held(after, more)
  {
    assert Show(Pins, 0);
    var after := bufs[i := bufs[i].(dirty := true)];
    assert SettledBuffer(l, bufs[i], blocks);
    forall k | 0 <= k < |more|
      ensures InDirty(after, more[k])
    {
      assert more[k] in more;
      if more[k] == bufs[i].blockno {
        assert Holds(after[i], more[k]) && after[i].dirty;
      } else {
        var j :| 0 <= j < |blocks| && blocks[j] == more[k];
        StaysDirty(bufs, i, after[i], more[k]);
      }
    }
  }

  /** A buffer before and after the log has read blocks, written block b, and released them. */
  ghost predicate PassedBuffer(x: Buf, x': Buf, b: nat) {
    && (Idle(x) ==> Idle(x'))
    && (x'.dirty ==> x.dirty && x'.blockno == x.blockno && x'.blockno != b)
    && (x.dirty && x.blockno != b ==> x'.dirty && x'.dev == x.dev && x'.blockno == x.blockno)
    && SparedBuffer(x, x')
  }

  ghost predicate Passes(before: seq<Buf>, after: seq<Buf>, b: nat) {
    |before| == |after| && forall u :: Show(Pins, u) ==> forall i :: 0 <= i < |before| ==>
      PassedBuffer(before[i], after[i], b)
  }

  /** The log's own use of the cache leaves locked buffers and all references alone. */
  ghost predicate Spares(before: seq<Buf>, after: seq<Buf>) {
    |before| == |after| && (HasIdle(before) ==> HasIdle(after)) &&
    forall u :: Show(Pins, u) ==> forall i :: 0 <= i < |before| ==> SparedBuffer(before[i], after[i])
  }

  ghost predicate SparedBuffer(x: Buf, x': Buf) {
    && x'.refcnt == x.refcnt && (x.refcnt > 0 ==> x'.dev == x.dev && x'.blockno == x.blockno)
    && (if x.locked then x' == x else !x'.locked)
  }

  lemma PassSpares(before: seq<Buf>, after: seq<Buf>, b: nat)
    requires Passes(before, after, b)
    ensures Spares(before, after)
  {
    PassIdle(before, after, b);
    assert Show(Pins, 0);
    assert forall i :: 0 <= i < |before| ==> PassedBuffer(before[i], after[i], b);
  }

  lemma SameButOne(before: seq<Buf>, after: seq<Buf>, i: nat)
    requires |before| == |after| && i < |before| && forall k :: 0 <= k < |before| && k != i ==> after[k] == before[k]
    ensures after == before[i := after[i]]
  {
  }

  /** The references to buffers are those of the claims, so these stay too. */
  lemma SparesClaims(disk: Disk, view: seq<Block>, bufs: seq<Buf>, touched: set<nat>, claims: multiset<(nat, nat)>,
      disk': Disk, view': seq<Block>, bufs': seq<Buf>, touched': set<nat>, claims': multiset<(nat, nat)>)
    requires BufsValid(disk, view, bufs, touched, claims) && BufsValid(disk', view', bufs', touched', claims')
    requires Spares(bufs, bufs')
    ensures claims' == claims
  {
    assert Show(Buffers, 0) && Show(Pins, 0);
    forall c: (nat, nat)
      ensures claims'[c] == claims[c]
    {
      if c in claims || c in claims' {
        assert SparedBuffer(bufs[c.0], bufs'[c.0]);
      }
    }
  }

  lemma SparesSame(bufs: seq<Buf>)
    ensures Spares(bufs, bufs)
  {
  }

  lemma SparesThen(first: seq<Buf>, then_: seq<Buf>, last: seq<Buf>, b: nat)
    requires Spares(first, then_) && Spares(then_, last)
    ensures Spares(first, last) && (Unlocked(then_, b) ==> Unlocked(last, b))
  {
    assert Show(Pins, 0);
    assert forall i :: 0 <= i < |first| ==> SparedBuffer(first[i], then_[i]) && SparedBuffer(then_[i], last[i]);
  }

  /** Buffer x after a bread and brelse of block b that found it as `was`. */
  ghost predicate IdleOrHolds(was: Buf, b: nat, x: Buf) {
    && (Holds(was, b) || Idle(was))
    && Holds(x, b)
    && !x.locked
    && x.refcnt == (if Holds(was, b) then was.refcnt else 0)
  }

  /** Buffer x after a bread of block b that found it as `was`. */
  ghost predicate WasRead(was: Buf, b: nat, x: Buf) {
    && (Holds(was, b) || Idle(was))
    && Holds(x, b) && x.locked && x.valid && x.dirty == was.dirty
    && x.refcnt == 1 + (if Holds(was, b) then was.refcnt else 0)
  }

  lemma PassCopy(bufs: seq<Buf>, i: nat, b1: nat, x: Buf, j: nat, b2: nat, y: Buf)
    requires i < |bufs| && j < |bufs| && i != j && b1 != b2
    requires IdleOrHolds(bufs[i], b1, x) && x.dirty == bufs[i].dirty && !bufs[i].locked
    requires IdleOrHolds(bufs[j], b2, y) && !y.dirty && !bufs[j].locked
    requires forall k :: 0 <= k < |bufs| && k != j && bufs[k].dirty ==> bufs[k].blockno != b2
    ensures Passes(bufs, bufs[i := x][j := y], b2)
  {
  }

  lemma PassOne(bufs: seq<Buf>, i: nat, b: nat, x: Buf)
    requires i < |bufs| && IdleOrHolds(bufs[i], b, x) && !x.dirty && !bufs[i].locked
    requires forall k :: 0 <= k < |bufs| && k != i && bufs[k].dirty ==> bufs[k].blockno != b
    ensures Passes(bufs, bufs[i := x], b)
  {
  }

  lemma PassSettled(l: Layout, before: seq<Buf>, after: seq<Buf>, b: nat, blocks: seq<Word>, rest: seq<Word>)
    requires Passes(before, after, b) && Settled(l, before, blocks) && AllHome(l, blocks)
    requires Leaves(blocks, b, rest) || rest == blocks
    ensures Settled(l, after, rest) && AllHome(l, rest)
  {
    assert Show(Pins, 0) && Show(Suffixes, 0);
    forall i | 0 <= i < |after|
      ensures SettledBuffer(l, after[i], rest)
    {
      assert PassedBuffer(before[i], after[i], b) && SettledBuffer(l, before[i], blocks);
    }
  }

  lemma PassHeld(before: seq<Buf>, after: seq<Buf>, b: nat, blocks: seq<Word>, rest: seq<Word>)
    requires Passes(before, after, b) && Held(before, blocks)
    requires Leaves(blocks, b, rest) || (rest == blocks && b !in blocks)
    ensures Held(after, rest)
  {
    assert Show(Pins, 0) && Show(Suffixes, 0);
    forall k | 0 <= k < |rest|
      ensures InDirty(after, rest[k])
    {
      assert rest[k] in rest;
      var j :| 0 <= j < |blocks| && blocks[j] == rest[k];
      var i :| 0 <= i < |before| && Holds(before[i], rest[k]) && before[i].dirty;
      assert PassedBuffer(before[i], after[i], b);
    }
  }

  lemma PassUnlocked(before: seq<Buf>, after: seq<Buf>, b: nat, blocks: seq<Word>)
    requires Passes(before, after, b) && AllUnlocked(before, blocks)
    ensures AllUnlocked(after, blocks)
  {
    assert Show(Pins, 0);
    forall k, i | 0 <= k < |blocks| && 0 <= i < |after| && Holds(after[i], blocks[k])
      ensures !after[i].locked
    {
      assert PassedBuffer(before[i], after[i], b) && Unlocked(before, blocks[k]);
    }
  }

  lemma PassIdle(before: seq<Buf>, after: seq<Buf>, b: nat)
    requires Passes(before, after, b)
    ensures HasIdle(before) ==> HasIdle(after)
    ensures TwoIdle(before) ==> TwoIdle(after)
  {
    assert Show(Pins, 0);
    assert forall i :: 0 <= i < |before| && Idle(before[i]) ==> PassedBuffer(before[i], after[i], b) && Idle(after[i]);
  }

  /** The log or its header is written: the blocks of the transaction stay pinned. */
  lemma PassLog(l: Layout, before: seq<Buf>, after: seq<Buf>, b: nat, blocks: seq<Word>)
    requires Passes(before, after, b) && AllHome(l, blocks) && !l.Home(b)
    ensures Held(before, blocks) ==> Held(after, blocks)
    ensures AllUnlocked(before, blocks) ==> AllUnlocked(after, blocks)
    ensures HasIdle(before) ==> HasIdle(after)
  {
    assert Show(Pins, 0);
    PassIdle(before, after, b);
    if Held(before, blocks) {
      PassHeld(before, after, b, blocks, blocks);
    }
    if AllUnlocked(before, blocks) {
      PassUnlocked(before, after, b, blocks);
    }
  }

  /** Of these blocks all but b are left. */
  ghost predicate Leaves(blocks: seq<Word>, b: nat, rest: seq<Word>) {
    forall u :: Show(Suffixes, u) ==>
      && (forall c :: c in blocks && c != b ==> c in rest)
      && (forall c :: c in rest ==> c in blocks && c != b)
  }

  ghost predicate NoneTwice(blocks: seq<Word>) {
    forall u :: Show(Distinctness, u) ==> forall j, k :: 0 <= j < k < |blocks| ==> blocks[j] != blocks[k]
  }

  lemma NoneTwiceMore(blocks: seq<Word>, b: Word)
    requires NoneTwice(blocks) && b !in blocks
    ensures NoneTwice(blocks + [b])
  {
  }

  ghost predicate IsFrom(blocks: seq<Word>, k: nat, rest: seq<Word>) {
    forall u :: Show(Suffixes, u) ==> rest == if k <= |blocks| then blocks[k..] else []
  }

  /** The blocks from the k-th on. */
  ghost function From(blocks: seq<Word>, k: nat): (rest: seq<Word>)
    ensures IsFrom(blocks, k, rest)
  {
    assert IsFrom(blocks, k, if k <= |blocks| then blocks[k..] else []);
    var rest :| IsFrom(blocks, k, rest);
    rest
  }

  lemma FromEnds(blocks: seq<Word>, k: nat)
    ensures k == 0 ==> From(blocks, k) == blocks
    ensures k >= |blocks| ==> From(blocks, k) == []
  {
    assert Show(Suffixes, 0);
  }

  /** The blocks a commit has not written home after t writes. */
  ghost function Unwritten(blocks: seq<Word>, t: nat): seq<Word> {
    From(blocks, if t <= |blocks| + 1 then 0 else t - |blocks| - 1)
  }

  lemma OncePer(blocks: seq<Word>, k: nat)
    requires NoneTwice(blocks) && k < |blocks|
    ensures Leaves(From(blocks, k), blocks[k], From(blocks, k + 1)) && blocks[k] in From(blocks, k)
  {
    assert Show(Distinctness, 0) && Show(Suffixes, 0);
    assert From(blocks, k) == [blocks[k]] + From(blocks, k + 1);
  }

  lemma PassInstall(before: seq<Buf>, after: seq<Buf>, b: nat, blocks: seq<Word>, rest: seq<Word>, all: seq<Word>)
    requires Passes(before, after, b) && AllUnlocked(before, all) && Leaves(blocks, b, rest)
    ensures AllUnlocked(after, all)
    ensures Held(before, blocks) ==> Held(after, rest)
    ensures HasIdle(before) ==> HasIdle(after)
    ensures TwoIdle(before) ==> TwoIdle(after)
  {
    PassIdle(before, after, b);
    PassUnlocked(before, after, b, all);
    if Held(before, blocks) {
      PassHeld(before, after, b, blocks, rest);
    }
  }

  /** The buffers install_trans needs: two to spare, or one if the blocks it is to write are pinned. */
  ghost predicate Enough(bufs: seq<Buf>, blocks: seq<Word>, pinned: bool) {
    forall u :: Show(Pins, u) ==> TwoIdle(bufs) || (pinned && HasIdle(bufs) && Held(bufs, blocks))
  }

  lemma EnoughLeft(bufs: seq<Buf>, blocks: seq<Word>, pinned: bool)
    requires Enough(bufs, blocks, pinned)
    ensures HasIdle(bufs)
  {
    assert Show(Pins, 0);
  }

  /** No buffer is pinned or referenced. */
  ghost predicate AtRest(bufs: seq<Buf>) {
    forall u :: Show(Pins, u) ==> forall i :: 0 <= i < |bufs| ==> Idle(bufs[i]) && !bufs[i].locked
  }

  lemma RestIsSettled(l: Layout, bufs: seq<Buf>, blocks: seq<Word>)
    requires AtRest(bufs) && |bufs| == NBUF
    ensures Settled(l, bufs, []) && AllUnlocked(bufs, blocks) && TwoIdle(bufs)
  {
    assert Show(Pins, 0);
    assert Idle(bufs[0]) && Idle(bufs[1]);
  }

  lemma StaysAtRest(bufs: seq<Buf>, i: nat, x: Buf)
    requires AtRest(bufs) && i < |bufs| && !x.locked
    requires bufs[i].refcnt == 0 && !bufs[i].dirty ==> Idle(x)
    ensures AtRest(bufs[i := x])
  {
    assert Show(Pins, 0);
  }

  lemma NoneHeld(bufs: seq<Buf>, blocks: seq<Word>)
    requires blocks == []
    ensures Held(bufs, blocks)
  {
  }

  /** Nobody but the log refers to a block of the log, so it is in the cache only in an idle buffer. */
  lemma LogsOwn(l: Layout, bufs: seq<Buf>, blocks: seq<Word>, b: nat)
    requires Settled(l, bufs, blocks) && !l.Home(b) && AllHome(l, blocks)
    ensures HasRoom(bufs, b) <==> HasIdle(bufs)
    ensures forall i :: 0 <= i < |bufs| && Holds(bufs[i], b) ==> bufs[i].refcnt == 0
    ensures forall i :: 0 <= i < |bufs| && bufs[i].dirty ==> bufs[i].blockno != b
  {
    assert Show(Pins, 0);
    forall i | 0 <= i < |bufs|
      ensures (Holds(bufs[i], b) ==> Idle(bufs[i])) && (bufs[i].dirty ==> bufs[i].blockno != b)
    {
      assert SettledBuffer(l, bufs[i], blocks);
    }
  }

  /** The transaction over these blocks, with the contents a view gives them. */
  ghost function Contents(blocks: seq<Word>, view: seq<Block>): (tx: seq<Write>)
    requires forall k :: 0 <= k < |blocks| ==> blocks[k] < |view|
    ensures |tx| == |blocks|
    ensures forall k :: 0 <= k < |tx| ==> tx[k] == Write(blocks[k], view[blocks[k]])
  {
    seq(|blocks|, k requires 0 <= k < |blocks| => Write(blocks[k], view[blocks[k]]))
  }

  lemma NewestIsView(disk: Disk, view: seq<Block>, blocks: seq<Word>, b: nat)
    requires b < |disk| == |view|
    requires forall k :: 0 <= k < |blocks| ==> blocks[k] < |view|
    requires b !in blocks ==> disk[b] == view[b]
    ensures Newest(disk[b], b, Contents(blocks, view)) == view[b]
  {
    var tx := Contents(blocks, view);
    if b in blocks {
      var k :| 0 <= k < |blocks| && blocks[k] == b;
      assert tx[k].blockno == b;
    }
  }

  /** Committing blocks with the contents the view gives them brings the disk to the view. */
  lemma CommitEffect(l: Layout, disk: Disk, view: seq<Block>, blocks: seq<Word>, tx: seq<Write>)
    requires WellFormed(l, disk) && Count(l, disk) == 0 && |view| == |disk|
    requires forall k :: 0 <= k < |blocks| ==> blocks[k] < |view|
    requires tx == Contents(blocks, view) && IsTransaction(l, tx)
    requires forall b :: 0 <= b < |disk| && b !in blocks ==> disk[b] == view[b]
    ensures var e := Apply(disk, CommitWrites(l, disk, tx));
            && WellFormed(l, e) && Count(l, e) == 0
            && HomeOf(l, e) == HomeOf(l, view) == Overlay(Meaning(l, disk), tx)
  {
    CommitDone(l, disk, tx);
    EmptyLogMeansHome(l, disk);
    OverlayIsView(l, disk, view, blocks);
  }

  lemma OverlayIsView(l: Layout, disk: Disk, view: seq<Block>, blocks: seq<Word>)
    requires |view| == |disk| == l.nblocks
    requires forall k :: 0 <= k < |blocks| ==> blocks[k] < |view|
    requires forall b :: 0 <= b < |disk| && b !in blocks ==> disk[b] == view[b]
    ensures Overlay(HomeOf(l, disk), Contents(blocks, view)) == HomeOf(l, view)
  {
    forall b: nat | b < l.nblocks && l.Home(b) ensures Newest(disk[b], b, Contents(blocks, view)) == view[b] {
      NewestIsView(disk, view, blocks, b);
    }
  }

  lemma HeaderKept(l: Layout, d: Disk, tx: seq<Write>)
    requires l.Valid() && |d| == l.nblocks && IsTransaction(l, tx)
    ensures Apply(d, tx)[l.start] == d[l.start]
  {
    assert Show(Distinctness, 0);
    ApplyDistinct(d, tx);
  }

  lemma LogWrittenAll(l: Layout, d: Disk, tx: seq<Write>)
    requires l.Valid() && |d| == l.nblocks && |tx| < l.size
    ensures var e := Apply(d, LogWrites(l, tx));
      e[l.start] == d[l.start] && forall i :: 0 <= i < |tx| ==> Slot(l, e, i) == tx[i].data
  {
    assert LogWrites(l, tx)[..|tx|] == LogWrites(l, tx);
    LogWritten(l, d, tx, |tx|);
  }

  /** What a commit of tx writes up to its commit point, when the header block is hb before, and after it. */
  ghost predicate Front(l: Layout, hb: Block, tx: seq<Write>, ws: seq<Write>) {
    && l.Valid() && IsTransaction(l, tx) && |ws| == |tx| + 1
    && forall u :: Show(Script, u) ==> ws == LogWrites(l, tx) + [Write(l.start, PutHeader(hb, Blocknos(tx)))]
  }

  ghost predicate Back(l: Layout, hb: Block, tx: seq<Write>, ws: seq<Write>) {
    l.Valid() && forall u :: Show(Script, u) ==> ws == tx + [Write(l.start, PutHeader(hb, []))]
  }

  lemma SplitScript(l: Layout, d: Disk, tx: seq<Write>, ws: seq<Write>) returns (front: seq<Write>, back: seq<Write>)
    requires Commits(l, d, tx, ws)
    ensures Front(l, d[l.start], tx, front) && Back(l, front[|tx|].data, tx, back) && ws == front + back
  {
    assert Show(Script, 0);
    front, back := ws[..|tx| + 1], ws[|tx| + 1..];
  }

  /** The calls processes make: bread is Get then Lock, log_write is LogIt, and a Turn is the next block write
      of the process that is committing. */
  datatype Call =
    | Begin
    | Get(b: nat)
    | Lock(i: nat, b: nat)
    | Change(i: nat, data: Block)
    | LogIt(i: nat, ghost op: nat)
    | Release(i: nat, b: nat)
    | End(ghost op: nat)
    | Turn

  /** The holder of buffer j makes the call c on it. */
  predicate On(c: Call, j: nat) {
    match c
    case Lock(i, b) => i == j
    case Change(i, data) => i == j
    case LogIt(i, op) => i == j
    case Release(i, b) => i == j
    case _ => false
  }

  /** A call leaves the locked buffers it is not made on as they were, up to waiting references. */
  ghost predicate LeavesLocked(c: Call, before: seq<Buf>, after: seq<Buf>) {
    |after| == |before| && forall j :: 0 <= j < |before| && before[j].locked && !On(c, j) ==>
      after[j] == before[j].(refcnt := after[j].refcnt)
  }

  lemma SparesLocked(c: Call, before: seq<Buf>, after: seq<Buf>)
    requires Spares(before, after)
    ensures LeavesLocked(c, before, after)
  {
    assert Show(Pins, 0);
    assert forall i :: 0 <= i < |before| ==> SparedBuffer(before[i], after[i]);
  }

  /** Buffer i has been got for block b: one more reference to the buffer that has it, or an idle buffer recycled. */
  ghost predicate Fetched(before: seq<Buf>, after: seq<Buf>, i: nat, b: nat) {
    && i < |before|
    && var x := before[i];
    if Holds(x, b) then after == before[i := x.(refcnt := x.refcnt + 1)]
    else Idle(x) && after == before[i := Buf(FSDEV, b, false, false, 1, false, x.data)]
  }

  /** What a commit is to write and what it started from. */
  datatype Commitment = Commitment(tx: seq<Write>, ws: seq<Write>, disk: Disk, writes: seq<Write>,
                                   versions: seq<map<nat, Block>>, epoch: seq<nat>)

  /** The first t writes of a commit of these blocks have been made, and `home` is what it is to leave. */
  ghost predicate Progress(l: Layout, base: Disk, c: Commitment, t: nat, blocks: seq<Word>, home: map<nat, Block>,
      disk: Disk, writes: seq<Write>, versions: seq<map<nat, Block>>, epoch: seq<nat>) {
    && |c.tx| == |blocks| && t <= |c.ws| == 2 * |blocks| + 2
    && Durable(l, base, writes, versions, epoch)
    && forall u :: Show(CommitState, u) ==>
         Started(l, base, c, blocks, home) && Got(c, t, home, disk, writes, versions, epoch)
  }

  ghost predicate Started(l: Layout, base: Disk, c: Commitment, blocks: seq<Word>, home: map<nat, Block>) {
    && Commits(l, c.disk, c.tx, c.ws) && Count(l, c.disk) == 0 && Blocknos(c.tx) == blocks
    && home == Overlay(Meaning(l, c.disk), c.tx)
    && c.disk == Apply(base, c.writes) && Durable(l, base, c.writes, c.versions, c.epoch) && |c.epoch| > 0
  }

  ghost predicate Got(c: Commitment, t: nat, home: map<nat, Block>, disk: Disk, writes: seq<Write>,
      versions: seq<map<nat, Block>>, epoch: seq<nat>) {
    && t <= |c.ws| && |c.epoch| > 0
    && writes == c.writes + c.ws[..t] && disk == Apply(c.disk, c.ws[..t])
    && versions == c.versions + (if t <= |c.tx| then [] else [home])
    && epoch == Epochs(c.epoch, |c.tx|, t)
  }

  /** What a commit comes to with its next write. */
  datatype Next = Next(home: map<nat, Block>, disk: Disk, writes: seq<Write>, versions: seq<map<nat, Block>>,
      epoch: seq<nat>) {
    ghost predicate Reached(l: Layout, base: Disk, c: Commitment, t: nat, blocks: seq<Word>) {
      Progress(l, base, c, t, blocks, home, disk, writes, versions, epoch)
    }
  }

  lemma ProgressStart(l: Layout, base: Disk, c: Commitment, blocks: seq<Word>, home: map<nat, Block>)
    requires Commits(l, c.disk, c.tx, c.ws) && Count(l, c.disk) == 0 && Blocknos(c.tx) == blocks
    requires home == Overlay(Meaning(l, c.disk), c.tx)
    requires c.disk == Apply(base, c.writes) && Durable(l, base, c.writes, c.versions, c.epoch)
    ensures Progress(l, base, c, 0, blocks, home, c.disk, c.writes, c.versions, c.epoch)
  {
    DurableLength(l, base, c.writes, c.versions, c.epoch);
    assert Show(Script, 0);
    assert c.ws[..0] == [] && c.writes + [] == c.writes && c.versions + [] == c.versions;
    assert Epochs(c.epoch, |c.tx|, 0) == c.epoch;
    assert Got(c, 0, home, c.disk, c.writes, c.versions, c.epoch);
  }

  lemma DurableLength(l: Layout, base: Disk, writes: seq<Write>, versions: seq<map<nat, Block>>, epoch: seq<nat>)
    requires Durable(l, base, writes, versions, epoch)
    ensures |epoch| == |writes| + 1
  {
    assert Show(CrashPoints, 0);
  }

  lemma GotNext(c: Commitment, t: nat, home: map<nat, Block>, disk: Disk, writes: seq<Write>,
      versions: seq<map<nat, Block>>, epoch: seq<nat>)
    requires t < |c.ws| && Got(c, t, home, disk, writes, versions, epoch)
    ensures Got(c, t + 1, home, Put1(disk, c.ws[t]), writes + [c.ws[t]],
                versions + (if t == |c.tx| then [home] else []), Epochs(c.epoch, |c.tx|, t + 1))
    ensures epoch <= Epochs(c.epoch, |c.tx|, t + 1)
  {
    ApplyNext(c.disk, c.ws, t);
    EpochsNext(c.epoch, |c.tx|, t);
  }

  lemma EpochsNext(epoch: seq<nat>, n: nat, t: nat)
    requires |epoch| > 0
    ensures Epochs(epoch, n, t) <= Epochs(epoch, n, t + 1)
  {
  }

  lemma GotDurable(l: Layout, base: Disk, c: Commitment, blocks: seq<Word>, home: map<nat, Block>, t: nat, disk: Disk,
      writes: seq<Write>, versions: seq<map<nat, Block>>, epoch: seq<nat>)
    requires Started(l, base, c, blocks, home) && Got(c, t, home, disk, writes, versions, epoch)
    ensures Durable(l, base, writes, versions, epoch)
  {
    assert Show(Script, 0);
    DurableCommit(l, base, c.writes, c.versions, c.epoch, c.tx, t);
    assert c.versions + [] == c.versions;
  }

  /** The header write makes the new contents a version; no other write changes what a crash leaves. */
  lemma ProgressNext(l: Layout, base: Disk, c: Commitment, t: nat, blocks: seq<Word>, home: map<nat, Block>, disk: Disk,
      writes: seq<Write>, versions: seq<map<nat, Block>>, epoch: seq<nat>)
      returns (vs: seq<map<nat, Block>>, es: seq<nat>)
    requires Progress(l, base, c, t, blocks, home, disk, writes, versions, epoch) && t < |c.ws|
    ensures Progress(l, base, c, t + 1, blocks, home, Put1(disk, c.ws[t]), writes + [c.ws[t]], vs, es)
    ensures vs == versions + (if t == |blocks| then [home] else []) && epoch <= es
  {
    assert Show(CommitState, 0);
    vs := versions + (if t == |c.tx| then [home] else []);
    es := Epochs(c.epoch, |c.tx|, t + 1);
    GotNext(c, t, home, disk, writes, versions, epoch);
    GotDurable(l, base, c, blocks, home, t + 1, Put1(disk, c.ws[t]), writes + [c.ws[t]], vs, es);
  }

  /** After all of its writes, and of course after none, the log on disk is empty. */
  lemma ProgressEnds(l: Layout, base: Disk, c: Commitment, t: nat, blocks: seq<Word>, home: map<nat, Block>, disk: Disk,
      writes: seq<Write>, versions: seq<map<nat, Block>>, epoch: seq<nat>)
    requires Progress(l, base, c, t, blocks, home, disk, writes, versions, epoch) && (t == 0 || t == |c.ws|)
    ensures WellFormed(l, disk) && Count(l, disk) == 0 && disk == Apply(base, writes)
  {
    assert Show(CommitState, 0) && Show(Script, 0);
    assert c.ws[..|c.ws|] == c.ws && c.writes + c.ws[..0] == c.writes;
    CommitDone(l, c.disk, c.tx);
    ApplyConcat(base, c.writes, c.ws);
  }

  lemma ScriptAt(l: Layout, d: Disk, tx: seq<Write>, ws: seq<Write>, t: nat)
    requires Commits(l, d, tx, ws) && t < 2 * |tx| + 2
    ensures |ws| == 2 * |tx| + 2
    ensures var h := PutHeader(d[l.start], Blocknos(tx));
      ws[t] == if t < |tx| then Write(l.start + 1 + t, tx[t].data) else if t == |tx| then Write(l.start, h)
        else if t <= 2 * |tx| then tx[t - |tx| - 1] else Write(l.start, PutHeader(h, []))
  {
    assert Show(Script, 0);
  }

  /** The disk part-way through a commit: the header as it was or as written, and the log blocks so far. */
  lemma {:induction false} ScriptDisk(l: Layout, d: Disk, tx: seq<Write>, ws: seq<Write>, t: nat)
    requires Commits(l, d, tx, ws) && t < 2 * |tx| + 2 == |ws|
    ensures var e := Apply(d, ws[..t]);
      && e[l.start] == (if t <= |tx| then d[l.start] else PutHeader(d[l.start], Blocknos(tx)))
      && forall k :: 0 <= k < |tx| && k < t ==> Slot(l, e, k) == tx[k].data
  {
    if t > 0 {
      ScriptDisk(l, d, tx, ws, t - 1);
      ScriptAt(l, d, tx, ws, t - 1);
      ApplyNext(d, ws, t - 1);
      ScriptStep(l, Apply(d, ws[..t - 1]), tx, d[l.start], ws[t - 1], t - 1);
    }
  }

  lemma ScriptStep(l: Layout, e: Disk, tx: seq<Write>, hb: Block, w: Write, t: nat)
    requires l.Valid() && |e| == l.nblocks && IsTransaction(l, tx) && t <= 2 * |tx|
    requires e[l.start] == (if t <= |tx| then hb else PutHeader(hb, Blocknos(tx)))
    requires forall k :: 0 <= k < |tx| && k < t ==> Slot(l, e, k) == tx[k].data
    requires if t < |tx| then w == Write(l.start + 1 + t, tx[t].data)
      else if t == |tx| then w == Write(l.start, PutHeader(hb, Blocknos(tx))) else l.Home(w.blockno)
    ensures Put1(e, w)[l.start] == if t + 1 <= |tx| then hb else PutHeader(hb, Blocknos(tx))
    ensures forall k :: 0 <= k < |tx| && k < t + 1 ==> Slot(l, Put1(e, w), k) == tx[k].data
  {
  }

  lemma HomeAt(l: Layout, d: Disk, tx: seq<Write>, k: nat)
    requires WellFormed(l, d) && IsTransaction(l, tx) && k < |tx|
    ensures var home, b := Overlay(Meaning(l, d), tx), tx[k].blockno; b in home && home[b] == tx[k].data
  {
    assert Show(Distinctness, 0);
    NewestAt(Meaning(l, d)[tx[k].blockno], tx, k);
  }

  lemma ProgressScript(l: Layout, base: Disk, c: Commitment, t: nat, blocks: seq<Word>, home: map<nat, Block>,
      disk: Disk, writes: seq<Write>, versions: seq<map<nat, Block>>, epoch: seq<nat>)
    requires Progress(l, base, c, t, blocks, home, disk, writes, versions, epoch)
    ensures Commits(l, c.disk, c.tx, c.ws) && Blocknos(c.tx) == blocks && home == Overlay(Meaning(l, c.disk), c.tx)
    ensures disk == Apply(c.disk, c.ws[..t])
  {
    assert Show(CommitState, 0);
  }

  /** The next write of a commit, in terms of what is on disk and what it is to leave: a log block, ... */
  lemma ProgressLog(l: Layout, base: Disk, c: Commitment, t: nat, blocks: seq<Word>, home: map<nat, Block>, disk: Disk,
      writes: seq<Write>, versions: seq<map<nat, Block>>, epoch: seq<nat>)
    requires Progress(l, base, c, t, blocks, home, disk, writes, versions, epoch) && t < |blocks|
    ensures blocks[t] in home && l.start + t + 1 < UINT && c.ws[t] == Write(l.start + t + 1, home[blocks[t]])
  {
    ProgressScript(l, base, c, t, blocks, home, disk, writes, versions, epoch);
    ScriptAt(l, c.disk, c.tx, c.ws, t);
    HomeAt(l, c.disk, c.tx, t);
  }

  /** ... the header, with the blocks of the transaction or with none, ... */
  lemma ProgressHead(l: Layout, base: Disk, c: Commitment, t: nat, blocks: seq<Word>, home: map<nat, Block>, disk: Disk,
      writes: seq<Write>, versions: seq<map<nat, Block>>, epoch: seq<nat>)
    requires Progress(l, base, c, t, blocks, home, disk, writes, versions, epoch) && |blocks| <= LOGSIZE
    requires t == |blocks| || t == 2 * |blocks| + 1
    ensures l.Valid() && |disk| == l.nblocks
    ensures c.ws[t] == Write(l.start, PutHeader(disk[l.start], if t == |blocks| then blocks else []))
  {
    ProgressScript(l, base, c, t, blocks, home, disk, writes, versions, epoch);
    ScriptDisk(l, c.disk, c.tx, c.ws, t);
    ScriptAt(l, c.disk, c.tx, c.ws, t);
  }

  /** ... or a home block, with what the log has for it. */
  lemma ProgressHome(l: Layout, base: Disk, c: Commitment, k: nat, blocks: seq<Word>, home: map<nat, Block>, disk: Disk,
      writes: seq<Write>, versions: seq<map<nat, Block>>, epoch: seq<nat>)
    requires k < |blocks| && Progress(l, base, c, |blocks| + 1 + k, blocks, home, disk, writes, versions, epoch)
    ensures l.Valid() && |disk| == l.nblocks && |blocks| < l.size && blocks[k] in home
    ensures c.ws[|blocks| + 1 + k] == Write(blocks[k], home[blocks[k]]) && Slot(l, disk, k) == home[blocks[k]]
  {
    var t := |blocks| + 1 + k;
    ProgressScript(l, base, c, t, blocks, home, disk, writes, versions, epoch);
    ScriptDisk(l, c.disk, c.tx, c.ws, t);
    ScriptAt(l, c.disk, c.tx, c.ws, t);
    assert blocks[k] == c.tx[k].blockno;
    HomeAt(l, c.disk, c.tx, k);
  }

  lemma SameHome(l: Layout, view: Disk, b: nat, data: Block)
    requires b < |view| == l.nblocks && (l.Home(b) ==> view[b] == data)
    ensures HomeOf(l, view[b := data]) == HomeOf(l, view)
  {
  }

  class RedoLog {
    const l: Layout
    const cache: Bcache

    var n: nat // log.lh
    var block: seq<Word>
    var outstanding: nat
    var committing: bool
    var turns: nat // block writes the running commit has made

    ghost var ops: seq<Op> // every operation begun since boot
    ghost var base: Disk // the disk at boot
    ghost var versions: seq<map<nat, Block>> // home contents at boot and after each commit
    ghost var epoch: seq<nat> // epoch[k] is the version a crash after k writes recovers to
    ghost var job: Commitment // the running commit

    /** The header in memory: distinct home blocks, and room for what is still promised. */
    ghost predicate HeaderValid()
      reads `n, `block, `outstanding, `ops
    {
      && l.Valid()
      && LOGSIZE <= l.size
      && |block| == LOGSIZE
      && n < LOGSIZE
      && (forall k :: 0 <= k < n ==> l.Home(block[k]))
      && NoneTwice(block[..n])
      && forall u :: Show(Headers, u) ==> Fits(n, ops) && outstanding == Outstanding(ops)
    }

    /** The cache under this log. */
    ghost predicate CacheValid()
      reads cache
    {
      && l.Valid()
      && cache.nblocks == l.nblocks
      && cache.Valid()
    }

    /** Everything changed is logged, and of what is logged only `blocks` are not on disk. */
    ghost predicate Quiet(blocks: seq<Word>)
      reads cache
    {
      && CacheValid()
      && cache.touched == {}
      && Settled(l, cache.bufs, blocks)
      && AllHome(l, blocks)
    }

    /** No committed transaction waits on disk. */
    ghost predicate LogEmpty()
      reads cache
    {
      WellFormed(l, cache.disk) && Count(l, cache.disk) == 0
    }

    /** tx names the blocks of the header in memory, in order. */
    ghost predicate Names(tx: seq<Write>)
      reads `n, `block
    {
      && l.Valid()
      && IsTransaction(l, tx)
      && |tx| == n <= |block|
      && forall k :: 0 <= k < n ==> block[k] == tx[k].blockno
    }

    /** Everything a run of the file system keeps while no commit runs. */
    ghost predicate Valid()
      reads this, cache
    {
      && CacheValid()
      && HeaderValid()
      && Settled(l, cache.bufs, block[..n]) && Held(cache.bufs, block[..n])
      && LogEmpty()
      && !committing
      && (outstanding == 0 ==> n == 0)
      && DurableNow()
    }

    /** The run so far: every crash point in it recovers to a committed version. */
    ghost predicate DurableNow()
      reads `base, `versions, `epoch, cache
    {
      && Durable(l, base, cache.writes, versions, epoch)
      && cache.disk == Apply(base, cache.writes)
    }

    /** Boot from a disk left behind by any crash. */
    constructor (l: Layout, d: Disk)
      requires WellFormed(l, d) && LOGSIZE <= l.size
      ensures this.l == l && base == d && Booted()
      ensures fresh(cache)
    {
      this.l := l;
      cache := new Bcache(d);
      n, block, outstanding, committing, turns := 0, seq(LOGSIZE, _ => 0), 0, false, 0;
      ops, base, versions, epoch := [], d, [Meaning(l, d)], [0];
    }

    /** Before recover_from_log: nothing cached, nothing written. */
    ghost predicate Booted()
      reads this, cache
    {
      && CacheValid() && cache.touched == {} && AtRest(cache.bufs)
      && WellFormed(l, base) && LOGSIZE <= l.size
      && cache.disk == cache.view == base
      && cache.writes == []
      && |block| == LOGSIZE && n == outstanding == 0 && ops == [] && !committing
      && versions == [Meaning(l, base)] && epoch == [0]
    }

    lemma OwnBlock(blocks: seq<Word>, b: nat)
      requires Quiet(blocks) && !l.Home(b)
      ensures Unlocked(cache.bufs, b) && (HasRoom(cache.bufs, b) <==> HasIdle(cache.bufs))
      ensures forall i :: 0 <= i < NBUF && cache.bufs[i].dirty ==> cache.bufs[i].blockno != b
    {
      LogsOwn(l, cache.bufs, blocks, b);
      assert Show(Buffers, 0);
    }

    lemma OneDirty(i: nat, b: nat)
      requires cache.Valid() && i < NBUF && Holds(cache.bufs[i], b)
      ensures forall k :: 0 <= k < NBUF && k != i && cache.bufs[k].dirty ==> cache.bufs[k].blockno != b
    {
      assert Show(Buffers, 0);
    }

    /** A locked buffer is in use. */
    lemma NotIdle()
      requires cache.Valid()
      ensures forall i :: 0 <= i < NBUF && cache.bufs[i].locked ==> !Idle(cache.bufs[i])
    {
      assert Show(Buffers, 0);
    }

    /** Read two blocks for a copy, the one in the log first. */
    method ReadBoth(from: nat, to: nat, logged: bool) returns (ok: bool, i: nat, j: nat)
      requires CacheValid() && cache.touched == {} && from < l.nblocks && to < l.nblocks && from != to
      requires Unlocked(cache.bufs, from) && Unlocked(cache.bufs, to)
      modifies cache
      ensures CacheValid() && cache.touched == {}
      ensures cache.view == old(cache.view) && cache.disk == old(cache.disk) && cache.writes == old(cache.writes)
      ensures TwoIdle(old(cache.bufs)) ==> ok
      ensures InDirty(old(cache.bufs), if logged then to else from) ==>
                && (ok <==> HasRoom(old(cache.bufs), if logged then from else to))
                && (!ok ==> cache.bufs == old(cache.bufs))
      ensures ok ==>
                && i < NBUF && j < NBUF && i != j && !old(cache.bufs)[i].locked && !old(cache.bufs)[j].locked
                && (i, from) in cache.claims && (j, to) in cache.claims
                && cache.bufs == old(cache.bufs)[i := cache.bufs[i]][j := cache.bufs[j]]
                && WasRead(old(cache.bufs)[i], from, cache.bufs[i]) && cache.bufs[i].data == cache.view[from]
                && WasRead(old(cache.bufs)[j], to, cache.bufs[j])
                && forall k :: 0 <= k < NBUF && k != j && old(cache.bufs)[k].dirty ==> old(cache.bufs)[k].blockno != to
    {
      NotIdle();
      if logged {
        ok, i, j := cache.BreadPair(from, to);
      } else {
        ok, j, i := cache.BreadPair(to, from);
      }
      if ok {
        OneDirty(j, to);
        SameButTwo(old(cache.bufs), cache.bufs, i, j);
      }
    }

    /** Read block `from`, write its contents to block `to`, and release both. */
    method Copy(from: nat, to: nat, logged: bool) returns (ok: bool)
      requires CacheValid() && cache.touched == {} && from < l.nblocks && to < l.nblocks && from != to
      requires Unlocked(cache.bufs, from) && Unlocked(cache.bufs, to)
      modifies cache
      ensures CacheValid() && cache.touched == {}
      ensures TwoIdle(old(cache.bufs)) ==> ok
      ensures InDirty(old(cache.bufs), if logged then to else from) ==>
                && (ok <==> HasRoom(old(cache.bufs), if logged then from else to))
                && (!ok ==> cache.bufs == old(cache.bufs))
      ensures if ok then
                && var data := old(cache.view)[from];
                   && cache.view == old(cache.view)[to := data]
                   && cache.disk == old(cache.disk)[to := data]
                   && cache.writes == old(cache.writes) + [Write(to, data)]
                   && Passes(old(cache.bufs), cache.bufs, to)
              else cache.view == old(cache.view) && cache.disk == old(cache.disk) && cache.writes == old(cache.writes)
    {
      var i, j;
      ok, i, j := ReadBoth(from, to, logged);
      if ok {
        ghost var read := cache.bufs;
        cache.CopyBlock(i, from, j, to);
        Rewritten(old(cache.bufs), i, read[i], cache.bufs[i], j, read[j], cache.bufs[j]);
        PassCopy(old(cache.bufs), i, from, cache.bufs[i], j, to, cache.bufs[j]);
      }
    }

    /** One turn of write_log's loop (xv6/log.c:183-188). */
    method WriteLogBlock(tail: nat) returns (ok: bool)
      requires tail < n < l.size && n <= |block| && l.Home(block[tail]) && Quiet(block[..n])
      requires Unlocked(cache.bufs, block[tail]) && InDirty(cache.bufs, block[tail])
      modifies cache
      ensures Quiet(block[..n])
      ensures ok <==> HasIdle(old(cache.bufs))
      ensures if ok then
                && var slot, data := l.start + tail + 1, old(cache.view)[block[tail]];
                   && cache.view == old(cache.view)[slot := data]
                   && cache.disk == old(cache.disk)[slot := data]
                   && cache.writes == old(cache.writes) + [Write(slot, data)]
                   && Passes(old(cache.bufs), cache.bufs, slot)
              else
                && cache.bufs == old(cache.bufs) && cache.view == old(cache.view)
                && cache.disk == old(cache.disk) && cache.writes == old(cache.writes)
    {
      assert block[tail] in block[..n];
      OwnBlock(block[..n], l.start + tail + 1);
      ok := Copy(block[tail], l.start + tail + 1, false);
      if ok {
        PassSettled(l, old(cache.bufs), cache.bufs, l.start + tail + 1, block[..n], block[..n]);
      }
    }

    /** The same while no other process has a block of the transaction locked. */
    method LogTurn(tail: nat) returns (ok: bool)
      requires tail < n < l.size && n <= |block| && l.Home(block[tail])
      requires Quiet(block[..n]) && Held(cache.bufs, block[..n]) && AllUnlocked(cache.bufs, block[..n])
      modifies cache
      ensures Quiet(block[..n]) && Held(cache.bufs, block[..n]) && AllUnlocked(cache.bufs, block[..n])
      ensures ok <==> HasIdle(old(cache.bufs))
      ensures if ok then
                && HasIdle(cache.bufs)
                && var slot, data := l.start + tail + 1, old(cache.view)[block[tail]];
                   && cache.view == old(cache.view)[slot := data]
                   && cache.disk == old(cache.disk)[slot := data]
                   && cache.writes == old(cache.writes) + [Write(slot, data)]
              else
                && cache.bufs == old(cache.bufs) && cache.view == old(cache.view)
                && cache.disk == old(cache.disk) && cache.writes == old(cache.writes)
    {
      HeldAt(cache.bufs, block[..n], block[tail]);
      ok := WriteLogBlock(tail);
      if ok {
        PassLog(l, old(cache.bufs), cache.bufs, l.start + tail + 1, block[..n]);
      }
    }

    method WriteLog(ghost tx: seq<Write>) returns (ok: bool)
      requires Names(tx) && Quiet(block[..n]) && Held(cache.bufs, block[..n]) && AllUnlocked(cache.bufs, block[..n])
      requires forall k :: 0 <= k < n ==> cache.view[block[k]] == tx[k].data
      modifies cache
      ensures Quiet(block[..n]) && Held(cache.bufs, block[..n]) && AllUnlocked(cache.bufs, block[..n])
      ensures ok <==> n == 0 || HasIdle(old(cache.bufs))
      ensures HasIdle(old(cache.bufs)) ==> HasIdle(cache.bufs)
      ensures if ok then
                && cache.writes == old(cache.writes) + LogWrites(l, tx)
                && cache.disk == Apply(old(cache.disk), LogWrites(l, tx))
                && cache.view == Apply(old(cache.view), LogWrites(l, tx))
              else
                && cache.bufs == old(cache.bufs) && cache.view == old(cache.view)
                && cache.disk == old(cache.disk) && cache.writes == old(cache.writes)
    {
      ghost var ws := LogWrites(l, tx);
      var tail := 0;
      while tail < n
        invariant tail <= n
        invariant Quiet(block[..n]) && Held(cache.bufs, block[..n]) && AllUnlocked(cache.bufs, block[..n])
        invariant tail > 0 ==> HasIdle(old(cache.bufs))
        invariant if tail == 0 then cache.bufs == old(cache.bufs) else HasIdle(cache.bufs)
        invariant cache.writes == old(cache.writes) + ws[..tail]
        invariant cache.disk == Apply(old(cache.disk), ws[..tail])
        invariant cache.view == Apply(old(cache.view), ws[..tail])
      {
        HomeKept(l, old(cache.view), tx, tail, block[tail]);
        ok := LogTurn(tail);
        if !ok {
          return;
        }
        assert ws[tail] == Write(l.start + 1 + tail, tx[tail].data);
        ApplyNext(old(cache.disk), ws, tail);
        ApplyNext(old(cache.view), ws, tail);
        tail := tail + 1;
      }
      assert ws[..n] == ws;
      ok := true;
    }

    /** One turn of install_trans's loop (xv6/log.c:75-80). */
    method InstallBlock(tail: nat, ghost blocks: seq<Word>, ghost rest: seq<Word>) returns (ok: bool)
      requires tail < n < l.size && n <= |block| && l.Home(block[tail]) && Unlocked(cache.bufs, block[tail])
      requires Quiet(blocks) && Leaves(blocks, block[tail], rest)
      modifies cache
      ensures CacheValid() && cache.touched == {}
      ensures TwoIdle(old(cache.bufs)) ==> ok
      ensures InDirty(old(cache.bufs), block[tail]) ==>
                && (ok <==> HasIdle(old(cache.bufs)))
                && (!ok ==> cache.bufs == old(cache.bufs))
      ensures if ok then
                && Quiet(rest)
                && var home, data := block[tail], old(cache.view)[l.start + tail + 1];
                   && cache.view == old(cache.view)[home := data]
                   && cache.disk == old(cache.disk)[home := data]
                   && cache.writes == old(cache.writes) + [Write(home, data)]
                   && Passes(old(cache.bufs), cache.bufs, home)
              else cache.view == old(cache.view) && cache.disk == old(cache.disk) && cache.writes == old(cache.writes)
    {
      OwnBlock(blocks, l.start + tail + 1);
      ok := Copy(l.start + tail + 1, block[tail], true);
      if ok {
        PassSettled(l, old(cache.bufs), cache.bufs, block[tail], blocks, rest);
      }
    }

    lemma NamesDistinct(tx: seq<Write>)
      requires Names(tx)
      ensures NoneTwice(block[..n])
    {
      assert Show(Distinctness, 0);
      forall j, k | 0 <= j < k < n
        ensures block[j] != block[k]
      {
        assert tx[j].blockno != tx[k].blockno;
      }
    }

    /** One turn of install_trans's loop for the transaction tx. */
    method InstallTurn(tail: nat, ghost tx: seq<Write>, ghost blocks: seq<Word>) returns (ok: bool)
      requires tail < n && Names(tx) && (blocks == [] || blocks == block[..n])
      requires Quiet(From(blocks, tail)) && AllUnlocked(cache.bufs, block[..n])
      modifies cache
      ensures Enough(old(cache.bufs), From(blocks, tail), blocks != []) ==>
        ok && Enough(cache.bufs, From(blocks, tail + 1), blocks != [])
      ensures if ok then
                && Quiet(From(blocks, tail + 1)) && AllUnlocked(cache.bufs, block[..n])
                && var home, data := block[tail], Slot(l, old(cache.view), tail);
                   && cache.view == old(cache.view)[home := data]
                   && cache.disk == old(cache.disk)[home := data]
                   && cache.writes == old(cache.writes) + [Write(home, data)]
              else cache.writes == old(cache.writes)
    {
      ghost var now, rest := From(blocks, tail), From(blocks, tail + 1);
      HeldAt(cache.bufs, block[..n], block[tail]);
      if blocks != [] {
        NamesDistinct(tx);
        OncePer(blocks, tail);
        HeldAt(cache.bufs, now, block[tail]);
      } else {
        FromEnds(blocks, tail);
        FromEnds(blocks, tail + 1);
        assert Leaves(now, block[tail], rest);
      }
      assert Show(Pins, 0);
      ok := InstallBlock(tail, now, rest);
      if ok {
        PassInstall(old(cache.bufs), cache.bufs, block[tail], now, rest, block[..n]);
      }
    }

    method InstallTrans(ghost tx: seq<Write>, ghost blocks: seq<Word>) returns (ok: bool)
      requires Names(tx) && Quiet(blocks) && AllUnlocked(cache.bufs, block[..n])
      requires (blocks == [] || blocks == block[..n])
      requires forall k :: 0 <= k < n ==> Slot(l, cache.view, k) == tx[k].data
      modifies cache
      ensures old(cache.writes) <= cache.writes <= old(cache.writes) + tx
      ensures Enough(old(cache.bufs), blocks, blocks != []) ==> ok && HasIdle(cache.bufs)
      ensures ok ==>
                && Quiet([])
                && cache.writes == old(cache.writes) + tx
                && cache.disk == Apply(old(cache.disk), tx)
    {
      FromEnds(blocks, 0);
      var tail := 0;
      while tail < n
        invariant tail <= n
        invariant Quiet(From(blocks, tail)) && AllUnlocked(cache.bufs, block[..n])
        invariant Enough(old(cache.bufs), blocks, blocks != []) ==> Enough(cache.bufs, From(blocks, tail), blocks != [])
        invariant cache.writes == old(cache.writes) + tx[..tail]
        invariant cache.disk == Apply(old(cache.disk), tx[..tail])
        invariant forall k :: 0 <= k < n ==> Slot(l, cache.view, k) == tx[k].data
      {
        ok := InstallTurn(tail, tx, blocks);
        if !ok {
          return;
        }
        ApplyNext(old(cache.disk), tx, tail);
        tail := tail + 1;
      }
      assert tx[..n] == tx;
      FromEnds(blocks, n);
      if Enough(old(cache.bufs), blocks, blocks != []) {
        EnoughLeft(cache.bufs, [], blocks != []);
      }
      ok := true;
    }

    /** write_head's copy into the header block (xv6/log.c:107-110). */
    method FillHeader(old_: Block) returns (hb: Block)
      requires n <= |block| == LOGSIZE
      ensures hb == PutHeader(old_, block[..n])
    {
      hb := old_[0 := n];
      var k := 0;
      while k < n
        invariant k <= n
        invariant hb == PutTargets(old_[0 := n], block[..k])
      {
        assert block[..k + 1][..k] == block[..k];
        hb := hb[1 + k := block[k]];
        k := k + 1;
      }
    }

    method WriteHead(ghost blocks: seq<Word>) returns (ok: bool)
      requires Quiet(blocks) && n <= |block| == LOGSIZE
      modifies cache
      ensures Quiet(blocks)
      ensures ok <==> HasIdle(old(cache.bufs))
      ensures if ok then
                && var data := PutHeader(old(cache.view)[l.start], block[..n]);
                   && cache.view == old(cache.view)[l.start := data]
                   && cache.disk == old(cache.disk)[l.start := data]
                   && cache.writes == old(cache.writes) + [Write(l.start, data)]
                   && Passes(old(cache.bufs), cache.bufs, l.start)
              else
                && cache.bufs == old(cache.bufs) && cache.view == old(cache.view)
                && cache.disk == old(cache.disk) && cache.writes == old(cache.writes)
    {
      OwnBlock(blocks, l.start);
      NotIdle();
      var r := cache.Bread(l.start);
      if r.None? {
        return false;
      }
      var i := r.value;
      var hb := FillHeader(cache.bufs[i].data);
      cache.Overwrite(i, l.start, hb);
      PassOne(old(cache.bufs), i, l.start, cache.bufs[i]);
      PassSettled(l, old(cache.bufs), cache.bufs, l.start, blocks, blocks);
      ok := true;
    }

    /** Only blocks of the transaction are held back from the disk. */
    lemma OthersOnDisk(blocks: seq<Word>)
      requires CacheValid() && Settled(l, cache.bufs, blocks)
      ensures forall b :: 0 <= b < |cache.disk| && b !in blocks ==> cache.disk[b] == cache.view[b]
    {
      assert Show(Buffers, 0); assert Show(Pins, 0);
      forall b | 0 <= b < |cache.disk| && b !in blocks ensures cache.disk[b] == cache.view[b] {
        assert cache.disk[b] != cache.view[b] ==> InDirty(cache.bufs, b);
      }
    }

    /** With nothing pinned the disk has every logged contents. */
    lemma AllOnDisk()
      requires Quiet([])
      ensures cache.disk == cache.view
    {
      OthersOnDisk([]);
      assert Show(Buffers, 0);
    }

    /** The transaction in memory: its blocks with their latest logged contents. */
    ghost function Pending(): (tx: seq<Write>)
      requires CacheValid() && HeaderValid()
      reads this, cache
      ensures Names(tx)
      ensures forall k :: 0 <= k < n ==> tx[k].data == cache.view[block[k]]
    {
      Contents(block[..n], cache.view)
    }

    /** commit up to its commit point (xv6/log.c:196-197). */
    method WriteLogAndHead(ghost tx: seq<Write>, ghost ws: seq<Write>) returns (ok: bool)
      requires Names(tx) && 0 < n && |block| == LOGSIZE && CacheValid() && Front(l, cache.view[l.start], tx, ws)
      requires Quiet(block[..n]) && Held(cache.bufs, block[..n]) && AllUnlocked(cache.bufs, block[..n])
      requires forall k :: 0 <= k < n ==> cache.view[block[k]] == tx[k].data
      modifies cache
      ensures ok <==> HasIdle(old(cache.bufs))
      ensures !ok ==>
                && cache.bufs == old(cache.bufs) && cache.view == old(cache.view)
                && cache.disk == old(cache.disk) && cache.writes == old(cache.writes)
      ensures ok ==>
                && Quiet(block[..n]) && Enough(cache.bufs, block[..n], true) && AllUnlocked(cache.bufs, block[..n])
                && cache.writes == old(cache.writes) + ws
                && cache.disk == Apply(old(cache.disk), ws)
                && cache.view[l.start] == ws[n].data
                && (forall k :: 0 <= k < n ==> Slot(l, cache.view, k) == tx[k].data)
    {
      assert block[..n] == Blocknos(tx);
      ghost var h := Write(l.start, PutHeader(cache.view[l.start], block[..n]));
      assert ws == LogWrites(l, tx) + [h] by {
        assert Show(Script, 0);
      }
      ok := WriteLog(tx);
      if ok {
        LogWrittenAll(l, old(cache.view), tx);
        ghost var bufs := cache.bufs;
        ok := WriteHead(block[..n]);
        PassLog(l, bufs, cache.bufs, l.start, block[..n]);
        ApplyConcat(old(cache.disk), LogWrites(l, tx), [h]);
      }
    }

    /** The common tail of commit and recovery (xv6/log.c:198-200 and 119-121). */
    method InstallAndClear(ghost tx: seq<Write>, ghost blocks: seq<Word>, ghost ws: seq<Write>) returns (ok: bool)
      requires Names(tx) && |block| == LOGSIZE && Quiet(blocks) && (blocks == [] || blocks == block[..n])
      requires AllUnlocked(cache.bufs, block[..n])
      requires forall k :: 0 <= k < n ==> Slot(l, cache.view, k) == tx[k].data
      requires Back(l, cache.view[l.start], tx, ws)
      modifies cache, `n
      ensures old(cache.writes) <= cache.writes <= old(cache.writes) + ws
      ensures Enough(old(cache.bufs), blocks, blocks != []) ==> ok
      ensures ok ==>
                && Quiet([]) && n == 0
                && cache.writes == old(cache.writes) + ws
                && cache.disk == cache.view == Apply(old(cache.disk), ws)
    {
      assert Show(Script, 0);
      assert cache.view[l.start] == cache.disk[l.start] by {
        OthersOnDisk(blocks);
      }
      ok := InstallTrans(tx, blocks);
      if ok {
        AllOnDisk();
        HeaderKept(l, old(cache.disk), tx);
        n := 0;
        assert block[..n] == [];
        ok := WriteHead([]);
        ApplyConcat(old(cache.disk), tx, [Write(l.start, PutHeader(old(cache.view)[l.start], []))]);
      }
    }

    /** commit with something to do: with an idle buffer it makes exactly the writes ws, in that order;
        without one it panics before the first. */
    method CommitBlocks(ghost tx: seq<Write>, ghost ws: seq<Write>) returns (ok: bool)
      requires Names(tx) && 0 < n && |block| == LOGSIZE && Commits(l, cache.disk, tx, ws)
      requires Quiet(block[..n]) && Held(cache.bufs, block[..n]) && AllUnlocked(cache.bufs, block[..n])
      requires forall k :: 0 <= k < n ==> cache.view[block[k]] == tx[k].data
      modifies cache, `n
      ensures ok <==> HasIdle(old(cache.bufs))
      ensures if ok then
                && Quiet([]) && n == 0
                && cache.writes == old(cache.writes) + ws
                && cache.disk == cache.view == Apply(old(cache.disk), ws)
              else
                && n == old(n) && cache.bufs == old(cache.bufs) && cache.view == old(cache.view)
                && cache.disk == old(cache.disk) && cache.writes == old(cache.writes)
    {
      assert cache.view[l.start] == cache.disk[l.start] by {
        OthersOnDisk(block[..n]);
      }
      ghost var front, back := SplitScript(l, cache.disk, tx, ws);
      ok := WriteLogAndHead(tx, front);
      if ok {
        var done := InstallAndClear(tx, block[..n], back);
        assert done;
        ApplyConcat(old(cache.disk), front, back);
        assert old(cache.writes) + front + back == old(cache.writes) + (front + back);
      }
    }

    lemma PendingEffect(tx: seq<Write>) returns (ws: seq<Write>)
      requires HeaderValid() && Quiet(block[..n]) && LogEmpty() && tx == Pending()
      ensures Commits(l, cache.disk, tx, ws)
      ensures var e := Apply(cache.disk, ws);
              && WellFormed(l, e) && Count(l, e) == 0
              && HomeOf(l, e) == HomeOf(l, cache.view) == Overlay(Meaning(l, cache.disk), tx)
    {
      OthersOnDisk(block[..n]);
      CommitEffect(l, cache.disk, cache.view, block[..n], tx);
      ws := CommitWrites(l, cache.disk, tx);
    }

    /** The file system sees the same contents before and after a commit, and the disk then has all of
        them: the next version of the run. */
    method CommitPending() returns (ok: bool)
      requires HeaderValid() && n > 0 && LogEmpty() && DurableNow()
      requires Quiet(block[..n]) && Held(cache.bufs, block[..n]) && AllUnlocked(cache.bufs, block[..n])
      modifies cache, `n, `versions, `epoch
      ensures old(cache.writes) <= cache.writes && old(versions) <= versions && old(epoch) <= epoch
      ensures Durable(l, base, cache.writes, versions, epoch)
      ensures ok <==> HasIdle(old(cache.bufs))
      ensures ok ==>
                && Quiet([]) && LogEmpty() && DurableNow() && n == 0
                && HomeOf(l, cache.view) == HomeOf(l, old(cache.view))
                && versions == old(versions) + [HomeOf(l, cache.view)]
    {
      ghost var tx := Pending();
      ghost var ws := PendingEffect(tx);
      ok := CommitBlocks(tx, ws);
      if ok {
        versions, epoch := DurableAfter(l, base, old(cache.writes), cache.writes, versions, epoch, tx, ws);
      }
    }

    /** commit by itself: it completes exactly if there is nothing to commit or some buffer is idle. */
    method Commit() returns (ok: bool)
      requires HeaderValid() && LogEmpty() && DurableNow()
      requires Quiet(block[..n]) && Held(cache.bufs, block[..n]) && AllUnlocked(cache.bufs, block[..n])
      modifies cache, `n, `versions, `epoch
      ensures old(cache.writes) <= cache.writes && old(versions) <= versions && old(epoch) <= epoch
      ensures Durable(l, base, cache.writes, versions, epoch)
      ensures ok <==> old(n) == 0 || HasIdle(old(cache.bufs))
      ensures ok ==>
                && Quiet([]) && LogEmpty() && DurableNow() && n == 0
                && HomeOf(l, cache.view) == HomeOf(l, old(cache.view))
                && versions == old(versions) + if old(n) > 0 then [HomeOf(l, cache.view)] else []
    {
      ok := true;
      if n > 0 {
        ok := CommitPending();
      } else {
        assert block[..n] == [];
      }
    }

    /** One turn of begin_op's loop; false is a turn that goes to sleep. */
    method TryBeginOp() returns (ok: bool, ghost op: nat)
      requires HeaderValid() && (!committing && outstanding == 0 ==> n == 0)
      modifies `outstanding, `ops
      ensures HeaderValid()
      ensures ok <==> !committing && MayBegin(n, old(outstanding))
      ensures ok ==> op == |old(ops)| && ops == old(ops) + [Running(0)] && outstanding == old(outstanding) + 1
      ensures !ok ==> ops == old(ops) && outstanding == old(outstanding)
    {
      assert Show(Headers, 0);
      op := |ops|;
      if committing || n + (outstanding + 1) * MAXOPBLOCKS > LOGSIZE {
        return false, op;
      }
      ok := true;
      BeginFits(n, ops);
      outstanding, ops := outstanding + 1, ops + [Running(0)];
    }

    /** log_write's search for block b in the header (xv6/log.c:224-227). */
    method FindSlot(b: Word) returns (k: nat)
      requires n <= |block|
      ensures k <= n && b !in block[..k]
      ensures k < n ==> block[k] == b
    {
      k := 0;
      while k < n && block[k] != b
        invariant 0 <= k <= n
        invariant b !in block[..k]
      {
        k := k + 1;
      }
    }

    /** Absorb block b or append it (xv6/log.c:218-230).  Neither panic is reachable for an operation
        that appends at most MAXOPBLOCKS - 1 blocks. */
    method Record(b: Word, ghost op: nat)
      requires HeaderValid() && l.Home(b)
      requires op < |ops| && ops[op].Running?
      requires b in block[..n] || ops[op].appended + 1 < MAXOPBLOCKS
      modifies `n, `block, `ops
      ensures HeaderValid() && outstanding >= 1
      ensures if b in old(block)[..old(n)] then
                n == old(n) && block == old(block) && ops == old(ops)
              else
                && n == old(n) + 1
                && block[..n] == old(block)[..old(n)] + [b]
                && ops == old(ops)[op := Running(old(ops)[op].appended + 1)]
    {
      assert Show(Headers, 0);
      UpdateOp(ops, op, Ended);
      assert !Panics(n, l.size) && outstanding >= 1;
      var k := FindSlot(b);
      if k == n {
        NoneTwiceMore(block[..n], b);
        UpdateOp(ops, op, Running(ops[op].appended + 1));
      }
      block := block[k := b];
      if k == n {
        n := n + 1;
        ops := ops[op := Running(ops[op].appended + 1)];
        assert block[..n] == old(block)[..old(n)] + [b];
      } else {
        assert block == old(block);
      }
    }

    /** Record a changed buffer in the transaction and pin it. */
    method LogWrite(i: nat, ghost op: nat)
      requires Valid() && i < NBUF
      requires cache.bufs[i].locked && cache.bufs[i].valid && l.Home(cache.bufs[i].blockno)
      requires op < |ops| && ops[op].Running?
      requires cache.bufs[i].blockno in block[..n] || ops[op].appended + 1 < MAXOPBLOCKS
      modifies cache, `n, `block, `ops
      ensures Valid() && cache.disk == old(cache.disk) && cache.writes == old(cache.writes)
      ensures cache.claims == old(cache.claims)
      ensures var x := old(cache.bufs)[i];
              && cache.view == old(cache.view)[x.blockno := x.data]
              && cache.touched == old(cache.touched) - {i}
              && cache.bufs == old(cache.bufs)[i := x.(dirty := true)]
              && if x.blockno in old(block)[..old(n)] then
                   n == old(n) && block == old(block) && ops == old(ops)
                 else
                   && n == old(n) + 1
                   && block[..n] == old(block)[..old(n)] + [x.blockno]
                   && ops == old(ops)[op := Running(old(ops)[op].appended + 1)]
    {
      assert cache.bufs[i].dev == FSDEV by {
        assert Show(Buffers, 0);
      }
      cache.Pin(i);
      Record(cache.bufs[i].blockno, op);
      Grown(l, old(cache.bufs), old(block)[..old(n)], block[..n], i);
    }

    /** end_op with log.lock held (xv6/log.c:148-161): the last operation to end is to commit. */
    method Leave(ghost op: nat)
      requires Valid() && op < |ops| && ops[op].Running?
      modifies `outstanding, `committing, `ops
      ensures HeaderValid() && ops == old(ops)[op := Ended] && outstanding == old(outstanding) - 1
      ensures committing <==> outstanding == 0
      ensures outstanding > 0 ==> Valid()
    {
      assert Show(Headers, 0);
      UpdateOp(ops, op, Ended);
      outstanding, ops := outstanding - 1, ops[op := Ended];
      assert !committing;
      committing := outstanding == 0;
    }

    /** end_op by itself: the last operation to end commits, and no reader sees a difference. */
    method EndOp(ghost op: nat) returns (ok: bool)
      requires Valid() && op < |ops| && ops[op].Running?
      requires outstanding == 1 ==> cache.touched == {} && AllUnlocked(cache.bufs, block[..n])
      modifies cache, `outstanding, `committing, `ops, `n, `versions, `epoch
      ensures Durable(l, base, cache.writes, versions, epoch)
      ensures old(cache.writes) <= cache.writes && old(versions) <= versions && old(epoch) <= epoch
      ensures ok <==> old(outstanding) > 1 || old(n) == 0 || HasIdle(old(cache.bufs))
      ensures ok ==> Valid() && ops == old(ops)[op := Ended] && HomeOf(l, cache.view) == HomeOf(l, old(cache.view))
      ensures old(outstanding) > 1 ==> n == old(n) && unchanged(cache) && versions == old(versions)
      ensures ok && old(outstanding) == 1 ==>
                n == 0 && versions == old(versions) + if old(n) > 0 then [HomeOf(l, cache.view)] else []
    {
      Leave(op);
      ok := true;
      if committing {
        ok := Commit();
        if ok {
          committing := false;
          NoneHeld(cache.bufs, block[..n]);
        }
      }
    }

    /** read_head's copy out of the header block (xv6/log.c:91-94). */
    method CopyHeader(lh: Block)
      requires |block| == LOGSIZE && lh[0] <= LOGSIZE
      modifies `n, `block
      ensures |block| == LOGSIZE && n == lh[0]
      ensures forall k :: 0 <= k < n ==> block[k] == lh[1 + k]
    {
      n := lh[0];
      var k := 0;
      while k < n
        invariant k <= n == lh[0] && |block| == LOGSIZE
        invariant forall j :: 0 <= j < k ==> block[j] == lh[1 + j]
      {
        block := block[k := lh[1 + k]];
        k := k + 1;
      }
    }

    method ReadHead()
      requires Booted()
      modifies cache, `n, `block
      ensures CacheValid() && cache.touched == {} && AtRest(cache.bufs)
      ensures cache.writes == [] && cache.disk == cache.view == base
      ensures |block| == LOGSIZE && n == Count(l, base)
      ensures forall k :: 0 <= k < n ==> block[k] == Target(l, base, k)
    {
      RestIsSettled(l, cache.bufs, []);
      OwnBlock([], l.start);
      var r := cache.Bread(l.start);
      var i := r.value;
      CopyHeader(cache.bufs[i].data);
      cache.Brelse(i, l.start);
      StaysAtRest(old(cache.bufs), i, cache.bufs[i]);
    }

    /** Recovery writes exactly RecoverWrites, in that order. */
    method ReplayLog()
      requires Booted()
      modifies cache, `n, `block
      ensures Quiet([]) && n == 0 && |block| == LOGSIZE
      ensures cache.writes == RecoverWrites(l, base)
      ensures cache.disk == cache.view == Apply(base, RecoverWrites(l, base))
    {
      ReadHead();
      RestIsSettled(l, cache.bufs, block[..n]);
      assert Enough(cache.bufs, [], false);
      var ok := InstallAndClear(Logged(l, base), [], RecoverWrites(l, base));
    }

    /** Recovery always completes, and the file system then sees the version the crash left committed.
        Each of its writes is a crash point that recovers to that version too. */
    method RecoverFromLog()
      requires Booted()
      modifies cache, `n, `block, `epoch
      ensures cache.writes == RecoverWrites(l, base)
      ensures Valid() && n == 0 && versions == [HomeOf(l, cache.view)]
    {
      ReplayLog();
      DurableRecovery(l, base, cache.writes);
      RecoveryDone(l, base);
      epoch := Zeros(|cache.writes| + 1);
      assert block[..n] == [];
      NoneHeld(cache.bufs, block[..n]);
    }

    // ----- Whole runs -----

    /** Everything a run keeps while a process is in commit. */
    ghost predicate Midway()
      reads this, cache
    {
      && committing && turns <= 2 * n + 1 && (n == 0 ==> turns == 0) && turns < |job.ws|
      && CacheValid() && HeaderValid() && outstanding == 0
      && Durable(l, base, cache.writes, versions, epoch)
      && forall u :: Show(Midst, u) ==>
        && Between(turns)
        && Progress(l, base, job, turns, block[..n], HomeOf(l, cache.view), cache.disk, cache.writes, versions, epoch)
    }

    /** The header and the cache after t writes of a commit. */
    ghost predicate Between(t: nat)
      reads `n, `block, `outstanding, `ops, cache
    {
      && HeaderValid() && outstanding == 0
      && Quiet(Unwritten(block[..n], t)) && Held(cache.bufs, Unwritten(block[..n], t))
    }

    /** What every call of a run keeps. */
    ghost predicate RunValid()
      reads this, cache
    {
      if committing then Midway() else Valid()
    }

    /** Nobody has locked the home block that the next write of the commit reads or writes, if any. */
    ghost predicate TurnReady()
      requires n <= |block|
      reads `n, `block, `turns, cache
    {
      && (turns < n ==> Unlocked(cache.bufs, block[turns]))
      && (n < turns <= 2 * n ==> Unlocked(cache.bufs, block[turns - n - 1]))
    }

    ghost predicate MayUse(c: Call)
      requires cache.Valid()
      reads this, cache
    {
      match c
      case Get(b) => l.Home(b)
      case Lock(i, b) => i < NBUF && (i, b) in cache.claims && !cache.bufs[i].locked
      case Change(i, data) => i < NBUF && cache.bufs[i].locked && cache.bufs[i].valid && outstanding > 0
      case Release(i, b) => i < NBUF && (i, b) in cache.claims && cache.bufs[i].locked && i !in cache.touched
      case _ => false
    }

    /** What bread in its two steps, a change to a locked buffer, and brelse do to the cache. */
    twostate predicate UsedFor(c: Call, ok: bool, i: nat)
      reads cache
    {
      && cache.view == old(cache.view)
      && cache.touched == (if c.Change? then old(cache.touched) + {c.i} else old(cache.touched))
      && LeavesLocked(c, old(cache.bufs), cache.bufs)
      && match c
         case Get(b) =>
           if ok then
             && Fetched(old(cache.bufs), cache.bufs, i, b)
             && cache.claims == old(cache.claims) + multiset{(i, b)}
           else cache.bufs == old(cache.bufs) && cache.claims == old(cache.claims)
         case Lock(j, b) =>
           && j < |old(cache.bufs)| && b < |cache.view| && Holds(old(cache.bufs)[j], b)
           && cache.claims == old(cache.claims)
           && cache.bufs ==
              old(cache.bufs)[j := old(cache.bufs)[j].(locked := true, valid := true, data := cache.view[b])]
         case Change(j, data) =>
           && j < |old(cache.bufs)|
           && cache.claims == old(cache.claims)
           && cache.bufs == old(cache.bufs)[j := old(cache.bufs)[j].(data := data)]
         case Release(j, b) =>
           && j < |old(cache.bufs)|
           && cache.claims == old(cache.claims) - multiset{(j, b)}
           && var x := old(cache.bufs)[j];
           && Holds(x, b) && x.refcnt > 0
           && cache.bufs == old(cache.bufs)[j := x.(locked := false, refcnt := x.refcnt - 1)]
         case _ => true
    }

    /** What log_write of buffer i in operation op does: the buffer's contents are those logged from now on. */
    twostate predicate LoggedIt(i: nat, op: nat)
      reads this, cache
    {
      && outstanding == old(outstanding) && committing == old(committing) && turns == old(turns)
      && cache.claims == old(cache.claims) && cache.touched == old(cache.touched) - {i}
      && i < |old(cache.bufs)| && op < |old(ops)| && old(ops)[op].Running? && old(n) <= |old(block)| && n <= |block|
      && var x := old(cache.bufs)[i];
      && x.blockno < |old(cache.view)|
      && cache.view == old(cache.view)[x.blockno := x.data]
      && cache.bufs == old(cache.bufs)[i := x.(dirty := true)]
      && if x.blockno in old(block)[..old(n)] then n == old(n) && block == old(block) && ops == old(ops)
         else
           && n == old(n) + 1
           && block[..n] == old(block)[..old(n)] + [x.blockno]
           && ops == old(ops)[op := Running(old(ops)[op].appended + 1)]
    }

    /** bget. */
    method UseGet(c: Call, ghost blocks: seq<Word>) returns (ok: bool, i: nat)
      requires CacheValid() && Settled(l, cache.bufs, blocks) && Held(cache.bufs, blocks) && c.Get? && MayUse(c)
      modifies cache
      ensures CacheValid() && Settled(l, cache.bufs, blocks) && Held(cache.bufs, blocks)
      ensures cache.disk == old(cache.disk) && cache.writes == old(cache.writes)
      ensures (ok <==> HasRoom(old(cache.bufs), c.b)) && UsedFor(c, ok, i)
    {
      ghost var bufs := cache.bufs;
      NotIdle();
      var r := cache.Bget(c.b);
      ok, i := r.Some?, 0;
      if ok {
        i := r.value;
        Used(l, bufs, blocks, i, cache.bufs[i]);
      }
    }

    /** The calls that only use the cache. */
    method UseCache(c: Call, ghost blocks: seq<Word>) returns (ok: bool, i: nat)
      requires CacheValid() && Settled(l, cache.bufs, blocks) && Held(cache.bufs, blocks) && MayUse(c)
      modifies cache
      ensures CacheValid() && Settled(l, cache.bufs, blocks) && Held(cache.bufs, blocks)
      ensures cache.disk == old(cache.disk) && cache.writes == old(cache.writes)
      ensures (ok <==> c.Get? ==> HasRoom(old(cache.bufs), c.b)) && UsedFor(c, ok, i)
    {
      if c.Get? {
        ok, i := UseGet(c, blocks);
        return;
      }
      ok, i := true, 0;
      ghost var bufs := cache.bufs;
      match c {
        case Lock(j, b) => cache.LockAndRead(j, b);
        case Change(j, data) => cache.Modify(j, data);
        case Release(j, b) => cache.Brelse(j, b);
      }
      Used(l, bufs, blocks, c.i, cache.bufs[c.i]);
    }

    /** A commit that is about to make its first write. */
    lemma CommitStarts() returns (c: Commitment)
      requires HeaderValid() && Quiet(block[..n]) && LogEmpty() && DurableNow()
      ensures Progress(l, base, c, 0, block[..n], HomeOf(l, cache.view), cache.disk, cache.writes, versions, epoch)
    {
      var tx := Pending();
      var ws := PendingEffect(tx);
      c := Commitment(tx, ws, cache.disk, cache.writes, versions, epoch);
      ProgressStart(l, base, c, block[..n], HomeOf(l, cache.view));
    }

    /** The buffers, and with them the disk, are as before. */
    twostate predicate Untouched()
      reads this, cache
    {
      && cache.bufs == old(cache.bufs) && cache.view == old(cache.view)
      && cache.disk == old(cache.disk) && cache.writes == old(cache.writes) && CacheValid()
      && cache.touched == old(cache.touched)
    }

    /** Other processes find what they hold as they left it. */
    twostate predicate Alongside()
      reads cache
    {
      cache.touched == old(cache.touched) && Spares(old(cache.bufs), cache.bufs)
    }

    /** What the next write of the commit will come to. */
    lemma NextOf() returns (next: Next)
      requires Midway()
      ensures Plans(next) && next.Reached(l, base, job, turns + 1, block[..n])
      ensures next.versions == versions + (if turns == n then [next.home] else []) && epoch <= next.epoch
    {
      assert Show(Midst, 0);
      var vs, es := ProgressNext(l, base, job, turns, block[..n], HomeOf(l, cache.view), cache.disk, cache.writes,
          versions, epoch);
      var w := job.ws[turns];
      next := Next(HomeOf(l, cache.view), Put1(cache.disk, w), cache.writes + [w], vs, es);
    }

    /** That write is the next one, ... */
    ghost predicate Plans(next: Next)
      reads `turns, `job, cache
    {
      && CacheValid() && turns < |job.ws| && next.home == HomeOf(l, cache.view)
      && next.disk == Put1(cache.disk, job.ws[turns]) && next.writes == cache.writes + [job.ws[turns]]
    }

    /** ... and it has been made. */
    ghost predicate Wrote(next: Next)
      reads cache
    {
      CacheValid() && HomeOf(l, cache.view) == next.home && cache.disk == next.disk && cache.writes == next.writes
    }

    lemma LogData()
      requires Midway() && turns < n
      ensures job.ws[turns] == Write(l.start + turns + 1, cache.view[block[turns]])
      ensures Quiet(block[..n]) && Held(cache.bufs, block[..n]) && Unwritten(block[..n], turns + 1) == block[..n]
    {
      assert Show(Midst, 0);
      FromEnds(block[..n], 0);
      ProgressLog(l, base, job, turns, block[..n], HomeOf(l, cache.view), cache.disk, cache.writes, versions, epoch);
    }

    /** A write w into the log has been made. */
    lemma LogWrote(next: Next, bufs: seq<Buf>, view: Disk, w: Write)
      requires HeaderValid() && outstanding == 0 && Quiet(block[..n]) && Unwritten(block[..n], turns + 1) == block[..n]
      requires Held(bufs, block[..n]) && Passes(bufs, cache.bufs, w.blockno) && !l.Home(w.blockno)
      requires w.blockno < |view| == l.nblocks && cache.view == view[w.blockno := w.data]
      requires next.home == HomeOf(l, view) && next.disk == cache.disk && next.writes == cache.writes
      ensures Between(turns + 1) && Wrote(next) && Spares(bufs, cache.bufs)
    {
      PassSpares(bufs, cache.bufs, w.blockno);
      PassLog(l, bufs, cache.bufs, w.blockno, block[..n]);
      SameHome(l, view, w.blockno, w.data);
    }

    method TurnLog(ghost next: Next) returns (ok: bool)
      requires Midway() && turns < n && Unlocked(cache.bufs, block[turns])
      requires Plans(next)
      modifies cache
      ensures ok <==> HasIdle(old(cache.bufs))
      ensures if ok then Between(turns + 1) && Wrote(next) && Alongside() else Untouched()
    {
      LogData();
      HeldAt(cache.bufs, block[..n], block[turns]);
      ok := WriteLogBlock(turns);
      if ok {
        LogWrote(next, old(cache.bufs), old(cache.view), job.ws[turns]);
      }
    }

    lemma HeadData()
      requires Midway() && turns == n > 0
      ensures job.ws[turns] == Write(l.start, PutHeader(cache.view[l.start], block[..n]))
      ensures Quiet(block[..n]) && Held(cache.bufs, block[..n]) && Unwritten(block[..n], turns + 1) == block[..n]
    {
      assert Show(Midst, 0);
      ProgressHead(l, base, job, turns, block[..n], HomeOf(l, cache.view), cache.disk, cache.writes, versions, epoch);
      FromEnds(block[..n], 0);
      OthersOnDisk(block[..n]);
    }

    method TurnHead(ghost next: Next) returns (ok: bool)
      requires Midway() && turns == n > 0
      requires Plans(next)
      modifies cache
      ensures ok <==> HasIdle(old(cache.bufs))
      ensures if ok then Between(turns + 1) && Wrote(next) && Alongside() else Untouched()
    {
      HeadData();
      ok := WriteHead(block[..n]);
      if ok {
        LogWrote(next, old(cache.bufs), old(cache.view), job.ws[turns]);
      }
    }

    /** The write home of block k has the contents readers see. */
    lemma HomeData(k: nat)
      requires Midway() && k < n && turns == n + 1 + k
      ensures l.start + k + 1 < l.nblocks && cache.view[l.start + k + 1] == cache.view[block[k]]
      ensures job.ws[turns] == Write(block[k], cache.view[block[k]])
    {
      assert Show(Midst, 0);
      ProgressHome(l, base, job, k, block[..n], HomeOf(l, cache.view), cache.disk, cache.writes, versions, epoch);
      OthersOnDisk(Unwritten(block[..n], turns));
      assert Show(Pins, 0);
    }

    /** A write w home has been made, of what readers see. */
    lemma HomeWrote(next: Next, bufs: seq<Buf>, view: Disk, w: Write, now: seq<Word>, rest: seq<Word>)
      requires HeaderValid() && outstanding == 0 && Quiet(rest) && Unwritten(block[..n], turns + 1) == rest
      requires Held(bufs, now) && Passes(bufs, cache.bufs, w.blockno) && Leaves(now, w.blockno, rest)
      requires w.blockno < |view| == l.nblocks && view[w.blockno] == w.data && cache.view == view[w.blockno := w.data]
      requires next.home == HomeOf(l, view) && next.disk == cache.disk && next.writes == cache.writes
      ensures Between(turns + 1) && Wrote(next) && Spares(bufs, cache.bufs)
    {
      PassSpares(bufs, cache.bufs, w.blockno);
      PassHeld(bufs, cache.bufs, w.blockno, now, rest);
      SameHome(l, view, w.blockno, w.data);
    }

    method TurnHome(ghost next: Next) returns (ok: bool)
      requires Midway() && n < turns <= 2 * n && Unlocked(cache.bufs, block[turns - n - 1])
      requires Plans(next)
      modifies cache
      ensures ok <==> HasIdle(old(cache.bufs))
      ensures if ok then Between(turns + 1) && Wrote(next) && Alongside() else Untouched()
    {
      var k := turns - n - 1;
      ghost var now, rest := From(block[..n], k), From(block[..n], k + 1);
      HomeData(k);
      assert Show(Midst, 0);
      OncePer(block[..n], k);
      HeldAt(cache.bufs, now, block[k]);
      ok := InstallBlock(k, now, rest);
      if ok {
        HomeWrote(next, old(cache.bufs), old(cache.view), job.ws[turns], now, rest);
      }
    }

    /** A log block, the header or a home block. */
    method TurnWrite(ghost next: Next) returns (ok: bool)
      requires Midway() && turns <= 2 * n && n > 0 && TurnReady()
      requires Plans(next)
      modifies cache
      ensures ok <==> HasIdle(old(cache.bufs))
      ensures if ok then Between(turns + 1) && Wrote(next) && Alongside() else Untouched()
    {
      if turns < n {
        ok := TurnLog(next);
      } else if turns == n {
        ok := TurnHead(next);
      } else {
        ok := TurnHome(next);
      }
    }

    /** Any write but the last. */
    method TurnOn(ghost next: Next) returns (ok: bool)
      requires Midway() && turns <= 2 * n && n > 0 && TurnReady()
      requires Plans(next)
      requires next.Reached(l, base, job, turns + 1, block[..n])
      modifies cache, `turns, `versions, `epoch
      ensures ok <==> HasIdle(old(cache.bufs))
      ensures if ok then
                && Midway() && turns == old(turns) + 1 && Wrote(next) && Alongside()
                && versions == next.versions && epoch == next.epoch
              else Untouched() && versions == old(versions) && epoch == old(epoch)
    {
      ok := TurnWrite(next);
      if ok {
        CountTurn(next);
      }
    }

    /** One more write has been made. */
    method CountTurn(ghost next: Next)
      requires committing && 0 < n && turns <= 2 * n && Between(turns + 1)
      requires next.Reached(l, base, job, turns + 1, block[..n]) && Wrote(next)
      modifies `turns, `versions, `epoch
      ensures Midway() && turns == old(turns) + 1 && versions == next.versions && epoch == next.epoch
    {
      versions, epoch, turns := next.versions, next.epoch, turns + 1;
      Arrived(next);
    }

    lemma Arrived(next: Next)
      requires committing && n > 0 && Between(turns) && next.Reached(l, base, job, turns, block[..n])
      requires turns <= 2 * n + 1 && Wrote(next) && versions == next.versions && epoch == next.epoch
      ensures Midway()
    {
    }

    /** log.lh.n = 0 and the last write_head. */
    method TurnClear(ghost next: Next) returns (ok: bool)
      requires Midway() && turns == 2 * n + 1 && n > 0
      requires Plans(next)
      modifies cache, `n
      ensures ok <==> HasIdle(old(cache.bufs))
      ensures if ok then n == 0 && Between(0) && Wrote(next) && Alongside() else Untouched()
    {
      assert Show(Midst, 0);
      ProgressHead(l, base, job, turns, block[..n], HomeOf(l, cache.view), cache.disk, cache.writes, versions, epoch);
      FromEnds(block[..n], n);
      OthersOnDisk([]);
      n := 0;
      assert block[..n] == [];
      FromEnds([], 0);
      ok := WriteHead([]);
      NoneHeld(cache.bufs, []);
      SameHome(l, old(cache.view), l.start, job.ws[turns].data);
      if ok {
        PassSpares(old(cache.bufs), cache.bufs, l.start);
      }
    }

    /** The last write, and log.committing = 0. */
    method TurnLast(ghost next: Next) returns (ok: bool)
      requires Midway() && turns == 2 * n + 1 && n > 0
      requires Plans(next)
      requires next.Reached(l, base, job, turns + 1, block[..n])
      modifies cache, `n, `committing, `versions, `epoch
      ensures ok <==> HasIdle(old(cache.bufs))
      ensures if ok then
                && Valid() && n == 0 && Wrote(next) && Alongside()
                && versions == next.versions && epoch == next.epoch
              else Untouched() && versions == old(versions) && epoch == old(epoch)
    {
      ghost var blocks := block[..n];
      ok := TurnClear(next);
      if ok {
        Finish(next, blocks);
      }
    }

    /** The last write has been made. */
    method Finish(ghost next: Next, ghost blocks: seq<Word>)
      requires n == 0 && Between(0) && next.Reached(l, base, job, turns + 1, blocks) && turns + 1 == |job.ws|
      requires Wrote(next)
      modifies `committing, `versions, `epoch
      ensures Valid() && versions == next.versions && epoch == next.epoch
    {
      versions, epoch, committing := next.versions, next.epoch, false;
      Finished(next, blocks);
    }

    lemma Finished(next: Next, blocks: seq<Word>)
      requires !committing && n == 0 && Between(0)
      requires next.Reached(l, base, job, turns + 1, blocks) && turns + 1 == |job.ws|
      requires Wrote(next) && versions == next.versions && epoch == next.epoch
      ensures Valid()
    {
      ProgressEnds(l, base, job, turns + 1, blocks, next.home, cache.disk, cache.writes, versions, epoch);
      FromEnds(block[..n], 0);
    }

    lemma NothingToDo()
      requires Midway() && n == 0
      ensures LogEmpty() && DurableNow() && HeaderValid() && outstanding == 0
      ensures Settled(l, cache.bufs, block[..n]) && Held(cache.bufs, block[..n])
    {
      assert Show(Midst, 0);
      FromEnds(block[..n], 0);
      ProgressEnds(l, base, job, 0, block[..n], HomeOf(l, cache.view), cache.disk, cache.writes, versions, epoch);
    }

    /** The next step of the process that is committing: one block write, or, with nothing to commit, none.
        It panics exactly if no buffer is idle. */
    method Turn() returns (ok: bool)
      requires Midway() && TurnReady()
      modifies cache, `n, `committing, `turns, `versions, `epoch
      ensures ok ==> RunValid()
      ensures CacheValid() && Durable(l, base, cache.writes, versions, epoch) && old(epoch) <= epoch
      ensures ok <==> old(n) == 0 || HasIdle(old(cache.bufs))
      ensures !ok ==> cache.disk == old(cache.disk) && cache.writes == old(cache.writes) && versions == old(versions)
      ensures ok ==> cache.writes == old(cache.writes) + (if old(n) == 0 then [] else [job.ws[old(turns)]])
      ensures ok ==> (committing <==> old(n) > 0 && old(turns) <= 2 * old(n))
      ensures ok ==> if committing then n == old(n) && turns == old(turns) + 1 else n == 0 && turns == old(turns)
      ensures |cache.view| == l.nblocks && HomeOf(l, cache.view) == HomeOf(l, old(cache.view))
      ensures ok ==> versions == old(versions) + if 0 < old(n) == old(turns) then [HomeOf(l, cache.view)] else []
      ensures Alongside()
    {
      if n == 0 {
        NothingToDo();
        committing := false;
        return true;
      }
      ghost var next := NextOf();
      if turns <= 2 * n {
        ok := TurnOn(next);
      } else {
        ok := TurnLast(next);
      }
    }

    ghost predicate MayCall(c: Call)
      requires RunValid()
      reads this, cache
    {
      match c
      case Begin => true
      case LogIt(i, op) =>
        && i < NBUF && cache.bufs[i].locked && cache.bufs[i].valid && l.Home(cache.bufs[i].blockno)
        && op < |ops| && ops[op].Running?
        && (cache.bufs[i].blockno in block[..n] || ops[op].appended + 1 < MAXOPBLOCKS)
      case End(op) => op < |ops| && ops[op].Running? && (outstanding == 1 ==> cache.touched == {})
      case Turn => committing && TurnReady()
      case _ => MayUse(c)
    }

    /** No operation runs during a commit. */
    lemma NoneRunning(op: nat)
      requires HeaderValid() && outstanding == 0 && op < |ops|
      ensures !ops[op].Running?
    {
      assert Show(Headers, 0);
      if ops[op].Running? {
        UpdateOp(ops, op, Ended);
      }
    }

    /** What is not yet home: all of the transaction, or what a commit has left of it. */
    ghost function NotHome(): seq<Word>
      requires n <= |block|
      reads `n, `block, `committing, `turns
    {
      if committing then Unwritten(block[..n], turns) else block[..n]
    }

    /** Everything the call c does, with the results ok and i. */
    twostate predicate Did(c: Call, ok: bool, i: nat)
      reads this, cache
    {
      && LeavesLocked(c, old(cache.bufs), cache.bufs)
      && (!c.LogIt? ==>
           |cache.view| == |old(cache.view)| == l.nblocks && HomeOf(l, cache.view) == HomeOf(l, old(cache.view)))
      && (!c.Turn? ==>
           cache.disk == old(cache.disk) && cache.writes == old(cache.writes) && versions == old(versions))
      && match c
         case Begin =>
           && unchanged(cache) && n == old(n) && block == old(block)
           && ops == old(ops) + (if ok then [Running(0)] else [])
           && outstanding == old(outstanding) + (if ok then 1 else 0)
           && committing == old(committing) && turns == old(turns)
         case End(op) =>
           && unchanged(cache) && n == old(n) && block == old(block)
           && op < |old(ops)| && ops == old(ops)[op := Ended] && outstanding == old(outstanding) - 1
           && (committing <==> outstanding == 0) && (committing ==> turns == 0)
         case LogIt(j, op) => LoggedIt(j, op)
         case Turn =>
           && block == old(block) && ops == old(ops) && outstanding == old(outstanding)
           && Alongside() && cache.claims == old(cache.claims)
           && (ok ==>
                && (if committing then n == old(n) && turns == old(turns) + 1 else n == 0 && turns == old(turns))
                && (committing <==> old(n) > 0 && old(turns) <= 2 * old(n))
                && versions == old(versions) + if 0 < old(n) == old(turns) then [HomeOf(l, cache.view)] else [])
         case _ =>
           && UsedFor(c, ok, i)
           && n == old(n) && block == old(block) && ops == old(ops)
           && outstanding == old(outstanding) && committing == old(committing) && turns == old(turns)
    }

    /** A call that only uses the cache, in the middle of a commit or not. */
    method DoUse(c: Call) returns (ok: bool, i: nat)
      requires RunValid() && MayUse(c)
      modifies cache
      ensures RunValid()
      ensures (ok <==> c.Get? ==> HasRoom(old(cache.bufs), c.b)) && Did(c, ok, i)
    {
      assert Show(Midst, 0);
      ok, i := UseCache(c, NotHome());
    }

    /** end_op up to its call of commit. */
    method DoEnd(ghost op: nat)
      requires Valid() && op < |ops| && ops[op].Running? && (outstanding == 1 ==> cache.touched == {})
      modifies `outstanding, `committing, `ops, `turns, `job
      ensures RunValid() && ops == old(ops)[op := Ended]
      ensures outstanding == old(outstanding) - 1 && (committing <==> outstanding == 0)
      ensures committing ==> turns == 0
    {
      Leave(op);
      if committing {
        FromEnds(block[..n], 0);
        job := CommitStarts();
        turns := 0;
      }
    }

    /** A call of begin_op, log_write or end_op. */
    method DoOp(c: Call) returns (ok: bool)
      requires RunValid() && MayCall(c) && (c.Begin? || c.LogIt? || c.End?)
      modifies cache, `n, `block, `outstanding, `committing, `turns, `ops, `job
      ensures RunValid()
      ensures (ok <==> c.Begin? ==> !old(committing) && MayBegin(old(n), old(outstanding))) && Did(c, ok, 0)
    {
      ok := true;
      if c.Begin? {
        ghost var op;
        ok, op := TryBeginOp();
      } else {
        if committing {
          NoneRunning(c.op);
        }
        if c.LogIt? {
          LogWrite(c.i, c.op);
        } else {
          DoEnd(c.op);
        }
      }
    }

    /** A step of the process that commits. */
    method DoTurn(c: Call) returns (ok: bool)
      requires RunValid() && MayCall(c) && c.Turn?
      modifies cache, `n, `committing, `turns, `versions, `epoch
      ensures ok ==> RunValid()
      ensures Durable(l, base, cache.writes, versions, epoch)
      ensures old(cache.writes) <= cache.writes && old(versions) <= versions && old(epoch) <= epoch
      ensures (ok <==> old(n) == 0 || HasIdle(old(cache.bufs))) && Did(c, ok, 0)
    {
      ghost var claims, bufs, disk, view, touched := cache.claims, cache.bufs, cache.disk, cache.view, cache.touched;
      ok := Turn();
      SparesLocked(c, bufs, cache.bufs);
      SparesClaims(disk, view, bufs, touched, claims, cache.disk, cache.view, cache.bufs, cache.touched, cache.claims);
    }

    /** One call of a run, in the middle of a commit or not.  Whatever the calls and their order, every crash
        point recovers to a committed version, a locked buffer was read with its block's latest logged
        contents and stays as its holder left it, only log_write changes what is logged, and the header write
        of a commit alone adds a version.  A call fails exactly when it has to wait for log space or finds no
        buffer. */
    method Do(c: Call) returns (ok: bool, i: nat)
      requires RunValid() && MayCall(c)
      modifies cache, `n, `block, `outstanding, `committing, `turns, `ops, `versions, `epoch, `job
      ensures ok || !c.Turn? ==> RunValid()
      ensures Durable(l, base, cache.writes, versions, epoch)
      ensures old(cache.writes) <= cache.writes && old(versions) <= versions && old(epoch) <= epoch
      ensures ok <==>
                && (c.Begin? ==> !old(committing) && MayBegin(old(n), old(outstanding)))
                && (c.Get? ==> HasRoom(old(cache.bufs), c.b))
                && (c.Turn? ==> old(n) == 0 || HasIdle(old(cache.bufs)))
      ensures Did(c, ok, i)
    {
      i := 0;
      if c.Turn? {
        ok := DoTurn(c);
      } else if c.Begin? || c.LogIt? || c.End? {
        ok := DoOp(c);
      } else {
        ok, i := DoUse(c);
      }
    }

    /** The turns of a commit of block b alone, once its operation has ended. */
    method CommitOne(ghost b: Word) returns (ok: bool)
      requires RunValid() && committing && turns == 0 && n == 1 && block[..n] == [b] && Unlocked(cache.bufs, b)
      modifies cache, `n, `block, `outstanding, `committing, `turns, `ops, `versions, `epoch, `job
      ensures Durable(l, base, cache.writes, versions, epoch)
      ensures ok <==> HasIdle(old(cache.bufs))
      ensures ok ==>
                && Valid() && n == 0 && Alongside() && outstanding == old(outstanding)
                && |cache.view| == |old(cache.view)| == l.nblocks && HomeOf(l, cache.view) == HomeOf(l, old(cache.view))
                && versions == old(versions) + [HomeOf(l, cache.view)]
    {
      ok := true;
      SparesSame(cache.bufs);
      while committing
        invariant RunValid() && ok
        invariant committing ==> n == 1 && block[..n] == [b] && turns <= 3 && Unlocked(cache.bufs, b)
        invariant !committing ==> n == 0 && turns == 3
        invariant Durable(l, base, cache.writes, versions, epoch) && Alongside() && outstanding == old(outstanding)
        invariant |cache.view| == |old(cache.view)| == l.nblocks && HomeOf(l, cache.view) == HomeOf(l, old(cache.view))
        invariant versions == old(versions) + if turns > 1 then [HomeOf(l, cache.view)] else []
        invariant if turns == 0 then cache.bufs == old(cache.bufs) else HasIdle(old(cache.bufs))
        decreases if committing then 4 - turns else 0
      {
        ghost var bufs := cache.bufs;
        assert block[..n][0] == b;
        var i;
        ok, i := Do(Call.Turn);
        SparesThen(old(cache.bufs), bufs, cache.bufs, b);
        if !ok {
          return;
        }
      }
    }

    /** end_op of the only operation, which has logged block b. */
    method EndAlone(ghost op: nat, ghost b: Word) returns (ok: bool)
      requires Valid() && outstanding == 1 && op < |ops| && ops[op].Running? && cache.touched == {}
      requires n == 1 && block[..n] == [b] && Unlocked(cache.bufs, b)
      modifies cache, `n, `block, `outstanding, `committing, `turns, `ops, `versions, `epoch, `job
      ensures Durable(l, base, cache.writes, versions, epoch)
      ensures ok <==> HasIdle(old(cache.bufs))
      ensures ok ==>
                && Valid() && n == 0 && outstanding == 0
                && |cache.view| == |old(cache.view)| == l.nblocks && HomeOf(l, cache.view) == HomeOf(l, old(cache.view))
                && versions == old(versions) + [HomeOf(l, cache.view)]
    {
      var _, _ := Do(End(op));
      ok := CommitOne(b);
    }

    /** The header of the log and the run are as before. */
    twostate predicate SameLog()
      reads this
    {
      && n == old(n) && block == old(block) && ops == old(ops) && outstanding == old(outstanding)
      && versions == old(versions)
    }

    /** bread. */
    method ReadIn(b: nat) returns (ok: bool, i: nat)
      requires Valid() && l.Home(b) && Unlocked(cache.bufs, b)
      modifies cache, `n, `block, `outstanding, `committing, `turns, `ops, `versions, `epoch, `job
      ensures Valid() && SameLog() && cache.view == old(cache.view) && cache.touched == old(cache.touched)
      ensures ok <==> HasRoom(old(cache.bufs), b)
      ensures !ok ==> cache.bufs == old(cache.bufs) && cache.claims == old(cache.claims)
      ensures ok ==>
                && i < NBUF && WasRead(old(cache.bufs)[i], b, cache.bufs[i]) && b < |cache.view|
                && cache.bufs == old(cache.bufs)[i := cache.bufs[i]] && cache.bufs[i].data == cache.view[b]
                && cache.claims == old(cache.claims) + multiset{(i, b)}
    {
      ok, i := Do(Get(b));
      if ok {
        var _, _ := Do(Lock(i, b));
      }
    }

    /** A change to a locked buffer and log_write. */
    method LogChange(i: nat, b: nat, data: Block, ghost op: nat)
      requires Valid() && l.Home(b) && i < NBUF && op < |ops| && ops[op].Running?
      requires Holds(cache.bufs[i], b) && cache.bufs[i].locked && cache.bufs[i].valid && outstanding > 0
      requires b in block[..n] || ops[op].appended + 1 < MAXOPBLOCKS
      modifies cache, `n, `block, `outstanding, `committing, `turns, `ops, `versions, `epoch, `job
      ensures Valid() && outstanding == old(outstanding) && versions == old(versions)
      ensures cache.claims == old(cache.claims) && cache.touched == old(cache.touched) - {i}
      ensures b < |old(cache.view)| && cache.view == old(cache.view)[b := data]
      ensures cache.bufs == old(cache.bufs)[i := old(cache.bufs)[i].(data := data, dirty := true)]
      ensures b in old(block)[..old(n)] ==> ops == old(ops) && n == old(n) && block == old(block)
      ensures b !in old(block)[..old(n)] ==>
                && ops == old(ops)[op := Running(old(ops)[op].appended + 1)]
                && n == old(n) + 1 && block[..n] == old(block)[..old(n)] + [b]
    {
      var _, _ := Do(Change(i, data));
      var _, _ := Do(LogIt(i, op));
    }

    /** A change to a locked buffer, log_write and brelse. */
    method PutBack(i: nat, b: nat, data: Block, ghost op: nat)
      requires Valid() && l.Home(b) && i < NBUF && (i, b) in cache.claims && op < |ops| && ops[op].Running?
      requires Holds(cache.bufs[i], b) && cache.bufs[i].locked && cache.bufs[i].valid && outstanding > 0
      requires b in block[..n] || ops[op].appended + 1 < MAXOPBLOCKS
      modifies cache, `n, `block, `outstanding, `committing, `turns, `ops, `versions, `epoch, `job
      ensures Valid() && outstanding == old(outstanding) && versions == old(versions)
      ensures cache.claims == old(cache.claims) - multiset{(i, b)} && cache.touched == old(cache.touched) - {i}
      ensures b < |old(cache.view)| && cache.view == old(cache.view)[b := data]
      ensures cache.bufs == old(cache.bufs)[i := cache.bufs[i]] && Holds(cache.bufs[i], b) && !cache.bufs[i].locked
      ensures b in old(block)[..old(n)] ==> ops == old(ops) && n == old(n) && block == old(block)
      ensures b !in old(block)[..old(n)] ==>
                && ops == old(ops)[op := Running(old(ops)[op].appended + 1)]
                && n == old(n) + 1 && block[..n] == old(block)[..old(n)] + [b]
    {
      LogChange(i, b, data, op);
      var _, _ := Do(Release(i, b));
      SameButOne(old(cache.bufs), cache.bufs, i);
    }

    /** Both together, as in bzero. */
    method WriteBlock(b: nat, data: Block, ghost op: nat) returns (ok: bool)
      requires Valid() && l.Home(b) && Unlocked(cache.bufs, b) && op < |ops| && ops[op].Running? && outstanding > 0
      requires b in block[..n] || ops[op].appended + 1 < MAXOPBLOCKS
      modifies cache, `n, `block, `outstanding, `committing, `turns, `ops, `versions, `epoch, `job
      ensures Valid() && (ok <==> HasRoom(old(cache.bufs), b))
      ensures outstanding == old(outstanding) && versions == old(versions) && cache.claims == old(cache.claims)
      ensures b < |old(cache.view)| && cache.view == if ok then old(cache.view)[b := data] else old(cache.view)
      ensures !ok ==> SameLog() && cache.bufs == old(cache.bufs)
      ensures ok && b in old(block)[..old(n)] ==> ops == old(ops) && n == old(n) && block == old(block)
      ensures ok && b !in old(block)[..old(n)] ==>
                && ops == old(ops)[op := Running(old(ops)[op].appended + 1)]
                && n == old(n) + 1 && block[..n] == old(block)[..old(n)] + [b]
      ensures cache.touched <= old(cache.touched) && Unlocked(cache.bufs, b)
      ensures TwoIdle(old(cache.bufs)) ==> HasIdle(cache.bufs)
    {
      var i;
      ok, i := ReadIn(b);
      if ok {
        PutBack(i, b, data, op);
        SameButOne(old(cache.bufs), cache.bufs, i);
        if TwoIdle(old(cache.bufs)) {
          OneIdleLeft(old(cache.bufs), i, cache.bufs[i]);
        }
      }
    }

    /** Every change to the file system in small: begin_op, bread, the change, log_write, brelse, end_op and the
        commit, each as a call of a run.  Two idle buffers are enough, and then the change is the next version. */
    method Update(b: nat, data: Block) returns (ok: bool)
      requires Valid() && outstanding == 0 && cache.touched == {} && l.Home(b) && Unlocked(cache.bufs, b)
      modifies cache, `n, `block, `outstanding, `committing, `turns, `ops, `versions, `epoch, `job
      ensures Durable(l, base, cache.writes, versions, epoch)
      ensures TwoIdle(old(cache.bufs)) ==> ok
      ensures ok ==>
                && Valid() && |old(cache.view)| == |cache.view| == l.nblocks
                && HomeOf(l, cache.view) == HomeOf(l, old(cache.view))[b := data]
                && versions == old(versions) + [HomeOf(l, old(cache.view))[b := data]]
    {
      ghost var op := |ops|;
      var i;
      ok, i := Do(Begin);
      assert block[..n] == [];
      ok := WriteBlock(b, data, op);
      if ok {
        ok := EndAlone(op, b);
        if ok {
          assert HomeOf(l, cache.view) == HomeOf(l, old(cache.view))[b := data];
        }
      }
    }
  }
}
