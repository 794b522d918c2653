/**
 xv6/bio.c over the disk of xv6/memide.c.  Every method is one step that a lock of the source makes
 atomic, so a run is any sequence of calls, by any number of processes, whose preconditions hold.
 */
module BufferCache {
  import opened Basics
  import opened Folding
  import opened LogSpace
  import opened MruList
  import opened Wal

  const NBUF: nat := MAXOPBLOCKS * 3
  const FSDEV: nat := 1 // ROOTDEV; iderw refuses every other device

  datatype Buf = Buf(dev: nat, blockno: nat, valid: bool, dirty: bool, refcnt: nat, locked: bool, data: Block)

  const BLANK: Buf := Buf(0, 0, false, false, 0, false, seq(WORDS, _ => 0))

  predicate Holds(x: Buf, b: nat) {
    x.dev == FSDEV && x.blockno == b
  }

  /** What bget may recycle. */
  predicate Idle(x: Buf) {
    x.refcnt == 0 && !x.dirty
  }

  ghost predicate HasIdle(bufs: seq<Buf>) {
    exists i :: 0 <= i < |bufs| && Idle(bufs[i])
  }

  ghost predicate TwoIdle(bufs: seq<Buf>) {
    exists i, j :: 0 <= i < j < |bufs| && Idle(bufs[i]) && Idle(bufs[j])
  }

  /** bget finds a buffer for block b. */
  ghost predicate HasRoom(bufs: seq<Buf>, b: nat) {
    HasIdle(bufs) || exists i :: 0 <= i < |bufs| && Holds(bufs[i], b)
  }

  lemma OneIdleLeft(bufs: seq<Buf>, i: nat, x: Buf)
    requires TwoIdle(bufs) && i < |bufs|
    ensures HasIdle(bufs[i := x])
  {
    var j, k :| 0 <= j < k < |bufs| && Idle(bufs[j]) && Idle(bufs[k]);
    var m := if i == j then k else j;
    assert Idle(bufs[i := x][m]);
  }

  /** No idle buffer was used less recently than buffer i. */
  ghost predicate LeastRecent(ring: seq<nat>, bufs: seq<Buf>, i: nat) {
    forall j, k :: 0 < j < k < |ring| && ring[j] == i && ring[k] < |bufs| ==> !Idle(bufs[ring[k]])
  }

  /** One buffer against the contents the file system has logged.  A `touched` buffer has been
      changed under its lock and not logged yet. */
  ghost predicate BufferOk(x: Buf, view: seq<Block>, touched: bool) {
    if x.dev != FSDEV then
      !x.valid && !x.dirty && x.refcnt == 0 && !x.locked && !touched
    else
      && x.blockno < |view|
      && (x.locked ==> x.refcnt > 0)
      && (x.dirty ==> x.valid)
      && (touched ==> x.locked && x.valid)
      && (x.valid && !touched ==> x.data == view[x.blockno])
  }

  /** Each block sits in at most one buffer. */
  ghost predicate OneBuffer(bufs: seq<Buf>) {
    forall i, j :: 0 <= i < j < |bufs| && bufs[i].dev == FSDEV && bufs[j].dev == FSDEV ==>
      bufs[i].blockno != bufs[j].blockno
  }

  /** Whatever the disk does not have yet, a dirty buffer pins. */
  ghost predicate Pinned(disk: Disk, view: seq<Block>, bufs: seq<Buf>) {
    && |disk| == |view|
    && forall b :: 0 <= b < |disk| && disk[b] != view[b] ==> InDirty(bufs, b)
  }

  ghost predicate InDirty(bufs: seq<Buf>, b: nat) {
    exists i :: 0 <= i < |bufs| && Holds(bufs[i], b) && bufs[i].dirty
  }

  lemma StaysDirty(bufs: seq<Buf>, i: nat, x: Buf, b: nat)
    requires InDirty(bufs, b) && i < |bufs|
    requires bufs[i].dirty && Holds(bufs[i], b) ==> x.dirty && Holds(x, b)
    ensures InDirty(bufs[i := x], b)
  {
    var j :| 0 <= j < |bufs| && Holds(bufs[j], b) && bufs[j].dirty;
    var after := bufs[i := x];
    assert Holds(after[j], b) && after[j].dirty;
  }

  /** A claim (i, b) is one unreleased bget of block b that got buffer i. */
  ghost predicate Claimed(bufs: seq<Buf>, claims: multiset<(nat, nat)>) {
    && (forall i :: 0 <= i < |bufs| ==> bufs[i].refcnt == claims[(i, bufs[i].blockno)])
    && (forall c :: c in claims ==> c.0 < |bufs| && c.1 == bufs[c.0].blockno)
  }

  ghost predicate Sound(disk: Disk, view: seq<Block>, bufs: seq<Buf>, touched: set<nat>, claims: multiset<(nat, nat)>) {
    && (forall i :: 0 <= i < |bufs| ==> BufferOk(bufs[i], view, i in touched))
    && OneBuffer(bufs)
    && Pinned(disk, view, bufs)
    && Claimed(bufs, claims)
  }

  /** Sound, folded: the quantifier keeps its parts out of proofs that do not need them. */
  ghost predicate BufsValid(disk: Disk, view: seq<Block>, bufs: seq<Buf>, touched: set<nat>,
      claims: multiset<(nat, nat)>) {
    && |disk| == |view|
    && forall u :: Show(Buffers, u) ==> Sound(disk, view, bufs, touched, claims)
  }

  /** Every cache operation replaces one buffer, and with it at most that buffer's block on disk
      and in the logged view.  These are the conditions under which the cache stays sound. */
  lemma ReplaceBuffer(disk: Disk, view: seq<Block>, bufs: seq<Buf>, touched: set<nat>, claims: multiset<(nat, nat)>,
      i: nat, x: Buf, disk': Disk, view': seq<Block>, touched': set<nat>, claims': multiset<(nat, nat)>)
    requires BufsValid(disk, view, bufs, touched, claims) && i < |bufs|
    requires |disk'| == |disk| && |view'| == |view|
    requires forall b :: 0 <= b < |view| && b != x.blockno ==> disk'[b] == disk[b] && view'[b] == view[b]
    requires forall j :: j != i ==> (j in touched' <==> j in touched)
    requires x.dev == FSDEV && BufferOk(x, view', i in touched')
    requires disk'[x.blockno] != view'[x.blockno] ==> x.dirty
    requires bufs[i].dirty ==> x.blockno == bufs[i].blockno
    requires forall j :: 0 <= j < |bufs| && j != i ==> !Holds(bufs[j], x.blockno)
    requires forall c: (nat, nat) :: c.0 != i ==> claims'[c] == claims[c]
    requires forall c: (nat, nat) :: c.0 == i ==> claims'[c] == if c.1 == x.blockno then x.refcnt else 0
    ensures BufsValid(disk', view', bufs[i := x], touched', claims')
  {
    assert Show(Buffers, 0);
    var after := bufs[i := x];
    forall b | 0 <= b < |disk'| && disk'[b] != view'[b] ensures InDirty(after, b) {
      if b == x.blockno {
        assert Holds(after[i], b);
      } else {
        var j :| 0 <= j < |bufs| && Holds(bufs[j], b) && bufs[j].dirty;
        assert Holds(after[j], b) && after[j].dirty;
      }
    }
  }

  lemma SameButTwo(s: seq<Buf>, t: seq<Buf>, i: nat, j: nat)
    requires |s| == |t| && i < |s| && j < |s|
    requires forall k :: 0 <= k < |s| && k != i && k != j ==> s[k] == t[k]
    ensures t == s[i := t[i]][j := t[j]]
  {
  }

  lemma Rewritten(s: seq<Buf>, i: nat, x: Buf, x': Buf, j: nat, y: Buf, y': Buf)
    requires i < |s| && j < |s| && i != j
    ensures s[i := x][j := y][j := y'][i := x'] == s[j := y'][i := x']
    ensures s[i := x][j := y][i := x'][j := y'] == s[i := x'][j := y']
  {
  }

  class Bcache {
    const nblocks: nat

    var disk: Disk
    var bufs: seq<Buf>
    var next: seq<nat>
    var prev: seq<nat>

    ghost var ring: seq<nat> // list order, head first
    ghost var view: seq<Block> // latest logged contents of every block
    ghost var touched: set<nat> // buffers changed and not yet logged
    ghost var claims: multiset<(nat, nat)>
    ghost var writes: seq<Write> // every block write since boot

    /** The list links every buffer behind its head exactly once. */
    ghost predicate ListValid()
      reads `next, `prev, `ring
    {
      && |next| == NBUF + 1 == |ring|
      && ring[0] == NBUF
      && forall u :: Show(MruLinks, u) ==> Linked(next, prev, ring)
    }

    ghost predicate Valid()
      reads `disk, `bufs, `next, `prev, `ring, `view, `touched, `claims
    {
      && nblocks <= UINT
      && |bufs| == NBUF
      && |view| == nblocks
      && ListValid()
      && BufsValid(disk, view, bufs, touched, claims)
    }

    /** Boot: no block is cached, and binit has linked every buffer (xv6/bio.c:38-56). */
    constructor (d: Disk)
      requires |d| <= UINT
      ensures Valid() && nblocks == |d| && disk == view == d
      ensures bufs == seq(NBUF, _ => BLANK)
      ensures touched == {} && claims == multiset{} && writes == []
    {
      var nx: seq<nat>, pv: seq<nat> := seq(NBUF + 1, _ => NBUF), seq(NBUF + 1, _ => NBUF);
      ghost var order: seq<nat> := [NBUF];
      var b := 0;
      while b < NBUF
        invariant b <= NBUF
        invariant |nx| == NBUF + 1 && |order| == b + 1 && order[0] == NBUF
        invariant Linked(nx, pv, order)
        invariant forall k :: 1 <= k < |order| ==> order[k] < b
      {
        PushFrontRing(nx, pv, order, b);
        var links := PushFront(nx, pv, NBUF, b);
        nx, pv, order := links.0, links.1, [NBUF, b] + order[1..];
        b := b + 1;
      }
      nblocks, disk, view, touched, claims, writes := |d|, d, d, {}, multiset{}, [];
      bufs, next, prev, ring := seq(NBUF, _ => BLANK), nx, pv, order;
    }

    /** Sync a locked buffer with the disk (xv6/memide.c:38-60). */
    method Iderw(i: nat)
      requires i < |bufs| && bufs[i].locked && !(bufs[i].valid && !bufs[i].dirty)
      requires bufs[i].dev == FSDEV && bufs[i].blockno < |disk| <= UINT
      modifies `disk, `bufs, `writes
      ensures var x := old(bufs[i]);
              if x.dirty then
                && disk == Put1(old(disk), Write(x.blockno, x.data))
                && writes == old(writes) + [Write(x.blockno, x.data)]
                && bufs == old(bufs)[i := x.(dirty := false, valid := true)]
              else
                && disk == old(disk)
                && writes == old(writes)
                && bufs == old(bufs)[i := x.(data := old(disk)[x.blockno], valid := true)]
    {
      var x := bufs[i];
      if x.dirty {
        disk := disk[x.blockno := x.data];
        writes := writes + [Write(x.blockno, x.data)];
        bufs := bufs[i := x.(dirty := false, valid := true)];
      } else {
        bufs := bufs[i := x.(data := disk[x.blockno], valid := true)];
      }
    }

    /** Walk the list from the most recently used end for block b (xv6/bio.c:69-76). */
    method FindCached(b: nat) returns (r: Option<nat>)
      requires Valid()
      ensures r.Some? ==> r.value < NBUF && Holds(bufs[r.value], b)
      ensures r.None? ==> forall i :: 0 <= i < NBUF ==> !Holds(bufs[i], b)
    {
      assert Show(MruLinks, 0);
      var i := next[NBUF];
      ghost var k := 1;
      assert At(next, prev, ring, 0);
      while i != NBUF
        invariant 1 <= k <= |ring|
        invariant i == if k < |ring| then ring[k] else NBUF
        invariant forall j :: 1 <= j < k ==> !Holds(bufs[ring[j]], b)
        decreases |ring| - k
      {
        if Holds(bufs[i], b) {
          return Some(i);
        }
        assert At(next, prev, ring, k);
        i := next[i];
        k := k + 1;
      }
      r := None;
      forall i | 0 <= i < NBUF ensures !Holds(bufs[i], b) {
        Covers(ring, i);
      }
    }

    /** Walk the list from the least recently used end for a buffer to recycle (xv6/bio.c:81-91). */
    method FindIdle() returns (r: Option<nat>)
      requires Valid()
      ensures r.Some? ==>
                && r.value < NBUF && Idle(bufs[r.value])
                && LeastRecent(ring, bufs, r.value)
      ensures r.None? ==> forall i :: 0 <= i < NBUF ==> bufs[i].refcnt > 0 || bufs[i].dirty
    {
      assert Show(MruLinks, 0);
      var i := prev[NBUF];
      ghost var k := |ring| - 1;
      assert At(next, prev, ring, 0);
      while i != NBUF
        invariant 0 <= k < |ring|
        invariant i == ring[k]
        invariant forall j :: k < j < |ring| ==> !Idle(bufs[ring[j]])
        decreases k
      {
        if Idle(bufs[i]) {
          return Some(i);
        }
        assert At(next, prev, ring, k);
        i := prev[i];
        k := k - 1;
      }
      r := None;
      assert k == 0;
      forall i | 0 <= i < NBUF ensures !Idle(bufs[i]) {
        Covers(ring, i);
      }
    }

    /** One more reference to a cached block (xv6/bio.c:70-74). */
    method Hit(i: nat, b: nat)
      requires Valid() && i < NBUF && Holds(bufs[i], b)
      modifies `bufs, `claims
      ensures Valid() && claims == old(claims) + multiset{(i, b)}
      ensures bufs == old(bufs)[i := old(bufs)[i].(refcnt := old(bufs)[i].refcnt + 1)]
    {
      assert Show(Buffers, 0);
      var x := bufs[i].(refcnt := bufs[i].refcnt + 1);
      ReplaceBuffer(disk, view, bufs, touched, claims, i, x, disk, view, touched, claims + multiset{(i, b)});
      bufs, claims := bufs[i := x], claims + multiset{(i, b)};
    }

    /** An idle buffer is given to a block that no buffer has (xv6/bio.c:82-89). */
    method Recycle(i: nat, b: nat)
      requires Valid() && b < nblocks && i < NBUF && Idle(bufs[i])
      requires forall j :: 0 <= j < NBUF ==> !Holds(bufs[j], b)
      modifies `bufs, `claims
      ensures Valid() && claims == old(claims) + multiset{(i, b)}
      ensures bufs == old(bufs)[i := Buf(FSDEV, b, false, false, 1, false, old(bufs)[i].data)]
    {
      assert Show(Buffers, 0);
      var x := Buf(FSDEV, b, false, false, 1, false, bufs[i].data);
      ReplaceBuffer(disk, view, bufs, touched, claims, i, x, disk, view, touched, claims + multiset{(i, b)});
      bufs, claims := bufs[i := x], claims + multiset{(i, b)};
    }

    /** Find block b in the cache, or recycle the least recently used buffer that nobody
        references and no transaction pins.  None is the "bget: no buffers" panic. */
    method Bget(b: nat) returns (r: Option<nat>)
      requires Valid() && b < nblocks
      modifies `bufs, `claims
      ensures Valid() && (r.Some? <==> HasRoom(old(bufs), b))
      ensures r.None? ==> bufs == old(bufs) && claims == old(claims)
      ensures r.Some? ==>
                && r.value < NBUF
                && claims == old(claims) + multiset{(r.value, b)}
                && var x := old(bufs)[r.value];
                   if Holds(x, b) then bufs == old(bufs)[r.value := x.(refcnt := x.refcnt + 1)]
                   else
                     && bufs == old(bufs)[r.value := Buf(FSDEV, b, false, false, 1, false, x.data)]
                     && (forall i :: 0 <= i < NBUF ==> !Holds(old(bufs)[i], b))
                     && Idle(x)
                     && LeastRecent(ring, old(bufs), r.value)
    {
      r := FindCached(b);
      if r.Some? {
        Hit(r.value, b);
        return;
      }
      r := FindIdle();
      if r.Some? {
        Recycle(r.value, b);
      }
    }

    /** The rest of bread once acquiresleep returns: any number of other calls may have run since
        the bget, and the buffer still holds block b, with its latest logged contents. */
    method LockAndRead(i: nat, b: nat)
      requires Valid() && i < NBUF && (i, b) in claims && !bufs[i].locked
      modifies `bufs, `disk, `writes
      ensures Valid() && disk == old(disk) && writes == old(writes)
      ensures b < nblocks && Holds(bufs[i], b) && i !in touched
      ensures bufs == old(bufs)[i := old(bufs)[i].(locked := true, valid := true, data := view[b])]
    {
      assert Show(Buffers, 0);
      assert bufs[i].refcnt == claims[(i, b)] > 0;
      assert !bufs[i].valid ==> disk[b] == view[b];
      ghost var x := bufs[i].(locked := true, valid := true, data := view[b]);
      ReplaceBuffer(disk, view, bufs, touched, claims, i, x, disk, view, touched, claims);
      bufs := bufs[i := bufs[i].(locked := true)];
      if !bufs[i].valid {
        Iderw(i);
      }
      assert bufs == old(bufs)[i := x];
    }

    method Bread(b: nat) returns (r: Option<nat>)
      requires Valid() && b < nblocks
      requires forall i :: 0 <= i < NBUF && Holds(bufs[i], b) ==> !bufs[i].locked
      modifies `bufs, `claims, `disk, `writes
      ensures Valid() && disk == old(disk) && writes == old(writes)
      ensures r.Some? <==> HasRoom(old(bufs), b)
      ensures r.None? ==> bufs == old(bufs) && claims == old(claims)
      ensures r.Some? ==>
                && r.value < NBUF
                && r.value !in touched
                && claims == old(claims) + multiset{(r.value, b)}
                && var x := old(bufs)[r.value];
                   && (Holds(x, b) || Idle(x))
                   && bufs == old(bufs)[r.value :=
                                Buf(FSDEV, b, true, x.dirty, if Holds(x, b) then x.refcnt + 1 else 1, true, view[b])]
    {
      r := Bget(b);
      if r.Some? {
        LockAndRead(r.value, b);
      }
    }

    /** The holder of a buffer changes its data. */
    method Modify(i: nat, data: Block)
      requires Valid() && i < NBUF && bufs[i].locked && bufs[i].valid
      modifies `bufs, `touched
      ensures Valid() && touched == old(touched) + {i}
      ensures bufs == old(bufs)[i := old(bufs)[i].(data := data)]
    {
      assert Show(Buffers, 0);
      var x := bufs[i].(data := data);
      assert bufs[i].dev == FSDEV;
      ReplaceBuffer(disk, view, bufs, touched, claims, i, x, disk, view, touched + {i}, claims);
      bufs, touched := bufs[i := x], touched + {i};
    }

    method Bwrite(i: nat)
      requires Valid() && i < NBUF && bufs[i].locked && bufs[i].valid
      modifies `bufs, `disk, `writes, `view, `touched
      ensures Valid() && touched == old(touched) - {i}
      ensures var x := old(bufs)[i];
              && x.blockno < nblocks
              && bufs == old(bufs)[i := x.(dirty := false)]
              && disk == old(disk)[x.blockno := x.data]
              && view == old(view)[x.blockno := x.data]
              && writes == old(writes) + [Write(x.blockno, x.data)]
    {
      assert Show(Buffers, 0);
      ghost var x := bufs[i].(dirty := false);
      ghost var d, v := disk[x.blockno := x.data], view[x.blockno := x.data];
      ReplaceBuffer(disk, view, bufs, touched, claims, i, x, d, v, touched - {i}, claims);
      bufs := bufs[i := bufs[i].(dirty := true)];
      Iderw(i);
      view, touched := v, touched - {i};
      assert bufs == old(bufs)[i := x];
    }

    /** Relink buffer i as the most recently used (xv6/bio.c:132-137). */
    method MoveToFront(i: nat)
      requires ListValid() && i < NBUF
      modifies `next, `prev, `ring
      ensures ListValid() && MovedToFront(old(ring), ring, i)
    {
      assert Show(MruLinks, 0);
      Covers(ring, i);
      ghost var k :| 0 <= k < |ring| && ring[k] == i;
      MoveToFrontRing(next, prev, ring, k);
      var links := Unlink(next, prev, i);
      next, prev := links.0, links.1;
      links := PushFront(next, prev, NBUF, i);
      next, prev, ring := links.0, links.1, ToFront(ring, k);
    }

    /** One reference to buffer i and its lock are given up (xv6/bio.c:124-129). */
    method Drop(i: nat, b: nat)
      requires Valid() && i < NBUF && (i, b) in claims && bufs[i].locked && i !in touched
      modifies `bufs, `claims
      ensures Valid() && claims == old(claims) - multiset{(i, b)}
      ensures var x := old(bufs)[i];
              && Holds(x, b)
              && x.refcnt > 0
              && bufs == old(bufs)[i := x.(locked := false, refcnt := x.refcnt - 1)]
    {
      assert Show(Buffers, 0);
      var x := bufs[i].(locked := false, refcnt := bufs[i].refcnt - 1);
      ReplaceBuffer(disk, view, bufs, touched, claims, i, x, disk, view, touched, claims - multiset{(i, b)});
      bufs, claims := bufs[i := x], claims - multiset{(i, b)};
    }

    method Brelse(i: nat, b: nat)
      requires Valid() && i < NBUF && (i, b) in claims && bufs[i].locked && i !in touched
      modifies `bufs, `claims, `next, `prev, `ring
      ensures Valid() && claims == old(claims) - multiset{(i, b)}
      ensures var x := old(bufs)[i];
              && Holds(x, b)
              && x.refcnt > 0
              && bufs == old(bufs)[i := x.(locked := false, refcnt := x.refcnt - 1)]
      ensures if bufs[i].refcnt > 0 then ring == old(ring) else MovedToFront(old(ring), ring, i)
    {
      Drop(i, b);
      if bufs[i].refcnt == 0 {
        MoveToFront(i);
      }
    }

    /** b->flags |= B_DIRTY: the buffer's data becomes its block's logged contents. */
    method Pin(i: nat)
      requires Valid() && i < NBUF && bufs[i].locked && bufs[i].valid
      modifies `bufs, `view, `touched
      ensures Valid()
      ensures var x := old(bufs)[i];
              && x.blockno < |view|
              && view == old(view)[x.blockno := x.data]
              && touched == old(touched) - {i}
              && bufs == old(bufs)[i := x.(dirty := true)]
    {
      assert Show(Buffers, 0);
      var x := bufs[i].(dirty := true);
      ghost var v := view[x.blockno := x.data];
      ReplaceBuffer(disk, view, bufs, touched, claims, i, x, disk, v, touched - {i}, claims);
      bufs, view, touched := bufs[i := x], v, touched - {i};
    }

    /** Read two blocks, as each turn of write_log and install_trans does. */
    method BreadPair(b1: nat, b2: nat) returns (ok: bool, i: nat, j: nat)
      requires Valid() && touched == {} && b1 < nblocks && b2 < nblocks && b1 != b2
      requires forall k :: 0 <= k < NBUF && (Holds(bufs[k], b1) || Holds(bufs[k], b2)) ==> !bufs[k].locked
      modifies `bufs, `claims, `disk, `writes
      ensures Valid() && disk == old(disk) && writes == old(writes)
      ensures TwoIdle(old(bufs)) ==> ok
      ensures InDirty(old(bufs), b2) ==>
        (ok <==> HasRoom(old(bufs), b1)) && (!ok ==> bufs == old(bufs) && claims == old(claims))
      ensures ok ==>
                && i < NBUF && j < NBUF && i != j
                && claims == old(claims) + multiset{(i, b1)} + multiset{(j, b2)}
                && var x, y := old(bufs)[i], old(bufs)[j];
                   && (Holds(x, b1) || Idle(x)) && (Holds(y, b2) || Idle(y))
                   && bufs == old(bufs)
                              [i := Buf(FSDEV, b1, true, x.dirty, if Holds(x, b1) then x.refcnt + 1
                                else 1, true, view[b1])]
                              [j := Buf(FSDEV, b2, true, y.dirty, if Holds(y, b2) then y.refcnt + 1
                                else 1, true, view[b2])]
    {
      i, j := 0, 0;
      var r := Bread(b1);
      if r.None? {
        return false, i, j;
      }
      i := r.value;
      if TwoIdle(old(bufs)) {
        OneIdleLeft(old(bufs), i, bufs[i]);
      }
      if InDirty(old(bufs), b2) {
        StaysDirty(old(bufs), i, bufs[i], b2);
      }
      r := Bread(b2);
      if r.None? {
        return false, i, j;
      }
      ok, j := true, r.value;
    }

    /** New contents for a block held for writing, on disk too. */
    method Rewrite(i: nat, b: nat, data: Block)
      requires Valid() && i < NBUF && b < nblocks && Holds(bufs[i], b) && bufs[i].locked && bufs[i].valid
      modifies `bufs, `disk, `writes, `view, `touched
      ensures Valid() && touched == old(touched) - {i}
      ensures bufs == old(bufs)[i := old(bufs)[i].(dirty := false, data := data)]
      ensures view == old(view)[b := data] && disk == old(disk)[b := data] && writes == old(writes) + [Write(b, data)]
    {
      Modify(i, data);
      Bwrite(i);
    }

    /** Overwrite block b2 with block b1 through their buffers. */
    method CopyBlock(i: nat, b1: nat, j: nat, b2: nat)
      requires Valid() && touched == {} && i < NBUF && j < NBUF && i != j
      requires b1 < nblocks && b2 < nblocks && Holds(bufs[i], b1) && Holds(bufs[j], b2)
      requires claims[(i, b1)] > 0 && claims[(j, b2)] > 0
      requires bufs[i].locked && bufs[i].data == view[b1] && bufs[j].locked && bufs[j].valid
      modifies this
      ensures Valid() && touched == {}
      ensures claims == old(claims) - multiset{(i, b1)} - multiset{(j, b2)}
      ensures var x, y, data := old(bufs)[i], old(bufs)[j], old(view)[b1];
              && x.refcnt > 0 && y.refcnt > 0
              && bufs == old(bufs)[i := x.(locked := false, refcnt := x.refcnt - 1)]
                                  [j := y.(locked := false, refcnt := y.refcnt - 1, dirty := false, data := data)]
              && view == old(view)[b2 := data]
              && disk == old(disk)[b2 := data]
              && writes == old(writes) + [Write(b2, data)]
    {
      ghost var b0 := bufs;
      Rewrite(j, b2, bufs[i].data);
      Brelse(i, b1);
      Brelse(j, b2);
      SameButTwo(b0, bufs, i, j);
    }

    /** Replace the contents of a block held for writing, on disk too, and release it. */
    method Overwrite(i: nat, b: nat, data: Block)
      requires Valid() && i < NBUF && i !in touched && (i, b) in claims && Holds(bufs[i], b) && b < nblocks
      requires bufs[i].locked && bufs[i].valid
      modifies this
      ensures Valid() && touched == old(touched)
      ensures claims == old(claims) - multiset{(i, b)}
      ensures var x := old(bufs)[i];
              && x.refcnt > 0
              && bufs == old(bufs)[i := x.(locked := false, refcnt := x.refcnt - 1, dirty := false, data := data)]
              && view == old(view)[b := data]
              && disk == old(disk)[b := data]
              && writes == old(writes) + [Write(b, data)]
    {
      Rewrite(i, b, data);
      Brelse(i, b);
    }
  }
}
