/**
 Space in the log (xv6/log.c:125-141 and 213-233): begin_op reserves MAXOPBLOCKS slots for every
 running operation, and log_write panics when the header is nearly full.
 */
module LogSpace {
  const MAXOPBLOCKS: nat := 10
  const LOGSIZE: nat := MAXOPBLOCKS * 3

  /** A file-system call between begin_op and end_op, with the slots it has appended so far. */
  datatype Op = Running(appended: nat) | Ended

  function Outstanding(ops: seq<Op>): (r: nat)
  {
    if ops == [] then 0
    else Outstanding(ops[..|ops| - 1]) + if ops[|ops| - 1].Running? then 1 else 0
  }

  /** Slots an operation may still append if it stops at MAXOPBLOCKS - 1. */
  function Promise(op: Op): (r: nat)
    ensures r < MAXOPBLOCKS
  {
    if op.Running? && op.appended < MAXOPBLOCKS then MAXOPBLOCKS - 1 - op.appended else 0
  }

  function Reserved(ops: seq<Op>): (r: nat)
    ensures r <= Outstanding(ops) * (MAXOPBLOCKS - 1)
  {
    if ops == [] then 0 else Reserved(ops[..|ops| - 1]) + Promise(ops[|ops| - 1])
  }

  lemma {:induction false} UpdateOp(ops: seq<Op>, o: nat, op: Op)
    requires o < |ops| && ops[o].Running?
    ensures Reserved(ops[o := op]) == Reserved(ops) - Promise(ops[o]) + Promise(op)
    ensures Outstanding(ops[o := op]) == Outstanding(ops) - if op.Running? then 0 else 1
  {
    var last := |ops| - 1;
    if o == last {
      assert ops[o := op][..last] == ops[..last];
    } else {
      assert ops[o := op][..last] == ops[..last][o := op];
      UpdateOp(ops[..last], o, op);
    }
  }

  /** What every interleaving keeps: the slots in use and the slots still to come leave two free. */
  ghost predicate Fits(n: nat, ops: seq<Op>) {
    n + Reserved(ops) + 2 <= LOGSIZE
  }

  /** begin_op's test (xv6/log.c:130-139), while no commit is running. */
  predicate MayBegin(n: nat, outstanding: nat) {
    n + (outstanding + 1) * MAXOPBLOCKS <= LOGSIZE
  }

  /** log_write's size test (xv6/log.c:218), made before it looks for the block in the header. */
  predicate Panics(n: nat, size: nat) {
    n >= LOGSIZE || n >= size - 1
  }

  lemma BeginFits(n: nat, ops: seq<Op>)
    requires Fits(n, ops) && MayBegin(n, Outstanding(ops))
    requires Outstanding(ops) == 0 ==> n == 0
    ensures Fits(n, ops + [Running(0)])
    ensures Outstanding(ops + [Running(0)]) == Outstanding(ops) + 1
  {
    assert (ops + [Running(0)])[..|ops|] == ops;
  }

  // ----- Runs -----

  /** log_write appends a block that is not in the header yet, and absorbs one that is. */
  datatype Event = Enter | Append(op: nat) | Absorb(op: nat) | Leave(op: nat)

  datatype Space = Space(n: nat, ops: seq<Op>) | Panicked

  predicate IsRunning(s: Space, o: nat) {
    s.Space? && o < |s.ops| && s.ops[o].Running?
  }

  /** begin_op sleeps when it may not begin; the last end_op commits and empties the header. */
  function Step(s: Space, e: Event, size: nat): (r: Space)
    requires s.Space? && (e.Enter? || IsRunning(s, e.op))
  {
    match e
    case Enter =>
      if MayBegin(s.n, Outstanding(s.ops)) then s.(ops := s.ops + [Running(0)]) else s
    case Append(o) =>
      if Panics(s.n, size) then Panicked else Space(s.n + 1, s.ops[o := Running(s.ops[o].appended + 1)])
    case Absorb(o) =>
      if Panics(s.n, size) then Panicked else s
    case Leave(o) =>
      var ops := s.ops[o := Ended];
      Space(if Outstanding(ops) == 0 then 0 else s.n, ops)
  }

  /** The event is one that operations appending at most `limit` blocks each can make. */
  predicate Allowed(s: Space, e: Event, limit: nat) {
    match e
    case Enter => s.Space?
    case Append(o) => IsRunning(s, o) && s.ops[o].appended < limit
    case Absorb(o) => IsRunning(s, o)
    case Leave(o) => IsRunning(s, o)
  }

  /** Running the events from s, each of them allowed. */
  ghost predicate Reaches(s: Space, es: seq<Event>, limit: nat, size: nat, t: Space)
    decreases |es|
  {
    if es == [] then s == t
    else Allowed(s, es[0], limit) && Reaches(Step(s, es[0], size), es[1..], limit, size, t)
  }

  const EMPTY: Space := Space(0, [])

  /** No interleaving of operations that append at most `limit` blocks each makes log_write panic. */
  ghost predicate PanicFree(limit: nat, size: nat) {
    forall es, t :: Reaches(EMPTY, es, limit, size, t) ==> t.Space?
  }

  ghost predicate Kept(s: Space) {
    && s.Space?
    && Fits(s.n, s.ops)
    && (Outstanding(s.ops) == 0 ==> s.n == 0)
  }

  lemma StepKeeps(s: Space, e: Event, limit: nat, size: nat)
    requires Kept(s) && Allowed(s, e, limit) && limit < MAXOPBLOCKS && LOGSIZE <= size
    ensures Kept(Step(s, e, size))
  {
    match e
    case Enter =>
      if MayBegin(s.n, Outstanding(s.ops)) {
        BeginFits(s.n, s.ops);
      }
    case Append(o) => AppendKeeps(s, o, size);
    case Absorb(o) =>
    case Leave(o) =>
      UpdateOp(s.ops, o, Ended);
  }

  lemma AppendKeeps(s: Space, o: nat, size: nat)
    requires Kept(s) && IsRunning(s, o) && s.ops[o].appended + 1 < MAXOPBLOCKS && LOGSIZE <= size
    ensures Kept(Step(s, Append(o), size))
  {
    var ops := s.ops[o := Running(s.ops[o].appended + 1)];
    UpdateOp(s.ops, o, Running(s.ops[o].appended + 1));
    UpdateOp(s.ops, o, Ended);
    assert Promise(Running(s.ops[o].appended + 1)) + 1 == Promise(s.ops[o]);
    assert Reserved(ops) + 1 == Reserved(s.ops) && Outstanding(ops) == Outstanding(s.ops) > 0;
    assert Step(s, Append(o), size) == Space(s.n + 1, ops);
  }

  lemma {:induction false} RunKeeps(s: Space, es: seq<Event>, limit: nat, size: nat, t: Space)
    requires Kept(s) && Reaches(s, es, limit, size, t) && limit < MAXOPBLOCKS && LOGSIZE <= size
    ensures Kept(t)
    decreases |es|
  {
    if es != [] {
      StepKeeps(s, es[0], limit, size);
      RunKeeps(Step(s, es[0], size), es[1..], limit, size, t);
    }
  }

  lemma {:induction false} RunsCompose(s: Space, a: seq<Event>, m: Space, b: seq<Event>, t: Space, limit: nat,
      size: nat)
    requires Reaches(s, a, limit, size, m) && Reaches(m, b, limit, size, t)
    ensures Reaches(s, a + b, limit, size, t)
    decreases |a|
  {
    if a == [] {
      assert a + b == b;
    } else {
      assert (a + b)[1..] == a[1..] + b;
      RunsCompose(Step(s, a[0], size), a[1..], m, b, t, limit, size);
    }
  }

  function Appends(o: nat, k: nat): (r: seq<Event>)
  {
    if k == 0 then [] else [Append(o)] + Appends(o, k - 1)
  }

  lemma {:induction false} RunAppends(n: nat, ops: seq<Op>, o: nat, k: nat, limit: nat, size: nat)
    requires o < |ops| && ops[o].Running? && ops[o].appended + k <= limit && n + k < size <= LOGSIZE
    ensures Reaches(Space(n, ops), Appends(o, k), limit, size,
                    Space(n + k, ops[o := Running(ops[o].appended + k)]))
    decreases k
  {
    if k == 0 {
      assert ops[o := Running(ops[o].appended)] == ops;
    } else {
      var next := ops[o := Running(ops[o].appended + 1)];
      assert Appends(o, k)[0] == Append(o) && Appends(o, k)[1..] == Appends(o, k - 1);
      RunAppends(n + 1, next, o, k - 1, limit, size);
      assert next[o := Running(ops[o].appended + k)] == ops[o := Running(ops[o].appended + k)];
    }
  }

  ghost predicate Reachable(t: Space, limit: nat) {
    exists es :: Reaches(EMPTY, es, limit, LOGSIZE, t)
  }

  lemma Then(s: Space, e: Event, limit: nat)
    requires Reachable(s, limit) && Allowed(s, e, limit)
    ensures Reachable(Step(s, e, LOGSIZE), limit)
  {
    var es :| Reaches(EMPTY, es, limit, LOGSIZE, s);
    assert [e][1..] == [];
    RunsCompose(EMPTY, es, s, [e], Step(s, e, LOGSIZE), limit, LOGSIZE);
  }

  lemma ThenAppends(n: nat, ops: seq<Op>, o: nat, k: nat, limit: nat)
    requires Reachable(Space(n, ops), limit)
    requires o < |ops| && ops[o].Running? && ops[o].appended + k <= limit && n + k < LOGSIZE
    ensures Reachable(Space(n + k, ops[o := Running(ops[o].appended + k)]), limit)
  {
    var es :| Reaches(EMPTY, es, limit, LOGSIZE, Space(n, ops));
    RunAppends(n, ops, o, k, limit, LOGSIZE);
    RunsCompose(EMPTY, es, Space(n, ops), Appends(o, k),
                Space(n + k, ops[o := Running(ops[o].appended + k)]), limit, LOGSIZE);
  }

  /** m operations, none of which has appended a block. */
  function Begun(m: nat): seq<Op> {
    seq(m, _ => Running(0))
  }

  lemma {:induction false} BegunRun(m: nat)
    ensures Outstanding(Begun(m)) == m
  {
    if m > 0 {
      assert Begun(m)[..m - 1] == Begun(m - 1);
      BegunRun(m - 1);
    }
  }

  /** k operations that try to begin, one after the other. */
  function Tries(k: nat): seq<Event> {
    seq(k, _ => Enter)
  }

  lemma {:induction false} TriesBegin(m: nat, k: nat, limit: nat, size: nat, t: Space)
    requires m <= 3 && Reaches(Space(0, Begun(m)), Tries(k), limit, size, t)
    ensures t == Space(0, Begun(if m + k < 3 then m + k else 3))
    decreases k
  {
    if k > 0 {
      assert Tries(k)[1..] == Tries(k - 1);
      BegunRun(m);
      assert Begun(m) + [Running(0)] == Begun(m + 1);
      TriesBegin(if m < 3 then m + 1 else 3, k - 1, limit, size, t);
    }
  }

  /** With an empty log three operations begin, and every further one sleeps. */
  lemma ThreeBegin(k: nat, limit: nat, size: nat, t: Space)
    requires Reaches(EMPTY, Tries(k), limit, size, t)
    ensures t == Space(0, Begun(if k < 3 then k else 3))
  {
    assert Begun(0) == [];
    TriesBegin(0, k, limit, size, t);
  }

  lemma CountOps()
    ensures Outstanding([]) == 0 && Outstanding([Running(0)]) == 1 && Outstanding([Ended, Running(0)]) == 1
  {
    assert [Running(0)][..0] == [] && [Ended][..0] == [] && [Ended, Running(0)][..1] == [Ended];
    assert Outstanding([Ended]) == 0;
  }

  /** Two operations are running. */
  lemma TwoBegin(limit: nat)
    ensures Reachable(Space(0, [Running(0), Running(0)]), limit)
  {
    CountOps();
    assert Reaches(EMPTY, [], limit, LOGSIZE, EMPTY);
    Then(EMPTY, Enter, limit);
    assert EMPTY.ops + [Running(0)] == [Running(0)];
    Then(Space(0, [Running(0)]), Enter, limit);
    assert [Running(0)] + [Running(0)] == [Running(0), Running(0)];
  }

  /** The first has appended MAXOPBLOCKS blocks and ended, and a third begins. */
  lemma ThirdBegins(limit: nat)
    requires MAXOPBLOCKS <= limit
    ensures Reachable(Space(MAXOPBLOCKS, [Ended, Running(0), Running(0)]), limit)
  {
    var m := MAXOPBLOCKS;
    CountOps();
    TwoBegin(limit);
    ThenAppends(0, [Running(0), Running(0)], 0, m, limit);
    assert [Running(0), Running(0)][0 := Running(m)] == [Running(m), Running(0)];
    assert [Running(m), Running(0)][0 := Ended] == [Ended, Running(0)];
    Then(Space(m, [Running(m), Running(0)]), Leave(0), limit);
    Then(Space(m, [Ended, Running(0)]), Enter, limit);
    assert [Ended, Running(0)] + [Running(0)] == [Ended, Running(0), Running(0)];
  }

  /** Three operations that each append MAXOPBLOCKS blocks: the last append of the second finds the
      header at size - 1. */
  lemma FullOperationsPanic(limit: nat)
    requires MAXOPBLOCKS <= limit
    ensures Reachable(Panicked, limit)
  {
    var m, ops := MAXOPBLOCKS, [Ended, Running(0), Running(0)];
    ThirdBegins(limit);
    ThenAppends(m, ops, 2, m, limit);
    ops := ops[2 := Running(m)];
    ThenAppends(2 * m, ops, 1, m - 1, limit);
    Then(Space(3 * m - 1, ops[1 := Running(m - 1)]), Append(1), limit);
  }

  /** The panic of log_write, whose log has room for 30 blocks, is out of reach exactly when every operation stops short
      of 10. */
  lemma PanicFreeIff(limit: nat)
    ensures PanicFree(limit, 30) <==> limit < 10
  {
    if limit < MAXOPBLOCKS {
      forall es, t | Reaches(EMPTY, es, limit, LOGSIZE, t) ensures t.Space? {
        RunKeeps(EMPTY, es, limit, LOGSIZE, t);
      }
    } else {
      FullOperationsPanic(limit);
    }
  }
}
