/**
 The user-level threads of xv6/uthreadlib.c: a round-robin scheduler over a table of threads.  The switch of
 stacks (uthread_switch.S) is the assignment of next_thread to current_thread.
 */
module UserThreads {
  const MAX_THREAD: nat := 8

  datatype TState = FREE | RUNNING | RUNNABLE

  /** The table, current_thread as an index, and current_thread_index. */
  datatype Threads = Threads(state: seq<TState>, current: int, index: int)

  ghost predicate Ok(s: Threads) {
    |s.state| == MAX_THREAD && 0 <= s.current < MAX_THREAD && 0 <= s.index < MAX_THREAD
  }

  /** The scheduler looks for a thread that is runnable and not the current one. */
  ghost predicate Candidate(s: Threads, t: int)
    requires Ok(s)
  {
    0 <= t < MAX_THREAD && s.state[t] == RUNNABLE && t != s.current
  }

  /** How many threads are looked at before thread t. */
  function Distance(index: int, t: int): int {
    if t > index then t - index - 1 else t - index - 1 + MAX_THREAD
  }

  /** c is the first candidate after the last index, going round the table. */
  ghost predicate Picks(s: Threads, c: int)
    requires Ok(s)
  {
    Candidate(s, c) && forall t :: Candidate(s, t) ==> Distance(s.index, c) <= Distance(s.index, t)
  }

  ghost predicate NoCandidate(s: Threads)
    requires Ok(s)
  {
    forall t :: 0 <= t < MAX_THREAD ==> !Candidate(s, t)
  }

  /** s' is the table after thread_schedule: the pick runs; or there is none and the current thread goes on, because it
      is runnable or is thread 0; or thread 0 runs, and the index stays. */
  ghost predicate Scheduled(s: Threads, s': Threads)
    requires Ok(s)
  {
    && (forall c :: Picks(s, c) ==> s' == Threads(s.state[c := RUNNING], c, c))
    && (NoCandidate(s) ==>
      if s.state[s.current] == RUNNABLE || s.current == 0 then s' == s
        else s' == Threads(s.state[0 := RUNNING], 0, s.index))
  }

  lemma FirstPick(s: Threads, t: int) returns (c: int)
    requires Ok(s) && Candidate(s, t)
    ensures Picks(s, c)
  {
    c := t;
    var u := 0;
    while u < MAX_THREAD
      invariant 0 <= u <= MAX_THREAD && Candidate(s, c)
      invariant forall x :: 0 <= x < u && Candidate(s, x) ==> Distance(s.index, c) <= Distance(s.index, x)
    {
      if Candidate(s, u) && Distance(s.index, u) < Distance(s.index, c) {
        c := u;
      }
      u := u + 1;
    }
  }

  /** One call of the scheduler: a waiting thread is chosen or comes nearer; thread 0 is not a fallback then. */
  lemma Nearer(s: Threads, s': Threads, t: int)
    requires Ok(s) && Candidate(s, t) && Scheduled(s, s')
    ensures Ok(s') && Picks(s, s'.current) && s'.index == s'.current
    ensures forall u :: 0 <= u < 8 ==> s'.state[u] == if u == s'.current then RUNNING else s.state[u]
    ensures s'.current == t || (Candidate(s', t) && Distance(s'.index, t) < Distance(s.index, t))
  {
    var c := FirstPick(s, t);
    assert s' == Threads(s.state[c := RUNNING], c, c);
  }

  /** The thread that runs next was not runnable only if no thread was. */
  lemma FallbackOnly(s: Threads, s': Threads, t: int)
    requires Ok(s) && Scheduled(s, s') && 0 <= t < MAX_THREAD && s.state[t] == RUNNABLE
    ensures Ok(s') && s.state[s'.current] == RUNNABLE
  {
    if u :| Candidate(s, u) {
      Nearer(s, s', u);
    } else {
      assert NoCandidate(s) && !Candidate(s, t);
    }
  }

  datatype Op = Create | Yield | Exit | Schedule

  /** What the current thread may do. */
  ghost predicate Does(s: Threads, op: Op, s': Threads) {
    Ok(s) && match op
      case Create => exists u :: 0 <= u < MAX_THREAD && s.state[u] == FREE && s' == s.(state := s.state[u := RUNNABLE])
      case Yield => Scheduled(s.(state := s.state[s.current := RUNNABLE]), s')
      case Exit => Scheduled(s.(state := s.state[s.current := FREE]), s')
      case Schedule => Scheduled(s, s')
  }

  ghost predicate Run(states: seq<Threads>, ops: seq<Op>) {
    |states| == |ops| + 1 && forall k :: 0 <= k < |ops| ==> Does(states[k], ops[k], states[k + 1])
  }

  /** Calls of thread_schedule in a run. */
  function Calls(ops: seq<Op>): nat {
    if ops == [] then 0 else (if ops[0].Create? then 0 else 1) + Calls(ops[1..])
  }

  /** Whatever the other threads do, a runnable thread runs after at most Distance + 1 <= MAX_THREAD calls. */
  lemma {:induction false} BoundedWait(states: seq<Threads>, ops: seq<Op>, t: int)
    requires Run(states, ops) && Ok(states[0]) && Candidate(states[0], t) && Calls(ops) > Distance(states[0].index, t)
    ensures Distance(states[0].index, t) < MAX_THREAD
    ensures exists k :: 0 < k < |states| && states[k].current == t
    decreases |ops|
  {
    var s, s' := states[0], states[1];
    assert Does(s, ops[0], s');
    match ops[0] {
      case Create =>
      case Yield => Nearer(s.(state := s.state[s.current := RUNNABLE]), s', t);
      case Exit => Nearer(s.(state := s.state[s.current := FREE]), s', t);
      case Schedule => Nearer(s, s', t);
    }
    if s'.current != t {
      BoundedWait(states[1..], ops[1..], t);
      var k :| 0 < k < |states[1..]| && states[1..][k].current == t;
      assert states[k + 1].current == t;
    }
  }

  class Table {
    var all: seq<TState>
    var current: int
    var index: int

    ghost function Now(): Threads
      reads this
    {
      Threads(all, current, index)
    }

    ghost predicate Valid()
      reads this
    {
      Ok(Now())
    }

    /** thread_init; the table is zeroed, so all threads are free. */
    constructor ()
      ensures Valid() && Now() == Threads(seq(MAX_THREAD, _ => FREE)[0 := RUNNING], 0, 0)
    {
      all, current, index := seq(MAX_THREAD, _ => FREE)[0 := RUNNING], 0, 0;
    }

    method Schedule()
      requires Valid()
      modifies this
      ensures Valid() && Scheduled(old(Now()), Now())
    {
      ghost var s := Now();
      var start := (index + 1) % MAX_THREAD;
      var next := -1;
      var i := 0;
      while i < MAX_THREAD && next == -1
        invariant 0 <= i <= MAX_THREAD && all == s.state && current == s.current
        invariant next == -1 ==> index == s.index && forall t :: Candidate(s, t) ==> Distance(s.index, t) >= i
        invariant next != -1 ==> Picks(s, next) && index == next
      {
        var t := (start + i) % MAX_THREAD;
        assert Distance(s.index, t) == i;
        if all[t] == RUNNABLE && t != current {
          next, index := t, t;
        }
        i := i + 1;
      }
      assert next == -1 ==> NoCandidate(s);
      assert next != -1 ==> forall c :: Picks(s, c) ==> c == next;
      if next == -1 && all[current] == RUNNABLE {
        next := current;
      }
      if next == -1 {
        next := 0;
      }
      if current != next {
        all := all[next := RUNNING];
        current := next; // thread_switch
      }
    }

    /** thread_create; the source needs a free slot. */
    method Create()
      requires Valid() && exists t :: 0 <= t < MAX_THREAD && all[t] == FREE
      modifies `all
      ensures Valid()
      ensures exists t ::
        0 <= t < MAX_THREAD && old(all)[t] == FREE && all == old(all)[t := RUNNABLE] && FREE !in old(all)[..t]
    {
      var t := 0;
      while all[t] != FREE
        invariant 0 <= t < MAX_THREAD && FREE !in all[..t]
        invariant exists u :: t <= u < MAX_THREAD && all[u] == FREE
        decreases MAX_THREAD - t
      {
        t := t + 1;
      }
      all := all[t := RUNNABLE];
    }

    method Yield()
      requires Valid()
      modifies this
      ensures Valid() && Scheduled(old(Now()).(state := old(all)[old(current) := RUNNABLE]), Now())
    {
      all := all[current := RUNNABLE];
      Schedule();
    }

    method Exit()
      requires Valid()
      modifies this
      ensures Valid() && Scheduled(old(Now()).(state := old(all)[old(current) := FREE]), Now())
    {
      all := all[current := FREE];
      Schedule();
    }
  }
}
