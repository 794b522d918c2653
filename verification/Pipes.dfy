/**
 Pipes (xv6/pipe.c) as steps of any number of readers and writers.  The counters are 32-bit and wrap.
 A step is what a process does to the pipe between two tests, with the pipe's lock held; sleep gives up
 the lock and a process that has been woken takes it again.
 */
module Pipes {
  import opened Basics

  const PIPESIZE: nat := 512

  /** The pipe.  lock is the holder of p->lock or -1.  accepted and delivered are the bytes that have gone
      in and come out so far. */
  datatype Pipe = Pipe(lock: int, data: seq<Byte>, nread: nat, nwrite: nat, readopen: bool, writeopen: bool,
                       accepted: seq<Byte>, delivered: seq<Byte>)

  /** Bytes in the pipe. */
  function Pending(p: Pipe): int {
    |p.accepted| - |p.delivered|
  }

  ghost predicate Slots(p: Pipe) {
    |p.data| == PIPESIZE && forall k :: |p.delivered| <= k < |p.accepted| ==> p.data[k % PIPESIZE] == p.accepted[k]
  }

  /** The ring buffer holds the bytes accepted and not delivered, in order. */
  ghost predicate Fifo(p: Pipe) {
    && p.delivered <= p.accepted && Pending(p) <= PIPESIZE
    && p.nread == |p.delivered| % UINT && p.nwrite == |p.accepted| % UINT
    && Slots(p)
  }

  predicate Empty(p: Pipe) {
    p.nread == p.nwrite
  }

  predicate Full(p: Pipe) {
    p.nwrite == (p.nread + PIPESIZE) % UINT
  }

  /** The tests on the counters are right even when they have wrapped. */
  lemma CounterTests(p: Pipe)
    requires Fifo(p)
    ensures Empty(p) <==> Pending(p) == 0
    ensures Full(p) <==> Pending(p) == PIPESIZE
  {
  }

  /** data[nwrite++ % PIPESIZE] = b */
  function Put(p: Pipe, b: Byte): Pipe
    requires |p.data| == PIPESIZE
  {
    p.(data := p.data[p.nwrite % PIPESIZE := b], nwrite := (p.nwrite + 1) % UINT, accepted := p.accepted + [b])
  }

  /** ... = data[nread++ % PIPESIZE] */
  function Take(p: Pipe): Pipe
    requires |p.data| == PIPESIZE
  {
    p.(nread := (p.nread + 1) % UINT, delivered := p.delivered + [p.data[p.nread % PIPESIZE]])
  }

  lemma Wrapped(a: nat)
    ensures a % UINT % PIPESIZE == a % PIPESIZE && (a % UINT + 1) % UINT == (a + 1) % UINT
  {
  }

  lemma OtherSlot(k: nat, m: nat)
    requires k < m < k + PIPESIZE
    ensures k % PIPESIZE != m % PIPESIZE
  {
  }

  lemma PutFifo(p: Pipe, b: Byte)
    requires Fifo(p) && !Full(p)
    ensures Fifo(Put(p, b)) && Pending(Put(p, b)) == Pending(p) + 1
  {
    CounterTests(p);
    Wrapped(|p.accepted|);
    var p' := Put(p, b);
    forall k | |p.delivered| <= k < |p'.accepted|
      ensures p'.data[k % PIPESIZE] == p'.accepted[k]
    {
      if k < |p.accepted| {
        OtherSlot(k, |p.accepted|);
      }
    }
  }

  lemma NextDelivered(p: Pipe, b: Byte)
    requires p.delivered <= p.accepted && |p.delivered| < |p.accepted| && b == p.accepted[|p.delivered|]
    ensures p.delivered + [b] <= p.accepted
  {
  }

  lemma TakeFifo(p: Pipe)
    requires Fifo(p) && !Empty(p)
    ensures Fifo(Take(p)) && Pending(Take(p)) == Pending(p) - 1
  {
    CounterTests(p);
    Wrapped(|p.delivered|);
    NextDelivered(p, p.data[p.nread % PIPESIZE]);
    assert Slots(Take(p));
  }

  /** Where a process is.  In pipewrite: WEnter is before taking the lock, at first or after a sleep, WTest at
      the tests of the loops, WWake before the wakeup in the inner loop, WSleep before the sleep, WDone before
      the last wakeup.  In piperead likewise; RCopy is in the copy loop. */
  datatype Pc = Out | WEnter | WTest | WWake | WSleep | WDone | REnter | RTest | RCopy | RDone

  /** todo: bytes still to write; left: how many are still wanted. */
  datatype Proc = Proc(pc: Pc, todo: seq<Byte>, left: nat, sleeping: bool, killed: bool)

  datatype State = State(pipe: Pipe, procs: seq<Proc>)

  datatype Action = StartWrite(p: int, bytes: seq<Byte>) | StartRead(p: int, n: nat) | Go(p: int) | Kill(p: int)
    | CloseRead | CloseWrite

  predicate Writing(pc: Pc) {
    pc.WEnter? || pc.WTest? || pc.WWake? || pc.WSleep? || pc.WDone?
  }

  predicate Reading(pc: Pc) {
    pc.REnter? || pc.RTest? || pc.RCopy? || pc.RDone?
  }

  predicate HasLock(pc: Pc) {
    !pc.Out? && !pc.WEnter? && !pc.REnter?
  }

  /** A file end is closed when no process is in a call on it, since the call has a reference to the file. */
  ghost predicate Enabled(s: State, a: Action) {
    match a
    case StartWrite(p, _) => 0 <= p < |s.procs| && s.procs[p].pc.Out? && s.pipe.writeopen
    case StartRead(p, _) => 0 <= p < |s.procs| && s.procs[p].pc.Out? && s.pipe.readopen
    case Go(p) =>
      && 0 <= p < |s.procs| && !s.procs[p].pc.Out?
      && (HasLock(s.procs[p].pc) || (s.pipe.lock == -1 && !s.procs[p].sleeping))
    case Kill(p) => 0 <= p < |s.procs|
    case CloseRead => s.pipe.lock == -1 && s.pipe.readopen && forall p :: 0 <= p < |s.procs| ==> !Reading(s.procs[p].pc)
    case CloseWrite => s.pipe.lock == -1 && s.pipe.writeopen && forall p :: 0 <= p < |s.procs| ==>
      !Writing(s.procs[p].pc)
  }

  /** The processes after wakeup(&p->nread) if readers, and after wakeup(&p->nwrite) if writers. */
  function Woken(q: Proc, readers: bool, writers: bool): Proc {
    if (readers && q.pc.REnter?) || (writers && q.pc.WEnter?) then q.(sleeping := false) else q
  }

  function WakeAll(procs: seq<Proc>, readers: bool, writers: bool): (r: seq<Proc>)
    ensures |r| == |procs| && forall p :: 0 <= p < |procs| ==> r[p] == Woken(procs[p], readers, writers)
  {
    if procs == [] then [] else [Woken(procs[0], readers, writers)] + WakeAll(procs[1..], readers, writers)
  }

  /** The writer gives up: the reading end is closed, or it has been killed. */
  predicate GivesUp(p: Pipe, q: Proc) {
    q.pc.WTest? && q.todo != [] && Full(p) && (!p.readopen || q.killed)
  }

  function NextPc(p: Pipe, q: Proc): Pc {
    match q.pc
    case Out => Out
    case WEnter => WTest
    case WTest => if q.todo == [] then WDone else if GivesUp(p, q) then Out else if Full(p) then WWake else WTest
    case WWake => WSleep
    case WSleep => WEnter
    case WDone => Out
    case REnter => RTest
    case RTest => if Empty(p) && p.writeopen then (if q.killed then Out else REnter) else RCopy
    case RCopy => if q.left == 0 || Empty(p) then RDone else RCopy
    case RDone => Out
  }

  function NextPipe(p: Pipe, x: int, q: Proc): Pipe
    requires |p.data| == PIPESIZE
  {
    match q.pc
    case Out | WWake => p
    case WEnter | REnter => p.(lock := x)
    case WTest => if q.todo == [] then p else if GivesUp(p, q) then p.(lock := -1)
      else if Full(p) then p else Put(p, q.todo[0])
    case WSleep | WDone | RDone => p.(lock := -1)
    case RTest => if Empty(p) && p.writeopen then p.(lock := -1) else p
    case RCopy => if q.left == 0 || Empty(p) then p else Take(p)
  }

  function NextProc(p: Pipe, q: Proc): Proc {
    var pc := NextPc(p, q);
    match q.pc
    case WTest => if pc.WTest? && q.todo != [] then q.(todo := q.todo[1..]) else q.(pc := pc)
    case WSleep => q.(pc := pc, sleeping := true)
    case RTest => q.(pc := pc, sleeping := pc.REnter?)
    case RCopy => if pc.RCopy? && q.left > 0 then q.(left := q.left - 1) else q.(pc := pc)
    case _ => q.(pc := pc)
  }

  ghost function Step(s: State, a: Action): State
    requires Enabled(s, a) && |s.pipe.data| == PIPESIZE
  {
    match a
    case StartWrite(p, bytes) =>
      State(s.pipe, s.procs[p := s.procs[p].(pc := WEnter, todo := bytes, sleeping := false)])
    case StartRead(p, n) => State(s.pipe, s.procs[p := s.procs[p].(pc := REnter, left := n, sleeping := false)])
    case Kill(p) => State(s.pipe, s.procs[p := s.procs[p].(killed := true, sleeping := false)])
    case CloseRead => State(s.pipe.(readopen := false), WakeAll(s.procs, false, true))
    case CloseWrite => State(s.pipe.(writeopen := false), WakeAll(s.procs, true, false))
    case Go(p) =>
      var q := s.procs[p];
      State(NextPipe(s.pipe, p, q), WakeAll(s.procs, q.pc.WWake? || q.pc.WDone?, q.pc.RDone?)[p := NextProc(s.pipe, q)])
  }

  /** The holder of the lock is a writer that is to run wakeup(&p->nread) before it lets go of the lock. */
  predicate WakesReaders(hp: Pc) {
    hp.WTest? || hp.WWake? || hp.WDone?
  }

  predicate WakesWriters(hp: Pc) {
    hp.RCopy? || hp.RDone?
  }

  /** What is known of process x, where hp is the place of the process that has the lock. */
  ghost predicate Good(p: Pipe, x: int, q: Proc, hp: Pc) {
    && (HasLock(q.pc) <==> p.lock == x)
    && (q.sleeping ==> q.pc.WEnter? || q.pc.REnter?)
    && (q.sleeping && q.pc.WEnter? ==> (Full(p) && p.readopen) || WakesWriters(hp))
    && (q.pc.WWake? || q.pc.WSleep? ==> Full(p) && p.readopen)
    && (Reading(q.pc) ==> p.readopen) && (Writing(q.pc) ==> p.writeopen)
    && (q.pc.WDone? ==> q.todo == []) && (q.pc.RDone? ==> q.left == 0 || Empty(p))
  }

  /** A reader that sleeps has nothing to read and may yet get something, or is about to be woken. */
  ghost predicate Served(p: Pipe, q: Proc, hp: Pc) {
    ReaderAsleep(q) ==> (Empty(p) && p.writeopen) || WakesReaders(hp)
  }

  ghost function HolderPc(s: State): Pc {
    if 0 <= s.pipe.lock < |s.procs| then s.procs[s.pipe.lock].pc else Out
  }

  predicate ReaderAsleep(q: Proc) {
    q.sleeping && q.pc.REnter?
  }

  ghost predicate Inv(s: State) {
    && Fifo(s.pipe) && -1 <= s.pipe.lock < |s.procs|
    && forall x :: 0 <= x < |s.procs| ==> Good(s.pipe, x, s.procs[x], HolderPc(s))
  }

  lemma PipeNext(p: Pipe, x: int, q: Proc)
    requires Fifo(p)
    ensures Fifo(NextPipe(p, x, q))
  {
    if q.pc.WTest? && q.todo != [] && !Full(p) {
      PutFifo(p, q.todo[0]);
    } else if q.pc.RCopy? && !Empty(p) {
      TakeFifo(p);
    }
  }

  /** Process x takes a step; hp is its own place if it has the lock. */
  ghost predicate Moves(p: Pipe, x: int, q: Proc, hp: Pc) {
    && Fifo(p) && x >= 0 && Good(p, x, q, hp) && !q.pc.Out? && !q.sleeping
    && if HasLock(q.pc) then hp == q.pc else hp.Out? && p.lock == -1
  }

  lemma OwnStep(p: Pipe, x: int, q: Proc, hp: Pc)
    requires Moves(p, x, q, hp)
    ensures var p', q' := NextPipe(p, x, q), NextProc(p, q); 
      var hp' := if p'.lock == x then q'.pc else Out;
      Good(p', x, q', hp') && Served(p', q', hp')
  {
  }

  lemma OtherStep(p: Pipe, x: int, q: Proc, hp: Pc, y: int, r: Proc)
    requires Moves(p, x, q, hp) && y >= 0 && x != y && Good(p, y, r, hp)
    ensures var p', q' := NextPipe(p, x, q), NextProc(p, q);
      var r', hp' := Woken(r, q.pc.WWake? || q.pc.WDone?, q.pc.RDone?), if p'.lock == x then q'.pc else Out;
      && Good(p', y, r', hp')
      && (Served(p, r, hp) ==> (Served(p', r', hp') <==> !(GivesUp(p, q) && ReaderAsleep(r))))
  {
    CounterTests(p);
  }

  lemma GoKeeps(s: State, x: int)
    requires Inv(s) && Enabled(s, Go(x))
    ensures Inv(Step(s, Go(x)))
  {
    var s', q, hp := Step(s, Go(x)), s.procs[x], HolderPc(s);
    assert Good(s.pipe, x, q, hp);
    PipeNext(s.pipe, x, q);
    assert Moves(s.pipe, x, q, hp);
    assert HolderPc(s') == if s'.pipe.lock == x then s'.procs[x].pc else Out;
    forall y | 0 <= y < |s'.procs|
      ensures Good(s'.pipe, y, s'.procs[y], HolderPc(s'))
    {
      if y == x {
        OwnStep(s.pipe, x, q, hp);
      } else {
        assert Good(s.pipe, y, s.procs[y], hp);
        OtherStep(s.pipe, x, q, hp, y, s.procs[y]);
      }
    }
  }

  lemma EventKeeps(s: State, a: Action)
    requires Inv(s) && Enabled(s, a) && !a.Go?
    ensures Inv(Step(s, a))
  {
    var s' := Step(s, a);
    forall y | 0 <= y < |s'.procs|
      ensures Good(s'.pipe, y, s'.procs[y], HolderPc(s'))
    {
      assert Good(s.pipe, y, s.procs[y], HolderPc(s));
    }
  }

  ghost predicate Init(s: State) {
    && |s.pipe.data| == PIPESIZE && s.pipe == Pipe(-1, s.pipe.data, 0, 0, true, true, [], [])
    && forall x :: 0 <= x < |s.procs| ==> s.procs[x].pc.Out? && !s.procs[x].sleeping
  }

  /** t is the state after a run of enabled actions from s. */
  ghost predicate Reaches(s: State, run: seq<Action>, t: State)
    decreases |run|
  {
    if run == [] then t == s
      else Enabled(s, run[0]) && |s.pipe.data| == PIPESIZE && Reaches(Step(s, run[0]), run[1..], t)
  }

  lemma StepKeeps(s: State, a: Action)
    requires Inv(s) && Enabled(s, a)
    ensures Inv(Step(s, a))
  {
    if a.Go? {
      GoKeeps(s, a.p);
    } else {
      EventKeeps(s, a);
    }
  }

  lemma {:induction false} RunKeeps(s: State, run: seq<Action>, t: State)
    requires Inv(s) && Reaches(s, run, t)
    ensures Inv(t)
    decreases |run|
  {
    if run != [] {
      StepKeeps(s, run[0]);
      RunKeeps(Step(s, run[0]), run[1..], t);
    }
  }

  /** Reader x sleeps although there is something to read or nothing to wait for, and no wakeup is coming. */
  ghost predicate Starves(s: State, x: int) {
    0 <= x < |s.procs| && !Served(s.pipe, s.procs[x], HolderPc(s))
  }

  ghost predicate AnyStarves(s: State) {
    exists x :: Starves(s, x)
  }

  /** A writer gives up on a full pipe, without the wakeup of the other ways out, while a reader sleeps. */
  ghost predicate Strands(s: State, a: Action) {
    && a.Go? && 0 <= a.p < |s.procs| && GivesUp(s.pipe, s.procs[a.p])
    && exists x :: 0 <= x < |s.procs| && ReaderAsleep(s.procs[x])
  }

  lemma GoStarves(s: State, x: int, y: int)
    requires Inv(s) && Enabled(s, Go(x)) && 0 <= y < |s.procs| && !Starves(s, y)
    ensures Starves(Step(s, Go(x)), y) <==> GivesUp(s.pipe, s.procs[x]) && ReaderAsleep(s.procs[y])
  {
    var s', q, hp := Step(s, Go(x)), s.procs[x], HolderPc(s);
    assert Good(s.pipe, x, q, hp) && Good(s.pipe, y, s.procs[y], hp);
    assert Moves(s.pipe, x, q, hp);
    assert HolderPc(s') == if s'.pipe.lock == x then s'.procs[x].pc else Out;
    if y == x {
      OwnStep(s.pipe, x, q, hp);
    } else {
      OtherStep(s.pipe, x, q, hp, y, s.procs[y]);
    }
  }

  lemma EventStarves(s: State, a: Action, y: int)
    requires Inv(s) && Enabled(s, a) && !a.Go? && 0 <= y < |s.procs| && !Starves(s, y)
    ensures !Starves(Step(s, a), y)
  {
    assert Good(s.pipe, y, s.procs[y], HolderPc(s));
  }

  /** Where no reader starves, a step makes one starve exactly if it strands one. */
  lemma StarvesIff(s: State, a: Action)
    requires Inv(s) && Enabled(s, a) && !AnyStarves(s)
    ensures AnyStarves(Step(s, a)) <==> Strands(s, a)
  {
    var s' := Step(s, a);
    forall y | 0 <= y < |s.procs|
      ensures Starves(s', y) <==> a.Go? && GivesUp(s.pipe, s.procs[a.p]) && ReaderAsleep(s.procs[y])
    {
      assert !Starves(s, y);
      if a.Go? {
        GoStarves(s, a.p, y);
      } else {
        EventStarves(s, a, y);
      }
    }
    if Strands(s, a) {
      var y :| 0 <= y < |s.procs| && ReaderAsleep(s.procs[y]);
      assert Starves(s', y);
    }
  }

  /** No reader starves in any state of the run. */
  ghost predicate NeverStarves(s: State, run: seq<Action>)
    decreases |run|
  {
    !AnyStarves(s) && (run != [] && Enabled(s, run[0]) && |s.pipe.data| == PIPESIZE ==>
      NeverStarves(Step(s, run[0]), run[1..]))
  }

  /** No action of the run strands a reader. */
  ghost predicate NeverStrands(s: State, run: seq<Action>)
    decreases |run|
  {
    run != [] && Enabled(s, run[0]) && |s.pipe.data| == PIPESIZE ==>
      !Strands(s, run[0]) && NeverStrands(Step(s, run[0]), run[1..])
  }

  lemma {:induction false} RunStarvesIff(s: State, run: seq<Action>, t: State)
    requires Inv(s) && !AnyStarves(s) && Reaches(s, run, t)
    ensures NeverStarves(s, run) <==> NeverStrands(s, run)
    ensures NeverStrands(s, run) ==> !AnyStarves(t)
    decreases |run|
  {
    if run != [] {
      StarvesIff(s, run[0]);
      StepKeeps(s, run[0]);
      if !Strands(s, run[0]) {
        RunStarvesIff(Step(s, run[0]), run[1..], t);
      } else {
        assert !NeverStarves(Step(s, run[0]), run[1..]);
      }
    }
  }

  /** In every run, what has been delivered is a prefix of what has been accepted, at most PIPESIZE bytes are in
      between, and they are in the buffer in order. */
  lemma FirstInFirstOut(s: State, run: seq<Action>, t: State)
    requires Init(s) && Reaches(s, run, t)
    ensures t.pipe.delivered <= t.pipe.accepted && Pending(t.pipe) <= PIPESIZE && Slots(t.pipe)
  {
    RunKeeps(s, run, t);
  }

  /** In every run a writer that sleeps while no wakeup is coming has no room and may yet get some. */
  lemma NoLostWakeup(s: State, run: seq<Action>, t: State, x: int)
    requires Init(s) && Reaches(s, run, t) && 0 <= x < |t.procs| && t.procs[x].sleeping
    ensures Writing(t.procs[x].pc) && !WakesWriters(HolderPc(t)) ==> Pending(t.pipe) == PIPESIZE && t.pipe.readopen
  {
    RunKeeps(s, run, t);
    CounterTests(t.pipe);
    assert Good(t.pipe, x, t.procs[x], HolderPc(t));
  }

  /** For readers it depends: in a run, every reader that sleeps while no wakeup is coming always has nothing to
      read and may yet get something, exactly if no writer gives up on a full pipe while a reader sleeps. */
  lemma ReadersWakeIff(s: State, run: seq<Action>, t: State)
    requires Init(s) && Reaches(s, run, t)
    ensures NeverStarves(s, run) <==> NeverStrands(s, run)
  {
    RunStarvesIff(s, run, t);
  }

  ghost predicate InCall(s: State, x: int) {
    0 <= x < |s.procs| && !s.procs[x].pc.Out?
  }

  ghost predicate CanGo(s: State) {
    exists x :: InCall(s, x) && Enabled(s, Go(x))
  }

  /** Every process in a call is a reader that waits for bytes a writer may yet bring. */
  ghost predicate ReadersWait(s: State) {
    Pending(s.pipe) == 0 && s.pipe.writeopen && forall x :: InCall(s, x) ==> ReaderAsleep(s.procs[x])
  }

  /** Every process in a call is a writer that waits for room a reader may yet make. */
  ghost predicate WritersWait(s: State) {
    && Pending(s.pipe) == PIPESIZE && s.pipe.readopen
    && forall x :: InCall(s, x) ==> s.procs[x].sleeping && s.procs[x].pc.WEnter?
  }

  lemma StuckWaits(s: State, x: int)
    requires Inv(s) && !AnyStarves(s) && !CanGo(s) && InCall(s, x)
    ensures ReadersWait(s) || WritersWait(s)
  {
    assert s.pipe.lock == -1 by {
      if s.pipe.lock >= 0 {
        assert Good(s.pipe, s.pipe.lock, s.procs[s.pipe.lock], HolderPc(s));
        assert InCall(s, s.pipe.lock) && Enabled(s, Go(s.pipe.lock));
      }
    }
    CounterTests(s.pipe);
    forall y | InCall(s, y)
      ensures if s.procs[y].pc.REnter? then ReaderAsleep(s.procs[y]) && Pending(s.pipe) == 0 && s.pipe.writeopen
        else s.procs[y].sleeping && s.procs[y].pc.WEnter? && Pending(s.pipe) == PIPESIZE && s.pipe.readopen
    {
      assert Good(s.pipe, y, s.procs[y], HolderPc(s)) && !Starves(s, y);
      assert !Enabled(s, Go(y));
    }
  }

  /** In a run in which no writer strands a reader, no process in a call can take a step exactly if all of them are
      readers that wait for bytes from an open end, or all of them writers that wait for room. */
  lemma NoDeadlock(s: State, run: seq<Action>, t: State)
    requires Init(s) && Reaches(s, run, t) && NeverStrands(s, run) && exists x :: InCall(t, x)
    ensures !CanGo(t) <==> ReadersWait(t) || WritersWait(t)
  {
    RunKeeps(s, run, t);
    RunStarvesIff(s, run, t);
    var x :| InCall(t, x);
    if !CanGo(t) {
      StuckWaits(t, x);
    }
  }

  lemma {:induction false} ReachesThen(s: State, run: seq<Action>, t: State, a: Action)
    requires Reaches(s, run, t) && Enabled(t, a) && |t.pipe.data| == PIPESIZE
    ensures Reaches(s, run + [a], Step(t, a))
    decreases |run|
  {
    if run == [] {
      assert [a][1..] == [];
    } else {
      ReachesThen(Step(s, run[0]), run[1..], t, a);
      assert (run + [a])[1..] == run[1..] + [a];
    }
  }

  /** A reader asleep, and a killed writer with the lock that has filled n places and has more to write. */
  ghost predicate Filling(t: State, n: nat) {
    && |t.procs| == 2 && ReaderAsleep(t.procs[0])
    && t.procs[1].pc.WTest? && t.procs[1].killed && |t.procs[1].todo| == PIPESIZE + 1 - n
    && t.pipe.lock == 1 && Pending(t.pipe) == n && t.pipe.readopen && t.pipe.writeopen
  }

  const IDLE: Proc := Proc(Out, [], 0, false, false)

  /** The reader finds the pipe empty and sleeps. */
  lemma StartSleeping(s: State) returns (run: seq<Action>, t: State)
    requires Init(s) && s.procs == [IDLE, IDLE]
    ensures Reaches(s, run, t) && Inv(t) && t.pipe == s.pipe
    ensures |t.procs| == 2 && t.procs[1] == IDLE && ReaderAsleep(t.procs[0])
  {
    var t1 := Step(s, StartRead(0, 1));
    var t2 := Step(t1, Go(0));
    t := Step(t2, Go(0));
    ReachesThen(s, [], s, StartRead(0, 1));
    ReachesThen(s, [StartRead(0, 1)], t1, Go(0));
    run := [StartRead(0, 1)] + [Go(0)];
    ReachesThen(s, run, t2, Go(0));
    run := run + [Go(0)];
    RunKeeps(s, run, t);
  }

  lemma StartFilling() returns (s: State, run: seq<Action>, t: State)
    ensures Init(s) && Reaches(s, run, t) && Filling(t, 0)
  {
    var bytes: seq<Byte> := seq(PIPESIZE + 1, _ => 0);
    s := State(Pipe(-1, seq(PIPESIZE, _ => 0), 0, 0, true, true, [], []), [IDLE, IDLE]);
    run, t := StartSleeping(s);
    ReachesThen(s, run, t, StartWrite(1, bytes));
    run, t := run + [StartWrite(1, bytes)], Step(t, StartWrite(1, bytes));
    ReachesThen(s, run, t, Kill(1));
    run, t := run + [Kill(1)], Step(t, Kill(1));
    ReachesThen(s, run, t, Go(1));
    run, t := run + [Go(1)], Step(t, Go(1));
  }

  lemma {:induction false} Fill(n: nat) returns (s: State, run: seq<Action>, t: State)
    requires n <= PIPESIZE
    ensures Init(s) && Reaches(s, run, t) && Filling(t, n)
  {
    if n == 0 {
      s, run, t := StartFilling();
    } else {
      s, run, t := Fill(n - 1);
      RunKeeps(s, run, t);
      CounterTests(t.pipe);
      ReachesThen(s, run, t, Go(1));
      run, t := run + [Go(1)], Step(t, Go(1));
    }
  }

  ghost predicate Stranded(t: State) {
    && |t.procs| == 2 && ReaderAsleep(t.procs[0]) && t.procs[1].pc.Out?
    && t.pipe.lock == -1 && Pending(t.pipe) == PIPESIZE
  }

  /** A killed writer can leave a full pipe and a sleeping reader behind, with no wakeup to come. */
  lemma KilledWriterLosesWakeup()
    ensures exists s, run, t :: Init(s) && Reaches(s, run, t) && Stranded(t) && Starves(t, 0)
  {
    var s, run, t := Fill(PIPESIZE);
    RunKeeps(s, run, t);
    CounterTests(t.pipe);
    ReachesThen(s, run, t, Go(1));
    assert Reaches(s, run + [Go(1)], Step(t, Go(1)));
  }
}
