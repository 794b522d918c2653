/**
 A sleep lock (xv6/sleeplock.c) over sleep and wakeup (xv6/proc.c), as steps of any number of processes.
 lk is the spin lock inside the sleep lock, pt is ptable.lock; a step is what a process does between two
 lock operations, or a lock operation.
 */
module SleepLock {
  /** Where a process is.  Out: in neither function and without the lock.  In acquiresleep: Want is before
      acquire(lk), Test at the loop condition, Take after it, Took with the lock taken and lk still held.  In
      sleep: Lock is before acquire(pt), Unlock before release(lk), Doze before the change of state, Switch
      before the switch to the scheduler, Asleep not running, Tidy dispatched again, Relock with pt released.
      Have: out of acquiresleep with the lock.  In releasesleep: Drop is before acquire(lk), Clear before
      locked = 0, Wake before acquire(pt), Scan before wakeup1, Scanned after it, Done with pt released. */
  datatype Pc =
    | Out | Want | Test | Take | Took | Lock | Unlock | Doze | Switch | Asleep | Tidy | Relock
    | Have | Drop | Clear | Wake | Scan | Scanned | Done

  /** sleeping: the state is SLEEPING, on the channel of this lock. */
  datatype Proc = Proc(pc: Pc, sleeping: bool)

  /** The two spin locks with their holders, or -1, and the fields of the sleep lock. */
  datatype Shared = Shared(lk: int, pt: int, locked: bool, pid: int)

  datatype State = State(sh: Shared, procs: seq<Proc>)

  ghost predicate Init(s: State) {
    s.sh == Shared(-1, -1, false, -1) && forall p :: 0 <= p < |s.procs| ==> s.procs[p] == Proc(Out, false)
  }

  predicate Ready(sh: Shared, q: Proc) {
    match q.pc
    case Want | Relock | Drop => sh.lk == -1
    case Lock | Wake => sh.pt == -1
    case Asleep => !q.sleeping && sh.pt == -1
    case _ => true
  }

  function NextPc(sh: Shared, pc: Pc): Pc {
    match pc
    case Out => Want
    case Want => Test
    case Test => if sh.locked then Lock else Take
    case Take => Took
    case Took => Have
    case Lock => Unlock
    case Unlock => Doze
    case Doze => Switch
    case Switch => Asleep
    case Asleep => Tidy
    case Tidy => Relock
    case Relock => Test
    case Have => Drop
    case Drop => Clear
    case Clear => Wake
    case Wake => Scan
    case Scan => Scanned
    case Scanned => Done
    case Done => Out
  }

  function NextShared(sh: Shared, p: int, pc: Pc): Shared {
    match pc
    case Want | Relock | Drop => sh.(lk := p)
    case Took | Unlock | Done => sh.(lk := -1)
    case Lock | Asleep | Wake => sh.(pt := p)
    case Switch | Tidy | Scanned => sh.(pt := -1)
    case Take => sh.(locked := true, pid := p)
    case Clear => sh.(locked := false, pid := -1)
    case _ => sh
  }

  /** wakeup1: every process that sleeps on the lock becomes runnable. */
  function WakeAll(procs: seq<Proc>): (r: seq<Proc>)
    ensures |r| == |procs| && forall p :: 0 <= p < |procs| ==> r[p] == procs[p].(sleeping := false)
  {
    if procs == [] then [] else [procs[0].(sleeping := false)] + WakeAll(procs[1..])
  }

  /** A process goes on, or is killed, which wakes it. */
  datatype Action = Go(p: int) | Kill(p: int)

  ghost predicate Enabled(s: State, a: Action) {
    0 <= a.p < |s.procs| && if a.Kill? then s.sh.pt == -1 else Ready(s.sh, s.procs[a.p])
  }

  function NextProc(sh: Shared, q: Proc): Proc {
    Proc(NextPc(sh, q.pc), q.pc.Doze? || (q.sleeping && !q.pc.Scan?))
  }

  ghost function Step(s: State, a: Action): State
    requires Enabled(s, a)
  {
    var p := a.p;
    var q := s.procs[p];
    if a.Kill? then State(s.sh, s.procs[p := q.(sleeping := false)])
    else State(NextShared(s.sh, p, q.pc), (if q.pc.Scan? then WakeAll(s.procs) else s.procs)[p := NextProc(s.sh, q)])
  }

  predicate HoldsLk(pc: Pc) {
    pc.Test? || pc.Take? || pc.Took? || pc.Lock? || pc.Unlock? ||
    pc.Clear? || pc.Wake? || pc.Scan? || pc.Scanned? || pc.Done?
  }

  predicate HoldsPt(pc: Pc) {
    pc.Unlock? || pc.Doze? || pc.Switch? || pc.Tidy? || pc.Scan? || pc.Scanned?
  }

  /** From taking the sleep lock to clearing it. */
  predicate Holder(pc: Pc) {
    pc.Took? || pc.Have? || pc.Drop? || pc.Clear?
  }

  predicate Waking(pc: Pc) {
    pc.Wake? || pc.Scan?
  }

  /** releasesleep has cleared the lock and has yet to run wakeup. */
  ghost predicate WakeupDue(s: State) {
    0 <= s.sh.lk < |s.procs| && Waking(s.procs[s.sh.lk].pc)
  }

  /** What is known of process p. */
  ghost predicate Good(sh: Shared, p: int, q: Proc, due: bool) {
    && (HoldsLk(q.pc) <==> sh.lk == p)
    && (HoldsPt(q.pc) <==> sh.pt == p)
    && (Holder(q.pc) <==> sh.locked && sh.pid == p)
    && (q.pc.Lock? || q.pc.Unlock? ==> sh.locked)
    && (q.pc.Take? ==> !sh.locked)
    && (q.pc.Doze? || q.sleeping ==> sh.locked || due)
    && (q.sleeping ==> q.pc.Switch? || q.pc.Asleep?)
  }

  ghost predicate Inv(s: State) {
    && -1 <= s.sh.lk < |s.procs| && -1 <= s.sh.pt < |s.procs| && (s.sh.locked ==> 0 <= s.sh.pid < |s.procs|)
    && forall p :: 0 <= p < |s.procs| ==> Good(s.sh, p, s.procs[p], WakeupDue(s))
  }

  lemma OwnStep(sh: Shared, p: int, q: Proc, due: bool)
    requires p >= 0 && Good(sh, p, q, due) && Ready(sh, q)
    requires (sh.lk == p ==> due == Waking(q.pc)) && (sh.lk < 0 ==> !due)
    ensures var sh', q' := NextShared(sh, p, q.pc), NextProc(sh, q);
      Good(sh', p, q', if sh'.lk == p then Waking(q'.pc) else sh'.lk >= 0 && due)
  {
  }

  lemma OtherStep(sh: Shared, p: int, q: Proc, x: int, r: Proc, due: bool)
    requires p >= 0 && x >= 0 && p != x && Good(sh, p, q, due) && Good(sh, x, r, due) && Ready(sh, q)
    requires (sh.lk == p ==> due == Waking(q.pc)) && (sh.lk < 0 ==> !due)
    ensures var sh', q' := NextShared(sh, p, q.pc), NextProc(sh, q);
      Good(sh', x, if q.pc.Scan? then r.(sleeping := false) else r, if sh'.lk == p then Waking(q'.pc)
        else sh'.lk >= 0 && due)
  {
  }

  lemma DueNext(s: State, a: Action)
    requires Inv(s) && Enabled(s, a) && a.Go?
    ensures var s' := Step(s, a); var due := WakeupDue(s);
      && (s.sh.lk == a.p ==> due == Waking(s.procs[a.p].pc)) && (s.sh.lk < 0 ==> !due)
      && WakeupDue(s') == if s'.sh.lk == a.p then Waking(s'.procs[a.p].pc) else s'.sh.lk >= 0 && due
  {
    assert Good(s.sh, a.p, s.procs[a.p], WakeupDue(s));
  }

  lemma StepKeeps(s: State, a: Action)
    requires Inv(s) && Enabled(s, a)
    ensures Inv(Step(s, a))
  {
    var s' := Step(s, a);
    if a.Go? {
      DueNext(s, a);
    }
    forall x | 0 <= x < |s.procs|
      ensures Good(s'.sh, x, s'.procs[x], WakeupDue(s'))
    {
      assert Good(s.sh, x, s.procs[x], WakeupDue(s)) && Good(s.sh, a.p, s.procs[a.p], WakeupDue(s));
      if a.Go? {
        if x == a.p {
          OwnStep(s.sh, x, s.procs[x], WakeupDue(s));
        } else {
          OtherStep(s.sh, a.p, s.procs[a.p], x, s.procs[x], WakeupDue(s));
        }
      }
    }
  }

  /** The state after a run, if every action of it is enabled in turn. */
  ghost predicate Reaches(s: State, run: seq<Action>, t: State)
    decreases |run|
  {
    if run == [] then t == s else Enabled(s, run[0]) && Reaches(Step(s, run[0]), run[1..], t)
  }

  lemma {:induction false} RunKeeps(s: State, run: seq<Action>, t: State)
    requires Inv(s) && Reaches(s, run, t)
    ensures Inv(t)
    decreases |run|
  {
    if run != [] {
      StepKeeps(s, run[0]);
      RunKeeps(Step(s, run[0]), run[1..], t);
    }
  }

  /** In every run, at most one process has the sleep lock, holdingsleep is true for it alone, and a process
      sleeps on the lock only while it is locked or a wakeup is due. */
  lemma NoLostWakeup(s: State, run: seq<Action>, t: State)
    requires Init(s) && Reaches(s, run, t)
    ensures forall p, q ::
      0 <= p < |t.procs| && 0 <= q < |t.procs| && Holder(t.procs[p].pc) && Holder(t.procs[q].pc) ==> p == q
    ensures forall p :: 0 <= p < |t.procs| ==> (Holder(t.procs[p].pc) <==> t.sh.locked && t.sh.pid == p)
    ensures forall p :: 0 <= p < |t.procs| && t.procs[p].sleeping ==> t.sh.locked || WakeupDue(t)
  {
    assert Inv(s);
    RunKeeps(s, run, t);
    forall p | 0 <= p < |t.procs|
      ensures Good(t.sh, p, t.procs[p], WakeupDue(t))
    {
    }
  }

  /** The process that can go on when some process has not left the functions, or has the lock. */
  ghost function Mover(s: State, p: int): int {
    if s.sh.pt >= 0 then s.sh.pt else if s.sh.lk >= 0 then s.sh.lk else
      if 0 <= p < |s.procs| && s.procs[p].sleeping then s.sh.pid else p
  }

  /** In every run, as long as some process is not outside, one such process can take a step. */
  lemma NoDeadlock(s: State, run: seq<Action>, t: State, p: int)
    requires Init(s) && Reaches(s, run, t) && 0 <= p < |t.procs| && !t.procs[p].pc.Out?
    ensures var m := Mover(t, p); Enabled(t, Go(m)) && !t.procs[m].pc.Out?
  {
    assert Inv(s);
    RunKeeps(s, run, t);
    var m := Mover(t, p);
    assert Good(t.sh, p, t.procs[p], WakeupDue(t));
    if 0 <= m < |t.procs| {
      assert Good(t.sh, m, t.procs[m], WakeupDue(t));
    }
  }
}
