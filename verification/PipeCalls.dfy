/**
 What the calls of readers and writers do to the bytes of a pipe (xv6/pipe.c), over runs of any number of
 processes: which bytes a call puts in or takes out, in which order, and how many of them.
 */
module PipeCalls {
  import opened Basics
  import opened Folding
  import opened Pipes

  datatype End = WriteEnd | ReadEnd

  /** The bytes that have passed an end of the pipe. */
  function Through(p: Pipe, e: End): seq<Byte> {
    if e.WriteEnd? then p.accepted else p.delivered
  }

  /** The bytes that have passed between two states. */
  function Since(s: State, t: State, e: End): seq<Byte> {
    var a, b := Through(s.pipe, e), Through(t.pipe, e);
    if |a| <= |b| then b[|a|..] else []
  }

  /** The process that takes step a, for each of n bytes. */
  function By(a: Action, n: nat): seq<int> {
    if a.Go? then seq(n, _ => a.p) else []
  }

  /** Whose steps let the bytes of a run pass, byte by byte. */
  ghost function Movers(s: State, run: seq<Action>, e: End): seq<int>
    decreases |run|
  {
    if run == [] || !Enabled(s, run[0]) || |s.pipe.data| != PIPESIZE then []
    else
      var s' := Step(s, run[0]);
      By(run[0], |Since(s, s', e)|) + Movers(s', run[1..], e)
  }

  /** The bytes that are process p's, in their order. */
  function Share(bytes: seq<Byte>, who: seq<int>, p: int): seq<Byte> {
    if bytes == [] || who == [] then []
    else (if who[0] == p then [bytes[0]] else []) + Share(bytes[1..], who[1..], p)
  }

  /** Action a leads from s to s'. */
  ghost predicate Next(s: State, a: Action, s': State) {
    forall u :: Show(Traffic, u) ==> Inv(s) && Enabled(s, a) && s' == Step(s, a) && Inv(s')
  }

  ghost predicate Runs(s: State, run: seq<Action>, t: State) {
    forall u :: Show(Traffic, u) ==> Inv(s) && Reaches(s, run, t) && Inv(t)
  }

  ghost predicate IsMoved(s: State, run: seq<Action>, t: State, p: int, e: End, r: seq<Byte>) {
    forall u :: Show(Traffic, u) ==> r == Share(Since(s, t, e), Movers(s, run, e), p)
  }

  /** What process p has let pass in a run from s to t. */
  ghost function Moved(s: State, run: seq<Action>, t: State, p: int, e: End): (r: seq<Byte>)
    ensures IsMoved(s, run, t, p, e, r)
  {
    assert IsMoved(s, run, t, p, e, Share(Since(s, t, e), Movers(s, run, e), p));
    var r :| IsMoved(s, run, t, p, e, r);
    r
  }

  /** At an end bytes pass one at a time, in steps of a process, and stay in the record. */
  lemma OneByte(s: State, a: Action, s': State, e: End)
    requires Next(s, a, s')
    ensures Through(s.pipe, e) <= Through(s'.pipe, e) && |Since(s, s', e)| <= 1
    ensures !a.Go? ==> Since(s, s', e) == []
  {
    assert Show(Traffic, 0);
  }

  lemma FirstStep(s: State, run: seq<Action>, t: State) returns (s': State)
    requires Runs(s, run, t) && run != []
    ensures Next(s, run[0], s') && Runs(s', run[1..], t)
  {
    assert Show(Traffic, 0);
    s' := Step(s, run[0]);
    StepKeeps(s, run[0]);
  }

  /** Every byte that passes is moved by some process. */
  lemma {:induction false} AllMoved(s: State, run: seq<Action>, t: State, e: End)
    requires Runs(s, run, t)
    ensures Through(s.pipe, e) <= Through(t.pipe, e) && |Movers(s, run, e)| == |Since(s, t, e)|
    decreases |run|
  {
    if run == [] {
      assert Show(Traffic, 0);
    } else {
      var s' := FirstStep(s, run, t);
      OneByte(s, run[0], s', e);
      AllMoved(s', run[1..], t, e);
      MoversFirst(s, run, s', e);
    }
  }

  lemma MoversFirst(s: State, run: seq<Action>, s': State, e: End)
    requires run != [] && Next(s, run[0], s')
    ensures Movers(s, run, e) == By(run[0], |Since(s, s', e)|) + Movers(s', run[1..], e)
  {
    assert Show(Traffic, 0);
  }

  lemma ShareJoins(x: seq<Byte>, bytes: seq<Byte>, w: seq<int>, who: seq<int>, p: int)
    requires |x| == |w| <= 1
    ensures Share(x + bytes, w + who, p) == Share(x, w, p) + Share(bytes, who, p)
  {
    if x == [] {
      assert x + bytes == bytes && w + who == who;
    } else {
      assert (x + bytes)[1..] == bytes && (w + who)[1..] == who && x[1..] == [];
    }
  }

  /** What process p lets pass in a step. */
  function Mine(s: State, a: Action, s': State, p: int, e: End): seq<Byte> {
    if a == Go(p) then Since(s, s', e) else []
  }

  lemma MineIsShare(s: State, a: Action, s': State, p: int, e: End)
    requires Next(s, a, s')
    ensures |By(a, |Since(s, s', e)|)| == |Since(s, s', e)| <= 1
    ensures Share(Since(s, s', e), By(a, |Since(s, s', e)|), p) == Mine(s, a, s', p, e)
  {
    OneByte(s, a, s', e);
  }

  lemma SinceSplits(s: State, s': State, t: State, e: End)
    requires Through(s.pipe, e) <= Through(s'.pipe, e) <= Through(t.pipe, e)
    ensures Since(s, t, e) == Since(s, s', e) + Since(s', t, e)
  {
  }

  lemma MovedFirst(s: State, run: seq<Action>, s': State, t: State, p: int, e: End)
    requires run != [] && Next(s, run[0], s') && Runs(s', run[1..], t)
    ensures Moved(s, run, t, p, e) == Mine(s, run[0], s', p, e) + Moved(s', run[1..], t, p, e)
  {
    OneByte(s, run[0], s', e);
    AllMoved(s', run[1..], t, e);
    SinceSplits(s, s', t, e);
    MineIsShare(s, run[0], s', p, e);
    MoversFirst(s, run, s', e);
    ShareJoins(Since(s, s', e), Since(s', t, e), By(run[0], |Since(s, s', e)|), Movers(s', run[1..], e), p);
    assert Show(Traffic, 0);
  }

  lemma MovedNone(s: State, t: State, p: int, e: End)
    requires Runs(s, [], t)
    ensures t == s && Moved(s, [], t, p, e) == []
  {
    assert Show(Traffic, 0);
  }

  /** Process p begins no call. */
  predicate NoStart(a: Action, p: int) {
    !(a.StartWrite? && a.p == p) && !(a.StartRead? && a.p == p)
  }

  predicate SameCall(run: seq<Action>, p: int) {
    forall a <- run :: NoStart(a, p)
  }

  lemma SameFirst(run: seq<Action>, p: int)
    requires SameCall(run, p) && run != []
    ensures NoStart(run[0], p) && SameCall(run[1..], p)
  {
    assert run[0] in run && forall a <- run[1..] :: a in run;
  }

  /** Process p is in state s and in no read. */
  predicate Writes(s: State, p: int) {
    0 <= p < |s.procs| && !Reading(s.procs[p].pc)
  }

  /** Process p gives up its write: the pipe holds 512 bytes, and no one can read or p has been killed. */
  ghost predicate Fails(s: State, a: Action, p: int) {
    && a == Go(p) && 0 <= p < |s.procs| && s.procs[p].pc.WTest? && s.procs[p].todo != []
    && Pending(s.pipe) == 512 && (!s.pipe.readopen || s.procs[p].killed)
  }

  ghost predicate FailsIn(s: State, run: seq<Action>, p: int)
    decreases |run|
  {
    run != [] && Enabled(s, run[0]) && |s.pipe.data| == PIPESIZE &&
      (Fails(s, run[0], p) || FailsIn(Step(s, run[0]), run[1..], p))
  }

  lemma FailsFirst(s: State, run: seq<Action>, s': State, p: int)
    requires run != [] && Next(s, run[0], s')
    ensures FailsIn(s, run, p) <==> Fails(s, run[0], p) || FailsIn(s', run[1..], p)
  {
    assert Show(Traffic, 0);
  }

  lemma WriterPuts(s: State, p: int, s': State)
    requires Next(s, Go(p), s') && Writes(s, p)
    ensures Writes(s', p) && Since(s, s', WriteEnd) + s'.procs[p].todo == s.procs[p].todo
  {
    assert Show(Traffic, 0);
    var q := s.procs[p];
    if q.pc.WTest? && q.todo != [] && !Full(s.pipe) {
      assert Since(s, s', WriteEnd) == [q.todo[0]];
    } else {
      assert Since(s, s', WriteEnd) == [];
    }
  }

  lemma WriteStep(s: State, a: Action, s': State, p: int)
    requires Next(s, a, s') && NoStart(a, p) && Writes(s, p)
    ensures Writes(s', p) && |s'.procs| == |s.procs|
    ensures Mine(s, a, s', p, WriteEnd) + s'.procs[p].todo == s.procs[p].todo
  {
    if a == Go(p) {
      WriterPuts(s, p, s');
    }
    assert Show(Traffic, 0);
  }

  /** A write is over when it has given up or run its last wakeup, and it has nothing left to put only in the second
      case. */
  lemma WriteEnds(s: State, a: Action, s': State, p: int)
    requires Next(s, a, s') && NoStart(a, p) && Writes(s, p) && p < |s'.procs|
    ensures s.procs[p].pc.Out? ==>
      s'.procs[p].pc.Out? && s'.procs[p].todo == s.procs[p].todo && !Fails(s, a, p)
    ensures !s.procs[p].pc.Out? && s'.procs[p].pc.Out? ==> (s'.procs[p].todo == [] <==> !Fails(s, a, p))
    ensures Fails(s, a, p) ==> s'.procs[p].pc.Out?
  {
    assert Show(Traffic, 0);
    CounterTests(s.pipe);
    assert Good(s.pipe, p, s.procs[p], HolderPc(s));
  }

  lemma {:induction false} WriteRun(s: State, run: seq<Action>, t: State, p: int)
    requires Runs(s, run, t) && SameCall(run, p) && Writes(s, p)
    ensures Writes(t, p) && |t.procs| == |s.procs|
    ensures Moved(s, run, t, p, WriteEnd) + t.procs[p].todo == s.procs[p].todo
    decreases |run|
  {
    if run == [] {
      MovedNone(s, t, p, WriteEnd);
    } else {
      var s' := FirstStep(s, run, t);
      MovedFirst(s, run, s', t, p, WriteEnd);
      SameFirst(run, p);
      WriteStep(s, run[0], s', p);
      WriteRun(s', run[1..], t, p);
    }
  }

  lemma {:induction false} WriteFails(s: State, run: seq<Action>, t: State, p: int)
    requires Runs(s, run, t) && SameCall(run, p) && Writes(s, p)
    ensures p < |t.procs|
    ensures s.procs[p].pc.Out? ==>
      t.procs[p].pc.Out? && t.procs[p].todo == s.procs[p].todo && !FailsIn(s, run, p)
    ensures !s.procs[p].pc.Out? && t.procs[p].pc.Out? ==> (t.procs[p].todo == [] <==> !FailsIn(s, run, p))
    decreases |run|
  {
    if run == [] {
      MovedNone(s, t, p, WriteEnd);
    } else {
      var s' := FirstStep(s, run, t);
      FailsFirst(s, run, s', p);
      SameFirst(run, p);
      WriteStep(s, run[0], s', p);
      WriteEnds(s, run[0], s', p);
      WriteFails(s', run[1..], t, p);
    }
  }

  /** After the call that process p begins with action a, p takes the steps it takes in run. */
  ghost predicate Calls(s0: State, run0: seq<Action>, s: State, a: Action, p: int, s1: State, run: seq<Action>,
                        t: State) {
    && Init(s0) && Reaches(s0, run0, s) && |s.pipe.data| == PIPESIZE && Enabled(s, a) && s1 == Step(s, a)
    && Reaches(s1, run, t) && SameCall(run, p)
  }

  lemma CallRuns(s0: State, run0: seq<Action>, s: State, a: Action, p: int, s1: State, run: seq<Action>, t: State)
    requires Calls(s0, run0, s, a, p, s1, run, t)
    ensures Next(s, a, s1) && Runs(s1, run, t) && Inv(t)
  {
    RunKeeps(s0, run0, s);
    StepKeeps(s, a);
    RunKeeps(s1, run, t);
  }

  /** What a call write(p, bytes) has put into the pipe is always an initial part of bytes, in order, though other
      calls may have put theirs in between.  Before the last wakeup it is all of them; a call that has returned has put
      all of them exactly if it did not give up on a full pipe. */
  lemma WritesInOrder(s0: State, run0: seq<Action>, s: State, p: int, bytes: seq<Byte>, s1: State, run: seq<Action>,
                      t: State)
    requires Calls(s0, run0, s, StartWrite(p, bytes), p, s1, run, t)
    ensures s.pipe.accepted <= t.pipe.accepted && |t.procs| == |s.procs|
    ensures |Movers(s1, run, WriteEnd)| == |t.pipe.accepted| - |s.pipe.accepted|
    ensures var mine := Share(t.pipe.accepted[|s.pipe.accepted|..], Movers(s1, run, WriteEnd), p);
      && mine <= bytes && (t.procs[p].pc.WDone? ==> mine == bytes)
      && (t.procs[p].pc.Out? ==> (mine == bytes <==> !FailsIn(s1, run, p)))
  {
    CallRuns(s0, run0, s, StartWrite(p, bytes), p, s1, run, t);
    AllMoved(s1, run, t, WriteEnd);
    WriteRun(s1, run, t, p);
    WriteFails(s1, run, t, p);
    assert Good(t.pipe, p, t.procs[p], HolderPc(t));
    assert Show(Traffic, 0) && IsMoved(s1, run, t, p, WriteEnd, Moved(s1, run, t, p, WriteEnd));
  }

  /** No process but p is in a write. */
  ghost predicate SoleWriter(s: State, p: int) {
    forall x :: 0 <= x < |s.procs| && x != p ==> !Writing(s.procs[x].pc)
  }

  predicate NoWrites(run: seq<Action>) {
    forall a <- run :: !a.StartWrite?
  }

  lemma SoleStep(s: State, a: Action, s': State, p: int)
    requires Next(s, a, s') && SoleWriter(s, p) && !a.StartWrite?
    ensures SoleWriter(s', p) && Mine(s, a, s', p, WriteEnd) == Since(s, s', WriteEnd)
  {
    OneByte(s, a, s', WriteEnd);
    assert Show(Traffic, 0);
    forall x | 0 <= x < |s'.procs| && x != p
      ensures !Writing(s'.procs[x].pc)
    {
      assert !Writing(s.procs[x].pc);
    }
  }

  lemma {:induction false} SoleRun(s: State, run: seq<Action>, t: State, p: int)
    requires Runs(s, run, t) && SoleWriter(s, p) && NoWrites(run)
    ensures Moved(s, run, t, p, WriteEnd) == Since(s, t, WriteEnd)
    decreases |run|
  {
    if run == [] {
      MovedNone(s, t, p, WriteEnd);
    } else {
      var s' := FirstStep(s, run, t);
      MovedFirst(s, run, s', t, p, WriteEnd);
      assert run[0] in run && forall a <- run[1..] :: a in run;
      SoleStep(s, run[0], s', p);
      OneByte(s, run[0], s', WriteEnd);
      AllMoved(s', run[1..], t, WriteEnd);
      SinceSplits(s, s', t, WriteEnd);
      SoleRun(s', run[1..], t, p);
    }
  }

  /** From end to end: while p is the only writer, what comes out is what had gone in before, then bytes, in order;
      and when the write is over without giving up, all of bytes has gone in. */
  lemma ReadsWhatWasWritten(s0: State, run0: seq<Action>, s: State, p: int, bytes: seq<Byte>, s1: State,
                            run: seq<Action>, t: State)
    requires Calls(s0, run0, s, StartWrite(p, bytes), p, s1, run, t) && SoleWriter(s, p) && NoWrites(run)
    ensures t.pipe.delivered <= t.pipe.accepted <= s.pipe.accepted + bytes && |t.procs| == |s.procs|
    ensures t.procs[p].pc.WDone? || (t.procs[p].pc.Out? && !FailsIn(s1, run, p)) ==>
      t.pipe.accepted == s.pipe.accepted + bytes
  {
    CallRuns(s0, run0, s, StartWrite(p, bytes), p, s1, run, t);
    WritesInOrder(s0, run0, s, p, bytes, s1, run, t);
    SoleRun(s1, run, t, p);
    var mine := t.pipe.accepted[|s.pipe.accepted|..];
    assert mine == Share(mine, Movers(s1, run, WriteEnd), p) by {
      assert Show(Traffic, 0) && IsMoved(s1, run, t, p, WriteEnd, Moved(s1, run, t, p, WriteEnd));
    }
    assert t.pipe.accepted == s.pipe.accepted + mine;
  }

  /** Process p is in state s and in no write. */
  predicate Reads(s: State, p: int) {
    0 <= p < |s.procs| && !Writing(s.procs[p].pc)
  }

  lemma ReadStep(s: State, a: Action, s': State, p: int)
    requires Next(s, a, s') && NoStart(a, p) && Reads(s, p)
    ensures Reads(s', p) && |s'.procs| == |s.procs|
    ensures |Mine(s, a, s', p, ReadEnd)| + s'.procs[p].left == s.procs[p].left
    ensures !s.procs[p].pc.RCopy? ==> Mine(s, a, s', p, ReadEnd) == []
    ensures s.procs[p].pc.RCopy? && a == Go(p) && Since(s, s', ReadEnd) == [] ==> s'.procs[p].pc.RDone?
    ensures s.procs[p].pc.Out? ==> s'.procs[p].pc.Out?
    ensures s.procs[p].pc.RDone? ==> s'.procs[p].pc.RDone? || s'.procs[p].pc.Out?
    ensures s.procs[p].pc.REnter? || s.procs[p].pc.RTest? ==> !s'.procs[p].pc.RDone?
  {
    assert Show(Traffic, 0);
    CounterTests(s.pipe);
  }

  /** While p has the lock, no one else moves a byte, closes an end or takes the lock. */
  lemma LockedStep(s: State, a: Action, s': State, p: int)
    requires Next(s, a, s') && NoStart(a, p) && 0 <= p < |s.procs| && HasLock(s.procs[p].pc) && a != Go(p)
    ensures s'.pipe == s.pipe && p < |s'.procs| && s'.procs[p].pc == s.procs[p].pc
    ensures s'.procs[p].left == s.procs[p].left
  {
    assert Show(Traffic, 0);
    assert Good(s.pipe, p, s.procs[p], HolderPc(s));
  }

  /** The bytes stand in the record from place i on. */
  predicate At(got: seq<Byte>, record: seq<Byte>, i: int) {
    0 <= i <= |record| - |got| && got == record[i..i + |got|]
  }

  /** What p gets from state s on: nothing if its copying is over, else bytes next to one another, which are the very
      next ones if it has begun to copy. */
  ghost predicate Gets(s: State, t: State, p: int, got: seq<Byte>)
    requires 0 <= p < |s.procs|
  {
    match s.procs[p].pc
    case RCopy => At(got, t.pipe.delivered, |s.pipe.delivered|)
    case REnter | RTest => exists i :: |s.pipe.delivered| <= i && At(got, t.pipe.delivered, i)
    case _ => got == []
  }

  lemma GetsNothing(s: State, a: Action, s': State, t: State, p: int, got: seq<Byte>)
    requires Next(s, a, s') && NoStart(a, p) && Reads(s, p) && Reads(s', p)
    requires s'.pipe.delivered <= t.pipe.delivered && Gets(s', t, p, got) && Mine(s, a, s', p, ReadEnd) == []
    ensures Gets(s, t, p, got)
  {
    OneByte(s, a, s', ReadEnd);
    ReadStep(s, a, s', p);
    assert At([], t.pipe.delivered, |s.pipe.delivered|);
    if HasLock(s.procs[p].pc) && a != Go(p) {
      LockedStep(s, a, s', p);
    }
  }

  /** A reader that has got a byte goes on copying. */
  lemma GetsOne(s: State, s': State, p: int)
    requires Next(s, Go(p), s') && Reads(s, p) && Reads(s', p) && Since(s, s', ReadEnd) != []
    ensures s.procs[p].pc.RCopy? && s'.procs[p].pc.RCopy?
  {
    assert Show(Traffic, 0);
  }

  lemma GetsBefore(s: State, a: Action, s': State, t: State, p: int, got: seq<Byte>)
    requires Next(s, a, s') && NoStart(a, p) && Reads(s, p) && Reads(s', p)
    requires s'.pipe.delivered <= t.pipe.delivered && Gets(s', t, p, got)
    ensures Gets(s, t, p, Mine(s, a, s', p, ReadEnd) + got)
  {
    var mine := Mine(s, a, s', p, ReadEnd);
    OneByte(s, a, s', ReadEnd);
    if mine == [] {
      assert mine + got == got;
      GetsNothing(s, a, s', t, p, got);
    } else {
      assert s'.pipe.delivered == s.pipe.delivered + mine;
      GetsOne(s, s', p);
      assert At(mine + got, t.pipe.delivered, |s.pipe.delivered|);
    }
  }

  lemma {:induction false} ReadRun(s: State, run: seq<Action>, t: State, p: int)
    requires Runs(s, run, t) && SameCall(run, p) && Reads(s, p)
    ensures Reads(t, p) && |t.procs| == |s.procs|
    ensures |Moved(s, run, t, p, ReadEnd)| + t.procs[p].left == s.procs[p].left
    ensures Gets(s, t, p, Moved(s, run, t, p, ReadEnd))
    decreases |run|
  {
    if run == [] {
      MovedNone(s, t, p, ReadEnd);
      assert At([], t.pipe.delivered, |s.pipe.delivered|);
    } else {
      var s' := FirstStep(s, run, t);
      MovedFirst(s, run, s', t, p, ReadEnd);
      SameFirst(run, p);
      ReadStep(s, run[0], s', p);
      AllMoved(s', run[1..], t, ReadEnd);
      ReadRun(s', run[1..], t, p);
      GetsBefore(s, run[0], s', t, p, Moved(s', run[1..], t, p, ReadEnd));
    }
  }

  /** A reader that copies has something to copy, or the other end is closed. */
  ghost predicate MayCopy(s: State, p: int)
    requires 0 <= p < |s.procs|
  {
    match s.procs[p].pc
    case RCopy => Pending(s.pipe) > 0 || !s.pipe.writeopen
    case RDone => s.procs[p].left == 0 || !s.pipe.writeopen
    case _ => true
  }

  lemma MayCopyStep(s: State, a: Action, s': State, p: int)
    requires Next(s, a, s') && NoStart(a, p) && Reads(s, p) && Reads(s', p)
    requires MayCopy(s, p) && Mine(s, a, s', p, ReadEnd) == []
    ensures MayCopy(s', p)
  {
    if HasLock(s.procs[p].pc) && a != Go(p) {
      LockedStep(s, a, s', p);
    } else {
      assert Show(Traffic, 0);
      CounterTests(s.pipe);
    }
  }

  lemma {:induction false} EmptyRead(s: State, run: seq<Action>, t: State, p: int)
    requires Runs(s, run, t) && SameCall(run, p) && Reads(s, p)
    requires MayCopy(s, p) && Moved(s, run, t, p, ReadEnd) == []
    ensures Reads(t, p) && MayCopy(t, p)
    decreases |run|
  {
    if run == [] {
      MovedNone(s, t, p, ReadEnd);
    } else {
      var s' := FirstStep(s, run, t);
      MovedFirst(s, run, s', t, p, ReadEnd);
      SameFirst(run, p);
      ReadStep(s, run[0], s', p);
      MayCopyStep(s, run[0], s', p);
      EmptyRead(s', run[1..], t, p);
    }
  }

  /** What a call read(p, n) has taken out of the pipe is always at most n bytes that went in next to one another.
      When it has done copying they are n bytes, or all there were; and they are none only if n is 0 or the pipe is
      empty and no one can write. */
  lemma ReadsInOneGo(s0: State, run0: seq<Action>, s: State, p: int, n: nat, s1: State, run: seq<Action>, t: State)
    requires Calls(s0, run0, s, StartRead(p, n), p, s1, run, t)
    ensures s.pipe.delivered <= t.pipe.delivered <= t.pipe.accepted && |t.procs| == |s.procs|
    ensures |Movers(s1, run, ReadEnd)| == |t.pipe.delivered| - |s.pipe.delivered|
    ensures var mine := Share(t.pipe.delivered[|s.pipe.delivered|..], Movers(s1, run, ReadEnd), p);
      && |mine| <= n && (exists i :: |s.pipe.delivered| <= i && At(mine, t.pipe.accepted, i))
      && (t.procs[p].pc.RDone? ==> |mine| == n || Pending(t.pipe) == 0)
      && (t.procs[p].pc.RDone? && mine == [] && n > 0 ==> !t.pipe.writeopen)
  {
    CallRuns(s0, run0, s, StartRead(p, n), p, s1, run, t);
    AllMoved(s1, run, t, ReadEnd);
    ReadRun(s1, run, t, p);
    var mine := Moved(s1, run, t, p, ReadEnd);
    if mine == [] {
      EmptyRead(s1, run, t, p);
    }
    assert mine == Share(t.pipe.delivered[|s.pipe.delivered|..], Movers(s1, run, ReadEnd), p) by {
      assert Show(Traffic, 0) && IsMoved(s1, run, t, p, ReadEnd, mine);
    }
    var i :| |s.pipe.delivered| <= i && At(mine, t.pipe.delivered, i);
    assert At(mine, t.pipe.accepted, i);
    CounterTests(t.pipe);
    assert Good(t.pipe, p, t.procs[p], HolderPc(t));
  }

  /** A read returns when it has run its last wakeup, or has been killed and finds nothing to read though something may
      yet come.  It sleeps in the same situation if it has not been killed. */
  lemma ReadEnds(s0: State, run0: seq<Action>, s: State, p: int, s': State)
    requires Init(s0) && Reaches(s0, run0, s) && |s.pipe.data| == PIPESIZE && Enabled(s, Go(p)) && s' == Step(s, Go(p))
    requires Reading(s.procs[p].pc)
    ensures var q, q', dry := s.procs[p], s'.procs[p], Pending(s.pipe) == 0 && s.pipe.writeopen;
      && (q'.pc.Out? <==> q.pc.RDone? || (q.pc.RTest? && dry && q.killed))
      && (q'.sleeping <==> q.pc.RTest? && dry && !q.killed)
  {
    RunKeeps(s0, run0, s);
    CounterTests(s.pipe);
    assert Good(s.pipe, p, s.procs[p], HolderPc(s));
  }
}
