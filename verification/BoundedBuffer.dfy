/**
 The producer and the consumer of lab-05/buf.c, with their semaphores and mutex, as interleaved steps.
 */
module BoundedBuffer {
  /** Where a thread is in its loop: before sem_wait, before the lock, in the critical section, before the
      unlock, before sem_post. */
  datatype Pc = Wait | Lock | Work | Unlock | Post

  datatype Thread = Producer | Consumer

  datatype Mutex = Free | By(t: Thread)

  /** i and j are the loop counters of producer and consumer; entrada and salida index the buffer. */
  datatype State = State(size: nat, items: nat, p: Pc, c: Pc, i: nat, j: nat, vacios: int, llenos: int, mutex: Mutex,
                         buf: seq<int>, entrada: int, salida: int, results: seq<int>)

  ghost predicate Init(s: State) {
    && s.size > 0 && s.items > 0 && s.p.Wait? && s.c.Wait?
    && s.i == 0 && s.j == 0 && s.vacios == s.size && s.llenos == 0
    && s.mutex.Free? && |s.buf| == s.size && s.entrada == 0 && s.salida == 0 && s.results == []
  }

  predicate Enabled(s: State, t: Thread) {
    if t.Producer? then
      s.i < s.items && (s.p.Wait? ==> s.vacios > 0) && (s.p.Lock? ==> s.mutex.Free?)
    else
      s.j < s.items && (s.c.Wait? ==> s.llenos > 0) && (s.c.Lock? ==> s.mutex.Free?)
  }

  /** The buffer is where the critical sections expect it. */
  predicate InRange(s: State) {
    0 <= s.entrada < |s.buf| && 0 <= s.salida < |s.buf| && s.size == |s.buf|
  }

  function Step(s: State, t: Thread): State
    requires Enabled(s, t) && InRange(s)
  {
    if t.Producer? then
      match s.p
      case Wait => s.(p := Lock, vacios := s.vacios - 1)
      case Lock => s.(p := Work, mutex := By(Producer))
      case Work => s.(p := Unlock, buf := s.buf[s.entrada := s.i], entrada := (s.entrada + 1) % s.size)
      case Unlock => s.(p := Post, mutex := Free)
      case Post => s.(p := Wait, llenos := s.llenos + 1, i := s.i + 1)
    else
      match s.c
      case Wait => s.(c := Lock, llenos := s.llenos - 1)
      case Lock => s.(c := Work, mutex := By(Consumer))
      case Work => s.(c := Unlock, results := s.results + [s.buf[s.salida]], salida := (s.salida + 1) % s.size)
      case Unlock => s.(c := Post, mutex := Free)
      case Post => s.(c := Wait, vacios := s.vacios + 1, j := s.j + 1)
  }

  /** Whether a thread is between its sem_wait and its sem_post, and past its work. */
  function Inside(pc: Pc): int {
    if pc.Wait? then 0 else 1
  }

  function Worked(pc: Pc): int {
    if pc.Unlock? || pc.Post? then 1 else 0
  }

  predicate Critical(pc: Pc) {
    pc.Work? || pc.Unlock?
  }

  /** How many values have been put in and taken out. */
  function Written(s: State): int {
    s.i + Worked(s.p)
  }

  function Taken(s: State): int {
    s.j + Worked(s.c)
  }

  /** The place of value k in a ring of n slots. */
  function Slot(k: nat, n: nat): (r: nat)
    requires n > 0
    ensures r < n
  {
    if k < n then k else Slot(k - n, n)
  }

  lemma {:induction false} SlotNext(k: nat, n: nat)
    requires n > 0
    ensures Slot(k + 1, n) == (Slot(k, n) + 1) % n
  {
    if k >= n {
      SlotNext(k - n, n);
    } else if k + 1 == n {
      assert Slot(k + 1, n) == Slot(0, n);
    }
  }

  lemma {:induction false} SlotsDiffer(a: nat, b: nat, n: nat)
    requires n > 0 && a < b < a + n
    ensures Slot(a, n) != Slot(b, n)
  {
    if a >= n {
      SlotsDiffer(a - n, b - n, n);
    }
  }

  ghost predicate Slots(s: State) {
    |s.buf| == s.size > 0 && forall k :: 0 <= Taken(s) <= k < Written(s) ==> s.buf[Slot(k, s.size)] == k
  }

  /** The counters, the semaphores and the mutex. */
  ghost predicate Counts(s: State) {
    && s.size > 0 && s.i <= s.items && s.j <= s.items
    && (s.i == s.items ==> s.p.Wait?) && (s.j == s.items ==> s.c.Wait?)
    && s.vacios == s.size - (s.i + Inside(s.p)) + s.j && s.vacios >= 0
    && s.llenos == s.i - (s.j + Inside(s.c)) && s.llenos >= 0
    && (Critical(s.p) <==> s.mutex == By(Producer)) && (Critical(s.c) <==> s.mutex == By(Consumer))
  }

  /** The buffer and the values read. */
  ghost predicate Ring(s: State) {
    && Slots(s) && Written(s) >= 0 && Taken(s) >= 0
    && s.entrada == Slot(Written(s), s.size) && s.salida == Slot(Taken(s), s.size)
    && |s.results| == Taken(s) && forall k :: 0 <= k < |s.results| ==> s.results[k] == k
  }

  ghost predicate Inv(s: State) {
    Counts(s) && Ring(s)
  }

  lemma CountsKept(s: State, t: Thread)
    requires Counts(s) && Enabled(s, t) && InRange(s)
    ensures Counts(Step(s, t))
  {
  }

  lemma ProducerWork(s: State)
    requires Inv(s) && s.p.Work? && Enabled(s, Producer) && InRange(s)
    ensures Ring(Step(s, Producer))
  {
    SlotNext(s.i, s.size);
    assert Written(Step(s, Producer)) == s.i + 1 && Taken(Step(s, Producer)) == Taken(s);
    forall k | Taken(s) <= k < s.i
      ensures Slot(k, s.size) != Slot(s.i, s.size)
    {
      SlotsDiffer(k, s.i, s.size);
    }
  }

  lemma ConsumerWork(s: State)
    requires Inv(s) && s.c.Work? && Enabled(s, Consumer) && InRange(s)
    ensures Ring(Step(s, Consumer))
  {
    SlotNext(s.j, s.size);
  }

  lemma StepKeeps(s: State, t: Thread)
    requires Inv(s) && Enabled(s, t)
    ensures InRange(s) && Inv(Step(s, t))
  {
    assert InRange(s);
    CountsKept(s, t);
    if t.Producer? && s.p.Work? {
      ProducerWork(s);
    } else if t.Consumer? && s.c.Work? {
      ConsumerWork(s);
    } else {
      var s' := Step(s, t);
      assert Written(s') == Written(s) && Taken(s') == Taken(s) && s'.buf == s.buf && s'.results == s.results;
    }
  }

  ghost predicate Reaches(s: State, run: seq<Thread>, t: State)
    decreases |run|
  {
    if run == [] then t == s else Enabled(s, run[0]) && InRange(s) && Reaches(Step(s, run[0]), run[1..], t)
  }

  lemma {:induction false} RunKeeps(s: State, run: seq<Thread>, t: State)
    requires Inv(s) && Reaches(s, run, t)
    ensures Inv(t) && t.items == s.items && t.size == s.size
    decreases |run|
  {
    if run != [] {
      StepKeeps(s, run[0]);
      RunKeeps(Step(s, run[0]), run[1..], t);
    }
  }

  /** The steps a thread has ahead of it. */
  function Ahead(pc: Pc, k: int, items: int): int {
    5 * (items - k) - match pc case Wait => 0 case Lock => 1 case Work => 2 case Unlock => 3 case Post => 4
  }

  function Measure(s: State): int {
    Ahead(s.p, s.i, s.items) + Ahead(s.c, s.j, s.items)
  }

  /** In every interleaving the consumer's k-th value is k; a slot is not written again before it has been read; the
      semaphores and the threads between wait and post make up the buffer size; and there are never two threads in
      the critical section. */
  lemma ValuesInOrder(s: State, run: seq<Thread>, t: State)
    requires Init(s) && Reaches(s, run, t)
    ensures forall k :: 0 <= k < |t.results| ==> t.results[k] == k
    ensures t.p.Work? ==> Written(t) - Taken(t) < t.size
    ensures t.vacios + t.llenos + Inside(t.p) + Inside(t.c) == t.size
    ensures !(Critical(t.p) && Critical(t.c))
  {
    RunKeeps(s, run, t);
  }

  /** Until both threads have finished, one of them can take a step, and every step brings the end nearer; at the
      end the consumer has every value. */
  lemma Progress(s: State, run: seq<Thread>, t: State)
    requires Init(s) && Reaches(s, run, t)
    ensures t.i < t.items || t.j < t.items ==> Enabled(t, Producer) || Enabled(t, Consumer)
    ensures Measure(t) >= 0 && |run| == Measure(s) - Measure(t) && Measure(s) == 10 * s.items
    ensures t.i == t.items && t.j == t.items ==> |t.results| == s.items
  {
    RunKeeps(s, run, t);
    StepsCount(s, run, t);
  }

  lemma {:induction false} StepsCount(s: State, run: seq<Thread>, t: State)
    requires Inv(s) && Reaches(s, run, t)
    ensures |run| == Measure(s) - Measure(t)
    decreases |run|
  {
    if run != [] {
      StepKeeps(s, run[0]);
      StepsCount(Step(s, run[0]), run[1..], t);
    }
  }
}
