/**
 The process table (xv6/proc.c) as steps of fork, exit, wait, exec and kill.  What runs under ptable.lock is one
 step; fork, which lets go of it, is several.  A process is a slot of the table.  Kernel stacks and page tables
 are numbered as they are made.
 */
module ProcessTree {
  /** RUNNABLE, RUNNING and SLEEPING are one state here: a live process. */
  datatype PState = Unused | Embryo | Live | Zombie

  /** Where a live process is in fork, with the slot of the child. */
  datatype Pc = User | NeedStack(child: int) | NeedPages(child: int) | NeedStart(child: int)

  /** parent, kstack and pgdir are -1 for a null pointer; waiting: asleep in wait; maker: the process whose fork
      an embryo is for. */
  datatype Proc = Proc(state: PState, pid: int, parent: int, kstack: int, pgdir: int, killed: bool, waiting: bool,
      pc: Pc, maker: int)

  datatype Kind = Stack | Pages

  /** A kernel stack or page table is held by a slot, or has been freed: by the wait that returned pid, or (pid
      is -1) by a fork that failed or an exec. */
  datatype Resource = Held(slot: int, kind: Kind) | Freed(pid: int, kind: Kind)

  /** born[pid] is the slot that was given pid; nextpid is |born|. */
  datatype State = State(procs: seq<Proc>, init: int, born: seq<int>, res: seq<Resource>)

  datatype Action =
    | AllocProc(p: int, np: int)
    | StackOk(p: int) | StackFail(p: int)
    | CopyOk(p: int) | CopyFail(p: int)
    | Start(p: int)
    | Exit(p: int)
    | Reap(p: int, y: int) | Sleep(p: int)
    | Exec(p: int)
    | Kill(p: int)

  ghost predicate IsLive(s: State, p: int) {
    0 <= p < |s.procs| && s.procs[p].state.Live?
  }

  /** p runs and is not inside fork or asleep in wait. */
  ghost predicate Runs(s: State, p: int) {
    IsLive(s, p) && s.procs[p].pc.User? && !s.procs[p].waiting
  }

  ghost predicate ZombieChild(s: State, p: int, y: int) {
    0 <= y < |s.procs| && s.procs[y].parent == p && s.procs[y].state.Zombie?
  }

  ghost predicate Enabled(s: State, a: Action) {
    match a
    case AllocProc(p, np) =>
      && Runs(s, p) && 0 <= np < |s.procs| && s.procs[np].state.Unused?
      && forall x :: 0 <= x < np ==> !s.procs[x].state.Unused?
    case StackOk(p) => IsLive(s, p) && s.procs[p].pc.NeedStack?
    case StackFail(p) => IsLive(s, p) && s.procs[p].pc.NeedStack?
    case CopyOk(p) => IsLive(s, p) && s.procs[p].pc.NeedPages?
    case CopyFail(p) => IsLive(s, p) && s.procs[p].pc.NeedPages?
    case Start(p) => IsLive(s, p) && s.procs[p].pc.NeedStart?
    case Exit(p) => Runs(s, p) && p != s.init
    case Reap(p, y) => Runs(s, p) && ZombieChild(s, p, y) && forall x :: 0 <= x < y ==> !ZombieChild(s, p, x)
    case Sleep(p) =>
      && Runs(s, p) && !s.procs[p].killed && (forall x :: 0 <= x < |s.procs| ==> !ZombieChild(s, p, x))
      && exists x :: 0 <= x < |s.procs| && s.procs[x].parent == p
    case Exec(p) => Runs(s, p)
    case Kill(p) => 0 <= p < |s.procs|
  }

  ghost predicate HasPid(s: State, x: int, pid: int) {
    0 <= pid < |s.born| && s.born[pid] == x
  }

  ghost predicate Has(s: State, x: int, kind: Kind, k: int) {
    0 <= k < |s.res| && s.res[k] == Held(x, kind)
  }

  ghost predicate MakerOf(s: State, f: int, x: int) {
    IsLive(s, f) && !s.procs[f].pc.User? && s.procs[f].pc.child == x
  }

  ghost predicate MadeBy(s: State, c: int, f: int) {
    0 <= c < |s.procs| && s.procs[c].state.Embryo? && s.procs[c].maker == f
  }

  /** What is known of slot x. */
  ghost predicate Good(s: State, x: int)
    requires 0 <= x < |s.procs|
  {
    var q := s.procs[x];
    && (!q.state.Unused? ==> HasPid(s, x, q.pid))
    && (q.kstack != -1 ==> Has(s, x, Stack, q.kstack))
    && (q.pgdir != -1 ==> Has(s, x, Pages, q.pgdir))
    && (q.waiting ==> q.state.Live? && !q.killed) && q.parent != x
    && (!q.pc.User? ==> q.state.Live? && !q.waiting && MadeBy(s, q.pc.child, x))
    && match q.state
      case Unused => q.parent == -1 && q.kstack == -1 && q.pgdir == -1
      case Embryo => MakerOf(s, q.maker, x) && InFork(q, s.procs[q.maker].pc)
      case Live => q.kstack != -1 && q.pgdir != -1 && (x == s.init ==> q.parent == -1) && (x != s.init ==>
        IsLive(s, q.parent))
      case Zombie => q.kstack != -1 && q.pgdir != -1 && x != s.init && IsLive(s, q.parent) && !s.procs[q.parent].waiting
  }

  /** An embryo has what fork has given it so far. */
  predicate InFork(q: Proc, pc: Pc) {
    match pc
    case User => false
    case NeedStack(_) => q.parent == -1 && q.kstack == -1 && q.pgdir == -1
    case NeedPages(_) => q.parent == -1 && q.kstack != -1 && q.pgdir == -1
    case NeedStart(_) => q.parent == q.maker && q.kstack != -1 && q.pgdir != -1
  }

  /** A held resource is in the slot that holds it. */
  ghost predicate Kept(s: State, k: int)
    requires 0 <= k < |s.res|
  {
    var r := s.res[k];
    r.Held? ==>
      && 0 <= r.slot < |s.procs|
      && if r.kind.Stack? then s.procs[r.slot].kstack == k else s.procs[r.slot].pgdir == k
  }

  ghost predicate Inv(s: State) {
    && IsLive(s, s.init)
    && (forall x :: 0 <= x < |s.procs| ==> Good(s, x))
    && (forall k :: 0 <= k < |s.res| ==> Kept(s, k))
  }

  function Set(s: State, x: int, q: Proc): State
    requires 0 <= x < |s.procs|
  {
    s.(procs := s.procs[x := q])
  }

  /** The slot a fork is filling. */
  function Child(s: State, p: int): int {
    if 0 <= p < |s.procs| && !s.procs[p].pc.User? then s.procs[p].pc.child else -1
  }

  /** A slot after process p has exited. */
  ghost function AfterExit(s: State, p: int, x: int): Proc
    requires 0 <= x < |s.procs| && 0 <= p < |s.procs|
  {
    var q := s.procs[x];
    var woken := x == s.procs[p].parent || (x == s.init && exists y :: ZombieChild(s, p, y));
    q.(state := if x == p then Zombie else q.state, parent := if q.parent == p then s.init else q.parent,
       waiting := q.waiting && !woken)
  }

  ghost function Update(res: seq<Resource>, k: int, r: Resource): seq<Resource> {
    if 0 <= k < |res| then res[k := r] else res
  }

  ghost function Step(s: State, a: Action): (t: State)
    requires Inv(s) && Enabled(s, a)
    ensures |t.procs| == |s.procs| && t.init == s.init
  {
    assert Good(s, a.p);
    var q := s.procs[a.p];
    var c := Child(s, a.p);
    match a
    case AllocProc(p, np) =>
      var s1 := Set(s, np, s.procs[np].(state := Embryo, pid := |s.born|, maker := p));
      Set(s1, p, q.(pc := NeedStack(np))).(born := s.born + [np])
    case StackOk(p) =>
      var s1 := Set(s, c, s.procs[c].(kstack := |s.res|));
      Set(s1, p, q.(pc := NeedPages(c))).(res := s.res + [Held(c, Stack)])
    case StackFail(p) =>
      Set(Set(s, c, s.procs[c].(state := Unused)), p, q.(pc := User))
    case CopyOk(p) =>
      var s1 := Set(s, c, s.procs[c].(pgdir := |s.res|, parent := p));
      Set(s1, p, q.(pc := NeedStart(c))).(res := s.res + [Held(c, Pages)])
    case CopyFail(p) =>
      var s1 := Set(s, c, s.procs[c].(state := Unused, kstack := -1));
      Set(s1, p, q.(pc := User)).(res := Update(s.res, s.procs[c].kstack, Freed(-1, Stack)))
    case Start(p) =>
      Set(Set(s, c, s.procs[c].(state := Live)), p, q.(pc := User))
    case Exit(p) =>
      s.(procs := seq(|s.procs|, x requires 0 <= x < |s.procs| => AfterExit(s, p, x)))
    case Reap(p, y) =>
      var z := s.procs[y];
      var res := Update(Update(s.res, z.kstack, Freed(z.pid, Stack)), z.pgdir, Freed(z.pid, Pages));
      Set(s, y, z.(state := Unused, pid := 0, parent := -1, kstack := -1, pgdir := -1, killed := false)).(res := res)
    case Sleep(p) =>
      Set(s, p, q.(waiting := true))
    case Exec(p) =>
      Set(s, p, q.(pgdir := |s.res|)).(res := Update(s.res, q.pgdir, Freed(-1, Pages)) + [Held(p, Pages)])
    case Kill(p) =>
      Set(s, p, q.(killed := true, waiting := false))
  }

  lemma KeepRes(s: State, s': State)
    requires |s'.procs| == |s.procs|
    requires forall x :: 0 <= x < |s.procs| ==>
      s'.procs[x].kstack == s.procs[x].kstack && s'.procs[x].pgdir == s.procs[x].pgdir
    requires s'.res == s.res && forall k :: 0 <= k < |s.res| ==> Kept(s, k)
    ensures forall k :: 0 <= k < |s'.res| ==> Kept(s', k)
  {
    forall k | 0 <= k < |s'.res|
      ensures Kept(s', k)
    {
      assert Kept(s, k);
    }
  }

  lemma AllocKeeps(s: State, p: int, np: int)
    requires Inv(s) && Enabled(s, AllocProc(p, np))
    ensures Inv(Step(s, AllocProc(p, np)))
  {
    var s' := Step(s, AllocProc(p, np));
    KeepRes(s, s');
    forall x | 0 <= x < |s'.procs|
      ensures Good(s', x)
    {
      assert Good(s, x) && Good(s, np) && Good(s, p);
    }
  }

  lemma StackOkKeeps(s: State, p: int)
    requires Inv(s) && Enabled(s, StackOk(p))
    ensures Inv(Step(s, StackOk(p)))
  {
    var s', c := Step(s, StackOk(p)), Child(s, p);
    assert Good(s, p) && Good(s, c);
    forall x | 0 <= x < |s'.procs|
      ensures Good(s', x)
    {
      assert Good(s, x);
    }
    forall k | 0 <= k < |s'.res|
      ensures Kept(s', k)
    {
      assert k < |s.res| ==> Kept(s, k);
    }
  }

  lemma StackFailKeeps(s: State, p: int)
    requires Inv(s) && Enabled(s, StackFail(p))
    ensures Inv(Step(s, StackFail(p)))
  {
    var s', c := Step(s, StackFail(p)), Child(s, p);
    assert Good(s, p) && Good(s, c);
    KeepRes(s, s');
    forall x | 0 <= x < |s'.procs|
      ensures Good(s', x)
    {
      assert Good(s, x);
    }
  }

  lemma CopyKeeps(s: State, a: Action)
    requires Inv(s) && Enabled(s, a) && a.CopyOk?
    ensures Inv(Step(s, a))
  {
    var s', c := Step(s, a), Child(s, a.p);
    assert Good(s, a.p) && Good(s, c);
    forall x | 0 <= x < |s'.procs|
      ensures Good(s', x)
    {
      assert Good(s, x);
    }
    forall k | 0 <= k < |s'.res|
      ensures Kept(s', k)
    {
      assert k < |s.res| ==> Kept(s, k);
    }
  }

  lemma StartKeeps(s: State, a: Action)
    requires Inv(s) && Enabled(s, a) && a.Start?
    ensures Inv(Step(s, a))
  {
    var s', c := Step(s, a), Child(s, a.p);
    assert Good(s, a.p) && Good(s, c);
    forall x | 0 <= x < |s'.procs|
      ensures Good(s', x)
    {
      assert Good(s, x);
    }
    forall k | 0 <= k < |s'.res|
      ensures Kept(s', k)
    {
      assert k < |s.res| ==> Kept(s, k);
    }
  }

  lemma CopyFailKeeps(s: State, p: int)
    requires Inv(s) && Enabled(s, CopyFail(p))
    ensures Inv(Step(s, CopyFail(p)))
  {
    var s', c := Step(s, CopyFail(p)), Child(s, p);
    assert Good(s, p) && Good(s, c);
    forall x | 0 <= x < |s'.procs|
      ensures Good(s', x)
    {
      assert Good(s, x);
    }
    forall k | 0 <= k < |s'.res|
      ensures Kept(s', k)
    {
      assert Kept(s, k);
    }
  }

  lemma ExitKeeps(s: State, p: int)
    requires Inv(s) && Enabled(s, Exit(p))
    ensures Inv(Step(s, Exit(p)))
  {
    var s' := Step(s, Exit(p));
    KeepRes(s, s');
    forall x | 0 <= x < |s'.procs|
      ensures Good(s', x)
    {
      assert s'.procs[x] == AfterExit(s, p, x);
      assert s.procs[x].parent == p && s.procs[x].state.Zombie? ==> ZombieChild(s, p, x);
      var y := s'.procs[x].parent;
      assert 0 <= y < |s.procs| ==> s'.procs[y] == AfterExit(s, p, y);
      assert Good(s, x) && Good(s, p) && Good(s, s.init);
    }
  }

  lemma ReapKeeps(s: State, p: int, y: int)
    requires Inv(s) && Enabled(s, Reap(p, y))
    ensures Inv(Step(s, Reap(p, y)))
  {
    var s' := Step(s, Reap(p, y));
    assert Good(s, y) && Good(s, p);
    forall x | 0 <= x < |s'.procs|
      ensures Good(s', x)
    {
      assert Good(s, x);
    }
    forall k | 0 <= k < |s'.res|
      ensures Kept(s', k)
    {
      assert Kept(s, k);
    }
  }

  lemma SleepKeeps(s: State, p: int)
    requires Inv(s) && Enabled(s, Sleep(p))
    ensures Inv(Step(s, Sleep(p)))
  {
    var s' := Step(s, Sleep(p));
    KeepRes(s, s');
    forall x | 0 <= x < |s'.procs|
      ensures Good(s', x)
    {
      assert Good(s, x) && Good(s, p) && !ZombieChild(s, p, x);
    }
  }

  lemma ExecKeeps(s: State, p: int)
    requires Inv(s) && Enabled(s, Exec(p))
    ensures Inv(Step(s, Exec(p)))
  {
    var s' := Step(s, Exec(p));
    assert Good(s, p);
    forall x | 0 <= x < |s'.procs|
      ensures Good(s', x)
    {
      assert Good(s, x);
    }
    forall k | 0 <= k < |s'.res|
      ensures Kept(s', k)
    {
      assert k < |s.res| ==> Kept(s, k);
    }
  }

  lemma KillKeeps(s: State, p: int)
    requires Inv(s) && Enabled(s, Kill(p))
    ensures Inv(Step(s, Kill(p)))
  {
    var s' := Step(s, Kill(p));
    KeepRes(s, s');
    forall x | 0 <= x < |s'.procs|
      ensures Good(s', x)
    {
      assert Good(s, x) && Good(s, p);
    }
  }

  lemma StepKeeps(s: State, a: Action)
    requires Inv(s) && Enabled(s, a)
    ensures Inv(Step(s, a))
  {
    match a
    case AllocProc(p, np) => AllocKeeps(s, p, np);
    case StackOk(p) => StackOkKeeps(s, p);
    case StackFail(p) => StackFailKeeps(s, p);
    case CopyOk(_) => CopyKeeps(s, a);
    case CopyFail(p) => CopyFailKeeps(s, p);
    case Start(_) => StartKeeps(s, a);
    case Exit(p) => ExitKeeps(s, p);
    case Reap(p, y) => ReapKeeps(s, p, y);
    case Sleep(p) => SleepKeeps(s, p);
    case Exec(p) => ExecKeeps(s, p);
    case Kill(p) => KillKeeps(s, p);
  }

  /** The table after userinit: one process, with the pid 1. */
  ghost predicate Init(s: State) {
    && 0 <= s.init < |s.procs| && s.born == [-1, s.init] && s.res == [Held(s.init, Stack), Held(s.init, Pages)]
    && s.procs[s.init] == Proc(Live, 1, -1, 0, 1, false, false, User, -1)
    && forall x :: 0 <= x < |s.procs| && x != s.init ==>
      s.procs[x] == Proc(Unused, 0, -1, -1, -1, false, false, User, -1)
  }

  lemma InitInv(s: State)
    requires Init(s)
    ensures Inv(s)
  {
  }

  ghost predicate Reaches(s: State, run: seq<Action>, t: State)
    requires Inv(s)
    decreases |run|
  {
    if run == [] then t == s else Enabled(s, run[0]) && (StepKeeps(s, run[0]); Reaches(Step(s, run[0]), run[1..], t))
  }

  ghost predicate FromInit(s: State, run: seq<Action>, t: State) {
    Init(s) && (InitInv(s); Reaches(s, run, t))
  }

  lemma {:induction false} RunKeeps(s: State, run: seq<Action>, t: State)
    requires Inv(s) && Reaches(s, run, t)
    ensures Inv(t) && t.init == s.init && |t.procs| == |s.procs|
    decreases |run|
  {
    if run != [] {
      StepKeeps(s, run[0]);
      RunKeeps(Step(s, run[0]), run[1..], t);
    }
  }

  /** In every run: processes have distinct pids; every process that has been started, but for init, has a live
      parent; no process that waits has a child to reap; and every kernel stack and page table that has not been
      freed is in one slot, which is not unused. */
  lemma TreeHolds(s: State, run: seq<Action>, t: State)
    requires FromInit(s, run, t)
    ensures forall x, y :: 0 <= x < y < |t.procs| && !t.procs[x].state.Unused? && !t.procs[y].state.Unused? ==>
      t.procs[x].pid != t.procs[y].pid
    ensures forall x :: 0 <= x < |t.procs| && (t.procs[x].state.Live? || t.procs[x].state.Zombie?) && x != t.init ==>
      IsLive(t, t.procs[x].parent)
    ensures forall x, y :: 0 <= x < |t.procs| && t.procs[x].waiting ==> !ZombieChild(t, x, y)
    ensures forall k :: 0 <= k < |t.res| && t.res[k].Held? ==>
      0 <= t.res[k].slot < |t.procs| && !t.procs[t.res[k].slot].state.Unused?
    ensures forall x :: 0 <= x < |t.procs| && t.procs[x].waiting ==> t.procs[x].state.Live? && !t.procs[x].killed
  {
    InitInv(s);
    RunKeeps(s, run, t);
    forall x | 0 <= x < |t.procs|
      ensures !t.procs[x].state.Unused? ==> HasPid(t, x, t.procs[x].pid)
      ensures (t.procs[x].state.Live? || t.procs[x].state.Zombie?) && x != t.init ==> IsLive(t, t.procs[x].parent)
      ensures t.procs[x].state.Zombie? ==> !t.procs[t.procs[x].parent].waiting
      ensures t.procs[x].waiting ==> t.procs[x].state.Live? && !t.procs[x].killed
    {
      assert Good(t, x);
    }
    forall k | 0 <= k < |t.res| && t.res[k].Held?
      ensures 0 <= t.res[k].slot < |t.procs| && !t.procs[t.res[k].slot].state.Unused?
    {
      assert Kept(t, k);
      assert Good(t, t.res[k].slot);
    }
  }

  /** The wait that returns a zombie's pid frees its kernel stack and page table, which were held until then, and
      nothing else. */
  lemma ReapFrees(s: State, p: int, y: int)
    requires Inv(s) && Enabled(s, Reap(p, y))
    ensures var z, t := s.procs[y], Step(s, Reap(p, y));
      && Has(s, y, Stack, z.kstack) && Has(s, y, Pages, z.pgdir) && |t.res| == |s.res|
      && forall k :: 0 <= k < |s.res| ==>
        t.res[k] ==
          if k == z.kstack then Freed(z.pid, Stack) else if k == z.pgdir then Freed(z.pid, Pages) else s.res[k]
  {
    assert Good(s, y);
  }

  /** exit: the children go to init, whatever their state, and every other process keeps its parent; the process that
      exits becomes a zombie, and of the others only its parent, and init if it gets a zombie, stop waiting. */
  lemma ExitHands(s: State, p: int, x: int)
    requires Inv(s) && Enabled(s, Exit(p)) && 0 <= x < |s.procs|
    ensures var q, q' := s.procs[x], Step(s, Exit(p)).procs[x];
      && q'.parent == (if q.parent == p then s.init else q.parent)
      && q'.state == (if x == p then Zombie else q.state)
      && q'.waiting ==
         (q.waiting && x != s.procs[p].parent && !(x == s.init && exists y :: ZombieChild(s, p, y)))
      && q'.pid == q.pid && q'.kstack == q.kstack && q'.pgdir == q.pgdir && q'.killed == q.killed && q'.pc == q.pc
    ensures Step(s, Exit(p)).res == s.res && Step(s, Exit(p)).born == s.born
  {
    assert Step(s, Exit(p)).procs[x] == AfterExit(s, p, x);
  }

  /** A slot that keeps its state keeps its pid, and only kill marks it. */
  lemma SlotStays(s: State, a: Action, x: int)
    requires Inv(s) && Enabled(s, a) && 0 <= x < |s.procs| && s.procs[x].state == Step(s, a).procs[x].state
    ensures var q, q' := s.procs[x], Step(s, a).procs[x];
      q'.pid == q.pid && (q'.killed <==> q.killed || a == Kill(x))
  {
    assert Good(s, x) && Good(s, a.p);
    var k := Child(s, a.p);
    if 0 <= k < |s.procs| {
      assert Good(s, k);
    }
  }

  /** The life of a slot: taken by allocproc, started or given up by the fork it is for, a zombie by its own exit,
      unused again by a wait of its parent. */
  lemma LifeCycle(s: State, a: Action, x: int)
    requires Inv(s) && Enabled(s, a) && 0 <= x < |s.procs| && s.procs[x].state != Step(s, a).procs[x].state
    ensures var q, q' := s.procs[x], Step(s, a).procs[x];
      match q'.state
      case Unused => (q.state.Embryo? && (a == StackFail(q.maker) || a == CopyFail(q.maker))) ||
        (q.state.Zombie? && a == Reap(q.parent, x))
      case Embryo => q.state.Unused? && a.AllocProc? && a.np == x && q'.maker == a.p && q'.pid == |s.born|
      case Live => q.state.Embryo? && a == Start(q.maker) && q'.pid == q.pid && q'.parent == q.maker
      case Zombie => q.state.Live? && a == Exit(x) && q'.pid == q.pid
  {
    assert Good(s, x) && Good(s, a.p);
    var k := Child(s, a.p);
    if 0 <= k < |s.procs| {
      assert Good(s, k);
    }
  }

  ghost predicate ExitsIn(run: seq<Action>, p: int) {
    exists i :: 0 <= i < |run| && run[i] == Exit(p)
  }

  lemma ExitsLater(run: seq<Action>, p: int)
    requires run != []
    ensures ExitsIn(run, p) <==> run[0] == Exit(p) || ExitsIn(run[1..], p)
  {
    if i :| 0 <= i < |run| && run[i] == Exit(p) {
      assert i > 0 ==> run[1..][i - 1] == run[i];
    }
    if i :| 0 <= i < |run| - 1 && run[1..][i] == Exit(p) {
      assert run[i + 1] == run[1..][i];
    }
  }

  /** A process that has been given a parent. */
  ghost predicate HasParent(s: State, c: int, p: int) {
    0 <= c < |s.procs| && s.procs[c].parent == p && p >= 0
  }

  lemma ParentStep(s: State, a: Action, c: int, p: int)
    requires Inv(s) && Enabled(s, a) && HasParent(s, c, p) && !(a.Reap? && a.y == c)
    ensures HasParent(Step(s, a), c, if a == Exit(p) then s.init else p)
  {
    assert Good(s, c) && Good(s, a.p);
    var k := Child(s, a.p);
    if 0 <= k < |s.procs| {
      assert Good(s, k);
    }
    if a.Exit? {
      ExitHands(s, a.p, c);
    }
  }

  /** Every waiting process has a child. */
  ghost predicate WaitForChildren(s: State) {
    forall p :: 0 <= p < |s.procs| && s.procs[p].waiting ==> exists c :: HasParent(s, c, p)
  }

  lemma WaitStep(s: State, a: Action, p: int)
    requires Inv(s) && Enabled(s, a) && WaitForChildren(s) && 0 <= p < |s.procs| && Step(s, a).procs[p].waiting
    ensures exists c :: HasParent(Step(s, a), c, p)
  {
    assert Good(s, p) && Good(s, a.p);
    if a == Sleep(p) {
      var c :| 0 <= c < |s.procs| && s.procs[c].parent == p;
      assert HasParent(Step(s, a), c, p);
    } else {
      assert s.procs[p].waiting by {
        if a.Exit? {
          ExitHands(s, a.p, p);
        }
      }
      var c :| HasParent(s, c, p);
      ParentStep(s, a, c, p);
    }
  }

  lemma {:induction false} WaitRun(s: State, run: seq<Action>, t: State)
    requires Inv(s) && Reaches(s, run, t) && WaitForChildren(s)
    ensures WaitForChildren(t)
    decreases |run|
  {
    if run != [] {
      var s' := Step(s, run[0]);
      StepKeeps(s, run[0]);
      forall p | 0 <= p < |s'.procs| && s'.procs[p].waiting
        ensures exists c :: HasParent(s', c, p)
      {
        WaitStep(s, run[0], p);
      }
      WaitRun(s', run[1..], t);
    }
  }

  /** In every run a process that sleeps in wait has a child that has not exited yet. */
  lemma NeverWaitsInVain(s: State, run: seq<Action>, t: State, p: int)
    requires FromInit(s, run, t) && 0 <= p < |t.procs| && t.procs[p].waiting
    ensures exists c ::
      0 <= c < |t.procs| && t.procs[c].parent == p && (t.procs[c].state.Live? || t.procs[c].state.Embryo?)
  {
    InitInv(s);
    WaitRun(s, run, t);
    RunKeeps(s, run, t);
    var c :| HasParent(t, c, p);
    assert Good(t, c) && Good(t, p);
  }

  lemma {:induction false} ParentRun(s: State, run: seq<Action>, t: State, c: int, p: int)
    requires Inv(s) && Reaches(s, run, t) && HasParent(s, c, p) && !ReapedIn(run, c)
    ensures HasParent(t, c, if ExitsIn(run, p) then s.init else p)
    decreases |run|
  {
    if run != [] {
      var a := run[0];
      StepKeeps(s, a);
      ReapedLater(run, c);
      ExitsLater(run, p);
      ParentStep(s, a, c, p);
      ParentRun(Step(s, a), run[1..], t, c, if a == Exit(p) then s.init else p);
      if a == Exit(p) {
        InitStays(Step(s, a), run[1..], t);
      }
    }
  }

  /** init does not exit. */
  lemma {:induction false} InitStays(s: State, run: seq<Action>, t: State)
    requires Inv(s) && Reaches(s, run, t)
    ensures !ExitsIn(run, s.init)
    decreases |run|
  {
    if run != [] {
      StepKeeps(s, run[0]);
      ExitsLater(run, s.init);
      InitStays(Step(s, run[0]), run[1..], t);
    }
  }

  /** In every run a process's parent is the process whose fork made it, until that process exits, and init from then
      on; this holds until a wait returns the process. */
  lemma ParentIsForker(s0: State, run0: seq<Action>, s: State, p: int, run: seq<Action>, t: State)
    requires FromInit(s0, run0, s) && Forked(s, p, run, t)
    ensures var c := Child(s, p);
      0 <= c < |t.procs| && (!ReapedIn(run, c) ==> t.procs[c].parent == if ExitsIn(run, p) then s0.init else p)
  {
    InitInv(s0);
    RunKeeps(s0, run0, s);
    StepKeeps(s, CopyOk(p));
    var s' := Step(s, CopyOk(p));
    var c := Child(s, p);
    assert Good(s, p);
    RunKeeps(s', run, t);
    if !ReapedIn(run, c) {
      ParentRun(s', run, t, c, p);
    }
  }

  /** The fork of p gives its child the address space, and the run goes on to t. */
  ghost predicate Forked(s: State, p: int, run: seq<Action>, t: State) {
    Inv(s) && Enabled(s, CopyOk(p)) && (StepKeeps(s, CopyOk(p)); Reaches(Step(s, CopyOk(p)), run, t))
  }

  /** What has been freed stays freed. */
  lemma FreedOnce(s: State, a: Action, k: int)
    requires Inv(s) && Enabled(s, a) && 0 <= k < |s.res| && s.res[k].Freed?
    ensures k < |Step(s, a).res| && Step(s, a).res[k] == s.res[k]
  {
    assert Good(s, a.p);
    var c := Child(s, a.p);
    if 0 <= c < |s.procs| {
      assert Good(s, c);
    }
    if a.Reap? {
      assert Good(s, a.y);
    }
  }

  lemma {:induction false} FreedForGood(s: State, run: seq<Action>, t: State, k: int)
    requires Inv(s) && Reaches(s, run, t) && 0 <= k < |s.res| && s.res[k].Freed?
    ensures k < |t.res| && t.res[k] == s.res[k]
    decreases |run|
  {
    if run != [] {
      FreedOnce(s, run[0], k);
      StepKeeps(s, run[0]);
      FreedForGood(Step(s, run[0]), run[1..], t, k);
    }
  }

  /** Slot y is the zombie that z describes. */
  ghost predicate SameZombie(q: Proc, z: Proc) {
    q.state.Zombie? && q.pid == z.pid && q.kstack == z.kstack && q.pgdir == z.pgdir
  }

  lemma ZombieSlot(s: State, a: Action, y: int)
    requires Inv(s) && Enabled(s, a) && 0 <= y < |s.procs| && s.procs[y].state.Zombie? && !(a.Reap? && a.y == y)
    ensures SameZombie(Step(s, a).procs[y], s.procs[y])
  {
    assert Good(s, y) && Good(s, a.p);
    var c := Child(s, a.p);
    if 0 <= c < |s.procs| {
      assert Good(s, c);
    }
    if a.Exit? {
      assert Step(s, a).procs[y] == AfterExit(s, a.p, y);
    }
  }

  /** A zombie keeps what it holds until it is reaped. */
  lemma ZombieKeeps(s: State, a: Action, y: int)
    requires Inv(s) && Enabled(s, a) && 0 <= y < |s.procs| && s.procs[y].state.Zombie? && !(a.Reap? && a.y == y)
    ensures var z, t := s.procs[y], Step(s, a);
      SameZombie(t.procs[y], z) && Has(t, y, Stack, z.kstack) && Has(t, y, Pages, z.pgdir)
  {
    ZombieSlot(s, a, y);
    StepKeeps(s, a);
    assert Good(Step(s, a), y);
  }

  /** Some action of the run is a wait that returns slot y. */
  ghost predicate ReapedIn(run: seq<Action>, y: int) {
    exists i :: 0 <= i < |run| && run[i].Reap? && run[i].y == y
  }

  lemma ReapedLater(run: seq<Action>, y: int)
    requires run != [] && !(run[0].Reap? && run[0].y == y)
    ensures ReapedIn(run, y) <==> ReapedIn(run[1..], y)
  {
    if i :| 0 <= i < |run| && run[i].Reap? && run[i].y == y {
      assert run[1..][i - 1] == run[i];
    }
    if i :| 0 <= i < |run| - 1 && run[1..][i].Reap? && run[1..][i].y == y {
      assert run[i + 1] == run[1..][i];
    }
  }

  lemma {:induction false} ZombieRun(s: State, run: seq<Action>, t: State, y: int)
    requires Inv(s) && Reaches(s, run, t) && 0 <= y < |s.procs| && s.procs[y].state.Zombie?
    ensures 0 <= y < |t.procs| && var z := s.procs[y];
      if ReapedIn(run, y) then
        && 0 <= z.kstack < |t.res| && t.res[z.kstack] == Freed(z.pid, Stack)
        && 0 <= z.pgdir < |t.res| && t.res[z.pgdir] == Freed(z.pid, Pages)
      else SameZombie(t.procs[y], z) && Has(t, y, Stack, z.kstack) && Has(t, y, Pages, z.pgdir)
    decreases |run|
  {
    assert Good(s, y);
    if run != [] {
      var a := run[0];
      StepKeeps(s, a);
      var s' := Step(s, a);
      RunKeeps(s', run[1..], t);
      if a.Reap? && a.y == y {
        ReapFrees(s, a.p, y);
        FreedForGood(s', run[1..], t, s.procs[y].kstack);
        FreedForGood(s', run[1..], t, s.procs[y].pgdir);
      } else {
        ZombieKeeps(s, a, y);
        ZombieRun(s', run[1..], t, y);
        ReapedLater(run, y);
      }
    }
  }

  /** A run from the start to s goes on to t. */
  ghost predicate GoesOn(s0: State, run0: seq<Action>, s: State, run: seq<Action>, t: State) {
    FromInit(s0, run0, s) && (InitInv(s0); RunKeeps(s0, run0, s); Reaches(s, run, t))
  }

  /** In every run, however it goes on after a process has become a zombie: its kernel stack and page table are
      freed exactly if the run has a wait that returns its slot, under its pid, and are its own until then. */
  lemma FreedByWait(s0: State, run0: seq<Action>, s: State, run: seq<Action>, t: State, y: int)
    requires GoesOn(s0, run0, s, run, t) && 0 <= y < |s.procs| && s.procs[y].state.Zombie?
    ensures var z := s.procs[y];
      if ReapedIn(run, y) then
        && 0 <= z.kstack < |t.res| && t.res[z.kstack] == Freed(z.pid, Stack)
        && 0 <= z.pgdir < |t.res| && t.res[z.pgdir] == Freed(z.pid, Pages)
      else Has(t, y, Stack, z.kstack) && Has(t, y, Pages, z.pgdir)
  {
    InitInv(s0);
    RunKeeps(s0, run0, s);
    ZombieRun(s, run, t, y);
  }
}
