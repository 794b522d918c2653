/**
 The page replacement simulator of lab-07/sim.c.  Processes and pages count from 0 here, from 1 in the trace.
 */
module PageReplacement {
  import opened Basics

  const PAGES: nat := 16     // NUM_PAGINAS
  const PROCESSES: nat := 2  // NUM_PROCESOS
  const FRAMES: nat := 8     // NUM_MARCOS

  /** memoriaFisica[i]; pid is -1 in an empty frame. */
  datatype Frame = Frame(pid: int, page: int)

  /** A page table entry: pagina, presente, contadorLRU, indiceMarco. */
  datatype Entry = Entry(page: int, present: bool, counter: int, frame: int)

  ghost predicate Shape(frames: seq<Frame>, table: seq<seq<Entry>>) {
    |frames| == FRAMES && |table| == PROCESSES && forall p :: 0 <= p < PROCESSES ==> |table[p]| == PAGES
  }

  ghost predicate Resident(table: seq<seq<Entry>>, p: int, g: int) {
    0 <= p < |table| && 0 <= g < |table[p]| && table[p][g].present
  }

  /** An occupied frame is that of the resident page it names. */
  ghost predicate FrameOk(frames: seq<Frame>, table: seq<seq<Entry>>, f: int)
    requires 0 <= f < |frames|
  {
    frames[f].pid == -1 ||
    (Resident(table, frames[f].pid, frames[f].page) && table[frames[f].pid][frames[f].page].frame == f)
  }

  /** A resident page is in the frame it names; the entry's own fields are in order. */
  ghost predicate EntryOk(frames: seq<Frame>, table: seq<seq<Entry>>, p: int, g: int)
    requires 0 <= p < |table| && 0 <= g < |table[p]|
  {
    var e := table[p][g];
    && (e.page == -1 || e.page == g) && (e.counter == -1 <==> e.page == -1) && e.counter >= -1
    && (e.present ==> e.page == g && 0 <= e.frame < |frames| && frames[e.frame] == Frame(p, g))
  }

  /** Resident pages and occupied frames correspond one to one. */
  ghost predicate OneToOne(frames: seq<Frame>, table: seq<seq<Entry>>) {
    && Shape(frames, table)
    && (forall f :: 0 <= f < FRAMES ==> FrameOk(frames, table, f))
    && (forall p, g :: 0 <= p < PROCESSES && 0 <= g < PAGES ==> EntryOk(frames, table, p, g))
  }

  /** The counters of a row after a hit on page g. */
  function Hit(row: seq<Entry>, g: int, k: int): Entry
    requires 0 <= k < |row|
  {
    var e := row[k];
    if e.page == g then e.(counter := 0) else if e.counter != -1 then e.(counter := e.counter + 1) else e
  }

  /** The counters of a row after a load. */
  function Aged(row: seq<Entry>, k: int): Entry
    requires 0 <= k < |row|
  {
    var e := row[k];
    if e.counter != -1 then e.(counter := e.counter + 1) else e
  }

  method HitRow(row: seq<Entry>, g: int) returns (r: seq<Entry>)
    ensures |r| == |row| && forall k :: 0 <= k < |row| ==> r[k] == Hit(row, g, k)
  {
    r := row;
    for j := 0 to |row|
      invariant |r| == |row| && forall k :: 0 <= k < |row| ==> r[k] == if k < j then Hit(row, g, k) else row[k]
    {
      if r[j].page == g {
        r := r[j := r[j].(counter := 0)];
      } else if r[j].counter != -1 {
        r := r[j := r[j].(counter := r[j].counter + 1)];
      }
    }
  }

  method AgeRow(row: seq<Entry>) returns (r: seq<Entry>)
    ensures |r| == |row| && forall k :: 0 <= k < |row| ==> r[k] == Aged(row, k)
  {
    r := row;
    for j := 0 to |row|
      invariant |r| == |row| && forall k :: 0 <= k < |row| ==> r[k] == if k < j then Aged(row, k) else row[k]
    {
      if r[j].counter != -1 {
        r := r[j := r[j].(counter := r[j].counter + 1)];
      }
    }
  }

  lemma HitKeeps(frames: seq<Frame>, table: seq<seq<Entry>>, p: int, g: int, row: seq<Entry>)
    requires OneToOne(frames, table) && 0 <= p < PROCESSES && 0 <= g < PAGES && Resident(table, p, g)
    requires |row| == PAGES && forall k :: 0 <= k < PAGES ==> row[k] == Hit(table[p], g, k)
    ensures OneToOne(frames, table[p := row])
  {
    var t := table[p := row];
    forall f | 0 <= f < FRAMES
      ensures FrameOk(frames, t, f)
    {
      assert FrameOk(frames, table, f);
    }
    forall q, k | 0 <= q < PROCESSES && 0 <= k < PAGES
      ensures EntryOk(frames, t, q, k)
    {
      assert EntryOk(frames, table, q, k);
    }
  }

  lemma AgeKeeps(frames: seq<Frame>, table: seq<seq<Entry>>, p: int, row: seq<Entry>)
    requires OneToOne(frames, table) && 0 <= p < PROCESSES
    requires |row| == PAGES && forall k :: 0 <= k < PAGES ==> row[k] == Aged(table[p], k)
    ensures OneToOne(frames, table[p := row])
  {
    var t := table[p := row];
    forall f | 0 <= f < FRAMES
      ensures FrameOk(frames, t, f)
    {
      assert FrameOk(frames, table, f);
    }
    forall q, k | 0 <= q < PROCESSES && 0 <= k < PAGES
      ensures EntryOk(frames, t, q, k)
    {
      assert EntryOk(frames, table, q, k);
    }
  }

  ghost function SetEntry(table: seq<seq<Entry>>, p: int, g: int, e: Entry): seq<seq<Entry>>
    requires 0 <= p < |table| && 0 <= g < |table[p]|
  {
    table[p := table[p][g := e]]
  }

  /** The tables once the page in frame f, if any, is out. */
  ghost function Evict(frames: seq<Frame>, table: seq<seq<Entry>>, f: int): seq<seq<Entry>>
    requires Shape(frames, table) && 0 <= f < FRAMES && FrameOk(frames, table, f)
  {
    var v := frames[f];
    if v.pid == -1 then table else SetEntry(table, v.pid, v.page, table[v.pid][v.page].(present := false))
  }

  lemma LoadKeeps(frames: seq<Frame>, table: seq<seq<Entry>>, p: int, g: int, f: int)
    requires OneToOne(frames, table) && 0 <= p < PROCESSES
    requires 0 <= g < PAGES && !Resident(table, p, g) && 0 <= f < FRAMES
    ensures FrameOk(frames, table, f)
    ensures OneToOne(frames[f := Frame(p, g)], SetEntry(Evict(frames, table, f), p, g, Entry(g, true, 0, f)))
  {
    assert FrameOk(frames, table, f);
    var fr, t := frames[f := Frame(p, g)], SetEntry(Evict(frames, table, f), p, g, Entry(g, true, 0, f));
    forall x | 0 <= x < FRAMES
      ensures FrameOk(fr, t, x)
    {
      assert FrameOk(frames, table, x);
    }
    forall q, k | 0 <= q < PROCESSES && 0 <= k < PAGES
      ensures EntryOk(fr, t, q, k)
    {
      assert EntryOk(frames, table, q, k);
    }
  }

  /** The time of the last use of page g, or -1. */
  function LastUse(uses: seq<int>, g: int): (t: int)
    ensures -1 <= t < |uses| && (t >= 0 ==> uses[t] == g)
  {
    if uses == [] then -1 else if uses[|uses| - 1] == g then |uses| - 1 else LastUse(uses[..|uses| - 1], g)
  }

  lemma LastUseNext(uses: seq<int>, h: int, g: int)
    ensures LastUse(uses + [h], g) == if h == g then |uses| else LastUse(uses, g)
  {
    assert (uses + [h])[..|uses|] == uses;
  }

  /** How many requests of its process ago page g was used, and one more if that was a load; -1 if it never was. */
  function Age(uses: seq<int>, loads: seq<bool>, g: int): int
    requires |loads| == |uses|
  {
    var t := LastUse(uses, g);
    if t == -1 then -1 else |uses| - 1 - t + if loads[t] then 1 else 0
  }

  /** The row of a process that has used the pages uses, in order; loads says which of its requests were not hits. */
  ghost predicate Counters(uses: seq<int>, loads: seq<bool>, row: seq<Entry>) {
    |loads| == |uses| && forall g :: 0 <= g < |row| ==> CounterOk(uses, loads, row, g)
  }

  ghost predicate CounterOk(uses: seq<int>, loads: seq<bool>, row: seq<Entry>, g: int)
    requires |loads| == |uses| && 0 <= g < |row|
  {
    row[g].counter == Age(uses, loads, g)
  }

  lemma HitCounters(uses: seq<int>, loads: seq<bool>, row: seq<Entry>, g: int, row': seq<Entry>)
    requires Counters(uses, loads, row) && 0 <= g < |row| && row[g].page == g && row[g].counter != -1
    requires forall k :: 0 <= k < |row| ==> row[k].page == -1 || row[k].page == k
    requires |row'| == |row| && forall k :: 0 <= k < |row| ==> row'[k] == Hit(row, g, k)
    ensures Counters(uses + [g], loads + [false], row')
  {
    forall k | 0 <= k < |row'|
      ensures CounterOk(uses + [g], loads + [false], row', k)
    {
      assert CounterOk(uses, loads, row, k);
      LastUseNext(uses, g, k);
    }
  }

  lemma LoadCounters(uses: seq<int>, loads: seq<bool>, row: seq<Entry>, g: int, e: Entry, row': seq<Entry>)
    requires Counters(uses, loads, row) && 0 <= g < |row| && e.counter == 0
    requires |row'| == |row| && forall k :: 0 <= k < |row| ==> row'[k] == Aged(row[g := e], k)
    ensures Counters(uses + [g], loads + [true], row')
  {
    forall k | 0 <= k < |row'|
      ensures CounterOk(uses + [g], loads + [true], row', k)
    {
      assert CounterOk(uses, loads, row, k);
      LastUseNext(uses, g, k);
    }
  }

  /** A page with the largest counter is the least recently used page or the next one. */
  lemma NearlyOldest(uses: seq<int>, loads: seq<bool>, row: seq<Entry>, v: int, a: int, b: int)
    requires Counters(uses, loads, row) && 0 <= v < |row| && 0 <= a < |row| && 0 <= b < |row|
    requires row[v].counter != -1 && row[a].counter != -1 && row[b].counter != -1
    requires row[v].counter >= row[a].counter && row[v].counter >= row[b].counter
    requires LastUse(uses, a) < LastUse(uses, v) && LastUse(uses, b) < LastUse(uses, v)
    ensures a == b
  {
    assert CounterOk(uses, loads, row, v) && CounterOk(uses, loads, row, a) && CounterOk(uses, loads, row, b);
  }

  lemma StillCounts(uses: seq<int>, loads: seq<bool>, row: seq<Entry>, row': seq<Entry>)
    requires Counters(uses, loads, row) && |row'| == |row| && forall k :: 0 <= k < |row| ==>
      row'[k].counter == row[k].counter
    ensures Counters(uses, loads, row')
  {
    forall k | 0 <= k < |row'|
      ensures CounterOk(uses, loads, row', k)
    {
      assert CounterOk(uses, loads, row, k);
    }
  }

  /** The tables in which page g of process p has been put in frame f. */
  ghost function Put(frames: seq<Frame>, table: seq<seq<Entry>>, p: int, g: int, f: int): seq<seq<Entry>>
    requires Shape(frames, table) && 0 <= f < FRAMES && FrameOk(frames, table, f)
    requires 0 <= p < PROCESSES && 0 <= g < PAGES
  {
    SetEntry(Evict(frames, table, f), p, g, Entry(g, true, 0, f))
  }

  lemma PutResident(frames: seq<Frame>, table: seq<seq<Entry>>, p: int, g: int, f: int, row: seq<Entry>)
    requires Shape(frames, table) && 0 <= f < FRAMES && FrameOk(frames, table, f)
    requires 0 <= p < PROCESSES && 0 <= g < PAGES
    requires |row| == PAGES && forall k :: 0 <= k < PAGES ==> row[k] == Aged(Put(frames, table, p, g, f)[p], k)
    ensures forall q, k :: Resident(Put(frames, table, p, g, f)[p := row], q, k) <==>
      (q == p && k == g) || (Resident(table, q, k) && frames[f] != Frame(q, k))
  {
    var e: seq<seq<Entry>> := Evict(frames, table, f);
    var t: seq<seq<Entry>> := Put(frames, table, p, g, f)[p := row];
    forall q: int, k: int
      ensures Resident(t, q, k) <==> (q == p && k == g) || (Resident(table, q, k) && frames[f] != Frame(q, k))
    {
      if 0 <= q < PROCESSES && 0 <= k < PAGES {
        assert e[q][k].present <==> table[q][k].present && frames[f] != Frame(q, k);
        assert t[q][k].present <==> (q == p && k == g) || e[q][k].present;
      }
    }
  }

  lemma PutCounters(frames: seq<Frame>, table: seq<seq<Entry>>, uses: seq<int>, loads: seq<bool>, p: int, g: int,
      f: int, row: seq<Entry>)
    requires Shape(frames, table) && 0 <= f < FRAMES && FrameOk(frames, table, f)
    requires 0 <= p < PROCESSES && 0 <= g < PAGES
    requires |row| == PAGES && forall k :: 0 <= k < PAGES ==> row[k] == Aged(Put(frames, table, p, g, f)[p], k)
    requires Counters(uses, loads, table[p])
    ensures Counters(uses + [g], loads + [true], row)
  {
    var t := Evict(frames, table, f);
    StillCounts(uses, loads, table[p], t[p]);
    LoadCounters(uses, loads, t[p], g, Entry(g, true, 0, f), row);
  }

  /** Of the resident pages of process p, at most one was used less recently than page v. */
  ghost predicate AtMostOneOlder(uses: seq<int>, table: seq<seq<Entry>>, p: int, v: int) {
    forall a, b ::
      Resident(table, p, a) && Resident(table, p, b) &&
      LastUse(uses, a) < LastUse(uses, v) && LastUse(uses, b) < LastUse(uses, v) ==>
        a == b
  }

  /** No resident page is older than v, each counted in the requests of its own process; and of the resident pages of
      that process at most one was used less recently. */
  ghost predicate Oldest(uses: seq<seq<int>>, loads: seq<seq<bool>>, table: seq<seq<Entry>>, v: Frame) {
    && |table| == |uses| == |loads| && Resident(table, v.pid, v.page)
    && (forall q :: 0 <= q < |uses| ==> |loads[q]| == |uses[q]|)
    && (forall q, k :: Resident(table, q, k) ==>
      Age(uses[q], loads[q], k) <= Age(uses[v.pid], loads[v.pid], v.page))
    && AtMostOneOlder(uses[v.pid], table, v.pid, v.page)
  }

  lemma VictimIsOldest(frames: seq<Frame>, table: seq<seq<Entry>>, uses: seq<seq<int>>, loads: seq<seq<bool>>, f: int)
    requires OneToOne(frames, table) && 0 <= f < FRAMES && frames[f].pid != -1 && |uses| == PROCESSES == |loads|
    requires forall p :: 0 <= p < PROCESSES ==> Counters(uses[p], loads[p], table[p])
    requires Resident(table, frames[f].pid, frames[f].page)
    requires forall q, k :: Resident(table, q, k) ==>
      table[q][k].counter <= table[frames[f].pid][frames[f].page].counter
    ensures Oldest(uses, loads, table, frames[f])
  {
    var p, v := frames[f].pid, frames[f].page;
    assert EntryOk(frames, table, p, v) && CounterOk(uses[p], loads[p], table[p], v);
    forall q, k | Resident(table, q, k)
      ensures Age(uses[q], loads[q], k) <= Age(uses[p], loads[p], v)
    {
      assert CounterOk(uses[q], loads[q], table[q], k);
    }
    forall a, b | Resident(table, p, a) && Resident(table, p, b) && LastUse(uses[p], a) < LastUse(uses[p], v) &&
        LastUse(uses[p], b) < LastUse(uses[p], v)
      ensures a == b
    {
      assert EntryOk(frames, table, p, a) && EntryOk(frames, table, p, b);
      NearlyOldest(uses[p], loads[p], table[p], v, a, b);
    }
  }

  /** Process p has used page g. */
  ghost predicate Used(uses: seq<seq<int>>, p: int, g: int, uses': seq<seq<int>>) {
    0 <= p < |uses| && uses' == uses[p := uses[p] + [g]]
  }

  class Simulator {
    var frames: seq<Frame>
    var table: seq<seq<Entry>>
    ghost var users: set<int>
    ghost var uses: seq<seq<int>>
    ghost var loads: seq<seq<bool>>

    constructor ()
      ensures Valid() && users == {} && uses == [[], []]
    {
      frames := seq(FRAMES, _ => Frame(-1, -1));
      table := seq(PROCESSES, _ => seq(PAGES, _ => Entry(-1, false, -1, -1)));
      users, uses, loads := {}, [[], []], [[], []];
    }

    /** users: the processes that have made requests; uses and loads: the requests of each. */
    ghost predicate Valid()
      reads this
    {
      && OneToOne(frames, table)
      && (forall p, g :: Resident(table, p, g) ==> p in users)
      && |uses| == PROCESSES && |loads| == PROCESSES
      && forall p :: 0 <= p < PROCESSES ==> Counters(uses[p], loads[p], table[p])
    }

    method FindPage(p: int, g: int) returns (found: bool)
      requires OneToOne(frames, table) && 0 <= p < PROCESSES && 0 <= g < PAGES
      ensures found == table[p][g].present
    {
      found := false;
      var i := 0;
      while i < FRAMES && !found
        invariant 0 <= i <= FRAMES && (found ==> table[p][g].present)
        invariant !found ==> forall f :: 0 <= f < i ==> frames[f] != Frame(p, g)
      {
        assert FrameOk(frames, table, i);
        found := frames[i].pid == p && frames[i].page == g;
        i := i + 1;
      }
      assert EntryOk(frames, table, p, g);
    }

    ghost function CounterIn(f: int): int
      requires OneToOne(frames, table) && 0 <= f < FRAMES && frames[f].pid != -1
      reads this
    {
      assert FrameOk(frames, table, f);
      table[frames[f].pid][frames[f].page].counter
    }

    /** The first empty frame, or else the first with the largest counter. */
    method FindFrame() returns (r: int)
      requires OneToOne(frames, table)
      ensures 0 <= r < FRAMES
      ensures frames[r].pid == -1 ==> forall f :: 0 <= f < r ==> frames[f].pid != -1
      ensures frames[r].pid != -1 ==>
        forall f :: 0 <= f < FRAMES ==> frames[f].pid != -1 && CounterIn(f) <= CounterIn(r)
    {
      r := -1;
      var max := -1;
      for i := 0 to FRAMES
        invariant -1 <= r < i && (r == -1 <==> i == 0)
        invariant forall f :: 0 <= f < i ==> frames[f].pid != -1 && CounterIn(f) <= max
        invariant r != -1 ==> max == CounterIn(r)
        invariant r == -1 ==> max == -1
      {
        assert FrameOk(frames, table, i);
        if frames[i].pid == -1 {
          r := i;
          return;
        }
        assert EntryOk(frames, table, frames[i].pid, frames[i].page);
        if table[frames[i].pid][frames[i].page].counter > max {
          max := table[frames[i].pid][frames[i].page].counter;
          r := i;
        }
      }
    }
  
    /** A request that finds its page. */
    method Touch(p: int, g: int)
      requires Valid() && 0 <= p < PROCESSES && 0 <= g < PAGES && Resident(table, p, g)
      modifies `table, `users, `uses, `loads
      ensures Valid() && users == old(users) + {p} && Used(old(uses), p, g, uses)
      ensures forall q, k :: Resident(table, q, k) <==> Resident(old(table), q, k)
    {
      var row := HitRow(table[p], g);
      HitKeeps(frames, table, p, g, row);
      assert EntryOk(frames, table, p, g);
      forall k | 0 <= k < PAGES
        ensures table[p][k].page == -1 || table[p][k].page == k
      {
        assert EntryOk(frames, table, p, k);
      }
      HitCounters(uses[p], loads[p], table[p], g, row);
      table := table[p := row];
      assert forall q, k :: Resident(table, q, k) ==> Resident(old(table), q, k);
      users, uses, loads := users + {p}, uses[p := uses[p] + [g]], loads[p := loads[p] + [false]];
    }

    /** A request that does not find its page; the page in frame f, if any, goes out. */
    method Load(p: int, g: int, f: int)
      requires Valid() && 0 <= p < PROCESSES && 0 <= g < PAGES && !Resident(table, p, g) && 0 <= f < FRAMES
      modifies `frames, `table, `users, `uses, `loads
      ensures Valid() && users == old(users) + {p} && Used(old(uses), p, g, uses)
      ensures frames == old(frames)[f := Frame(p, g)]
      ensures forall q, k :: Resident(table, q, k) <==>
        (q == p && k == g) || (Resident(old(table), q, k) && old(frames)[f] != Frame(q, k))
    {
      LoadKeeps(frames, table, p, g, f);
      var v := frames[f];
      if v.pid != -1 {
        table := table[v.pid := table[v.pid][v.page := table[v.pid][v.page].(present := false)]];
      }
      frames := frames[f := Frame(p, g)];
      table := table[p := table[p][g := Entry(g, true, 0, f)]];
      assert table == Put(old(frames), old(table), p, g, f);
      var row := AgeRow(table[p]);
      AgeKeeps(frames, table, p, row);
      PutResident(old(frames), old(table), p, g, f, row);
      PutCounters(old(frames), old(table), uses[p], loads[p], p, g, f, row);
      forall q | 0 <= q < PROCESSES && q != p
        ensures Counters(uses[q], loads[q], table[q])
      {
        StillCounts(uses[q], loads[q], old(table)[q], table[q]);
      }
      table := table[p := row];
      assert forall q, k :: Resident(table, q, k) ==> q == p || Resident(old(table), q, k);
      users, uses, loads := users + {p}, uses[p := uses[p] + [g]], loads[p := loads[p] + [true]];
    }

    /** asignarPagina.  `victim` is the page that had to go. */
    method Assign(p: int, g: int) returns (ghost victim: Option<Frame>)
      requires Valid() && 0 <= p < PROCESSES && 0 <= g < PAGES
      modifies this
      ensures Valid() && users == old(users) + {p} && Used(old(uses), p, g, uses)
      ensures forall q, k :: Resident(table, q, k) <==>
        (q == p && k == g) || (Resident(old(table), q, k) && victim != Some(Frame(q, k)))
      ensures victim.Some? ==>
        && !Resident(old(table), p, g) && Resident(old(table), victim.value.pid, victim.value.page)
        && forall f :: 0 <= f < FRAMES ==> old(frames)[f].pid != -1
      ensures victim.Some? ==> Oldest(old(uses), old(loads), old(table), victim.value)
      ensures victim.Some? && old(users) <= {p} ==> victim.value.pid == p
    {
      victim := None;
      var found := FindPage(p, g);
      if found {
        Touch(p, g);
        return;
      }
      var f := FindFrame();
      assert FrameOk(frames, table, f);
      if frames[f].pid != -1 {
        victim := Some(frames[f]);
        forall q, k | Resident(table, q, k)
          ensures table[q][k].counter <= CounterIn(f)
        {
          assert EntryOk(frames, table, q, k);
          assert CounterIn(table[q][k].frame) <= CounterIn(f);
        }
        VictimIsOldest(frames, table, uses, loads, f);
      }
      Load(p, g, f);
    }
  }
}
