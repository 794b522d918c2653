/**
 Page tables and physical pages (xv6/vm.c, xv6/kalloc.c).  A physical page is a frame number and holds
 N words; an address is a page number, so page N * i + j is entry j of the table in directory entry i.
 Every frame the allocator manages has a role, which names the one owner of the frame.
 */
module PageTables {
  import opened Basics
  import opened Folding

  const N: nat := 1024      // NPDENTRIES and NPTENTRIES
  const PGSIZE: nat := 4096
  const UPD: nat := 512     // directory entries below KERNBASE
  const PTE_W: nat := 2
  const PTE_U: nat := 4

  type Mem = map<int, seq<int>>

  predicate Present(w: int) {
    w % 2 == 1
  }

  function Addr(w: int): int {
    w / PGSIZE
  }

  function Flags(w: int): int {
    w % PGSIZE
  }

  /** The hardware's bits of an entry: 0x2 allows writes, 0x4 allows access from user mode. */
  predicate Writable(w: int) {
    w / 2 % 2 == 1
  }

  predicate UserOk(w: int) {
    w / 4 % 2 == 1
  }

  /** pa | perm | PTE_P */
  function Pte(f: int, perm: int): (w: int)
    ensures 0 <= perm < PGSIZE ==> Present(w) && Addr(w) == f && Flags(w) == perm + 1 - perm % 2
  {
    f * PGSIZE + perm + 1 - perm % 2
  }

  /** Who holds a frame: the free list, at some depth; a caller of kalloc; a page directory is its own
      root; a page table hangs in entry i of directory d; a user page in entry j of page table t. */
  datatype Role = Free(at: int) | Kept | Dir | Table(d: int, i: int) | User(t: int, j: int)

  type Roles = map<int, Role>

  /** The entries of such a frame own what they point to.  Kernel tables point to frames they do not own. */
  predicate Owns(r: Role) {
    r.Dir? || (r.Table? && r.i < UPD)
  }

  function Child(r: Role, p: int, k: int): Role {
    if r.Dir? then Table(p, k) else User(p, k)
  }

  ghost predicate Pages(mem: Mem, role: Roles) {
    forall f :: f in role ==> f in mem && |mem[f]| == N
  }

  ghost predicate Down(mem: Mem, role: Roles)
    requires Pages(mem, role)
  {
    forall p, k :: p in role && Owns(role[p]) && 0 <= k < N && Present(mem[p][k]) ==>
      Addr(mem[p][k]) in role && role[Addr(mem[p][k])] == Child(role[p], p, k)
  }

  ghost predicate Hangs(mem: Mem, role: Roles, c: int, p: int, k: int)
    requires Pages(mem, role) && c in role
  {
    && p in role && Owns(role[p]) && 0 <= k < N && Present(mem[p][k]) && Addr(mem[p][k]) == c
    && role[c] == Child(role[p], p, k)
  }

  ghost predicate Up(mem: Mem, role: Roles)
    requires Pages(mem, role)
  {
    && (forall c :: c in role && role[c].Table? ==> Hangs(mem, role, c, role[c].d, role[c].i))
    && (forall c :: c in role && role[c].User? ==> Hangs(mem, role, c, role[c].t, role[c].j))
  }

  /** A directory entry withholds nothing: the page table entries alone say what is allowed. */
  ghost predicate Open(mem: Mem, role: Roles)
    requires Pages(mem, role)
  {
    forall p, k :: p in role && role[p].Dir? && 0 <= k < N && Present(mem[p][k]) ==>
      Writable(mem[p][k]) && UserOk(mem[p][k])
  }

  /** Ownership is exact: what an owning entry points to names that entry as its owner, and back. */
  ghost predicate Owned(mem: Mem, role: Roles) {
    Pages(mem, role) && forall u :: Show(Owners, u) ==> Down(mem, role) && Up(mem, role) && Open(mem, role)
  }

  ghost predicate Childless(mem: Mem, role: Roles, f: int)
    requires Pages(mem, role) && f in role
  {
    Owns(role[f]) ==> forall k :: 0 <= k < N ==> !Present(mem[f][k])
  }

  lemma Link(mem: Mem, role: Roles, p: int, k: int, c: int, w: int)
    requires Owned(mem, role) && p in role && Owns(role[p]) && 0 <= k < N && !Present(mem[p][k])
    requires c in role && role[c] == Kept && Present(w) && Addr(w) == c
    requires role[p].Dir? ==> Writable(w) && UserOk(w)
    requires forall j :: 0 <= j < N ==> role[p].Dir? ==> !Present(mem[c][j])
    ensures Owned(mem[p := mem[p][k := w]], role[c := Child(role[p], p, k)])
  {
  }

  lemma Unlink(mem: Mem, role: Roles, p: int, k: int, page: seq<int>, at: int)
    requires Owned(mem, role) && p in role && Owns(role[p]) && 0 <= k < N && Present(mem[p][k]) && |page| == N
    requires Addr(mem[p][k]) in role && Childless(mem, role, Addr(mem[p][k]))
    ensures Owned(mem[Addr(mem[p][k]) := page][p := mem[p][k := 0]], role[Addr(mem[p][k]) := Free(at)])
  {
  }

  lemma Reuse(mem: Mem, role: Roles, f: int, page: seq<int>, r: Role)
    requires Owned(mem, role) && f in role && !role[f].Table? && !role[f].User? && Childless(mem, role, f)
    requires |page| == N && (r.Free? || r.Kept? || (r.Dir? && forall k :: 0 <= k < N ==> !Present(page[k])))
    ensures Owned(mem[f := page], role[f := r])
  {
  }

  lemma SetKernel(mem: Mem, role: Roles, t: int, page: seq<int>)
    requires Owned(mem, role) && t in role && (role[t].Table? && !Owns(role[t])) && |page| == N
    ensures Owned(mem[t := page], role)
  {
  }

  ghost predicate ChainAt(mem: Mem, role: Roles, free: seq<int>, k: int)
    requires 0 <= k < |free|
  {
    var f := free[k];
    f in role && role[f] == Free(k) && f in mem && |mem[f]| == N && mem[f][0] == if k == 0 then 0 else free[k - 1]
  }

  /** The free list runs through the first words of the free frames, from the last of `free` to the first. */
  ghost predicate Chain(mem: Mem, role: Roles, free: seq<int>, head: int) {
    && 0 !in role
    && (forall k :: 0 <= k < |free| ==> ChainAt(mem, role, free, k))
    && (forall f :: f in role && role[f].Free? ==> 0 <= role[f].at < |free| && free[role[f].at] == f)
    && head == Top(free)
  }

  function Top(free: seq<int>): int {
    if |free| == 0 then 0 else free[|free| - 1]
  }

  const JUNK := 0x0101_0101

  function FreedPage(next: int): (page: seq<int>)
    ensures |page| == N
  {
    seq(N, k => if k == 0 then next else JUNK)
  }

  lemma ChainPush(mem: Mem, role: Roles, free: seq<int>, f: int)
    requires Chain(mem, role, free, Top(free)) && f in role && !role[f].Free?
    ensures Chain(mem[f := FreedPage(Top(free))], role[f := Free(|free|)], free + [f], f)
  {
    var m, r, free' := mem[f := FreedPage(Top(free))], role[f := Free(|free|)], free + [f];
    forall k | 0 <= k < |free'|
      ensures ChainAt(m, r, free', k)
    {
      assert k < |free| ==> ChainAt(mem, role, free, k);
    }
  }

  lemma ChainPop(mem: Mem, role: Roles, free: seq<int>)
    requires Chain(mem, role, free, Top(free)) && |free| > 0
    ensures Top(free) in mem && |mem[Top(free)]| == N && Top(free) in role && role[Top(free)] == Free(|free| - 1)
    ensures Chain(mem, role[Top(free) := Kept], free[..|free| - 1], mem[Top(free)][0])
  {
    var n := |free| - 1;
    assert ChainAt(mem, role, free, n);
    var r, rest := role[Top(free) := Kept], free[..n];
    forall k | 0 <= k < n
      ensures ChainAt(mem, r, rest, k)
    {
      assert ChainAt(mem, role, free, k);
    }
  }

  lemma ChainSame(mem: Mem, role: Roles, mem': Mem, role': Roles, free: seq<int>)
    requires Chain(mem, role, free, Top(free)) && role'.Keys == role.Keys
    requires forall f :: f in role ==> !role[f].Free? ==> !role'[f].Free?
    requires forall f :: f in role && f in mem && role[f].Free? ==>
      role'[f] == role[f] && f in mem' && mem'[f] == mem[f]
    ensures Chain(mem', role', free, Top(free))
  {
    assert forall f :: f in role' <==> f in role;
    forall k | 0 <= k < |free|
      ensures ChainAt(mem', role', free, k)
    {
      assert ChainAt(mem, role, free, k);
    }
    forall f | f in role' && role'[f].Free?
      ensures 0 <= role'[f].at < |free| && free[role'[f].at] == f
    {
      assert f in role && role[f].Free?;
      assert ChainAt(mem, role, free, role[f].at);
    }
  }

  /** What the hardware finds at entry j of the table in directory entry i. */
  ghost function Lookup(mem: Mem, d: int, i: int, j: int): Option<int>
    requires d in mem && |mem[d]| == N && 0 <= i < N && 0 <= j < N
  {
    var e := mem[d][i];
    if !Present(e) || Addr(e) !in mem || |mem[Addr(e)]| != N then None else
      var w := mem[Addr(e)][j];
      if Present(w) then Some(w) else None
  }

  ghost predicate SameLookups(mem: Mem, mem': Mem, d: int) {
    && d in mem && d in mem' && |mem[d]| == N && |mem'[d]| == N
    && forall u :: Show(Lookups, u) ==> forall i, j :: 0 <= i < N && 0 <= j < N ==>
      Lookup(mem', d, i, j) == Lookup(mem, d, i, j)
  }

  predicate TableOf(role: Roles, f: int, d: int) {
    f in role && role[f].Table? && role[f].d == d
  }

  /** f is a page table or a user page of directory d. */
  predicate PartOf(role: Roles, f: int, d: int) {
    TableOf(role, f, d) || (f in role && role[f].User? && TableOf(role, role[f].t, d))
  }

  /** Frames that were held keep their role, and their contents unless they are d or a table of d;
      frames that were free may have become part of d.  The frames in `but` are left out. */
  ghost predicate Grew(mem: Mem, role: Roles, mem': Mem, role': Roles, d: int, but: set<int>) {
    role'.Keys == role.Keys && forall u :: Show(Frames, u) ==> GrewAll(mem, role, mem', role', d, but)
  }

  ghost predicate GrewAll(mem: Mem, role: Roles, mem': Mem, role': Roles, d: int, but: set<int>)
    requires role'.Keys == role.Keys
  {
    forall f :: f in role && f !in but ==> Stays(mem, role, mem', role', d, f)
  }

  ghost predicate Stays(mem: Mem, role: Roles, mem': Mem, role': Roles, d: int, f: int)
    requires f in role
  {
    f in role' && if role[f].Free? then role'[f].Free? || PartOf(role', f, d) else
      && role'[f] == role[f]
      && (f == d || TableOf(role, f, d) || (f in mem && f in mem' && mem'[f] == mem[f]))
  }

  function Zeros(): (page: seq<int>)
    ensures |page| == N && forall k :: 0 <= k < N ==> page[k] == 0
  {
    seq(N, k => 0)
  }

  lemma PteBits(f: int, perm: int)
    requires 0 <= perm < PGSIZE
    ensures Writable(Pte(f, perm)) == (perm / 2 % 2 == 1) && UserOk(Pte(f, perm)) == (perm / 4 % 2 == 1)
  {
    BitsOf(f, perm + 1 - perm % 2);
  }

  lemma BitsOf(f: int, x: int)
    requires 0 <= x < PGSIZE
    ensures (f * PGSIZE + x) / 2 % 2 == x / 2 % 2 && (f * PGSIZE + x) / 4 % 2 == x / 4 % 2
  {
    assert (f * PGSIZE + x) / 2 == 2 * (1024 * f) + x / 2;
    assert (f * PGSIZE + x) / 4 == 2 * (512 * f) + x / 4;
    SameParity(1024 * f, x / 2);
    SameParity(512 * f, x / 4);
  }

  lemma SameParity(g: int, y: int)
    ensures (2 * g + y) % 2 == y % 2
  {
  }

  lemma FlagBits(w: int)
    ensures Writable(w) == Writable(Flags(w)) && UserOk(w) == UserOk(Flags(w))
  {
    BitsOf(Addr(w), Flags(w));
  }

  ghost function NewTableMem(mem: Mem, d: int, i: int, t: int): Mem
    requires d in mem && 0 <= i < |mem[d]|
  {
    mem[t := Zeros()][d := mem[d][i := Pte(t, PTE_W + PTE_U)]]
  }

  lemma NewTable(mem: Mem, role: Roles, d: int, i: int, t: int)
    requires Owned(mem, role) && d in role && role[d].Dir? && 0 <= i < N && !Present(mem[d][i])
    requires t in role && role[t] == Kept
    ensures Owned(NewTableMem(mem, d, i, t), role[t := Table(d, i)])
    ensures SameLookups(mem, NewTableMem(mem, d, i, t), d)
    ensures Grew(mem, role, NewTableMem(mem, d, i, t), role[t := Table(d, i)], d, {t})
  {
    assert Show(Owners, 0) && Show(Lookups, 0);
    var m := mem[t := Zeros()];
    Reuse(mem, role, t, Zeros(), Kept);
    assert role[t := Kept] == role;
    PteBits(t, PTE_W + PTE_U);
    Link(m, role, d, i, t, Pte(t, PTE_W + PTE_U));
  }

  /** PGROUNDUP(sz) / PGSIZE */
  function PageUp(sz: nat): (n: nat)
    ensures 4096 * n - 4096 < sz <= 4096 * n
  {
    (sz + PGSIZE - 1) / PGSIZE
  }

  const PAGES: nat := N * N      // pages of virtual memory
  const KERNPAGE: nat := UPD * N // KERNBASE / PGSIZE

  /** What the hardware finds for page q. */
  ghost function At(mem: Mem, d: int, q: int): Option<int>
    requires d in mem && |mem[d]| == N && 0 <= q < PAGES
  {
    Lookup(mem, d, q / N, q % N)
  }

  /** Where an access goes, and what the hardware allows: only what both entries on the way allow. */
  datatype Access = Access(frame: int, writable: bool, user: bool)

  ghost function Translate(mem: Mem, d: int, q: int): Option<Access>
    requires d in mem && |mem[d]| == N && 0 <= q < PAGES
  {
    var e := mem[d][q / 1024];
    if !Present(e) || Addr(e) !in mem || |mem[Addr(e)]| != N then None else
      var w := mem[Addr(e)][q % 1024];
      if !Present(w) then None
      else Some(Access(Addr(w), Writable(e) && Writable(w), UserOk(e) && UserOk(w)))
  }

  ghost function AccessOf(w: Option<int>): Option<Access> {
    if w.None? then None else Some(Access(Addr(w.value), Writable(w.value), UserOk(w.value)))
  }

  /** The entry in the page table decides. */
  lemma Translated(mem: Mem, role: Roles, d: int, q: int)
    requires Owned(mem, role) && d in role && role[d].Dir? && 0 <= q < PAGES
    ensures Translate(mem, d, q) == AccessOf(At(mem, d, q))
  {
    assert Show(Owners, 0);
  }

  /** Pages lo, lo + 1, ..., hi - 1 now map to frames f, f + 1, ...; the other pages are as before. */
  ghost predicate Maps(mem: Mem, mem': Mem, d: int, lo: int, hi: int, f: int, perm: int) {
    && d in mem && d in mem' && |mem[d]| == N && |mem'[d]| == N
    && forall u :: Show(Lookups, u) ==> forall q :: 0 <= q < PAGES ==>
      At(mem', d, q) == if lo <= q < hi then Some(Pte(f + q - lo, perm)) else At(mem, d, q)
  }

  ghost predicate SamePages(mem: Mem, mem': Mem, d: int) {
    && d in mem && d in mem' && |mem[d]| == N && |mem'[d]| == N
    && forall u :: Show(Lookups, u) ==> forall q :: 0 <= q < PAGES ==> At(mem', d, q) == At(mem, d, q)
  }

  lemma SameAt(m0: Mem, m1: Mem, d: int, q: int)
    requires SameLookups(m0, m1, d) && 0 <= q < PAGES
    ensures At(m1, d, q) == At(m0, d, q)
  {
    assert Show(Lookups, 0);
  }

  lemma MapsAt(m0: Mem, m1: Mem, d: int, lo: int, hi: int, f: int, perm: int, q: int)
    requires Maps(m0, m1, d, lo, hi, f, perm) && 0 <= q < PAGES && !(lo <= q < hi)
    ensures At(m1, d, q) == At(m0, d, q)
  {
    assert Show(Lookups, 0);
  }

  lemma SamePagesAt(m0: Mem, m1: Mem, d: int, q: int)
    requires SamePages(m0, m1, d) && 0 <= q < PAGES
    ensures At(m1, d, q) == At(m0, d, q)
  {
    assert Show(Lookups, 0);
  }

  lemma TableAt(mem: Mem, role: Roles, d: int, i: int)
    requires Owned(mem, role) && d in role && role[d].Dir? && 0 <= i < N && Present(mem[d][i])
    ensures Addr(mem[d][i]) in role && role[Addr(mem[d][i])] == Table(d, i)
  {
    assert Show(Owners, 0);
  }

  ghost function SetLeaf(mem: Mem, t: int, j: int, w: int): Mem
    requires t in mem && 0 <= j < |mem[t]|
  {
    mem[t := mem[t][j := w]]
  }

  lemma LeafSet(mem: Mem, role: Roles, d: int, q: int, t: int, f: int, perm: int)
    requires Owned(mem, role) && d in role && role[d].Dir? && 0 <= q < PAGES && 0 <= perm < PGSIZE
    requires t in role && role[t] == Table(d, q / N)
    ensures Maps(mem, SetLeaf(mem, t, q % N, Pte(f, perm)), d, q, q + 1, f, perm)
  {
    assert Show(Owners, 0) && Show(Lookups, 0);
    var m := SetLeaf(mem, t, q % N, Pte(f, perm));
    assert Hangs(mem, role, t, d, q / N);
    forall x | 0 <= x < PAGES
      ensures At(m, d, x) == if q <= x < q + 1 then Some(Pte(f + x - q, perm)) else At(mem, d, x)
    {
      if Present(mem[d][x / N]) && x / N != q / N {
        assert Addr(mem[d][x / N]) != t;
      }
    }
  }

  lemma UserSet(mem: Mem, role: Roles, d: int, i: int, t: int, j: int, f: int, perm: int)
    requires Owned(mem, role) && d in role && role[d].Dir? && 0 <= i < UPD && 0 <= j < N && 0 <= perm < PGSIZE
    requires t in role && role[t] == Table(d, i) && !Present(mem[t][j]) && f in role && role[f] == Kept
    ensures Owned(SetLeaf(mem, t, j, Pte(f, perm)), role[f := User(t, j)])
    ensures Grew(mem, role, SetLeaf(mem, t, j, Pte(f, perm)), role[f := User(t, j)], d, {f})
    ensures PartOf(role[f := User(t, j)], f, d)
  {
    Link(mem, role, t, j, f, Pte(f, perm));
  }

  lemma KernelSet(mem: Mem, role: Roles, d: int, i: int, t: int, j: int, w: int)
    requires Owned(mem, role) && d in role && role[d].Dir? && UPD <= i < N && 0 <= j < N
    requires t in role && role[t] == Table(d, i)
    ensures Owned(SetLeaf(mem, t, j, w), role)
    ensures Grew(mem, role, SetLeaf(mem, t, j, w), role, d, {})
  {
    SetKernel(mem, role, t, mem[t][j := w]);
  }

  lemma MapsNext(m0: Mem, m1: Mem, m2: Mem, d: int, lo: int, hi: int, f: int, perm: int)
    requires Maps(m0, m1, d, lo, hi, f, perm) && lo <= hi && Maps(m1, m2, d, hi, hi + 1, f + hi - lo, perm)
    ensures Maps(m0, m2, d, lo, hi + 1, f, perm)
  {
  }

  lemma MapsSame(m0: Mem, m1: Mem, m2: Mem, d: int, lo: int, hi: int, f: int, perm: int)
    requires SameLookups(m0, m1, d) && Maps(m1, m2, d, lo, hi, f, perm)
    ensures Maps(m0, m2, d, lo, hi, f, perm)
  {
  }

  lemma MapsStill(m0: Mem, m1: Mem, m2: Mem, d: int, lo: int, hi: int, f: int, perm: int)
    requires Maps(m0, m1, d, lo, hi, f, perm) && SameLookups(m1, m2, d)
    ensures Maps(m0, m2, d, lo, hi, f, perm)
  {
    assert Show(Owners, 0) && Show(Lookups, 0);
    assert forall q :: 0 <= q < PAGES ==> At(m2, d, q) == At(m1, d, q);
  }

  lemma Held(m0: Mem, r0: Roles, m1: Mem, r1: Roles, d: int, but: set<int>, f: int)
    requires Grew(m0, r0, m1, r1, d, but) && f in r0 && !r0[f].Free? && f !in but
    ensures f in r1 && r1[f] == r0[f]
    ensures f != d && !TableOf(r0, f, d) ==> f in m0 && f in m1 && m1[f] == m0[f]
  {
    assert Show(Frames, 0);
    assert Stays(m0, r0, m1, r1, d, f);
  }

  lemma GrewThen(m0: Mem, r0: Roles, m1: Mem, r1: Roles, m2: Mem, r2: Roles, d: int, but: set<int>)
    requires Grew(m0, r0, m1, r1, d, but) && Grew(m1, r1, m2, r2, d, but)
    requires forall f :: f in but && f in r0 ==> !r0[f].Table? && f in r1 && !r1[f].Table?
    ensures Grew(m0, r0, m2, r2, d, but)
  {
  }

  /** Pages lo, ..., hi - 1 are no longer mapped; the other pages are as before. */
  ghost predicate Unmaps(mem: Mem, mem': Mem, d: int, lo: int, hi: int) {
    && d in mem && d in mem' && |mem[d]| == N && |mem'[d]| == N
    && forall u :: Show(Lookups, u) ==> forall q :: 0 <= q < PAGES ==>
      At(mem', d, q) == if lo <= q < hi then None else At(mem, d, q)
  }

  /** f is the user page of directory d that page q of virtual memory maps to, with lo <= q < hi. */
  predicate UserIn(role: Roles, f: int, d: int, lo: int, hi: int) {
    && f in role && role[f].User? && TableOf(role, role[f].t, d)
    && lo <= role[role[f].t].i * N + role[f].j < hi
  }

  /** The user pages of d from lo up to hi are free now; the other frames keep their role, and their
      contents unless they are tables of d. */
  ghost predicate Shrank(mem: Mem, role: Roles, mem': Mem, role': Roles, d: int, lo: int, hi: int) {
    role'.Keys == role.Keys && forall u :: Show(Frames, u) ==> ShrankAll(mem, role, mem', role', d, lo, hi)
  }

  ghost predicate ShrankAll(mem: Mem, role: Roles, mem': Mem, role': Roles, d: int, lo: int, hi: int)
    requires role'.Keys == role.Keys
  {
    forall f :: f in role ==> f in role' && Drops(mem, role, mem', role', d, lo, hi, f)
  }

  ghost predicate Drops(mem: Mem, role: Roles, mem': Mem, role': Roles, d: int, lo: int, hi: int, f: int)
    requires f in role && f in role'
  {
    if UserIn(role, f, d, lo, hi) then role'[f].Free? else
      role'[f] == role[f] && (TableOf(role, f, d) || (f in mem && f in mem' && mem'[f] == mem[f]))
  }

  ghost function DropMem(mem: Mem, t: int, j: int, page: seq<int>): Mem
    requires t in mem && 0 <= j < |mem[t]|
  {
    mem[Addr(mem[t][j]) := page][t := mem[t][j := 0]]
  }

  lemma DropLeaf(mem: Mem, role: Roles, d: int, q: int, t: int, page: seq<int>, at: int)
    requires Owned(mem, role) && d in role && role[d].Dir? && 0 <= q < KERNPAGE && |page| == N
    requires t in role && role[t] == Table(d, q / N) && Present(mem[t][q % N])
    ensures var c := Addr(mem[t][q % N]); var m, r := DropMem(mem, t, q % N, page), role[c := Free(at)];
      && c in role && role[c] == User(t, q % N) && Owned(m, r) && Shrank(mem, role, m, r, d, q, q + 1)
  {
    assert Show(Owners, 0) && Show(Lookups, 0);
    var c := Addr(mem[t][q % N]);
    assert role[c] == User(t, q % N);
    Unlink(mem, role, t, q % N, page, at);
    var m, r := DropMem(mem, t, q % N, page), role[c := Free(at)];
    forall f | f in role
      ensures Drops(mem, role, m, r, d, q, q + 1, f)
    {
      if UserIn(role, f, d, q, q + 1) {
        assert Hangs(mem, role, f, role[f].t, role[f].j);
        assert Hangs(mem, role, role[f].t, d, q / N);
        assert Hangs(mem, role, t, d, q / N);
      }
    }
  }

  lemma DropLookup(mem: Mem, role: Roles, d: int, q: int, t: int, page: seq<int>)
    requires Owned(mem, role) && d in role && role[d].Dir? && 0 <= q < KERNPAGE && |page| == N
    requires t in role && role[t] == Table(d, q / N) && Present(mem[t][q % N])
    ensures Unmaps(mem, DropMem(mem, t, q % N, page), d, q, q + 1)
  {
    assert Show(Owners, 0) && Show(Lookups, 0);
    var c := Addr(mem[t][q % N]);
    assert role[c] == User(t, q % N);
    assert Hangs(mem, role, t, d, q / N);
    var m := DropMem(mem, t, q % N, page);
    forall x | 0 <= x < PAGES
      ensures At(m, d, x) == if q <= x < q + 1 then None else At(mem, d, x)
    {
      if Present(mem[d][x / N]) {
        assert role[Addr(mem[d][x / N])] == Table(d, x / N);
      }
    }
  }

  /** A user page is found at its page number. */
  lemma UserFound(mem: Mem, role: Roles, d: int, f: int)
    requires Owned(mem, role) && d in role && UserIn(role, f, d, 0, KERNPAGE)
    ensures var q := role[role[f].t].i * N + role[f].j; At(mem, d, q).Some? && Addr(At(mem, d, q).value) == f
  {
    assert Show(Owners, 0) && Show(Lookups, 0);
    var t := role[f].t;
    assert Hangs(mem, role, f, t, role[f].j) && Hangs(mem, role, t, d, role[t].i);
  }

  lemma ShrankNext(m0: Mem, r0: Roles, m1: Mem, r1: Roles, m2: Mem, r2: Roles, d: int, lo: int, mid: int, hi: int)
    requires Shrank(m0, r0, m1, r1, d, lo, mid) && Shrank(m1, r1, m2, r2, d, mid, hi) && lo <= mid <= hi
    ensures Shrank(m0, r0, m2, r2, d, lo, hi)
  {
    assert Show(Frames, 0);
    forall f | f in r0
      ensures Drops(m0, r0, m2, r2, d, lo, hi, f)
    {
      assert Drops(m0, r0, m1, r1, d, lo, mid, f) && Drops(m1, r1, m2, r2, d, mid, hi, f);
      if r0[f].User? && r0[f].t in r0 {
        assert Drops(m0, r0, m1, r1, d, lo, mid, r0[f].t);
      }
    }
  }

  lemma NotDropped(m0: Mem, r0: Roles, m1: Mem, r1: Roles, d: int, lo: int, hi: int, f: int)
    requires Shrank(m0, r0, m1, r1, d, lo, hi) && f in r0 && r0[f] == Kept
    ensures f in r1 && r1[f] == Kept
  {
    assert Show(Frames, 0);
    assert Drops(m0, r0, m1, r1, d, lo, hi, f);
  }

  lemma UnmapsNext(m0: Mem, m1: Mem, m2: Mem, d: int, lo: int, mid: int, hi: int)
    requires Unmaps(m0, m1, d, lo, mid) && lo <= mid <= hi && Unmaps(m1, m2, d, mid, hi)
    ensures Unmaps(m0, m2, d, lo, hi)
  {
  }

  lemma ShrankSkip(m0: Mem, r0: Roles, m1: Mem, r1: Roles, d: int, lo: int, mid: int, hi: int)
    requires Shrank(m0, r0, m1, r1, d, lo, mid) && Owned(m1, r1) && d in r1 && 0 <= mid <= hi <= KERNPAGE
    requires forall q :: mid <= q < hi ==> At(m1, d, q) == None
    ensures Shrank(m0, r0, m1, r1, d, lo, hi)
  {
    assert Show(Frames, 0);
    forall f | f in r0
      ensures Drops(m0, r0, m1, r1, d, lo, hi, f)
    {
      if UserIn(r0, f, d, mid, hi) && !UserIn(r0, f, d, lo, mid) {
        var t := r0[f].t;
        assert Drops(m0, r0, m1, r1, d, lo, mid, f) && Drops(m0, r0, m1, r1, d, lo, mid, t);
        UserFound(m1, r1, d, f);
      }
    }
  }

  function Min(a: nat, b: nat): nat {
    if a < b then a else b
  }

  /** There is nothing to free where nothing is mapped. */
  lemma Unmapped(mem: Mem, role: Roles, d: int, lo: int, hi: int)
    requires Owned(mem, role) && d in role && role[d].Dir? && 0 <= lo && hi <= KERNPAGE
    requires forall q :: lo <= q < hi ==> At(mem, d, q) == None
    ensures Unmaps(mem, mem, d, lo, hi) && Shrank(mem, role, mem, role, d, lo, hi)
  {
    if lo < hi {
      assert Shrank(mem, role, mem, role, d, lo, lo);
      ShrankSkip(mem, role, mem, role, d, lo, lo, hi);
    }
  }

  ghost function Cleared(page: seq<int>, n: nat): (r: seq<int>)
    requires n <= |page|
    ensures |r| == |page| && forall k :: 0 <= k < |page| ==> r[k] == if k < n && Present(page[k]) then 0 else page[k]
  {
    if n == 0 then page else
      var r := Cleared(page, n - 1);
      if Present(page[n - 1]) then r[n - 1 := 0] else r
  }

  /** The memory as it would be with the first n entries of d cleared. */
  ghost function Shadow(mem: Mem, d: int, n: nat): Mem
    requires d in mem && n <= |mem[d]|
  {
    mem[d := Cleared(mem[d], n)]
  }

  ghost predicate NoUserPages(mem: Mem, role: Roles, d: int)
    requires Pages(mem, role)
  {
    forall t, j :: TableOf(role, t, d) && role[t].i < UPD && 0 <= j < N ==> !Present(mem[t][j])
  }

  /** The tables in the first n entries of d are free now; the other frames are as before. */
  ghost predicate TablesFreed(mem: Mem, role: Roles, mem': Mem, role': Roles, d: int, n: nat) {
    role'.Keys == role.Keys && forall u :: Show(Frames, u) ==> TablesFreedAll(mem, role, mem', role', d, n)
  }

  ghost predicate TablesFreedAll(mem: Mem, role: Roles, mem': Mem, role': Roles, d: int, n: int)
    requires role'.Keys == role.Keys
  {
    forall f :: f in role ==>
      if TableOf(role, f, d) && role[f].i < n then role'[f].Free? else Untouched(mem, role, mem', role', f)
  }

  ghost predicate Untouched(mem: Mem, role: Roles, mem': Mem, role': Roles, f: int)
    requires f in role
  {
    f in role' && role'[f] == role[f] && f in mem && f in mem' && mem'[f] == mem[f]
  }

  lemma NoTablesFreed(mem: Mem, role: Roles, d: int)
    requires Owned(mem, role)
    ensures TablesFreed(mem, role, mem, role, d, 0)
  {
    assert Show(Owners, 0);
  }

  lemma FreeTable(mem: Mem, role: Roles, d: int, i: nat, page: seq<int>, at: int)
    requires Pages(mem, role) && d in role && role[d].Dir? && i < N && |page| == N
    requires Owned(Shadow(mem, d, i), role) && NoUserPages(mem, role, d) && Present(mem[d][i])
    ensures var c := Addr(mem[d][i]);
      && c in role && role[c] == Table(d, i) && Pages(mem[c := page], role[c := Free(at)])
      && Owned(Shadow(mem[c := page], d, i + 1), role[c := Free(at)])
      && NoUserPages(mem[c := page], role[c := Free(at)], d)
  {
    assert Show(Owners, 0) && Show(Lookups, 0);
    var c := Addr(mem[d][i]);
    var s := Shadow(mem, d, i);
    assert s[d][i] == mem[d][i];
    assert role[c] == Table(d, i);
    Unlink(s, role, d, i, page, at);
    assert s[c := page][d := s[d][i := 0]] == Shadow(mem[c := page], d, i + 1);
  }

  lemma OneTable(mem: Mem, role: Roles, d: int, i: nat, f: int)
    requires d in mem && i < |mem[d]| && Owned(Shadow(mem, d, i), role) && f in role && role[f] == Table(d, i)
    ensures Present(mem[d][i]) && Addr(mem[d][i]) == f
  {
    assert Show(Owners, 0) && Show(Lookups, 0);
    assert Hangs(Shadow(mem, d, i), role, f, d, i);
  }

  lemma TablesFreedNext(m0: Mem, r0: Roles, m1: Mem, r1: Roles, d: int, i: nat, page: seq<int>, at: int)
    requires TablesFreed(m0, r0, m1, r1, d, i) && d in m1 && i < |m1[d]| && Owned(Shadow(m1, d, i), r1)
    ensures var c := Addr(m1[d][i]);
      if Present(m1[d][i]) && c in r1 && r1[c] == Table(d, i)
      then TablesFreed(m0, r0, m1[c := page], r1[c := Free(at)], d, i + 1)
      else !Present(m1[d][i]) ==> TablesFreed(m0, r0, m1, r1, d, i + 1)
  {
    assert Show(Frames, 0);
    forall f | f in r1 && r1[f] == Table(d, i)
      ensures Present(m1[d][i]) && Addr(m1[d][i]) == f
    {
      OneTable(m1, r1, d, i, f);
    }
  }

  /** Every frame of directory d is free; the other frames are as before. */
  ghost predicate Released(mem: Mem, role: Roles, mem': Mem, role': Roles, d: int) {
    role'.Keys == role.Keys && forall u :: Show(Frames, u) ==> ReleasedAll(mem, role, mem', role', d)
  }

  ghost predicate ReleasedAll(mem: Mem, role: Roles, mem': Mem, role': Roles, d: int)
    requires role'.Keys == role.Keys
  {
    forall f :: f in role ==>
      if f == d || PartOf(role, f, d) then role'[f].Free? else Untouched(mem, role, mem', role', f)
  }

  lemma NoneMapped(m0: Mem, mem: Mem, role: Roles, d: int)
    requires Owned(mem, role) && d in role && role[d].Dir? && Unmaps(m0, mem, d, 0, KERNPAGE)
    ensures NoUserPages(mem, role, d)
  {
    assert Show(Owners, 0) && Show(Lookups, 0);
    forall t, j | TableOf(role, t, d) && role[t].i < UPD && 0 <= j < N
      ensures !Present(mem[t][j])
    {
      assert Hangs(mem, role, t, d, role[t].i);
      assert At(mem, d, role[t].i * N + j) == None;
    }
  }

  lemma AllReleased(m0: Mem, r0: Roles, m1: Mem, r1: Roles, m2: Mem, r2: Roles, d: int, page: seq<int>, at: int)
    requires Owned(m0, r0) && Owned(m1, r1) && d in r0 && d in r1 && d in r2 && r0[d].Dir?
    requires Shrank(m0, r0, m1, r1, d, 0, KERNPAGE) && TablesFreed(m1, r1, m2, r2, d, N)
    ensures Released(m0, r0, m2[d := page], r2[d := Free(at)], d)
  {
    assert Show(Frames, 0) && Show(Owners, 0) && Show(Lookups, 0);
    forall f | f in r0
      ensures if f == d || PartOf(r0, f, d) then r2[d := Free(at)][f].Free?
        else Untouched(m0, r0, m2[d := page], r2[d := Free(at)], f)
    {
      assert Drops(m0, r0, m1, r1, d, 0, KERNPAGE, f);
      if r0[f].User? {
        assert Hangs(m0, r0, f, r0[f].t, r0[f].j);
      }
      if r0[f].Table? {
        assert Hangs(m0, r0, f, r0[f].d, r0[f].i);
      }
      if r0[f].User? && TableOf(r0, r0[f].t, d) {
        assert Hangs(m0, r0, r0[f].t, d, r0[r0[f].t].i);
      }
    }
  }

  /** The page behind entry w is writable by the user, zeroed, and on a frame that was free. */
  ghost predicate Fresh(role: Roles, mem': Mem, w: int) {
    && Flags(w) == PTE_U + PTE_W + 1
    && Addr(w) in role && role[Addr(w)].Free? && Addr(w) in mem' && mem'[Addr(w)] == Zeros()
  }

  /** Pages lo, ..., hi - 1 are new; the other pages are as before. */
  ghost predicate Allocates(mem: Mem, role: Roles, mem': Mem, d: int, lo: int, hi: int) {
    && d in mem && d in mem' && |mem[d]| == N && |mem'[d]| == N
    && forall u :: Show(Lookups, u) ==> forall q :: 0 <= q < PAGES ==>
      if lo <= q < hi then At(mem', d, q).Some? && Fresh(role, mem', At(mem', d, q).value)
        else At(mem', d, q) == At(mem, d, q)
  }

  /** The user may read and write pages lo, ..., hi - 1, which are zeroed and on frames that were free. */
  ghost predicate UserCanWrite(mem: Mem, role: Roles, mem': Mem, d: int, lo: int, hi: int) {
    d in mem' && |mem'[d]| == N && forall q :: 0 <= lo <= q < hi <= PAGES ==>
      && Translate(mem', d, q).Some?
      && var a := Translate(mem', d, q).value;
      a.writable && a.user && a.frame in role && role[a.frame].Free? && a.frame in mem' && mem'[a.frame] == Zeros()
  }

  lemma AllocatesAccess(m0: Mem, r0: Roles, mem: Mem, role: Roles, d: int, lo: int, hi: int)
    requires Owned(mem, role) && d in role && role[d].Dir? && Allocates(m0, r0, mem, d, lo, hi)
    ensures UserCanWrite(m0, r0, mem, d, lo, hi)
  {
    assert Show(Lookups, 0);
    forall q | 0 <= lo <= q < hi <= PAGES
      ensures Translate(mem, d, q).Some? && Fresh(r0, mem, At(mem, d, q).value)
      ensures Translate(mem, d, q) == Some(Access(Addr(At(mem, d, q).value), true, true))
    {
      Translated(mem, role, d, q);
      FlagBits(At(mem, d, q).value);
    }
  }

  /** A mapped user page is owned by its entry. */
  lemma MappedOwned(mem: Mem, role: Roles, d: int, q: int)
    requires Owned(mem, role) && d in role && role[d].Dir? && 0 <= q < KERNPAGE && At(mem, d, q).Some?
    ensures var f := Addr(At(mem, d, q).value); f in role && f in mem && UserIn(role, f, d, q, q + 1)
  {
    assert Show(Owners, 0) && Show(Lookups, 0);
    var t := Addr(mem[d][q / N]);
    assert t in role && role[t] == Table(d, q / N);
    assert Owns(role[t]) && Present(mem[t][q % N]);
  }

  lemma AllocatesAt(m0: Mem, r0: Roles, m1: Mem, d: int, lo: int, hi: int, q: int)
    requires Allocates(m0, r0, m1, d, lo, hi) && 0 <= q < PAGES && !(lo <= q < hi)
    ensures At(m1, d, q) == At(m0, d, q)
  {
    assert Show(Lookups, 0);
  }

  lemma AllocatesStill(m0: Mem, r0: Roles, m1: Mem, r1: Roles, m2: Mem, r2: Roles, d: int, lo: int, a: int, f: int)
    requires Owned(m1, r1) && d in r1 && r1[d].Dir? && 0 <= lo <= a < KERNPAGE && r0.Keys == r1.Keys
    requires Allocates(m0, r0, m1, d, lo, a) && Maps(m1, m2, d, a, a, f, PTE_W + PTE_U)
    requires f in r1 && !r1[f].User? && Grew(m1, r1, m2, r2, d, {f})
    ensures Allocates(m0, r0, m2, d, lo, a)
  {
    assert Show(Owners, 0) && Show(Lookups, 0);
    forall q | 0 <= q < PAGES
      ensures if lo <= q < a then At(m2, d, q).Some? && Fresh(r0, m2, At(m2, d, q).value)
        else At(m2, d, q) == At(m0, d, q)
    {
      assert At(m2, d, q) == At(m1, d, q);
      if lo <= q < a {
        MappedOwned(m1, r1, d, q);
        Held(m1, r1, m2, r2, d, {f}, Addr(At(m1, d, q).value));
      }
    }
  }

  lemma AllocatesNext(m0: Mem, r0: Roles, m1: Mem, r1: Roles, m2: Mem, r2: Roles, d: int, lo: int, a: int, f: int)
    requires Owned(m1, r1) && d in r1 && r1[d].Dir? && 0 <= lo <= a < KERNPAGE && r0.Keys == r1.Keys
    requires Allocates(m0, r0, m1, d, lo, a) && Maps(m1, m2, d, a, a + 1, f, PTE_W + PTE_U)
    requires f in r0 && r0[f].Free? && f in r1 && !r1[f].User? && f in m2 && m2[f] == Zeros()
    requires Grew(m1, r1, m2, r2, d, {f})
    ensures Allocates(m0, r0, m2, d, lo, a + 1)
  {
    assert Show(Owners, 0) && Show(Lookups, 0);
    forall q | 0 <= q < PAGES
      ensures if lo <= q < a + 1 then At(m2, d, q).Some? && Fresh(r0, m2, At(m2, d, q).value)
        else At(m2, d, q) == At(m0, d, q)
    {
      if lo <= q < a {
        assert At(m2, d, q) == At(m1, d, q);
        MappedOwned(m1, r1, d, q);
        Held(m1, r1, m2, r2, d, {f}, Addr(At(m1, d, q).value));
      }
    }
  }

  /** After a failed allocation: as before, but for page tables that d has gained. */
  ghost predicate RolledBack(role: Roles, role': Roles, d: int, but: set<int>) {
    role'.Keys == role.Keys && forall u :: Show(Frames, u) ==> RolledBackAll(role, role', d, but)
  }

  ghost predicate RolledBackAll(role: Roles, role': Roles, d: int, but: set<int>)
    requires role'.Keys == role.Keys
  {
    forall f :: f in role && f !in but && role[f].Free? ==> f in role' && (role'[f].Free? || TableOf(role', f, d))
  }

  lemma Undone(m0: Mem, r0: Roles, m1: Mem, r1: Roles, m2: Mem, r2: Roles, d: int, lo: int, a: int, hi: int,
      but: set<int>)
    requires Owned(m0, r0) && Owned(m1, r1) && d in r0 && r0[d].Dir? && d in r1 && r1[d].Dir?
    requires 0 <= lo <= a <= hi <= KERNPAGE && forall q :: lo <= q < hi ==> At(m0, d, q) == None
    requires Grew(m0, r0, m1, r1, d, but) && Allocates(m0, r0, m1, d, lo, a)
    requires Shrank(m1, r1, m2, r2, d, lo, hi) && Unmaps(m1, m2, d, lo, hi)
    ensures Unmaps(m0, m2, d, lo, hi)
    ensures Grew(m0, r0, m2, r2, d, but) && RolledBack(r0, r2, d, but)
  {
    assert Show(Frames, 0) && Show(Owners, 0) && Show(Lookups, 0);
    forall f | f in r0 && f !in but
      ensures Stays(m0, r0, m2, r2, d, f)
      ensures r0[f].Free? ==> r2[f].Free? || TableOf(r2, f, d)
    {
      assert Stays(m0, r0, m1, r1, d, f) && Drops(m1, r1, m2, r2, d, lo, hi, f);
      if UserIn(r1, f, d, 0, KERNPAGE) {
        UserFound(m1, r1, d, f);
        if !UserIn(r1, f, d, lo, hi) || !r0[f].Free? {
          var q := r1[r1[f].t].i * N + r1[f].j;
          if At(m0, d, q).Some? && At(m0, d, q) == At(m1, d, q) {
            MappedOwned(m0, r0, d, q);
          }
        }
      }
    }
  }

  lemma GrewPage(m0: Mem, r0: Roles, m1: Mem, r1: Roles, m2: Mem, r2: Roles, d: int, but: set<int>, f: int)
    requires Grew(m0, r0, m1, r1, d, but) && Grew(m1, r1, m2, r2, d, {f}) && f in r1 && r1[f].Free? && f !in but
    requires forall x :: x in but && x in r0 ==> !r0[x].Table? && x in r1 && !r1[x].Table?
    ensures f in r0 && r0[f].Free? && Grew(m0, r0, m2, r2, d, but + {f})
    ensures f in r2 && (r2[f].Free? || PartOf(r2, f, d)) ==> Grew(m0, r0, m2, r2, d, but)
  {
    assert f in r0;
    if !r0[f].Free? {
      Held(m0, r0, m1, r1, d, but, f);
    }
    GrewThen(m0, r0, m1, r1, m2, r2, d, but + {f});
    if f in r2 && (r2[f].Free? || PartOf(r2, f, d)) {
      assert Show(Frames, 0);
      assert Stays(m0, r0, m2, r2, d, f);
    }
  }

  lemma GrewFreed(m0: Mem, r0: Roles, m1: Mem, r1: Roles, d: int, but: set<int>, f: int, page: seq<int>, at: int)
    requires Owned(m1, r1) && f in r0 && r0[f].Free? && f in r1 && r1[f] == Kept
    requires Grew(m0, r0, m1, r1, d, but + {f}) && |page| == N
    ensures Owned(m1[f := page], r1[f := Free(at)]) && Grew(m0, r0, m1[f := page], r1[f := Free(at)], d, but)
  {
    Reuse(m1, r1, f, page, Free(at));
  }

  lemma UnmappedAgain(m0: Mem, m1: Mem, d: int, lo: int, hi: int)
    requires Unmaps(m0, m1, d, lo, hi) && 0 <= lo && hi <= PAGES && forall q :: lo <= q < hi ==> At(m0, d, q) == None
    ensures SamePages(m0, m1, d)
  {
  }

  lemma UnmapsSame(m0: Mem, m1: Mem, m2: Mem, d: int, lo: int, hi: int)
    requires Unmaps(m0, m1, d, lo, hi) && SameLookups(m1, m2, d)
    ensures Unmaps(m0, m2, d, lo, hi)
  {
    forall q | 0 <= q < PAGES
      ensures At(m2, d, q) == At(m1, d, q)
    {
      SameAt(m1, m2, d, q);
    }
  }

  /** The frame that could not be mapped goes back to the free list. */
  lemma HandedBack(m0: Mem, r0: Roles, m1: Mem, r1: Roles, d: int, lo: int, hi: int, f: int, page: seq<int>, at: int)
    requires Owned(m1, r1) && d in r1 && r1[d].Dir? && f in r0 && r0[f].Free? && f in r1 && r1[f] == Kept && |page| == N
    requires Grew(m0, r0, m1, r1, d, {f}) && RolledBack(r0, r1, d, {f}) && Unmaps(m0, m1, d, lo, hi)
    ensures var m, r := m1[f := page], r1[f := Free(at)];
      Owned(m, r) && Grew(m0, r0, m, r, d, {}) && RolledBack(r0, r, d, {}) && Unmaps(m0, m, d, lo, hi)
  {
    assert Show(Owners, 0) && Show(Lookups, 0);
    Reuse(m1, r1, f, page, Free(at));
    FrameMaps(m1, r1, d, f, page);
    UnmapsSame(m0, m1, m1[f := page], d, lo, hi);
  }

  /** What is in a frame that no table owns is no part of a mapping. */
  lemma FrameMaps(mem: Mem, role: Roles, d: int, f: int, page: seq<int>)
    requires Owned(mem, role) && d in role && role[d].Dir? && f in role && role[f] == Kept && |page| == N
    ensures SameLookups(mem, mem[f := page], d)
  {
    assert Show(Owners, 0) && Show(Lookups, 0);
    forall i | 0 <= i < N && Present(mem[d][i])
      ensures Addr(mem[d][i]) in role && role[Addr(mem[d][i])] == Table(d, i)
    {
    }
  }

  /** A row of the kernel's table of mappings, in pages. */
  datatype Region = Region(virt: int, phys: int, count: nat, perm: int)

  predicate Covers(k: Region, q: int) {
    k.virt <= q < k.virt + k.count
  }

  ghost predicate KernelMap(kmap: seq<Region>) {
    && (forall i :: 0 <= i < |kmap| ==>
      && 0 < kmap[i].count && KERNPAGE <= kmap[i].virt
      && kmap[i].virt + kmap[i].count <= PAGES && 0 <= kmap[i].perm < PGSIZE)
    && (forall u :: Show(Regions, u) ==> forall i, j, q :: 0 <= i < j < |kmap| && Covers(kmap[i], q) ==>
      !Covers(kmap[j], q))
  }

  const EXTMEM: nat := 0x100
  const PHYSTOP: nat := 0xE000
  const DEVSPACE: nat := 0xFE000

  /** The table in vm.c; `data` is the page of the kernel's data segment, counted from KERNBASE. */
  function Kmap(data: nat): (k: seq<Region>)
    requires EXTMEM < data < PHYSTOP
    ensures KernelMap(k)
  {
    [Region(KERNPAGE, 0, EXTMEM, PTE_W),
     Region(KERNPAGE + EXTMEM, EXTMEM, data - EXTMEM, 0),
     Region(KERNPAGE + data, data, PHYSTOP - data, PTE_W),
     Region(DEVSPACE, DEVSPACE, PAGES - DEVSPACE, PTE_W)]
  }

  /** What the first n rows map page q to. */
  ghost function KernelAt(kmap: seq<Region>, n: nat, q: int): Option<int>
    requires n <= |kmap|
  {
    if n == 0 then None else
      var k := kmap[n - 1];
      if Covers(k, q) then Some(Pte(k.phys + q - k.virt, k.perm)) else KernelAt(kmap, n - 1, q)
  }

  /** What the table says, page by page: physical memory from 2 GB on, where only the kernel's text cannot be
      written, the devices at their own addresses, nothing for the user, and nothing else. */
  lemma KernelSpace(data: nat, q: int)
    requires 0x100 < data < 0xE000 && 0 <= q < 0x10_0000
    ensures AccessOf(KernelAt(Kmap(data), 4, q)) ==
      if 0x8_0000 <= q < 0x8_E000 then Some(Access(q - 0x8_0000, !(0x100 <= q - 0x8_0000 < data), false))
      else if 0xF_E000 <= q then Some(Access(q, true, false)) else None
  {
    var k := Kmap(data);
    assert KernelAt(k, 1, q) == if Covers(k[0], q) then Some(Pte(k[0].phys + q - k[0].virt, k[0].perm)) else None;
    assert KernelAt(k, 2, q) ==
      if Covers(k[1], q) then Some(Pte(k[1].phys + q - k[1].virt, k[1].perm)) else KernelAt(k, 1, q);
    assert KernelAt(k, 3, q) ==
      if Covers(k[2], q) then Some(Pte(k[2].phys + q - k[2].virt, k[2].perm)) else KernelAt(k, 2, q);
    PteBits(q - KERNPAGE, PTE_W);
    PteBits(q - KERNPAGE, 0);
    PteBits(q, PTE_W);
  }

  lemma {:induction false} NotYet(kmap: seq<Region>, n: nat, m: nat, q: int)
    requires KernelMap(kmap) && n <= m <= |kmap| && (m < |kmap| ==> Covers(kmap[m], q))
    requires m == |kmap| ==> q < KERNPAGE
    ensures KernelAt(kmap, n, q) == None
  {
    assert Show(Regions, 0);
    if n > 0 {
      NotYet(kmap, n - 1, m, q);
    }
  }

  /** The only pages of d are those in the first n rows of the kernel's table. */
  ghost predicate KernelOnly(mem: Mem, d: int, kmap: seq<Region>, n: nat)
    requires n <= |kmap|
  {
    d in mem && |mem[d]| == N && forall u :: Show(Lookups, u) ==> forall q :: 0 <= q < PAGES ==>
      At(mem, d, q) == KernelAt(kmap, n, q)
  }

  /** A directory that setupkvm returns gives the kernel, and only the kernel, that memory. */
  lemma KernelAccess(mem: Mem, role: Roles, d: int, data: nat, q: int)
    requires 0x100 < data < 0xE000 && 0 <= q < 0x10_0000
    requires Owned(mem, role) && d in role && role[d].Dir? && KernelOnly(mem, d, Kmap(data), 4)
    ensures Translate(mem, d, q) ==
      if 0x8_0000 <= q < 0x8_E000 then Some(Access(q - 0x8_0000, !(0x100 <= q - 0x8_0000 < data), false))
      else if 0xF_E000 <= q then Some(Access(q, true, false)) else None
  {
    assert Show(Lookups, 0);
    Translated(mem, role, d, q);
    KernelSpace(data, q);
  }

  lemma KernelFree(mem: Mem, d: int, kmap: seq<Region>, n: nat)
    requires KernelMap(kmap) && n < |kmap| && KernelOnly(mem, d, kmap, n)
    ensures forall q :: kmap[n].virt <= q < kmap[n].virt + kmap[n].count ==> At(mem, d, q) == None
  {
    assert Show(Owners, 0) && Show(Lookups, 0);
    forall q | kmap[n].virt <= q < kmap[n].virt + kmap[n].count
      ensures At(mem, d, q) == None
    {
      NotYet(kmap, n, n, q);
    }
  }

  lemma KernelNext(mem: Mem, mem': Mem, d: int, kmap: seq<Region>, n: nat)
    requires KernelMap(kmap) && n < |kmap| && KernelOnly(mem, d, kmap, n)
    requires var k := kmap[n]; Maps(mem, mem', d, k.virt, k.virt + k.count, k.phys, k.perm)
    ensures KernelOnly(mem', d, kmap, n + 1)
  {
  }

  /** The frames of a new directory are all that changed hands. */
  ghost predicate Back(mem: Mem, role: Roles, mem': Mem, role': Roles) {
    role'.Keys == role.Keys && forall u :: Show(Frames, u) ==> BackAll(mem, role, mem', role')
  }

  ghost predicate BackAll(mem: Mem, role: Roles, mem': Mem, role': Roles)
    requires role'.Keys == role.Keys
  {
    forall f :: f in role ==>
      if role[f].Free? then f in role' && role'[f].Free? else Untouched(mem, role, mem', role', f)
  }

  /** Freeing a directory that has been made since gives every frame back. */
  lemma GivenBack(m0: Mem, r0: Roles, m1: Mem, r1: Roles, m2: Mem, r2: Roles, d: int)
    requires Owned(m0, r0) && d in r0 && r0[d].Free? && Grew(m0, r0, m1, r1, d, {d}) && Released(m1, r1, m2, r2, d)
    ensures Back(m0, r0, m2, r2)
  {
    assert Show(Frames, 0) && Show(Owners, 0) && Show(Lookups, 0);
    forall f | f in r0
      ensures if r0[f].Free? then r2[f].Free? else Untouched(m0, r0, m2, r2, f)
    {
      if f != d {
        assert Stays(m0, r0, m1, r1, d, f);
        if r0[f].Table? {
          assert Hangs(m0, r0, f, r0[f].d, r0[f].i);
        } else if r0[f].User? {
          assert Hangs(m0, r0, f, r0[f].t, r0[f].j);
          assert Hangs(m0, r0, r0[f].t, r0[r0[f].t].d, r0[r0[f].t].i);
          assert Stays(m0, r0, m1, r1, d, r0[f].t);
        }
      }
    }
  }

  lemma BackPages(m0: Mem, r0: Roles, m1: Mem, r1: Roles, p: int)
    requires Owned(m0, r0) && Back(m0, r0, m1, r1) && p in r0 && r0[p].Dir?
    ensures p in r1 && r1[p].Dir? && SamePages(m0, m1, p)
  {
    assert Show(Frames, 0) && Show(Owners, 0) && Show(Lookups, 0);
    assert Untouched(m0, r0, m1, r1, p);
    forall q | 0 <= q < PAGES
      ensures At(m1, p, q) == At(m0, p, q)
    {
      var e := m0[p][q / N];
      if Present(e) {
        assert Addr(e) in r0 && r0[Addr(e)] == Table(p, q / N);
        assert Untouched(m0, r0, m1, r1, Addr(e));
      }
    }
  }

  /** Growing directory d leaves every other directory's pages as they were. */
  lemma OtherDirectory(m0: Mem, r0: Roles, m1: Mem, r1: Roles, d: int, but: set<int>, p: int)
    requires Owned(m0, r0) && Owned(m1, r1) && Grew(m0, r0, m1, r1, d, but)
    requires p in r0 && r0[p].Dir? && p != d && d in r0 && (r0[d].Free? || r0[d].Dir?)
    requires forall f :: f in but && f in r0 ==> r0[f].Free? || r0[f].Kept?
    ensures SamePages(m0, m1, p)
  {
    assert Show(Owners, 0) && Show(Lookups, 0);
    Held(m0, r0, m1, r1, d, but, p);
    forall q | 0 <= q < PAGES
      ensures At(m1, p, q) == At(m0, p, q)
    {
      var e := m0[p][q / N];
      assert m1[p][q / N] == e;
      if Present(e) {
        assert Addr(e) in r0 && r0[Addr(e)] == Table(p, q / N);
        Held(m0, r0, m1, r1, d, but, Addr(e));
        assert m1[Addr(e)] == m0[Addr(e)];
      }
    }
  }

  ghost predicate CopyOf(mem: Mem, w: int, w': int) {
    Flags(w') == Flags(w) && Addr(w) in mem && Addr(w') in mem && mem[Addr(w')] == mem[Addr(w)]
  }

  /** The first n pages of d have the flags and the contents of those of p. */
  ghost predicate Copies(mem: Mem, p: int, d: int, n: int) {
    && p in mem && d in mem && |mem[p]| == N && |mem[d]| == N && n <= KERNPAGE
    && forall u :: Show(Lookups, u) ==> forall q :: 0 <= q < n ==>
      At(mem, p, q).Some? && At(mem, d, q).Some? && CopyOf(mem, At(mem, p, q).value, At(mem, d, q).value)
  }

  /** A copied page is not touched by mapping another frame. */
  lemma CopyStays(m1: Mem, r1: Roles, m2: Mem, r2: Roles, p: int, d: int, f: int, q: int)
    requires Owned(m1, r1) && p in r1 && r1[p].Dir? && d in r1 && r1[d].Dir? && 0 <= q < KERNPAGE
    requires At(m1, p, q).Some? && At(m1, d, q).Some? && CopyOf(m1, At(m1, p, q).value, At(m1, d, q).value)
    requires Grew(m1, r1, m2, r2, d, {f}) && f in r1 && r1[f].Free?
    ensures CopyOf(m2, At(m1, p, q).value, At(m1, d, q).value)
  {
    MappedOwned(m1, r1, p, q);
    Held(m1, r1, m2, r2, d, {f}, Addr(At(m1, p, q).value));
    MappedOwned(m1, r1, d, q);
    Held(m1, r1, m2, r2, d, {f}, Addr(At(m1, d, q).value));
  }

  lemma CopyNew(m1: Mem, r1: Roles, m2: Mem, r2: Roles, p: int, d: int, n: int, f: int, w: int)
    requires Owned(m1, r1) && p in r1 && r1[p].Dir? && d in r1 && r1[d].Dir? && 0 <= n < KERNPAGE
    requires At(m1, p, n) == Some(w) && SamePages(m1, m2, p)
    requires Grew(m1, r1, m2, r2, d, {f}) && Maps(m1, m2, d, n, n + 1, f, Flags(w))
    requires f in r1 && r1[f].Free? && Addr(w) in m1 && f in m2 && m2[f] == m1[Addr(w)] && Present(w)
    ensures At(m2, p, n) == Some(w) && At(m2, d, n) == Some(Pte(f, Flags(w))) && CopyOf(m2, w, Pte(f, Flags(w)))
  {
    MappedOwned(m1, r1, p, n);
    Held(m1, r1, m2, r2, d, {f}, Addr(w));
    assert Show(Lookups, 0);
  }

  /** What the user of d may do with the first n pages is what the user of p may, on other frames with the same
      contents. */
  ghost predicate SameAccess(mem: Mem, p: int, d: int, n: int) {
    && p in mem && d in mem && |mem[p]| == N && |mem[d]| == N
    && forall q :: 0 <= q < n <= PAGES ==>
      && Translate(mem, p, q).Some? && Translate(mem, d, q).Some?
      && var a, b := Translate(mem, p, q).value, Translate(mem, d, q).value;
      && b.writable == a.writable && b.user == a.user
      && a.frame in mem && b.frame in mem && mem[b.frame] == mem[a.frame]
  }

  lemma CopiesAccess(mem: Mem, role: Roles, p: int, d: int, n: int)
    requires Owned(mem, role) && p in role && role[p].Dir? && d in role && role[d].Dir? && Copies(mem, p, d, n)
    ensures SameAccess(mem, p, d, n)
  {
    assert Show(Lookups, 0);
    forall q | 0 <= q < n <= PAGES
      ensures Translate(mem, p, q) == AccessOf(At(mem, p, q)) && Translate(mem, d, q) == AccessOf(At(mem, d, q))
      ensures At(mem, p, q).Some? && At(mem, d, q).Some?
      ensures Writable(At(mem, d, q).value) == Writable(At(mem, p, q).value)
      ensures UserOk(At(mem, d, q).value) == UserOk(At(mem, p, q).value)
      ensures CopyOf(mem, At(mem, p, q).value, At(mem, d, q).value)
    {
      Translated(mem, role, p, q);
      Translated(mem, role, d, q);
      FlagBits(At(mem, p, q).value);
      FlagBits(At(mem, d, q).value);
    }
  }

  lemma CopiesNext(m1: Mem, r1: Roles, m2: Mem, r2: Roles, p: int, d: int, n: int, f: int, w: int)
    requires Owned(m1, r1) && p in r1 && r1[p].Dir? && d in r1 && r1[d].Dir? && 0 <= n < KERNPAGE
    requires Copies(m1, p, d, n) && At(m1, p, n) == Some(w) && SamePages(m1, m2, p)
    requires Grew(m1, r1, m2, r2, d, {f}) && Maps(m1, m2, d, n, n + 1, f, Flags(w))
    requires f in r1 && r1[f].Free? && Addr(w) in m1 && f in m2 && m2[f] == m1[Addr(w)] && Present(w)
    ensures Copies(m2, p, d, n + 1)
  {
    CopyNew(m1, r1, m2, r2, p, d, n, f, w);
    assert Show(Lookups, 0);
    forall q | 0 <= q < n
      ensures At(m2, p, q).Some? && At(m2, d, q).Some? && CopyOf(m2, At(m2, p, q).value, At(m2, d, q).value)
    {
      assert At(m2, p, q) == At(m1, p, q) && At(m2, d, q) == At(m1, d, q);
      CopyStays(m1, r1, m2, r2, p, d, f, q);
    }
  }

  /** Page n of d and the pages after it are the kernel's. */
  ghost predicate KernelFrom(mem: Mem, d: int, kmap: seq<Region>, n: int) {
    d in mem && |mem[d]| == N && forall u :: Show(Lookups, u) ==> forall q :: 0 <= n <= q < PAGES ==>
      At(mem, d, q) == KernelAt(kmap, |kmap|, q)
  }

  lemma KernelAfter(mem: Mem, d: int, kmap: seq<Region>, n: int, q: int)
    requires KernelFrom(mem, d, kmap, n) && 0 <= n <= q < PAGES
    ensures At(mem, d, q) == KernelAt(kmap, |kmap|, q)
  {
    assert Show(Lookups, 0);
  }

  /** The entries of a directory that have a page table. */
  ghost function Entries(dir: seq<int>): (s: set<int>)
    ensures forall i :: i in s <==> 0 <= i < |dir| && Present(dir[i])
  {
    set i | 0 <= i < |dir| && Present(dir[i])
  }

  lemma EntriesAdd(dir: seq<int>, i: int, w: int)
    requires 0 <= i < |dir| && Present(w)
    ensures Entries(dir[i := w]) == Entries(dir) + {i}
  {
    var after := dir[i := w];
    forall k
      ensures k in Entries(after) <==> k in Entries(dir) + {i}
    {
      assert 0 <= k < |dir| ==> after[k] == if k == i then w else dir[k];
    }
  }

  ghost predicate IsTally(dir: seq<int>, n: int) {
    forall u :: Show(Tallies, u) ==> n == |Entries(dir)|
  }

  ghost function Tally(dir: seq<int>): (n: int)
    ensures IsTally(dir, n)
  {
    assert IsTally(dir, |Entries(dir)|);
    var n :| IsTally(dir, n);
    n
  }

  /** The frames that have left the free list are n of them and page tables for the entries `slots` of d. */
  ghost predicate Spent(mem: Mem, free: seq<int>, mem': Mem, free': seq<int>, d: int, slots: set<int>, n: int) {
    forall u :: Show(Spending, u) ==>
      && d in mem && d in mem'
      && Entries(mem'[d]) == Entries(mem[d]) + slots
      && |free'| + Tally(mem'[d]) + n == |free| + Tally(mem[d])
  }

  lemma SpentNothing(mem: Mem, free: seq<int>, mem': Mem, free': seq<int>, d: int)
    requires d in mem && d in mem' && mem'[d] == mem[d]
    ensures Spent(mem, free, mem', free', d, {}, |free| - |free'|)
  {
  }

  lemma SpentTable(mem: Mem, free: seq<int>, mem': Mem, free': seq<int>, d: int, i: int, w: int)
    requires d in mem && d in mem' && 0 <= i < |mem[d]| && !Present(mem[d][i]) && Present(w)
    requires mem'[d] == mem[d][i := w] && |free'| + 1 == |free|
    ensures Spent(mem, free, mem', free', d, {i}, 0)
  {
    assert Show(Tallies, 0);
    EntriesAdd(mem[d], i, w);
    OneMore(Entries(mem[d]), i);
  }

  lemma SpentThere(mem: Mem, free: seq<int>, d: int, i: int)
    requires d in mem && 0 <= i < |mem[d]| && Present(mem[d][i])
    ensures Spent(mem, free, mem, free, d, {i}, 0)
  {
    assert Entries(mem[d]) + {i} == Entries(mem[d]);
  }

  lemma SpentStart(mem: Mem, free: seq<int>, d: int, lo: int)
    requires d in mem
    ensures Spent(mem, free, mem, free, d, Slots(lo, lo), 0)
  {
    NoSlots(lo);
  }

  /** What the rest of memory does makes no difference. */
  lemma SpentSame(mem: Mem, free: seq<int>, m1: Mem, free': seq<int>, m2: Mem, d: int, slots: set<int>, n: int)
    requires Spent(mem, free, m1, free', d, slots, n) && d in m1 && d in m2 && m2[d] == m1[d]
    ensures Spent(mem, free, m2, free', d, slots, n)
  {
  }

  /** n frames go before that. */
  lemma SpentMore(mem: Mem, free: seq<int>, m1: Mem, f1: seq<int>, m2: Mem, f2: seq<int>, d: int, slots: set<int>,
      n: int)
    requires d in mem && d in m1 && m1[d] == mem[d] && |f1| + n == |free| && Spent(m1, f1, m2, f2, d, slots, 0)
    ensures Spent(mem, free, m2, f2, d, slots, n)
  {
    assert Show(Spending, 0);
  }

  /** Page a as well, with k frames. */
  lemma SpentNext(mem: Mem, free: seq<int>, m1: Mem, f1: seq<int>, m2: Mem, f2: seq<int>, d: int, lo: int, a: int,
      b: int, n: int, k: int, total: int)
    requires Spent(mem, free, m1, f1, d, Slots(lo, a), n) && Spent(m1, f1, m2, f2, d, {a / N}, k)
    requires lo <= a && b == a + 1 && total == n + k
    ensures Spent(mem, free, m2, f2, d, Slots(lo, b), total)
  {
    assert Show(Spending, 0);
    SlotsNext(lo, a);
  }

  lemma SpentTo(mem: Mem, free: seq<int>, mem': Mem, free': seq<int>, d: int, lo: int, a: int, b: int, n: int,
      total: int)
    requires Spent(mem, free, mem', free', d, Slots(lo, a), n) && a == b && n == total
    ensures Spent(mem, free, mem', free', d, Slots(lo, b), total)
  {
  }

  lemma SpentStill(mem: Mem, free: seq<int>, m1: Mem, f1: seq<int>, m2: Mem, f2: seq<int>, d: int, slots: set<int>,
      n: int, k: int, total: int)
    requires Spent(mem, free, m1, f1, d, slots, n) && Spent(m1, f1, m2, f2, d, {}, k) && total == n + k
    ensures Spent(mem, free, m2, f2, d, slots, total)
  {
    assert Show(Spending, 0);
  }

  ghost function Under(lo: int, hi: int): set<int>
    decreases hi - lo
  {
    if hi <= lo then {} else Under(lo, hi - 1) + {(hi - 1) / N}
  }

  ghost predicate IsUnder(lo: int, hi: int, s: set<int>) {
    forall u :: Show(SlotSets, u) ==> s == Under(lo, hi)
  }

  /** The directory entries that pages lo, ..., hi - 1 are under. */
  ghost function Slots(lo: int, hi: int): (s: set<int>)
    ensures IsUnder(lo, hi, s)
  {
    assert IsUnder(lo, hi, Under(lo, hi));
    var s :| IsUnder(lo, hi, s);
    s
  }

  lemma NoSlots(lo: int)
    ensures Slots(lo, lo) == {}
  {
    assert Show(SlotSets, 0);
  }

  lemma SlotsNext(lo: int, a: int)
    requires lo <= a
    ensures Slots(lo, a + 1) == Slots(lo, a) + {a / N}
  {
    assert Show(SlotSets, 0);
  }

  lemma OneSlot(a: int, n: nat)
    requires n <= 1
    ensures Slots(a, a + n) == if n == 1 then {a / N} else {}
  {
    NoSlots(a);
    SlotsNext(a, a);
  }

  lemma {:induction false} SlotsGrow(lo: int, mid: int, hi: int)
    requires mid <= hi
    ensures Slots(lo, mid) <= Slots(lo, hi)
    decreases hi - mid
  {
    if mid < lo {
      assert Show(SlotSets, 0);
    } else if mid < hi {
      SlotsGrow(lo, mid, hi - 1);
      SlotsNext(lo, hi - 1);
    }
  }

  lemma {:induction false} SlotsIn(lo: int, hi: int, a: int)
    requires lo <= a < hi
    ensures a / N in Slots(lo, hi)
    decreases hi - a
  {
    SlotsNext(lo, hi - 1);
    if a < hi - 1 {
      SlotsIn(lo, hi - 1, a);
    }
  }

  lemma OneMore<T>(a: set<T>, x: T)
    ensures |a + {x}| == |a| + if x in a then 0 else 1
  {
    if x in a {
      assert a + {x} == a;
    }
  }

  lemma FewerIn<T>(a: set<T>, b: set<T>)
    requires a <= b
    ensures |a| <= |b|
  {
    assert b == a + (b - a);
  }

  /** Frames that mapping pages lo, ..., hi - 1 takes in a directory with these entries: the pages and the
      page tables that are missing. */
  ghost function FramesFor(entries: set<int>, lo: int, hi: int): int {
    hi - lo + |entries + Slots(lo, hi)| - |entries|
  }

  /** With the pages before a mapped, `left` frames are too few for page a. */
  lemma TooFew(entries: set<int>, lo: int, a: int, hi: int, left: nat)
    requires lo <= a < hi && left <= (if a / N in entries + Slots(lo, a) then 0 else 1)
    ensures a - lo + |entries + Slots(lo, a)| - |entries| + left < FramesFor(entries, lo, hi)
  {
    SlotsGrow(lo, a, hi);
    SlotsIn(lo, hi, a);
    var some := entries + Slots(lo, a);
    OneMore(some, a / N);
    FewerIn(some + {a / N}, entries + Slots(lo, hi));
  }

  lemma Sufficed(mem: Mem, free: seq<int>, mem': Mem, free': seq<int>, d: int, lo: int, hi: int)
    requires d in mem && Spent(mem, free, mem', free', d, Slots(lo, hi), hi - lo)
    ensures FramesFor(Entries(mem[d]), lo, hi) <= |free|
  {
    assert Show(Spending, 0) && Show(Tallies, 0);
  }

  /** At page a there was no frame for the page, or with a frame for the page none for its page table. */
  lemma RanOut(mem: Mem, free: seq<int>, mem': Mem, free': seq<int>, d: int, lo: int, a: int, hi: int, n: nat,
      total: int)
    requires d in mem && d in mem' && Spent(mem, free, mem', free', d, Slots(lo, a), total) && total == a - lo + n
    requires lo <= a < hi && free' == []
    requires n == 0 || (n == 1 && 0 <= a / N < |mem'[d]| && !Present(mem'[d][a / N]))
    ensures |free| < FramesFor(Entries(mem[d]), lo, hi)
  {
    assert Show(Spending, 0) && Show(Tallies, 0);
    TooFew(Entries(mem[d]), lo, a, hi, n);
  }

  ghost function KernelUnder(kmap: seq<Region>, n: nat): set<int>
    requires n <= |kmap|
  {
    if n == 0 then {} else KernelUnder(kmap, n - 1) + Slots(kmap[n - 1].virt, kmap[n - 1].virt + kmap[n - 1].count)
  }

  ghost predicate IsKernelUnder(kmap: seq<Region>, n: nat, s: set<int>)
    requires n <= |kmap|
  {
    forall u :: Show(SlotSets, u) ==> s == KernelUnder(kmap, n)
  }

  /** The directory entries that the first n rows of kmap are under. */
  ghost function KernelSlots(kmap: seq<Region>, n: nat): (s: set<int>)
    requires n <= |kmap|
    ensures IsKernelUnder(kmap, n, s)
  {
    assert IsKernelUnder(kmap, n, KernelUnder(kmap, n));
    var s :| IsKernelUnder(kmap, n, s);
    s
  }

  lemma KernelSlotsNext(kmap: seq<Region>, n: nat)
    requires n < |kmap|
    ensures KernelSlots(kmap, n + 1) == KernelSlots(kmap, n) + Slots(kmap[n].virt, kmap[n].virt + kmap[n].count)
  {
    assert Show(SlotSets, 0);
  }

  lemma {:induction false} KernelSlotsGrow(kmap: seq<Region>, m: nat, n: nat)
    requires m <= n <= |kmap|
    ensures KernelSlots(kmap, m) <= KernelSlots(kmap, n)
  {
    if m < n {
      KernelSlotsGrow(kmap, m, n - 1);
      KernelSlotsNext(kmap, n - 1);
    }
  }

  /** Frames of a new directory: itself and the page tables of the kernel's mappings. */
  ghost function SetupNeeds(kmap: seq<Region>): nat {
    1 + |KernelSlots(kmap, |kmap|)|
  }

  /** Frames of a copy of p pages. */
  ghost function CopyNeeds(kmap: seq<Region>, p: nat): (n: int)
    ensures n >= SetupNeeds(kmap)
  {
    FewerIn(KernelSlots(kmap, |kmap|), KernelSlots(kmap, |kmap|) + Slots(0, p));
    SetupNeeds(kmap) + FramesFor(KernelSlots(kmap, |kmap|), 0, p)
  }

  lemma {:induction false} SlotsAt(lo: int, hi: int, i: int)
    requires i in Slots(lo, hi)
    ensures lo / N <= i && i * N < hi
    decreases hi - lo
  {
    if hi <= lo {
      assert Show(SlotSets, 0);
    } else {
      SlotsNext(lo, hi - 1);
      if i in Slots(lo, hi - 1) {
        SlotsAt(lo, hi - 1, i);
      }
    }
  }

  lemma {:induction false} SlotsCount(p: nat)
    ensures |Slots(0, p)| == (p + N - 1) / N
  {
    if p == 0 {
      NoSlots(0);
    } else {
      SlotsCount(p - 1);
      SlotsNext(0, p - 1);
      OneMore(Slots(0, p - 1), (p - 1) / N);
      if (p - 1) % N != 0 {
        SlotsIn(0, p - 1, (p - 1) / N * N);
      } else if (p - 1) / N in Slots(0, p - 1) {
        SlotsAt(0, p - 1, (p - 1) / N);
      }
    }
  }

  lemma {:induction false} KernelAbove(kmap: seq<Region>, n: nat, i: int)
    requires KernelMap(kmap) && n <= |kmap| && i in KernelSlots(kmap, n)
    ensures i >= UPD
  {
    if n == 0 {
      assert Show(SlotSets, 0);
    } else {
      KernelSlotsNext(kmap, n - 1);
      if i in KernelSlots(kmap, n - 1) {
        KernelAbove(kmap, n - 1, i);
      } else {
        SlotsAt(kmap[n - 1].virt, kmap[n - 1].virt + kmap[n - 1].count, i);
      }
    }
  }

  /** A copy takes what a new directory takes, its pages, and a page table for every N of them. */
  lemma CopyCost(kmap: seq<Region>, p: nat)
    requires KernelMap(kmap) && p <= KERNPAGE
    ensures CopyNeeds(kmap, p) == SetupNeeds(kmap) + p + (p + N - 1) / N
  {
    var kernel, user := KernelSlots(kmap, |kmap|), Slots(0, p);
    SlotsCount(p);
    forall i | i in kernel && i in user
      ensures false
    {
      KernelAbove(kmap, |kmap|, i);
      SlotsAt(0, p, i);
    }
    assert kernel !! user;
    assert |kernel + user| == |kernel| + |user|;
  }

  lemma SpentNoRows(mem: Mem, free: seq<int>, d: int, kmap: seq<Region>)
    requires d in mem
    ensures Spent(mem, free, mem, free, d, KernelSlots(kmap, 0), 0)
  {
    assert KernelSlots(kmap, 0) == {} by {
      assert Show(SlotSets, 0);
    }
  }

  lemma SpentRow(mem: Mem, free: seq<int>, m1: Mem, f1: seq<int>, m2: Mem, f2: seq<int>, d: int, kmap: seq<Region>,
      n: nat)
    requires n < |kmap| && Spent(mem, free, m1, f1, d, KernelSlots(kmap, n), 0)
    requires Spent(m1, f1, m2, f2, d, Slots(kmap[n].virt, kmap[n].virt + kmap[n].count), 0)
    ensures Spent(mem, free, m2, f2, d, KernelSlots(kmap, n + 1), 0)
  {
    assert Show(Spending, 0);
    KernelSlotsNext(kmap, n);
  }

  lemma SetupSufficed(mem: Mem, free: seq<int>, mem': Mem, free': seq<int>, d: int, kmap: seq<Region>)
    requires d in mem && d in mem' && Entries(mem[d]) == {}
    requires Spent(mem, free, mem', free', d, KernelSlots(kmap, |kmap|), 0)
    ensures |free'| + SetupNeeds(kmap) == |free| + 1 && Entries(mem'[d]) == KernelSlots(kmap, |kmap|)
  {
    assert Show(Spending, 0) && Show(Tallies, 0);
    assert Entries(mem[d]) + KernelSlots(kmap, |kmap|) == KernelSlots(kmap, |kmap|);
  }

  /** In row n there was no frame for the page table of a page. */
  lemma SetupRanOut(mem: Mem, free: seq<int>, m1: Mem, f1: seq<int>, m2: Mem, f2: seq<int>, d: int, kmap: seq<Region>,
      n: nat, done: nat)
    requires d in mem && d in m1 && d in m2 && Entries(mem[d]) == {} && n < |kmap| && done < kmap[n].count && f2 == []
    requires Spent(mem, free, m1, f1, d, KernelSlots(kmap, n), 0)
    requires Spent(m1, f1, m2, f2, d, Slots(kmap[n].virt, kmap[n].virt + done), 0)
    requires var i := (kmap[n].virt + done) / N; 0 <= i < |m2[d]| && !Present(m2[d][i])
    ensures |free| + 1 < SetupNeeds(kmap)
  {
    assert Show(Spending, 0) && Show(Tallies, 0);
    RowTooFew(kmap, n, done, Entries(m2[d]));
  }

  lemma RowTooFew(kmap: seq<Region>, n: nat, done: nat, entries: set<int>)
    requires n < |kmap| && done < kmap[n].count && (kmap[n].virt + done) / N !in entries
    requires forall i :: i in entries ==> i in KernelSlots(kmap, n) || i in Slots(kmap[n].virt, kmap[n].virt + done)
    ensures |entries| < |KernelSlots(kmap, |kmap|)|
  {
    var q := kmap[n].virt;
    KernelSlotsNext(kmap, n);
    KernelSlotsGrow(kmap, n + 1, |kmap|);
    SlotsGrow(q, q + done, q + kmap[n].count);
    SlotsIn(q, q + kmap[n].count, q + done);
    OneMore(entries, (q + done) / N);
    var all := KernelSlots(kmap, |kmap|);
    forall i | i in entries + {(q + done) / N}
      ensures i in all
    {
      assert i in KernelSlots(kmap, n) || i in Slots(q, q + kmap[n].count);
      assert i in KernelSlots(kmap, n + 1);
    }
    FewerIn(entries + {(q + done) / N}, all);
  }

  class Vm {
    const kmap: seq<Region>
    var mem: Mem
    var freelist: int
    ghost var role: Roles
    ghost var free: seq<int>

    /** kinit: the frames from first up to PHYSTOP, all free. */
    constructor (data: nat, first: nat, frames: Mem)
      requires EXTMEM < data < first <= PHYSTOP
      requires forall f :: first <= f < PHYSTOP ==> f in frames
      requires forall f :: f in frames ==> first <= f < PHYSTOP && |frames[f]| == N
      ensures Valid() && role.Keys == frames.Keys && forall f :: f in role ==> role[f].Free?
      ensures kmap == Kmap(data)
    {
      kmap := Kmap(data);
      mem := frames;
      freelist := 0;
      role := map f | f in frames :: Kept;
      free := [];
      new;
      Freerange(first, PHYSTOP);
    }

    method Freerange(first: nat, end: nat)
      requires Valid() && first <= end && forall f :: first <= f < end ==> f in role && role[f] == Kept
      modifies `mem, `freelist, `role, `free
      ensures Valid() && role.Keys == old(role).Keys
      ensures forall f :: f in role ==> if first <= f < end then role[f].Free? else role[f] == old(role)[f]
    {
      var p := first;
      while p < end
        invariant Valid() && role.Keys == old(role).Keys && first <= p <= end
        invariant forall f :: f in role ==> if first <= f < p then role[f].Free? else role[f] == old(role)[f]
      {
        Reuse(mem, role, p, FreedPage(freelist), Free(|free|));
        Kfree(p);
        p := p + 1;
      }
    }

    ghost predicate Valid()
      reads this
    {
      Owned(mem, role) && Chain(mem, role, free, freelist) && KernelMap(kmap)
    }

    ghost predicate IsDir(d: int)
      reads this
    {
      d in role && role[d].Dir?
    }

    method Kalloc() returns (f: int)
      requires Valid()
      modifies `freelist, `role, `free
      ensures Valid()
      ensures f == 0 ==> free == [] && role == old(role) && old(free) == []
      ensures f != 0 ==> f in old(role) && old(role)[f].Free? && role == old(role)[f := Kept]
      ensures f != 0 ==> |free| == |old(free)| - 1
    {
      f := freelist;
      if f != 0 {
        ChainPop(mem, role, free);
        Reuse(mem, role, f, mem[f], Kept);
        assert mem[f := mem[f]] == mem;
        freelist := mem[f][0];
        role, free := role[f := Kept], free[..|free| - 1];
      } else {
        assert |free| > 0 ==> ChainAt(mem, role, free, |free| - 1);
      }
    }

    /** The frame may still be in a table: the callers clear the entry afterwards. */
    method Kfree(f: int)
      requires Pages(mem, role) && Chain(mem, role, free, freelist) && f in role && !role[f].Free?
      modifies `mem, `freelist, `role, `free
      ensures mem == old(mem)[f := FreedPage(old(freelist))] && role == old(role)[f := Free(|old(free)|)]
      ensures Chain(mem, role, free, freelist)
    {
      ChainPush(mem, role, free, f);
      var r := seq(N, k => JUNK);
      r := r[0 := freelist];
      assert r == FreedPage(freelist);
      mem := mem[f := r];
      freelist := f;
      role, free := role[f := Free(|free|)], free + [f];
    }

    /** walkpgdir: the page table for directory entry i, or 0. */
    method Walk(d: int, i: int, alloc: bool) returns (t: int)
      requires Valid() && IsDir(d) && 0 <= i < N
      modifies `mem, `freelist, `role, `free
      ensures Valid() && IsDir(d) && Grew(old(mem), old(role), mem, role, d, {}) && SameLookups(old(mem), mem, d)
      ensures t == 0 ==> mem == old(mem) && role == old(role) && !Present(mem[d][i]) && (alloc ==> free == [])
      ensures t != 0 ==> t in role && role[t] == Table(d, i) && Present(mem[d][i]) && Addr(mem[d][i]) == t
      ensures !alloc ==> mem == old(mem) && role == old(role)
      ensures t == 0 ==> Spent(old(mem), old(free), mem, free, d, {}, 0)
      ensures t != 0 ==> Spent(old(mem), old(free), mem, free, d, {i}, 0)
    {
      if Present(mem[d][i]) {
        t := Addr(mem[d][i]);
        TableAt(mem, role, d, i);
        SpentThere(mem, free, d, i);
      } else {
        SpentNothing(mem, free, mem, free, d);
        if !alloc { return 0; }
        t := Kalloc();
        if t == 0 { return 0; }
        NewTable(mem, role, d, i, t);
        ghost var m, r := NewTableMem(mem, d, i, t), role[t := Table(d, i)];
        ChainSame(mem, role, m, r, free);
        mem := mem[t := Zeros()];
        mem := mem[d := mem[d][i := Pte(t, PTE_W + PTE_U)]];
        role := r;
        SpentTable(old(mem), old(free), mem, free, d, i, Pte(t, PTE_W + PTE_U));
      }
    }
  
    /** Page q is in kernel space, or in user space where its entry is to own the frame f. */
    ghost predicate MayMap(q: int, f: int)
      reads this
    {
      if q < KERNPAGE then f in role && role[f] == Kept else q < PAGES
    }

    ghost function Mapped(q: int, f: int): set<int> {
      if q < KERNPAGE then {f} else {}
    }

    /** One turn of the loop in mappages. */
    method MapPage(d: int, q: int, f: int, perm: int) returns (ok: bool)
      requires Valid() && IsDir(d) && 0 <= q && MayMap(q, f) && 0 <= perm < PGSIZE
      requires q < PAGES && At(mem, d, q) == None
      modifies `mem, `freelist, `role, `free
      ensures Valid() && IsDir(d) && Grew(old(mem), old(role), mem, role, d, Mapped(q, f))
      ensures if ok then Maps(old(mem), mem, d, q, q + 1, f, perm) else SameLookups(old(mem), mem, d) && free == []
      ensures q < KERNPAGE ==> f in role && mem[f] == old(mem)[f] && if ok then PartOf(role, f, d) else role[f] == Kept
      ensures ok ==> Spent(old(mem), old(free), mem, free, d, {q / N}, 0)
      ensures !ok ==> Spent(old(mem), old(free), mem, free, d, {}, 0) && !Present(mem[d][q / N])
    {
      var t := Walk(d, q / N, true);
      if q < KERNPAGE {
        Held(old(mem), old(role), mem, role, d, {}, f);
      }
      if t == 0 {
        return false;
      }
      SameAt(old(mem), mem, d, q);
      LeafSet(mem, role, d, q, t, f, perm);
      ghost var m, r := mem, role;
      if q < KERNPAGE {
        UserSet(mem, role, d, q / N, t, q % N, f, perm);
        role := role[f := User(t, q % N)];
      } else {
        KernelSet(mem, role, d, q / N, t, q % N, Pte(f, perm));
      }
      mem := mem[t := mem[t][q % N := Pte(f, perm)]];
      assert mem == SetLeaf(m, t, q % N, Pte(f, perm));
      assert q < KERNPAGE ==> f != t;
      ChainSame(m, r, mem, role, free);
      MapsSame(old(mem), m, mem, d, q, q + 1, f, perm);
      GrewThen(old(mem), old(role), m, r, mem, role, d, Mapped(q, f));
      SpentSame(old(mem), old(free), m, free, mem, d, {q / N}, 0);
      ok := true;
    }
  
    /** One turn of mappages, after it has mapped the pages from q up to a and nothing else since m0, r0 and f0. */
    method MapTurn(d: int, q: int, a: int, f: int, pa: int, perm: int, ghost m0: Mem, ghost r0: Roles,
        ghost f0: seq<int>)
        returns (ok: bool)
      requires Valid() && IsDir(d) && 0 <= q <= a < PAGES && 0 <= perm < PGSIZE && pa == f + a - q
      requires MayMap(q, f) && (q < KERNPAGE ==> a == q && f in r0 && r0[f] == Kept)
      requires Grew(m0, r0, mem, role, d, {}) && Maps(m0, mem, d, q, a, f, perm) && At(m0, d, a) == None
      requires Spent(m0, f0, mem, free, d, Slots(q, a), 0)
      modifies `mem, `freelist, `role, `free
      ensures Valid() && IsDir(d) && Grew(m0, r0, mem, role, d, Mapped(q, f))
      ensures ok ==> Maps(m0, mem, d, q, a + 1, f, perm) && Spent(m0, f0, mem, free, d, Slots(q, a + 1), 0)
      ensures !ok ==> Maps(m0, mem, d, q, a, f, perm) && Spent(m0, f0, mem, free, d, Slots(q, a), 0)
      ensures !ok ==> free == [] && !Present(mem[d][a / N])
      ensures q < KERNPAGE ==> f in role && mem[f] == old(mem)[f] && if ok then PartOf(role, f, d) else role[f] == Kept
    {
      MapsAt(m0, mem, d, q, a, f, perm, a);
      ok := MapPage(d, a, pa, perm);
      GrewThen(m0, r0, old(mem), old(role), mem, role, d, Mapped(q, f));
      if ok {
        MapsNext(m0, old(mem), mem, d, q, a, f, perm);
        SpentNext(m0, f0, old(mem), old(free), mem, free, d, q, a, a + 1, 0, 0, 0);
      } else {
        MapsStill(m0, old(mem), mem, d, q, a, f, perm);
        SpentStill(m0, f0, old(mem), old(free), mem, free, d, Slots(q, a), 0, 0, 0);
      }
    }

    method Mappages(d: int, q: int, count: nat, f: int, perm: int) returns (ok: bool, ghost done: nat)
      requires Valid() && IsDir(d) && 0 <= q && count > 0 && q + count <= PAGES && 0 <= perm < PGSIZE
      requires MayMap(q, f) && (q < KERNPAGE ==> count == 1)
      requires forall x :: q <= x < q + count ==> At(mem, d, x) == None
      modifies `mem, `freelist, `role, `free
      ensures Valid() && IsDir(d) && Grew(old(mem), old(role), mem, role, d, Mapped(q, f))
      ensures Maps(old(mem), mem, d, q, q + done, f, perm) && done <= count
      ensures if ok then done == count else done < count && free == []
      ensures q < KERNPAGE ==> f in role && mem[f] == old(mem)[f] && if ok then PartOf(role, f, d) else role[f] == Kept
      ensures Spent(old(mem), old(free), mem, free, d, Slots(q, q + done), 0)
      ensures !ok ==> !Present(mem[d][(q + done) / N])
    {
      SpentStart(mem, free, d, q);
      var a, pa, last := q, f, q + count - 1;
      done := 0;
      while true
        invariant Valid() && IsDir(d) && Grew(old(mem), old(role), mem, role, d, {})
        invariant q <= a <= last && pa == f + a - q
        invariant q < KERNPAGE ==> MayMap(q, f) && mem[f] == old(mem)[f]
        invariant Maps(old(mem), mem, d, q, a, f, perm)
        invariant Spent(old(mem), old(free), mem, free, d, Slots(q, a), 0)
        decreases last - a
      {
        ok := MapTurn(d, q, a, f, pa, perm, old(mem), old(role), old(free));
        if !ok {
          done := a - q;
          SpentTo(old(mem), old(free), mem, free, d, q, a, q + done, 0, 0);
          return;
        }
        if a == last {
          done := count;
          SpentTo(old(mem), old(free), mem, free, d, q, a + 1, q + done, 0, 0);
          return;
        }
        a, pa := a + 1, pa + 1;
      }
    }
  
    /** Frees the frame behind entry q of table t of directory d, and clears the entry. */
    method DropPage(d: int, q: int, t: int)
      requires Valid() && IsDir(d) && 0 <= q < KERNPAGE
      requires t in role && role[t] == Table(d, q / N) && Present(mem[t][q % N])
      modifies `mem, `freelist, `role, `free
      ensures Valid() && IsDir(d) && Unmaps(old(mem), mem, d, q, q + 1)
      ensures Shrank(old(mem), old(role), mem, role, d, q, q + 1)
    {
      var pa := Addr(mem[t][q % N]);
      DropLeaf(mem, role, d, q, t, FreedPage(freelist), |free|);
      DropLookup(mem, role, d, q, t, FreedPage(freelist));
      Kfree(pa);
      ghost var m := mem;
      mem := mem[t := mem[t][q % N := 0]];
      assert mem == DropMem(old(mem), t, q % N, FreedPage(old(freelist)));
      ChainSame(m, role, mem, role, free);
    }

    /** The pages from a up to `next` are not mapped, or the loop of deallocuvm frees page a. */
    method DeallocStep(d: int, a: nat, ghost hi: nat) returns (next: nat)
      requires Valid() && IsDir(d) && a < hi <= KERNPAGE
      modifies `mem, `freelist, `role, `free
      ensures Valid() && IsDir(d) && a < next
      ensures Unmaps(old(mem), mem, d, a, Min(next, hi))
      ensures Shrank(old(mem), old(role), mem, role, d, a, Min(next, hi))
    {
      next := a;
      var t := Walk(d, a / N, false);
      if t == 0 {
        next := (a / N + 1) * N - 1;
      } else if Present(mem[t][a % N]) {
        DropPage(d, a, t);
        return a + 1;
      }
      next := next + 1;
      Unmapped(mem, role, d, a, Min(next, hi));
    }

    method Deallocuvm(d: int, oldsz: nat, newsz: nat) returns (sz: nat)
      requires Valid() && IsDir(d) && oldsz <= KERNPAGE * PGSIZE
      modifies `mem, `freelist, `role, `free
      ensures Valid() && IsDir(d) && sz == if newsz >= oldsz then oldsz else newsz
      ensures Unmaps(old(mem), mem, d, PageUp(newsz), PageUp(oldsz))
      ensures Shrank(old(mem), old(role), mem, role, d, PageUp(newsz), PageUp(oldsz))
    {
      if newsz >= oldsz {
        Unmapped(mem, role, d, PageUp(newsz), PageUp(oldsz));
        return oldsz;
      }
      var a := PageUp(newsz);
      ghost var lo, hi := a, PageUp(oldsz);
      Unmapped(mem, role, d, lo, lo);
      while a * PGSIZE < oldsz
        invariant Valid() && IsDir(d) && lo <= a
        invariant Unmaps(old(mem), mem, d, lo, Min(a, hi))
        invariant Shrank(old(mem), old(role), mem, role, d, lo, Min(a, hi))
      {
        ghost var m, r := mem, role;
        var next := DeallocStep(d, a, hi);
        ShrankNext(old(mem), old(role), m, r, mem, role, d, lo, a, Min(next, hi));
        UnmapsNext(old(mem), m, mem, d, lo, a, Min(next, hi));
        a := next;
      }
      return newsz;
    }
  
    /** The loop of freevm. */
    method FreeTables(d: int)
      requires Valid() && IsDir(d) && NoUserPages(mem, role, d)
      modifies `mem, `freelist, `role, `free
      ensures Pages(mem, role) && Chain(mem, role, free, freelist)
      ensures IsDir(d) && Owned(Shadow(mem, d, N), role) && mem[d] == old(mem)[d]
      ensures TablesFreed(old(mem), old(role), mem, role, d, N)
    {
      assert Shadow(mem, d, 0) == mem;
      NoTablesFreed(mem, role, d);
      for i := 0 to N
        invariant Pages(mem, role) && Chain(mem, role, free, freelist) && NoUserPages(mem, role, d)
        invariant IsDir(d) && Owned(Shadow(mem, d, i), role) && mem[d] == old(mem)[d]
        invariant TablesFreed(old(mem), old(role), mem, role, d, i)
      {
        TablesFreedNext(old(mem), old(role), mem, role, d, i, FreedPage(freelist), |free|);
        if Present(mem[d][i]) {
          FreeTable(mem, role, d, i, FreedPage(freelist), |free|);
          Kfree(Addr(mem[d][i]));
        } else {
          assert Shadow(mem, d, i + 1) == Shadow(mem, d, i);
        }
      }
    }
  
    method Freevm(d: int)
      requires Valid() && IsDir(d)
      modifies `mem, `freelist, `role, `free
      ensures Valid() && Released(old(mem), old(role), mem, role, d)
    {
      var _ := Deallocuvm(d, KERNPAGE * PGSIZE, 0);
      NoneMapped(old(mem), mem, role, d);
      ghost var m1, r1 := mem, role;
      FreeTables(d);
      AllReleased(old(mem), old(role), m1, r1, mem, role, d, FreedPage(freelist), |free|);
      Reuse(Shadow(mem, d, N), role, d, FreedPage(freelist), Free(|free|));
      assert Shadow(mem, d, N)[d := FreedPage(freelist)] == mem[d := FreedPage(freelist)];
      Kfree(d);
    }
  
    /** Page a is mapped to a new frame with the given contents; on failure the frame f, unless it is 0,
        is still to be freed. */
    method NewPage(d: int, a: nat, contents: seq<int>, perm: int) returns (ok: bool, f: int)
      requires Valid() && IsDir(d) && a < KERNPAGE && At(mem, d, a) == None && |contents| == N && 0 <= perm < PGSIZE
      modifies `mem, `freelist, `role, `free
      ensures Valid() && IsDir(d) && role.Keys == old(role).Keys
      ensures f == 0 ==> !ok && mem == old(mem) && role == old(role)
      ensures f != 0 ==> f in old(role) && old(role)[f].Free? && Grew(old(mem), old(role), mem, role, d, {f})
      ensures f != 0 ==> Maps(old(mem), mem, d, a, if ok then a + 1 else a, f, perm)
      ensures f != 0 && !ok ==> f in role && role[f] == Kept
      ensures ok ==> f != 0 && mem[f] == contents && PartOf(role, f, d)
      ensures ok ==> Spent(old(mem), old(free), mem, free, d, {a / N}, 1)
      ensures !ok ==> free == [] && Spent(old(mem), old(free), mem, free, d, {}, if f == 0 then 0 else 1)
      ensures !ok && f != 0 ==> !Present(mem[d][a / N])
    {
      SpentNothing(mem, free, mem, free, d);
      f := Kalloc();
      if f == 0 { return false, 0; }
      Reuse(mem, role, f, contents, Kept);
      mem := mem[f := contents];
      assert role == role[f := Kept];
      ChainSame(old(mem), role, mem, role, free);
      ghost var m := mem;
      FrameMaps(old(mem), role, d, f, contents);
      ghost var done: nat;
      ghost var fr := free;
      SameAt(old(mem), mem, d, a);
      ok, done := Mappages(d, a, 1, f, perm);
      OneSlot(a, done);
      SpentMore(old(mem), old(free), m, fr, mem, free, d, Slots(a, a + done), 1);
      MapsSame(old(mem), m, mem, d, a, a + done, f, perm);
    }

    /** A page could not be mapped, and its frame f is still to be freed. */
    lemma FailedPage(m0: Mem, r0: Roles, m1: Mem, r1: Roles, d: int, lo: int, a: int, f: int)
      requires Owned(m1, r1) && d in r1 && r1[d].Dir? && 0 <= lo <= a < KERNPAGE
      requires Grew(m0, r0, m1, r1, d, {}) && Allocates(m0, r0, m1, d, lo, a)
      requires f in r1 && r1[f].Free? && Grew(m1, r1, mem, role, d, {f}) && Maps(m1, mem, d, a, a, f, PTE_W + PTE_U)
      ensures f in r0 && r0[f].Free? && Grew(m0, r0, mem, role, d, {f}) && Allocates(m0, r0, mem, d, lo, a)
    {
      GrewPage(m0, r0, m1, r1, mem, role, d, {}, f);
      assert {} + {f} == {f};
      AllocatesStill(m0, r0, m1, r1, mem, role, d, lo, a, f);
    }

    lemma FailedFor(m0: Mem, f0: seq<int>, m1: Mem, f1: seq<int>, d: int, lo: int, a: int, hi: int, f: int)
      requires d in m0 && d in mem && lo <= a < hi && Spent(m0, f0, m1, f1, d, Slots(lo, a), a - lo)
      requires free == [] && Spent(m1, f1, mem, free, d, {}, if f == 0 then 0 else 1)
      requires f != 0 ==> 0 <= a / N < |mem[d]| && !Present(mem[d][a / N])
      ensures |f0| < FramesFor(Entries(m0[d]), lo, hi)
    {
      var n := if f == 0 then 0 else 1;
      SpentStill(m0, f0, m1, f1, mem, free, d, Slots(lo, a), a - lo, n, a - lo + n);
      RanOut(m0, f0, mem, free, d, lo, a, hi, n, a - lo + n);
    }

    /** The way out of allocuvm when the pages from oldsz up to a have been mapped since m and r. */
    method Undo(d: int, oldsz: nat, newsz: nat, ghost a: nat, f: int, ghost m: Mem, ghost r: Roles)
      requires Valid() && IsDir(d) && Owned(m, r) && d in r && r[d].Dir?
      requires oldsz <= newsz < KERNPAGE * PGSIZE && PageUp(oldsz) <= a <= PageUp(newsz)
      requires forall q :: PageUp(oldsz) <= q < PageUp(newsz) ==> At(m, d, q) == None
      requires Allocates(m, r, mem, d, PageUp(oldsz), a) && Grew(m, r, mem, role, d, if f == 0 then {} else {f})
      requires f != 0 ==> f in role && role[f] == Kept && f in r && r[f].Free?
      modifies `mem, `freelist, `role, `free
      ensures Valid() && IsDir(d) && Grew(m, r, mem, role, d, {})
      ensures SamePages(m, mem, d) && RolledBack(r, role, d, {})
    {
      ghost var lo, hi := PageUp(oldsz), PageUp(newsz);
      var _ := Deallocuvm(d, newsz, oldsz);
      if f == 0 {
        Undone(m, r, old(mem), old(role), mem, role, d, lo, a, hi, {});
      } else {
        Undone(m, r, old(mem), old(role), mem, role, d, lo, a, hi, {f});
        NotDropped(old(mem), old(role), mem, role, d, lo, hi, f);
        HandedBack(m, r, mem, role, d, lo, hi, f, FreedPage(freelist), |free|);
        Kfree(f);
      }
      UnmappedAgain(m, mem, d, lo, hi);
    }

    method Allocuvm(d: int, oldsz: nat, newsz: nat) returns (sz: nat)
      requires Valid() && IsDir(d)
      requires newsz < KERNPAGE * PGSIZE ==> forall q :: PageUp(oldsz) <= q < PageUp(newsz) ==> At(mem, d, q) == None
      modifies `mem, `freelist, `role, `free
      ensures Valid() && IsDir(d) && Grew(old(mem), old(role), mem, role, d, {})
      ensures newsz >= KERNPAGE * PGSIZE ==> sz == 0 && mem == old(mem) && role == old(role)
      ensures newsz < KERNPAGE * PGSIZE && newsz < oldsz ==> sz == oldsz && mem == old(mem) && role == old(role)
      ensures oldsz <= newsz < KERNPAGE * PGSIZE ==> sz == newsz || sz == 0
      ensures sz == newsz ==> Allocates(old(mem), old(role), mem, d, PageUp(oldsz), PageUp(newsz))
      ensures sz == newsz ==> UserCanWrite(old(mem), old(role), mem, d, PageUp(oldsz), PageUp(newsz))
      ensures sz == 0 < newsz ==> SamePages(old(mem), mem, d) && RolledBack(old(role), role, d, {})
      ensures oldsz <= newsz < KERNPAGE * PGSIZE ==>
                (sz == newsz <==> FramesFor(Entries(old(mem)[d]), PageUp(oldsz), PageUp(newsz)) <= |old(free)|)
    {
      if newsz >= KERNPAGE * PGSIZE { return 0; }
      if newsz < oldsz { return oldsz; }
      var a := PageUp(oldsz);
      ghost var lo, hi := a, PageUp(newsz);
      SpentStart(mem, free, d, lo);
      while a * PGSIZE < newsz
        invariant Valid() && IsDir(d) && Grew(old(mem), old(role), mem, role, d, {}) && lo <= a <= hi
        invariant Allocates(old(mem), old(role), mem, d, lo, a)
        invariant Spent(old(mem), old(free), mem, free, d, Slots(lo, a), a - lo)
      {
        ghost var m1, r1, f1 := mem, role, free;
        AllocatesAt(old(mem), old(role), mem, d, lo, a, a);
        var ok, f := NewPage(d, a, Zeros(), PTE_W + PTE_U);
        if !ok {
          FailedFor(old(mem), old(free), m1, f1, d, lo, a, hi, f);
          if f != 0 {
            FailedPage(old(mem), old(role), m1, r1, d, lo, a, f);
          }
          Undo(d, oldsz, newsz, a, f, old(mem), old(role));
          return 0;
        }
        GrewPage(old(mem), old(role), m1, r1, mem, role, d, {}, f);
        AllocatesNext(old(mem), old(role), m1, r1, mem, role, d, lo, a, f);
        SpentNext(old(mem), old(free), m1, f1, mem, free, d, lo, a, a + 1, a - lo, 1, a + 1 - lo);
        a := a + 1;
      }
      SpentTo(old(mem), old(free), mem, free, d, lo, a, hi, a - lo, hi - lo);
      Sufficed(old(mem), old(free), mem, free, d, lo, hi);
      AllocatesAccess(old(mem), old(role), mem, role, d, lo, hi);
      return newsz;
    }
  
    /** A new directory, with nothing mapped. */
    method NewDir() returns (d: int)
      requires Valid()
      modifies `mem, `freelist, `role, `free
      ensures Valid()
      ensures d == 0 ==> mem == old(mem) && role == old(role)
      ensures d != 0 ==>
        d in old(role) && old(role)[d].Free? && IsDir(d) && Grew(old(mem), old(role), mem, role, d, {d})
      ensures d != 0 ==> KernelOnly(mem, d, kmap, 0)
      ensures if d == 0 then old(free) == [] else Entries(mem[d]) == {} && |free| + 1 == |old(free)|
    {
      d := Kalloc();
      if d == 0 { return 0; }
      Reuse(mem, role, d, Zeros(), Dir);
      ChainSame(mem, role, mem[d := Zeros()], role[d := Dir], free);
      mem := mem[d := Zeros()];
      role := role[d := Dir];
    }

    /** Row n of kmap, in the directory d that was new in m0 and f0. */
    method SetupRow(d: int, n: nat, ghost m0: Mem, ghost f0: seq<int>) returns (ok: bool)
      requires Valid() && IsDir(d) && n < |kmap| && KernelOnly(mem, d, kmap, n)
      requires d in m0 && Entries(m0[d]) == {} && Spent(m0, f0, mem, free, d, KernelSlots(kmap, n), 0)
      modifies `mem, `freelist, `role, `free
      ensures Valid() && IsDir(d) && Grew(old(mem), old(role), mem, role, d, {})
      ensures ok ==> KernelOnly(mem, d, kmap, n + 1) && Spent(m0, f0, mem, free, d, KernelSlots(kmap, n + 1), 0)
      ensures !ok ==> |f0| + 1 < SetupNeeds(kmap)
    {
      var k := kmap[n];
      KernelFree(mem, d, kmap, n);
      ghost var done: nat;
      ok, done := Mappages(d, k.virt, k.count, k.phys, k.perm);
      if ok {
        KernelNext(old(mem), mem, d, kmap, n);
        SpentRow(m0, f0, old(mem), old(free), mem, free, d, kmap, n);
      } else {
        SetupRanOut(m0, f0, old(mem), old(free), mem, free, d, kmap, n, done);
      }
    }

    method Setupkvm() returns (d: int)
      requires Valid()
      modifies `mem, `freelist, `role, `free
      ensures Valid()
      ensures d == 0 ==> Back(old(mem), old(role), mem, role)
      ensures d != 0 ==>
        d in old(role) && old(role)[d].Free? && IsDir(d) && Grew(old(mem), old(role), mem, role, d, {d})
      ensures d != 0 ==> KernelOnly(mem, d, kmap, |kmap|)
      ensures d != 0 <==> SetupNeeds(kmap) <= |old(free)|
      ensures d != 0 ==> Entries(mem[d]) == KernelSlots(kmap, |kmap|) && |free| + SetupNeeds(kmap) == |old(free)|
    {
      d := NewDir();
      if d == 0 { return 0; }
      ghost var m0, f0 := mem, free;
      SpentNoRows(mem, free, d, kmap);
      for n := 0 to |kmap|
        invariant Valid() && IsDir(d) && Grew(old(mem), old(role), mem, role, d, {d}) && KernelOnly(mem, d, kmap, n)
        invariant Spent(m0, f0, mem, free, d, KernelSlots(kmap, n), 0)
      {
        ghost var m, r := mem, role;
        var ok := SetupRow(d, n, m0, f0);
        GrewThen(old(mem), old(role), m, r, mem, role, d, {d});
        if !ok {
          m, r := mem, role;
          Freevm(d);
          GivenBack(old(mem), old(role), m, r, mem, role, d);
          return 0;
        }
      }
      SetupSufficed(m0, f0, mem, free, d, kmap);
    }
  
    /** One turn of the loop in copyuvm; on failure the frame f, unless it is 0, is still to be freed. */
    method CopyPage(p: int, d: int, n: nat) returns (ok: bool, f: int)
      requires Valid() && IsDir(p) && IsDir(d) && p != d && n < KERNPAGE
      requires At(mem, p, n).Some? && At(mem, d, n) == None && Copies(mem, p, d, n)
      modifies `mem, `freelist, `role, `free
      ensures Valid() && IsDir(d) && role.Keys == old(role).Keys
      ensures f == 0 ==> !ok && mem == old(mem) && role == old(role)
      ensures f != 0 ==> f in old(role) && old(role)[f].Free? && Grew(old(mem), old(role), mem, role, d, {f})
      ensures f != 0 && !ok ==> f in role && role[f] == Kept
      ensures ok ==> f != 0 && PartOf(role, f, d) && Copies(mem, p, d, n + 1)
      ensures ok ==> Maps(old(mem), mem, d, n, n + 1, f, Flags(At(old(mem), p, n).value))
      ensures ok ==> Spent(old(mem), old(free), mem, free, d, {n / N}, 1)
      ensures !ok ==> free == [] && Spent(old(mem), old(free), mem, free, d, {}, if f == 0 then 0 else 1)
      ensures !ok && f != 0 ==> !Present(mem[d][n / N])
    {
      var t := Walk(p, n / N, false);
      var w := mem[t][n % N];
      assert At(mem, p, n) == Some(w);
      MappedOwned(mem, role, p, n);
      ghost var m, r := mem, role;
      ok, f := NewPage(d, n, mem[Addr(w)], Flags(w));
      if ok {
        OtherDirectory(m, r, mem, role, d, {f}, p);
        CopiesNext(m, r, mem, role, p, d, n, f, w);
      }
    }
  
    /** The way out of a failed copy: every frame taken since m and r goes back. */
    method Discard(d: int, f: int, ghost m: Mem, ghost r: Roles)
      requires Valid() && IsDir(d) && Owned(m, r) && d in r && r[d].Free?
      requires Grew(m, r, mem, role, d, if f == 0 then {d} else {d} + {f})
      requires f != 0 ==> f in role && role[f] == Kept && f in r && r[f].Free?
      modifies `mem, `freelist, `role, `free
      ensures Valid() && Back(m, r, mem, role)
    {
      if f != 0 {
        GrewFreed(m, r, mem, role, d, {d}, f, FreedPage(freelist), |free|);
        Kfree(f);
      }
      ghost var m1, r1 := mem, role;
      Freevm(d);
      GivenBack(m, r, m1, r1, mem, role, d);
    }

    method Copyuvm(p: int, sz: nat) returns (d: int)
      requires Valid() && IsDir(p) && sz <= KERNPAGE * PGSIZE
      requires forall q :: 0 <= q < PageUp(sz) ==> At(mem, p, q).Some?
      modifies `mem, `freelist, `role, `free
      ensures Valid() && IsDir(p) && SamePages(old(mem), mem, p)
      ensures d == 0 ==> Back(old(mem), old(role), mem, role)
      ensures d != 0 ==>
        d in old(role) && old(role)[d].Free? && IsDir(d) && Grew(old(mem), old(role), mem, role, d, {d})
      ensures d != 0 ==> Copies(mem, p, d, PageUp(sz)) && KernelFrom(mem, d, kmap, PageUp(sz))
      ensures d != 0 ==> SameAccess(mem, p, d, PageUp(sz))
      ensures d != 0 <==> CopyNeeds(kmap, PageUp(sz)) <= |old(free)|
    {
      d := Setupkvm();
      if d == 0 {
        BackPages(old(mem), old(role), mem, role, p);
        return 0;
      }
      OtherDirectory(old(mem), old(role), mem, role, d, {d}, p);
      Held(old(mem), old(role), mem, role, d, {d}, p);
      ghost var m0, f0, hi := mem, free, PageUp(sz);
      SpentStart(mem, free, d, 0);
      var i := 0;
      while i * PGSIZE < sz
        invariant Valid() && IsDir(p) && IsDir(d) && i <= PageUp(sz) && Grew(old(mem), old(role), mem, role, d, {d})
        invariant SamePages(old(mem), mem, p) && Copies(mem, p, d, i) && KernelFrom(mem, d, kmap, i)
        invariant Spent(m0, f0, mem, free, d, Slots(0, i), i)
      {
        NotYet(kmap, |kmap|, |kmap|, i);
        KernelAfter(mem, d, kmap, i, i);
        SamePagesAt(old(mem), mem, p, i);
        ghost var m, r, fr := mem, role, free;
        var ok, f := CopyPage(p, d, i);
        if f != 0 {
          GrewPage(old(mem), old(role), m, r, mem, role, d, {d}, f);
        }
        if !ok {
          ghost var n := if f == 0 then 0 else 1;
          SpentStill(m0, f0, m, fr, mem, free, d, Slots(0, i), i, n, i + n);
          RanOut(m0, f0, mem, free, d, 0, i, hi, n, i + n);
          Discard(d, f, old(mem), old(role));
          BackPages(old(mem), old(role), mem, role, p);
          return 0;
        }
        OtherDirectory(old(mem), old(role), mem, role, d, {d}, p);
        Held(old(mem), old(role), mem, role, d, {d}, p);
        SpentNext(m0, f0, m, fr, mem, free, d, 0, i, i + 1, i, 1, i + 1);
        i := i + 1;
      }
      SpentTo(m0, f0, mem, free, d, 0, i, hi, i, hi - 0);
      Sufficed(m0, f0, mem, free, d, 0, hi);
      CopiesAccess(mem, role, p, d, hi);
    }
  }
}
