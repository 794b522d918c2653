/**
 The storage allocator of xv6/umalloc.c (section 8.7 of The C Programming Language, 2nd edition).
 Addresses count headers, so a block at a of size z is the units a, a + 1, ..., a + z - 1, the first
 of which holds its header.
 */
module KrHeap {
  import opened Basics
  import opened Folding

  datatype Header = Header(ptr: int, size: nat)

  type Mem = map<int, Header>

  /** One past the last unit of the block at a. */
  function End(mem: Mem, a: int): int
    requires a in mem
  {
    a + mem[a].size
  }

  /** `owner` says, for every unit obtained from sbrk, which block it is part of: the blocks are
      disjoint and together are all of it. */
  ghost predicate Tiles(mem: Mem, blocks: set<int>, owner: map<int, int>) {
    forall u :: Show(Tiled, u) ==> Tiling(mem, blocks, owner)
  }

  ghost predicate Tiling(mem: Mem, blocks: set<int>, owner: map<int, int>) {
    && (forall a :: a in blocks ==> a in mem && mem[a].size > 0)
    && Covers(mem, blocks, owner)
    && (forall u :: u in owner ==> owner[u] in blocks && owner[u] <= u < End(mem, owner[u]))
  }

  ghost predicate Covers(mem: Mem, blocks: set<int>, owner: map<int, int>)
    requires forall a :: a in blocks ==> a in mem
  {
    forall a, u :: a in blocks && a <= u < End(mem, a) ==> u in owner && owner[u] == a
  }

  lemma Disjoint(mem: Mem, blocks: set<int>, owner: map<int, int>, a: int, b: int)
    requires Tiles(mem, blocks, owner) && a in blocks && b in blocks && a < b
    ensures a in mem && End(mem, a) <= b
  {
    assert Show(Tiled, 0);
    assert b in owner && owner[b] == b;
  }

  ghost function Range(h: int, n: nat): (r: set<int>)
    ensures |r| == n && forall x :: x in r <==> h <= x < h + n
  {
    if n == 0 then {} else Range(h, n - 1) + {h + n - 1}
  }

  /** Units in the blocks that start at lo or above and below lo + n. */
  ghost function Total(mem: Mem, blocks: set<int>, lo: int, n: nat): nat {
    if n == 0 then 0 else
      var a := lo + n - 1;
      Total(mem, blocks, lo, n - 1) + if a in blocks && a in mem then mem[a].size else 0
  }

  ghost function Below(owner: map<int, int>, hi: int): set<int> {
    set u | u in owner && owner[u] < hi
  }

  lemma SameSet<T>(a: set<T>, b: set<T>)
    requires forall u :: u in a <==> u in b
    ensures a == b
  {
  }

  lemma DisjointSum<T>(a: set<T>, b: set<T>, c: set<T>)
    requires forall u :: u in c <==> u in a || u in b
    requires forall u :: u in a ==> u !in b
    ensures |c| == |a| + |b|
  {
    SameSet(c, a + b);
    assert a !! b;
  }

  lemma BelowNext(mem: Mem, blocks: set<int>, owner: map<int, int>, a: int)
    requires Tiling(mem, blocks, owner)
    ensures |Below(owner, a + 1)| == |Below(owner, a)| + if a in blocks then mem[a].size else 0
  {
    var own := if a in blocks then Range(a, mem[a].size) else {};
    forall u
      ensures u in Below(owner, a + 1) <==> u in Below(owner, a) || u in own
      ensures u in Below(owner, a) ==> u !in own
    {
      assert u in owner && owner[u] == a ==> a in blocks && u in own;
      assert a in blocks && u in own ==> u in owner && owner[u] == a;
    }
    DisjointSum(Below(owner, a), own, Below(owner, a + 1));
  }

  lemma {:induction false} TotalBelow(mem: Mem, blocks: set<int>, owner: map<int, int>, lo: int, n: nat)
    requires Tiling(mem, blocks, owner) && forall a :: a in blocks ==> lo <= a
    ensures Total(mem, blocks, lo, n) == |Below(owner, lo + n)|
  {
    if n == 0 {
      assert forall u :: u in owner ==> owner[u] in blocks;
      SameSet(Below(owner, lo), {});
    } else {
      TotalBelow(mem, blocks, owner, lo, n - 1);
      BelowNext(mem, blocks, owner, lo + n - 1);
    }
  }

  /** The sizes in the headers add up to the number of units obtained from sbrk. */
  lemma Conservation(mem: Mem, blocks: set<int>, owner: map<int, int>, lo: int, n: nat)
    requires Tiles(mem, blocks, owner) && forall a :: a in blocks ==> lo <= a < lo + n
    ensures Total(mem, blocks, lo, n) == |owner.Keys|
  {
    assert Show(Tiled, 0);
    TotalBelow(mem, blocks, owner, lo, n);
    assert forall u :: u in owner ==> owner[u] in blocks;
    SameSet(owner.Keys, Below(owner, lo + n));
  }

  /** Two touching blocks become one. */
  ghost function MergeOwner(owner: map<int, int>, a: int, b: int): map<int, int> {
    map u | u in owner :: if owner[u] == b then a else owner[u]
  }

  lemma MergeTiles(mem: Mem, blocks: set<int>, owner: map<int, int>, a: int, b: int, h: Header)
    requires Tiles(mem, blocks, owner) && a in blocks && b in blocks && a != b
    requires a in mem && b in mem && End(mem, a) == b
    requires h.size == mem[a].size + mem[b].size
    ensures Tiles(mem[a := h], blocks - {b}, MergeOwner(owner, a, b))
  {
  }

  /** The tail of a block becomes a block of its own. */
  ghost function SplitOwner(owner: map<int, int>, a: int, b: int): map<int, int> {
    map u | u in owner :: if owner[u] == a && b <= u then b else owner[u]
  }

  lemma SplitUnit(mem: Mem, blocks: set<int>, owner: map<int, int>, a: int, b: int, x: int, u: int)
    requires Tiling(mem, blocks, owner) && a in blocks && a < b < End(mem, a) && (x in blocks || x == b)
    requires x <= u < if x == a then b else if x == b then End(mem, a) else End(mem, x)
    ensures u in SplitOwner(owner, a, b) && SplitOwner(owner, a, b)[u] == x && b !in blocks
  {
    assert owner[b] == a;
    assert u in owner && owner[u] == if x == b then a else x;
  }

  lemma SplitOwned(mem: Mem, blocks: set<int>, owner: map<int, int>, a: int, b: int, u: int)
    requires Tiling(mem, blocks, owner) && a in blocks && a < b < End(mem, a) && u in owner
    ensures var x := SplitOwner(owner, a, b)[u];
      (x in blocks || x == b) && x <= u < if x == a then b else if x == b then End(mem, a) else End(mem, x)
  {
    assert owner[b] == a;
  }

  lemma SplitTiling(mem: Mem, blocks: set<int>, owner: map<int, int>, a: int, z: nat, h: Header, t: Header)
    requires Tiling(mem, blocks, owner) && a in blocks && 0 < z < mem[a].size
    requires h.size == mem[a].size - z && t.size == z
    ensures a + h.size !in blocks
    ensures Tiling(mem[a := h][a + h.size := t], blocks + {a + h.size}, SplitOwner(owner, a, a + h.size))
  {
    var b := a + h.size;
    SplitUnit(mem, blocks, owner, a, b, a, a);
    SplitCovers(mem, blocks, owner, a, b, h, t);
    SplitCovered(mem, blocks, owner, a, b, h, t);
  }

  lemma SplitCovers(mem: Mem, blocks: set<int>, owner: map<int, int>, a: int, b: int, h: Header, t: Header)
    requires Tiling(mem, blocks, owner) && a in blocks && a < b < End(mem, a)
    requires a + h.size == b && b + t.size == End(mem, a)
    ensures Covers(mem[a := h][b := t], blocks + {b}, SplitOwner(owner, a, b))
  {
    var mem', owner' := mem[a := h][b := t], SplitOwner(owner, a, b);
    forall x, u | x in blocks + {b} && x <= u < End(mem', x)
      ensures u in owner' && owner'[u] == x
    {
      SplitUnit(mem, blocks, owner, a, b, x, u);
    }
  }

  lemma SplitCovered(mem: Mem, blocks: set<int>, owner: map<int, int>, a: int, b: int, h: Header, t: Header)
    requires Tiling(mem, blocks, owner) && a in blocks && a < b < End(mem, a)
    requires a + h.size == b && b + t.size == End(mem, a)
    ensures var mem', owner' := mem[a := h][b := t], SplitOwner(owner, a, b);
      forall u :: u in owner' ==> owner'[u] in blocks + {b} && owner'[u] <= u < End(mem', owner'[u])
  {
    var mem', owner' := mem[a := h][b := t], SplitOwner(owner, a, b);
    forall u | u in owner'
      ensures owner'[u] in blocks + {b} && owner'[u] <= u < End(mem', owner'[u])
    {
      SplitOwned(mem, blocks, owner, a, b, u);
    }
  }

  lemma SplitTiles(mem: Mem, blocks: set<int>, owner: map<int, int>, a: int, z: nat, h: Header, t: Header)
    requires Tiles(mem, blocks, owner) && a in blocks && a in mem && 0 < z < mem[a].size
    requires h.size == mem[a].size - z && t.size == z
    ensures a + h.size !in blocks
    ensures Tiles(mem[a := h][a + h.size := t], blocks + {a + h.size}, SplitOwner(owner, a, a + h.size))
  {
    assert Show(Tiled, 0);
    SplitTiling(mem, blocks, owner, a, z, h, t);
  }

  lemma SameSizes(mem: Mem, mem': Mem, blocks: set<int>, owner: map<int, int>)
    requires Tiles(mem, blocks, owner)
    requires forall a :: a in mem ==> a in mem' && mem'[a].size == mem[a].size
    ensures Tiles(mem', blocks, owner)
  {
  }

  function Next(ring: seq<int>, i: int): int
    requires 0 <= i < |ring|
  {
    if i + 1 < |ring| then ring[i + 1] else ring[0]
  }

  ghost predicate Linked(mem: Mem, ring: seq<int>, i: int)
    requires 0 <= i < |ring|
  {
    ring[i] in mem && mem[ring[i]].ptr == Next(ring, i)
  }

  ghost predicate Ordered(mem: Mem, ring: seq<int>) {
    && (forall i :: 0 <= i < |ring| ==> ring[i] in mem)
    && (forall i, j :: 0 <= i < j < |ring| ==> ring[i] < ring[j] && End(mem, ring[i]) <= ring[j])
  }

  /** The free list: circular, in increasing order of address, except for the one wrap. */
  ghost predicate Ring(mem: Mem, ring: seq<int>) {
    && |ring| > 0
    && Ordered(mem, ring)
    && (forall i :: 0 <= i < |ring| ==> Linked(mem, ring, i))
  }

  ghost function InsertMem(mem: Mem, ring: seq<int>, k: int, b: int): Mem
    requires 0 <= k < |ring| && ring[k] in mem && b in mem && ring[k] != b
  {
    mem[b := mem[b].(ptr := Next(ring, k))][ring[k] := mem[ring[k]].(ptr := b)]
  }

  ghost function InsertRing(ring: seq<int>, k: int, b: int): seq<int>
    requires 0 <= k < |ring|
  {
    ring[..k + 1] + [b] + ring[k + 1..]
  }

  ghost predicate Gap(mem: Mem, ring: seq<int>, k: int, b: int) {
    && 0 <= k < |ring| && b in mem && ring[k] in mem
    && ring[k] < b && End(mem, ring[k]) <= b
    && (k + 1 < |ring| ==> b < ring[k + 1] && End(mem, b) <= ring[k + 1])
  }

  lemma InsertOrder(mem: Mem, ring: seq<int>, k: int, b: int)
    requires Ordered(mem, ring) && Gap(mem, ring, k, b)
    ensures Ordered(mem, InsertRing(ring, k, b))
  {
    var r := InsertRing(ring, k, b);
    assert forall i :: 0 <= i <= k ==> ring[i] < b && End(mem, ring[i]) <= b;
    assert forall i :: k < i < |ring| ==> b < ring[i] && End(mem, b) <= ring[i];
    forall i, j | 0 <= i < j < |r|
      ensures r[i] < r[j] && End(mem, r[i]) <= r[j]
    {
    }
  }

  lemma InsertLink(mem: Mem, ring: seq<int>, k: int, b: int, i: int)
    requires Ring(mem, ring) && Gap(mem, ring, k, b) && Ordered(mem, InsertRing(ring, k, b))
    requires 0 <= i <= |ring|
    ensures Linked(InsertMem(mem, ring, k, b), InsertRing(ring, k, b), i)
  {
    var j := if i <= k then i else i - 1;
    assert Linked(mem, ring, j);
    var r := InsertRing(ring, k, b);
    assert r[k] == ring[k] && r[k + 1] == b && (i <= k ==> r[i] == ring[i]) && (i > k + 1 ==> r[i] == ring[j]);
  }

  lemma Insert(mem: Mem, ring: seq<int>, k: int, b: int)
    requires Ring(mem, ring) && Gap(mem, ring, k, b)
    ensures Ring(InsertMem(mem, ring, k, b), InsertRing(ring, k, b))
  {
    var m, r := InsertMem(mem, ring, k, b), InsertRing(ring, k, b);
    InsertOrder(mem, ring, k, b);
    assert Ordered(m, r);
    forall i | 0 <= i < |r|
      ensures Linked(m, r, i)
    {
      InsertLink(mem, ring, k, b, i);
    }
  }

  ghost function RemoveRing(ring: seq<int>, k: int): seq<int>
    requires 0 <= k && k + 1 < |ring|
  {
    ring[..k + 1] + ring[k + 2..]
  }

  /** Block k of the list is linked past block k + 1 and may take over some of its units. */
  lemma Remove(mem: Mem, ring: seq<int>, k: int, z: nat)
    requires Ring(mem, ring) && 0 <= k && k + 1 < |ring|
    requires ring[k] + z <= End(mem, ring[k + 1])
    ensures Ring(mem[ring[k] := Header(mem[ring[k + 1]].ptr, z)], RemoveRing(ring, k))
  {
    var m, r := mem[ring[k] := Header(mem[ring[k + 1]].ptr, z)], RemoveRing(ring, k);
    forall i | 0 <= i < |r|
      ensures Linked(m, r, i)
    {
      assert Linked(mem, ring, if i < k then i else i + 1);
    }
  }

  /** The blocks behind the headers: the free list from `base` on, the blocks in the hands of callers,
      and the block each unit is part of. */
  datatype View = View(ring: seq<int>, free: set<int>, live: set<int>, owner: map<int, int>)

  ghost predicate Members(ring: seq<int>, free: set<int>)
    requires |ring| > 0
  {
    forall a :: a in free <==> a in ring && a != ring[0]
  }

  ghost predicate Sound(base: int, mem: Mem, v: View) {
    && Ring(mem, v.ring) && v.ring[0] == base && mem[base].size == 0
    && Members(v.ring, v.free)
    && v.free !! v.live
    && Tiles(mem, v.free + v.live, v.owner)
    && (forall a :: a in v.live ==> base < a)
  }

  ghost predicate Apart(mem: Mem, ring: seq<int>, i: int)
    requires 0 <= i < |ring|
  {
    ring[i] in mem && (i + 1 < |ring| ==> End(mem, ring[i]) < ring[i + 1])
  }

  /** No two free blocks touch. */
  ghost predicate Coalesced(mem: Mem, ring: seq<int>) {
    forall i :: 0 <= i < |ring| ==> Apart(mem, ring, i)
  }

  lemma Place(base: int, mem: Mem, v: View, b: int) returns (k: int)
    requires Sound(base, mem, v) && b in v.live
    ensures b !in v.ring && Gap(mem, v.ring, k, b)
  {
    k := 0;
    assert forall i :: 1 <= i < |v.ring| ==> v.ring[i] in v.free;
    while k + 1 < |v.ring| && v.ring[k + 1] < b
      invariant 0 <= k < |v.ring| && v.ring[k] < b
    {
      k := k + 1;
    }
    GapFor(base, mem, v, k, b);
  }

  lemma GapFor(base: int, mem: Mem, v: View, k: int, b: int)
    requires Sound(base, mem, v) && b in v.live && 0 <= k < |v.ring|
    requires v.ring[k] < b && (k + 1 < |v.ring| ==> b < v.ring[k + 1])
    ensures Gap(mem, v.ring, k, b)
  {
    assert Show(Tiled, 0);
    if k > 0 {
      assert v.ring[k] in v.free;
      Disjoint(mem, v.free + v.live, v.owner, v.ring[k], b);
    }
    if k + 1 < |v.ring| {
      assert v.ring[k + 1] in v.free;
      Disjoint(mem, v.free + v.live, v.owner, b, v.ring[k + 1]);
    }
  }

  lemma InsertMembers(ring: seq<int>, free: set<int>, k: int, b: int)
    requires |ring| > 0 && Members(ring, free) && 0 <= k < |ring| && b != ring[0]
    ensures Members(InsertRing(ring, k, b), free + {b})
  {
    var r := InsertRing(ring, k, b);
    forall a
      ensures a in free + {b} <==> a in r && a != r[0]
    {
      assert ring == ring[..k + 1] + ring[k + 1..];
    }
  }

  ghost function Return(v: View, k: int, b: int): View
    requires 0 <= k < |v.ring|
  {
    View(InsertRing(v.ring, k, b), v.free + {b}, v.live - {b}, v.owner)
  }

  lemma Returned(base: int, mem: Mem, v: View, k: int, b: int)
    requires Sound(base, mem, v) && b in v.live && Gap(mem, v.ring, k, b)
    ensures Sound(base, InsertMem(mem, v.ring, k, b), Return(v, k, b))
  {
    Insert(mem, v.ring, k, b);
    InsertMembers(v.ring, v.free, k, b);
    SameSizes(mem, InsertMem(mem, v.ring, k, b), v.free + v.live, v.owner);
    assert (v.free + {b}) + (v.live - {b}) == v.free + v.live;
  }

  lemma RemoveMembers(mem: Mem, ring: seq<int>, free: set<int>, k: int)
    requires |ring| > 0 && Members(ring, free) && 0 <= k && k + 1 < |ring| && Ordered(mem, ring)
    ensures Members(RemoveRing(ring, k), free - {ring[k + 1]})
  {
    var r := RemoveRing(ring, k);
    forall a
      ensures a in free - {ring[k + 1]} <==> a in r && a != r[0]
    {
      assert ring == ring[..k + 1] + [ring[k + 1]] + ring[k + 2..];
    }
  }

  ghost function Merge(v: View, k: int): View
    requires 0 <= k && k + 1 < |v.ring|
  {
    var b := v.ring[k + 1];
    View(RemoveRing(v.ring, k), v.free - {b}, v.live, MergeOwner(v.owner, v.ring[k], b))
  }

  ghost function MergeMem(mem: Mem, a: int, b: int): Mem
    requires a in mem && b in mem
  {
    mem[a := Header(mem[b].ptr, mem[a].size + mem[b].size)]
  }

  lemma Merged(base: int, mem: Mem, v: View, k: int)
    requires Sound(base, mem, v) && 0 < k && k + 1 < |v.ring| && End(mem, v.ring[k]) == v.ring[k + 1]
    ensures Sound(base, MergeMem(mem, v.ring[k], v.ring[k + 1]), Merge(v, k))
  {
    var a, b := v.ring[k], v.ring[k + 1];
    var z := mem[a].size + mem[b].size;
    assert a in v.free && b in v.free;
    Remove(mem, v.ring, k, z);
    RemoveMembers(mem, v.ring, v.free, k);
    MergeTiles(mem, v.free + v.live, v.owner, a, b, Header(mem[b].ptr, z));
    assert (v.free - {b}) + v.live == v.free + v.live - {b};
  }

  lemma ReturnApart(base: int, mem: Mem, v: View, k: int, b: int, i: int)
    requires Sound(base, mem, v) && Coalesced(mem, v.ring) && b in v.live && Gap(mem, v.ring, k, b)
    requires 0 <= i <= |v.ring| && i != k && i != k + 1
    ensures Ring(InsertMem(mem, v.ring, k, b), InsertRing(v.ring, k, b))
    ensures Apart(InsertMem(mem, v.ring, k, b), InsertRing(v.ring, k, b), i)
  {
    Returned(base, mem, v, k, b);
    InsertApart(mem, v.ring, k, b, i);
  }

  /** The free blocks before and after a new one are as far apart as they were. */
  lemma InsertApart(mem: Mem, ring: seq<int>, k: int, b: int, i: int)
    requires Coalesced(mem, ring) && Gap(mem, ring, k, b) && b !in ring && 0 <= i <= |ring| && i != k && i != k + 1
    ensures Apart(InsertMem(mem, ring, k, b), InsertRing(ring, k, b), i)
  {
    var j := if i < k then i else i - 1;
    var mem', ring' := InsertMem(mem, ring, k, b), InsertRing(ring, k, b);
    assert Apart(mem, ring, j);
    assert ring'[i] == ring[j] && (i + 1 < |ring'| ==> ring'[i + 1] == ring[j + 1]);
    assert mem'[ring[j]].size == mem[ring[j]].size;
  }

  lemma MergeApart(mem: Mem, ring: seq<int>, k: int, i: int)
    requires Ring(mem, ring) && 0 <= k && k + 1 < |ring| && End(mem, ring[k]) == ring[k + 1]
    requires 0 <= i < |ring| - 1 && Apart(mem, ring, if i < k then i else i + 1)
    ensures Ring(MergeMem(mem, ring[k], ring[k + 1]), RemoveRing(ring, k))
    ensures Apart(MergeMem(mem, ring[k], ring[k + 1]), RemoveRing(ring, k), i)
  {
    Remove(mem, ring, k, mem[ring[k]].size + mem[ring[k + 1]].size);
  }

  /** Every unit of a live block other than b stays part of that block; every other unit is free. */
  ghost predicate Frees(v: View, v': View, b: int) {
    && v'.live == v.live - {b}
    && v'.owner.Keys == v.owner.Keys
    && forall u :: u in v.owner ==>
      if v.owner[u] in v'.live then v'.owner[u] == v.owner[u] else v'.owner[u] in v'.free
  }

  lemma ReturnFrees(base: int, mem: Mem, v: View, k: int, b: int)
    requires Sound(base, mem, v) && 0 <= k < |v.ring|
    ensures Frees(v, Return(v, k, b), b)
  {
    assert Show(Tiled, 0);
  }

  lemma MergeFrees(base: int, mem: Mem, v: View, k: int)
    requires Sound(base, mem, v) && 0 < k && k + 1 < |v.ring|
    ensures forall b :: b !in v.live ==> Frees(v, Merge(v, k), b)
  {
    assert Show(Tiled, 0);
    assert v.ring[k] in v.free && v.ring[k + 1] in v.free && v.ring[k] < v.ring[k + 1];
  }

  lemma FreesThen(v0: View, v1: View, v2: View, b: int)
    requires Frees(v0, v1, b) && Frees(v1, v2, b) && v1.free !! v1.live
    ensures Frees(v0, v2, b)
  {
  }

  ghost predicate ApartBut(mem: Mem, ring: seq<int>, but: set<int>) {
    forall i :: 0 <= i < |ring| && i !in but ==> Apart(mem, ring, i)
  }

  lemma Placed(base: int, mem: Mem, v: View, k: int, b: int)
    requires Sound(base, mem, v) && Coalesced(mem, v.ring) && b in v.live && Gap(mem, v.ring, k, b)
    ensures Sound(base, InsertMem(mem, v.ring, k, b), Return(v, k, b))
    ensures ApartBut(InsertMem(mem, v.ring, k, b), InsertRing(v.ring, k, b), {k, k + 1})
    ensures Frees(v, Return(v, k, b), b)
  {
    Returned(base, mem, v, k, b);
    ReturnFrees(base, mem, v, k, b);
    forall i | 0 <= i <= |v.ring| && i !in {k, k + 1}
      ensures Apart(InsertMem(mem, v.ring, k, b), InsertRing(v.ring, k, b), i)
    {
      ReturnApart(base, mem, v, k, b, i);
    }
  }

  lemma Joined(base: int, mem: Mem, v: View, k: int, but: set<int>)
    requires Sound(base, mem, v) && 0 < k && k + 1 < |v.ring| && End(mem, v.ring[k]) == v.ring[k + 1]
    requires ApartBut(mem, v.ring, but + {k}) && forall i :: i in but ==> i < k
    ensures Sound(base, MergeMem(mem, v.ring[k], v.ring[k + 1]), Merge(v, k))
    ensures ApartBut(MergeMem(mem, v.ring[k], v.ring[k + 1]), Merge(v, k).ring, but)
    ensures forall b :: b !in v.live ==> Frees(v, Merge(v, k), b)
  {
    Merged(base, mem, v, k);
    MergeFrees(base, mem, v, k);
    forall i | 0 <= i < |v.ring| - 1 && i !in but
      ensures Apart(MergeMem(mem, v.ring[k], v.ring[k + 1]), RemoveRing(v.ring, k), i)
    {
      MergeApart(mem, v.ring, k, i);
    }
  }

  /** The headers once the block at b has taken in the free block after it, if they touch. */
  ghost function JoinUpper(mem: Mem, p: int, b: int): Mem
    requires p in mem && b in mem && mem[p].ptr in mem
  {
    var next := mem[p].ptr;
    if End(mem, b) == next then MergeMem(mem, b, next) else mem[b := mem[b].(ptr := next)]
  }

  /** The headers once b is on the list after p, or part of p if they touch. */
  ghost function JoinLower(mem: Mem, p: int, b: int): Mem
    requires p in mem && b in mem
  {
    if End(mem, p) == b then MergeMem(mem, p, b) else mem[p := mem[p].(ptr := b)]
  }

  lemma UpperMem(mem: Mem, ring: seq<int>, k: int, b: int)
    requires Gap(mem, ring, k, b) && Next(ring, k) in mem && mem[ring[k]].ptr == Next(ring, k) && ring[0] < b
    ensures var p, next, m := ring[k], Next(ring, k), InsertMem(mem, ring, k, b);
      JoinUpper(mem, p, b)[p := mem[p].(ptr := b)] == if End(mem, b) == next then MergeMem(m, b, next) else m
  {
  }

  lemma UpperMerged(base: int, mem: Mem, v: View, k: int, b: int) returns (w: View)
    requires Sound(base, mem, v) && Coalesced(mem, v.ring) && b in v.live && Gap(mem, v.ring, k, b)
    requires End(mem, b) == Next(v.ring, k)
    ensures var m := MergeMem(InsertMem(mem, v.ring, k, b), b, Next(v.ring, k));
      && Sound(base, m, w) && k + 1 < |w.ring| && w.ring[k] == v.ring[k] && w.ring[k + 1] == b
      && ApartBut(m, w.ring, {k})
    ensures Frees(v, w, b)
  {
    Placed(base, mem, v, k, b);
    var m1, v1 := InsertMem(mem, v.ring, k, b), Return(v, k, b);
    Joined(base, m1, v1, k + 1, {k});
    w := Merge(v1, k + 1);
    FreesThen(v, v1, w, b);
  }

  lemma JoinedUpper(base: int, mem: Mem, v: View, k: int, b: int) returns (w: View)
    requires Sound(base, mem, v) && Coalesced(mem, v.ring) && b in v.live && Gap(mem, v.ring, k, b)
    ensures var p := v.ring[k];
      && mem[p].ptr in mem
      && var m := JoinUpper(mem, p, b)[p := mem[p].(ptr := b)];
      && Sound(base, m, w) && k + 1 < |w.ring| && w.ring[k] == p && w.ring[k + 1] == b
      && ApartBut(m, w.ring, {k})
    ensures Frees(v, w, b)
  {
    var p := v.ring[k];
    assert Linked(mem, v.ring, k);
    UpperMem(mem, v.ring, k, b);
    Placed(base, mem, v, k, b);
    if End(mem, b) == mem[p].ptr {
      w := UpperMerged(base, mem, v, k, b);
    } else {
      w := Return(v, k, b);
    }
  }

  lemma JoinedLower(base: int, mem: Mem, v: View, k: int) returns (w: View)
    requires Sound(base, mem, v) && 0 <= k && k + 1 < |v.ring| && ApartBut(mem, v.ring, {k})
    ensures Sound(base, JoinLower(mem, v.ring[k], v.ring[k + 1]), w)
    ensures Coalesced(JoinLower(mem, v.ring[k], v.ring[k + 1]), w.ring)
    ensures v.ring[k] in w.ring
    ensures forall b :: b !in v.live ==> Frees(v, w, b)
  {
    assert Linked(mem, v.ring, k);
    if End(mem, v.ring[k]) == v.ring[k + 1] {
      Joined(base, mem, v, k, {});
      w := Merge(v, k);
      assert w.ring[k] == v.ring[k];
    } else {
      w := v;
      assert mem == mem[v.ring[k] := mem[v.ring[k]].(ptr := v.ring[k + 1])];
      assert Show(Tiled, 0);
    }
  }

  lemma Freed(base: int, mem: Mem, v: View, k: int, b: int) returns (w: View)
    requires Sound(base, mem, v) && Coalesced(mem, v.ring) && b in v.live && Gap(mem, v.ring, k, b)
    ensures var p := v.ring[k];
      && mem[p].ptr in mem
      && var m := JoinLower(JoinUpper(mem, p, b), p, b);
      && Sound(base, m, w) && Coalesced(m, w.ring) && p in w.ring
    ensures Frees(v, w, b)
  {
    var p := v.ring[k];
    w := JoinedUpper(base, mem, v, k, b);
    var u := w;
    var m := JoinUpper(mem, p, b);
    w := JoinedLower(base, m[p := mem[p].(ptr := b)], w, k);
    assert JoinLower(m[p := mem[p].(ptr := b)], p, b) == JoinLower(m, p, b);
    FreesThen(v, u, w, b);
  }

  lemma Touching(mem: Mem, ring: seq<int>, i: int, j: int)
    requires Ring(mem, ring) && Coalesced(mem, ring) && 0 <= i < j < |ring|
    ensures End(mem, ring[i]) < ring[j]
  {
    assert Apart(mem, ring, i);
  }

  /** A run of free units lies in a single free block. */
  lemma {:induction false} OneBlock(base: int, mem: Mem, v: View, x: int, n: nat)
    requires Sound(base, mem, v) && Coalesced(mem, v.ring) && n > 0
    requires forall u :: x <= u < x + n ==> u in v.owner && v.owner[u] in v.free
    ensures v.owner[x + n - 1] == v.owner[x]
  {
    if n > 1 {
      OneBlock(base, mem, v, x, n - 1);
      var a, c := v.owner[x + n - 2], v.owner[x + n - 1];
      assert Show(Tiled, 0);
      if a < c {
        var i, j :| 0 <= i < |v.ring| && 0 <= j < |v.ring| && v.ring[i] == a && v.ring[j] == c;
        Touching(mem, v.ring, i, j);
        Disjoint(mem, v.free + v.live, v.owner, a, c);
      } else if c < a {
        Disjoint(mem, v.free + v.live, v.owner, c, a);
      }
    }
  }

  ghost predicate FreeUnit(v: View, u: int) {
    u in v.owner && v.owner[u] in v.free
  }

  lemma StartsBlock(base: int, mem: Mem, v: View, a: int)
    requires Sound(base, mem, v) && Coalesced(mem, v.ring) && a in v.free
    ensures a in mem && mem[a].size > 0 && !FreeUnit(v, a - 1)
    ensures forall u :: a <= u < End(mem, a) ==> u in v.owner && v.owner[u] == a
  {
    assert Show(Tiled, 0);
    assert a in v.owner && v.owner[a] == a;
    if FreeUnit(v, a - 1) {
      OneBlock(base, mem, v, a - 1, 2);
    }
  }

  lemma SameBlock(base: int, mem: Mem, v: View, mem': Mem, v': View, a: int)
    requires Sound(base, mem, v) && Coalesced(mem, v.ring) && Sound(base, mem', v') && Coalesced(mem', v'.ring)
    requires forall u :: FreeUnit(v, u) <==> FreeUnit(v', u)
    requires a in v.free
    ensures a in v'.free && a in mem && a in mem' && End(mem, a) <= End(mem', a)
  {
    StartsBlock(base, mem, v, a);
    forall u | a <= u < a + mem[a].size
      ensures u in v'.owner && v'.owner[u] in v'.free
    {
      assert FreeUnit(v, u) && FreeUnit(v', u);
    }
    OneBlock(base, mem', v', a, mem[a].size);
    assert !FreeUnit(v', a - 1);
    var c := v'.owner[a];
    StartsBlock(base, mem', v', c);
    assert Show(Tiled, 0);
    assert End(mem, a) - 1 in v'.owner;
  }

  lemma SameOrder(mem: Mem, ring: seq<int>, mem': Mem, ring': seq<int>, i: nat)
    requires Ordered(mem, ring) && Ordered(mem', ring') && i < |ring|
    requires forall x :: x in ring <==> x in ring'
    requires forall j :: 0 <= j < i ==> j < |ring'| && ring[j] == ring'[j]
    ensures i < |ring'| && ring[i] == ring'[i]
  {
    assert ring[i] in ring;
    assert ring[i] in ring';
    var m :| 0 <= m < |ring'| && ring'[m] == ring[i];
    if m > i {
      assert ring'[i] in ring';
      assert ring'[i] in ring;
      var l :| 0 <= l < |ring| && ring[l] == ring'[i];
      assert l >= i;
    }
  }

  lemma {:induction false} SameUpTo(mem: Mem, ring: seq<int>, mem': Mem, ring': seq<int>, n: nat)
    requires Ordered(mem, ring) && Ordered(mem', ring') && n <= |ring|
    requires forall x :: x in ring <==> x in ring'
    ensures n <= |ring'| && forall j :: 0 <= j < n ==> ring[j] == ring'[j]
  {
    if n > 0 {
      SameUpTo(mem, ring, mem', ring', n - 1);
      SameOrder(mem, ring, mem', ring', n - 1);
    }
  }

  /** The free list is a function of which units are free: its blocks are the maximal runs of free units. */
  lemma Canonical(base: int, mem: Mem, v: View, mem': Mem, v': View)
    requires Sound(base, mem, v) && Coalesced(mem, v.ring) && Sound(base, mem', v') && Coalesced(mem', v'.ring)
    requires forall u :: FreeUnit(v, u) <==> FreeUnit(v', u)
    ensures v.ring == v'.ring
    ensures forall i :: 0 <= i < |v.ring| ==> mem[v.ring[i]] == mem'[v.ring[i]]
  {
    forall a
      ensures a in v.free <==> a in v'.free
      ensures a in v.free ==> a in mem && a in mem' && mem[a].size == mem'[a].size
    {
      if a in v.free {
        SameBlock(base, mem, v, mem', v', a);
      }
      if a in v'.free {
        SameBlock(base, mem', v', mem, v, a);
      }
    }
    assert forall x :: x in v.ring <==> x in v'.ring;
    SameUpTo(mem, v.ring, mem', v'.ring, |v.ring|);
    SameUpTo(mem', v'.ring, mem, v.ring, |v'.ring|);
    assert v.ring == v'.ring;
    forall i | 0 <= i < |v.ring|
      ensures mem[v.ring[i]] == mem'[v.ring[i]]
    {
      assert Linked(mem, v.ring, i) && Linked(mem', v'.ring, i);
      assert i == 0 || v.ring[i] in v.free;
    }
  }

  lemma GivenBack(base: int, mem0: Mem, v0: View, mem1: Mem, v1: View, v2: View, q: int, u: int)
    requires Sound(base, mem0, v0) && Sound(base, mem1, v1) && v2.free !! v2.live
    requires q !in v0.live && v1.live == v0.live + {q} && v1.owner.Keys == v0.owner.Keys
    requires Keeps(v0, v1) && SameHeaders(mem0, mem1, v0.live) && Frees(v1, v2, q)
    ensures FreeUnit(v0, u) <==> FreeUnit(v2, u)
  {
    assert Show(Tiled, 0) && Show(History, 0);
    assert v2.live == v0.live;
    assert u in v0.owner <==> u in v1.owner;
    if u in v1.owner {
      assert v0.owner[u] in v0.live <==> v1.owner[u] in v0.live;
    }
  }

  /** A block taken without growing the heap and then given back leaves the free list as it was. */
  lemma FreeUndoesMalloc(base: int, mem0: Mem, v0: View, mem1: Mem, v1: View, mem2: Mem, v2: View, q: int)
    requires Sound(base, mem0, v0) && Coalesced(mem0, v0.ring)
    requires Sound(base, mem1, v1)
    requires q !in v0.live && v1.live == v0.live + {q} && v1.owner.Keys == v0.owner.Keys
    requires Keeps(v0, v1) && SameHeaders(mem0, mem1, v0.live)
    requires Sound(base, mem2, v2) && Coalesced(mem2, v2.ring) && Frees(v1, v2, q)
    ensures v2.live == v0.live && v2.ring == v0.ring
    ensures forall i :: 0 <= i < |v0.ring| ==> mem2[v0.ring[i]] == mem0[v0.ring[i]]
  {
    forall u
      ensures FreeUnit(v0, u) <==> FreeUnit(v2, u)
    {
      GivenBack(base, mem0, v0, mem1, v1, v2, q, u);
    }
    Canonical(base, mem0, v0, mem2, v2);
  }

  ghost predicate HasFit(mem: Mem, ring: seq<int>, n: nat)
    requires Ring(mem, ring)
  {
    exists i :: 0 <= i < |ring| && mem[ring[i]].size >= n
  }

  lemma EnoughFit(mem: Mem, ring: seq<int>, n: nat, k: nat)
    requires Ring(mem, ring) && HasFit(mem, ring, n) && k <= n
    ensures HasFit(mem, ring, k)
  {
  }

  lemma FitIn(base: int, mem: Mem, v: View, x: int, n: nat)
    requires Sound(base, mem, v) && Coalesced(mem, v.ring) && n > 0
    requires forall u :: x <= u < x + n ==> u in v.owner && v.owner[u] in v.free
    ensures HasFit(mem, v.ring, n)
  {
    OneBlock(base, mem, v, x, n);
    assert Show(Tiled, 0);
    assert x in v.owner && x + n - 1 in v.owner;
    var i :| 0 <= i < |v.ring| && v.ring[i] == v.owner[x];
  }

  /** The units of live blocks keep their block. */
  ghost predicate Keeps(v: View, v': View) {
    forall x :: Show(History, x) ==> forall u :: u in v.owner ==> u in v'.owner && (v.owner[u] in v.live ==>
      v'.owner[u] == v.owner[u])
  }

  /** The heap has at most grown, by units above the old break; live blocks are as they were. */
  ghost predicate Grew(mem: Mem, v: View, brk: int, mem': Mem, v': View) {
    && Keeps(v, v') && v'.live == v.live && SameHeaders(mem, mem', v.live)
    && Above(v, v', brk)
  }

  ghost predicate Above(v: View, v': View, brk: int) {
    forall x :: Show(History, x) ==> forall u :: u in v'.owner && u !in v.owner ==> brk <= u
  }

  ghost predicate SameHeaders(mem: Mem, mem': Mem, live: set<int>) {
    forall x :: Show(History, x) ==> forall a :: a in live ==> a in mem && a in mem' && mem'[a] == mem[a]
  }

  lemma NotLive(base: int, mem: Mem, v: View, i: int)
    requires Sound(base, mem, v) && 0 <= i < |v.ring|
    ensures v.ring[i] !in v.live && forall a :: a in v.live ==> a in mem
  {
    assert i == 0 || v.ring[i] in v.free;
    assert Show(Tiled, 0);
  }

  lemma ShrunkRing(mem: Mem, ring: seq<int>, i: int, z: nat, q: int, t: Header)
    requires Ring(mem, ring) && 0 <= i < |ring| && z <= mem[ring[i]].size && q !in ring
    ensures Ring(mem[ring[i] := mem[ring[i]].(size := z)][q := t], ring)
  {
    var m := mem[ring[i] := mem[ring[i]].(size := z)][q := t];
    forall j | 0 <= j < |ring|
      ensures Linked(m, ring, j)
    {
      assert Linked(mem, ring, j);
    }
  }

  ghost function Cut(v: View, a: int, q: int): View {
    View(v.ring, v.free, v.live + {q}, SplitOwner(v.owner, a, q))
  }

  /** The headers once the last n units of the block at a are a block of their own. */
  ghost function CutMem(mem: Mem, a: int, n: nat, t: Header): Mem
    requires a in mem && n <= mem[a].size
  {
    mem[a := mem[a].(size := mem[a].size - n)][End(mem, a) - n := t]
  }

  lemma CutSound(base: int, mem: Mem, v: View, i: int, n: nat, t: Header)
    requires Sound(base, mem, v) && 0 < i < |v.ring| && 0 < n < mem[v.ring[i]].size && t.size == n
    ensures var a := v.ring[i]; var q := End(mem, a) - n;
      Sound(base, CutMem(mem, a, n, t), Cut(v, a, q)) && q !in v.live && q !in v.ring && a !in v.live
  {
    var a := v.ring[i];
    var z := mem[a].size - n;
    assert a in v.free;
    SplitTiles(mem, v.free + v.live, v.owner, a, n, mem[a].(size := z), t);
    var w := Cut(v, a, a + z);
    assert w.free + w.live == v.free + v.live + {a + z};
    assert CutMem(mem, a, n, t) == mem[a := mem[a].(size := z)][a + z := t];
    assert Tiles(CutMem(mem, a, n, t), w.free + w.live, w.owner);
    ShrunkRing(mem, v.ring, i, z, a + z, t);
  }

  lemma CutTail(base: int, mem: Mem, v: View, i: int, n: nat, t: Header)
    requires Sound(base, mem, v) && Coalesced(mem, v.ring) && 0 < i < |v.ring|
    requires 0 < n < mem[v.ring[i]].size && t.size == n
    ensures var a := v.ring[i]; var q := End(mem, a) - n; var m := CutMem(mem, a, n, t);
      && q !in v.live && Sound(base, m, Cut(v, a, q)) && Coalesced(m, v.ring)
      && Keeps(v, Cut(v, a, q)) && SameHeaders(mem, m, v.live)
  {
    CutSound(base, mem, v, i, n, t);
    NotLive(base, mem, v, i);
    var m := CutMem(mem, v.ring[i], n, t);
    forall j | 0 <= j < |v.ring|
      ensures Apart(m, v.ring, j)
    {
      assert Apart(mem, v.ring, j);
    }
  }

  ghost function Take(v: View, k: int): View
    requires 0 <= k && k + 1 < |v.ring|
  {
    View(RemoveRing(v.ring, k), v.free - {v.ring[k + 1]}, v.live + {v.ring[k + 1]}, v.owner)
  }

  lemma TakeSound(base: int, mem: Mem, v: View, k: int)
    requires Sound(base, mem, v) && 0 <= k && k + 1 < |v.ring|
    ensures var a, p := v.ring[k], v.ring[k + 1];
      p !in v.live && Sound(base, mem[a := mem[a].(ptr := mem[p].ptr)], Take(v, k))
  {
    var a, p := v.ring[k], v.ring[k + 1];
    assert p in v.free;
    Remove(mem, v.ring, k, mem[a].size);
    RemoveMembers(mem, v.ring, v.free, k);
    SameSizes(mem, mem[a := mem[a].(ptr := mem[p].ptr)], v.free + v.live, v.owner);
    assert (v.free - {p}) + (v.live + {p}) == v.free + v.live;
  }

  lemma TakeWhole(base: int, mem: Mem, v: View, k: int)
    requires Sound(base, mem, v) && Coalesced(mem, v.ring) && 0 <= k && k + 1 < |v.ring|
    ensures var a, p := v.ring[k], v.ring[k + 1]; var m := mem[a := mem[a].(ptr := mem[p].ptr)];
      && p !in v.live && Sound(base, m, Take(v, k)) && Coalesced(m, Take(v, k).ring)
      && Keeps(v, Take(v, k)) && SameHeaders(mem, m, v.live) && a in Take(v, k).ring
  {
    var a, p := v.ring[k], v.ring[k + 1];
    var m, r := mem[a := mem[a].(ptr := mem[p].ptr)], RemoveRing(v.ring, k);
    TakeSound(base, mem, v, k);
    NotLive(base, mem, v, k);
    assert r[k] == a;
    forall j | 0 <= j < |r|
      ensures Apart(m, r, j)
    {
      assert Apart(mem, v.ring, if j < k then j else j + 1);
      assert j == k ==> End(mem, a) <= p;
    }
  }

  ghost function Grow(v: View, h: int, n: nat): View {
    View(v.ring, v.free, v.live + {h}, v.owner + map u | u in Range(h, n) :: h)
  }

  lemma GrownTiling(mem: Mem, blocks: set<int>, owner: map<int, int>, h: int, t: Header, owner': map<int, int>)
    requires Tiling(mem, blocks, owner) && t.size > 0 && h !in blocks
    requires forall u :: u in owner' <==> u in owner || h <= u < h + t.size
    requires forall u :: u in owner ==> u < h && owner'[u] == owner[u]
    requires forall u :: u in owner' && h <= u ==> owner'[u] == h
    ensures Tiling(mem[h := t], blocks + {h}, owner')
  {
  }

  lemma GrownTiles(mem: Mem, blocks: set<int>, owner: map<int, int>, h: int, t: Header)
    requires Tiles(mem, blocks, owner) && t.size > 0 && forall u :: u in owner ==> u < h
    ensures h !in blocks
    ensures Tiles(mem[h := t], blocks + {h}, owner + map u | u in Range(h, t.size) :: h)
  {
    assert Show(Tiled, 0);
    assert h !in owner;
    var owner' := owner + map u | u in Range(h, t.size) :: h;
    GrownTiling(mem, blocks, owner, h, t, owner');
  }

  lemma Grown(base: int, mem: Mem, v: View, h: int, t: Header)
    requires Sound(base, mem, v) && Coalesced(mem, v.ring) && t.size > 0 && base < h
    requires forall u :: u in v.owner ==> u < h
    ensures h !in v.live && Sound(base, mem[h := t], Grow(v, h, t.size)) && Coalesced(mem[h := t], v.ring)
    ensures Keeps(v, Grow(v, h, t.size))
  {
    GrownTiles(mem, v.free + v.live, v.owner, h, t);
    assert v.free + (v.live + {h}) == v.free + v.live + {h};
    ShrunkRing(mem, v.ring, 0, 0, h, t);
    assert mem[base := mem[base].(size := 0)][h := t] == mem[h := t];
    var m := mem[h := t];
    forall j | 0 <= j < |v.ring|
      ensures Apart(m, v.ring, j)
    {
      assert Apart(mem, v.ring, j);
    }
  }

  /** Number of links from block i of the list to block k. */
  function Distance(n: nat, i: int, k: int): int {
    if i <= k then k - i else k + n - i
  }

  function After(n: nat, i: int): int {
    if i + 1 < n then i + 1 else 0
  }

  /** malloc's walk is at block i, and the blocks that may still be large enough are those from
      there up to block f. */
  ghost predicate Walk(mem: Mem, ring: seq<int>, f: int, n: nat, prevp: int, p: int, i: int)
    requires Ring(mem, ring)
  {
    && 0 <= f < |ring| && 0 <= i < |ring|
    && p == ring[i] && prevp == (if i == 0 then ring[|ring| - 1] else ring[i - 1])
    && forall x :: Show(Searches, x) ==> forall j :: 0 <= j < |ring| && mem[ring[j]].size >= n ==>
      Distance(|ring|, i, j) <= Distance(|ring|, i, f)
  }

  lemma WalkStart(mem: Mem, ring: seq<int>, f: int, n: nat)
    requires Ring(mem, ring) && 0 <= f < |ring|
    ensures Walk(mem, ring, f, n, ring[f], mem[ring[f]].ptr, After(|ring|, f))
  {
    assert Linked(mem, ring, f);
  }

  lemma WalkOn(mem: Mem, ring: seq<int>, f: int, n: nat, prevp: int, p: int, i: int)
    requires Ring(mem, ring) && Walk(mem, ring, f, n, prevp, p, i) && mem[p].size < n && p != ring[f]
    ensures Walk(mem, ring, f, n, p, mem[p].ptr, After(|ring|, i))
    ensures Distance(|ring|, After(|ring|, i), f) < Distance(|ring|, i, f)
  {
    assert Linked(mem, ring, i);
  }

  lemma WalkOver(mem: Mem, ring: seq<int>, f: int, n: nat, prevp: int, p: int, i: int)
    requires Ring(mem, ring) && Walk(mem, ring, f, n, prevp, p, i) && mem[p].size < n && p == ring[f]
    ensures !HasFit(mem, ring, n)
  {
    assert Show(Searches, 0);
  }

  /** Block i is the first one of at least n units after the block at `from`, going round the list. */
  ghost predicate NextFit(mem: Mem, ring: seq<int>, from: int, n: nat, i: int)
    requires Ring(mem, ring)
  {
    && 0 <= i < |ring| && mem[ring[i]].size >= n
    && forall x :: Show(Searches, x) ==>
      exists f :: 0 <= f < |ring| && ring[f] == from && NoneBetween(mem, ring, f, n, i)
  }

  ghost predicate NoneBetween(mem: Mem, ring: seq<int>, f: int, n: nat, i: int)
    requires Ring(mem, ring)
  {
    forall j :: 0 <= j < |ring| && mem[ring[j]].size >= n ==>
      Distance(|ring|, After(|ring|, f), i) <= Distance(|ring|, After(|ring|, f), j)
  }

  lemma WalkFirst(mem: Mem, ring: seq<int>, f: int, n: nat, prevp: int, p: int, i: int)
    requires Ring(mem, ring) && Walk(mem, ring, f, n, prevp, p, i) && mem[p].size >= n
    ensures NextFit(mem, ring, ring[f], n, i)
  {
    assert Show(Searches, 0);
    assert NoneBetween(mem, ring, f, n, i);
  }

  /** The last n units of the next fit after the old freep are taken, and freep is then the block before it. */
  ghost predicate Taken(mem: Mem, ring: seq<int>, freep: Option<int>, n: nat, i: int, q: Option<int>,
      freep': Option<int>) {
    && Ring(mem, ring) && 0 < i < |ring| && freep.Some?
    && NextFit(mem, ring, freep.value, n, i)
    && q == Some(End(mem, ring[i]) - n) && freep' == Some(ring[i - 1])
  }

  const HEADER: nat := 8 // sizeof(Header)
  const MINUNITS: nat := 4096

  /** Units in the least block with room for nbytes and a header. */
  function Units(nbytes: nat): (n: nat)
    ensures 8 * (n - 2) < nbytes <= 8 * (n - 1)
  {
    (nbytes + HEADER - 1) / HEADER + 1
  }

  /** Neither the round-up in `malloc` nor the int argument of `sbrk` overflows. */
  predicate NoOverflow(nbytes: nat) {
    nbytes + HEADER - 1 < 0x1_0000_0000 && Units(nbytes) * HEADER < 0x8000_0000
  }

  /** A call of sbrk for some units, and what it returned. */
  datatype Ask = Ask(units: nat, got: Option<int>)

  /** Memory for n units has been asked for once, with or without success. */
  ghost predicate AskedOnce(asked: seq<Ask>, asked': seq<Ask>, n: nat, ok: bool) {
    && |asked'| == |asked| + 1 && asked'[..|asked|] == asked
    && asked'[|asked|].units == (if n < 4096 then 4096 else n)
    && asked'[|asked|].got.Some? == ok
  }

  class Heap {
    const base: int
    var mem: Mem
    var freep: Option<int>
    var brk: int
    ghost var v: View
    ghost var asked: seq<Ask>

    constructor (base: int, brk: int)
      requires base < brk
      ensures Valid() && v.live == {} && v.owner == map[]
    {
      this.base, this.brk := base, brk;
      mem, freep := map[base := Header(0, 0)], None;
      v, asked := View([base], {}, {}, map[]), [];
    }

    /** The state once the list exists. */
    ghost predicate Ready()
      reads this
    {
      && Sound(base, mem, v) && Coalesced(mem, v.ring)
      && base < brk && (forall u :: u in v.owner ==> u < brk)
      && freep.Some? && freep.value in v.ring
    }

    ghost predicate Valid()
      reads this
    {
      if freep.None? then base < brk && v == View([base], {}, {}, map[]) else Ready()
    }

    /** The loop of `free`: the place of the block at b in the list. */
    method FindPlace(b: int, ghost start: int, ghost t: int) returns (p: int, ghost k: int)
      requires Ring(mem, v.ring) && b !in v.ring
      requires 0 <= start < |v.ring| && freep == Some(v.ring[start])
      requires 0 <= t < |v.ring| && v.ring[t] < b && (t + 1 < |v.ring| ==> b < v.ring[t + 1])
      ensures k == t && p == v.ring[t]
    {
      p, k := freep.value, start;
      while !(b > p && b < mem[p].ptr)
        invariant 0 <= k < |v.ring| && p == v.ring[k]
        decreases Distance(|v.ring|, k, t)
      {
        assert Linked(mem, v.ring, k);
        if p >= mem[p].ptr && (b > p || b < mem[p].ptr) { break; }
        p, k := mem[p].ptr, After(|v.ring|, k);
      }
      assert Linked(mem, v.ring, k);
    }

    /** The second half of `free`. */
    method Link(p: int, b: int)
      requires p in mem && b in mem && mem[p].ptr in mem && p != b && mem[p].ptr != b
      modifies `mem, `freep
      ensures mem == JoinLower(JoinUpper(old(mem), p, b), p, b) && freep == Some(p)
    {
      if b + mem[b].size == mem[p].ptr {
        mem := mem[b := mem[b].(size := mem[b].size + mem[mem[p].ptr].size)];
        mem := mem[b := mem[b].(ptr := mem[mem[p].ptr].ptr)];
      } else {
        mem := mem[b := mem[b].(ptr := mem[p].ptr)];
      }
      assert mem == JoinUpper(old(mem), p, b);
      if p + mem[p].size == b {
        mem := mem[p := mem[p].(size := mem[p].size + mem[b].size)];
        mem := mem[p := mem[p].(ptr := mem[b].ptr)];
      } else {
        mem := mem[p := mem[p].(ptr := b)];
      }
      freep := Some(p);
    }

    method Free(ap: int)
      requires Valid() && ap - 1 in v.live
      modifies `mem, `freep, `v
      ensures Ready() && Frees(old(v), v, ap - 1)
      ensures SameHeaders(old(mem), mem, v.live)
      ensures exists k :: Gap(old(mem), old(v).ring, k, ap - 1) && freep == Some(old(v).ring[k])
    {
      var b := ap - 1;
      ghost var start :| 0 <= start < |v.ring| && v.ring[start] == freep.value;
      ghost var t := Place(base, mem, v, b);
      var p, k := FindPlace(b, start, t);
      ghost var w := Freed(base, mem, v, k, b);
      assert Linked(mem, v.ring, k);
      assert Next(v.ring, k) != b;
      Link(p, b);
      assert Show(Tiled, 0);
      assert p == base || p in v.free;
      v := w;
    }
  
    /** The system call: fails, or hands out n units at or above the break. */
    method Sbrk(n: nat) returns (p: Option<int>)
      modifies `brk, `asked
      ensures asked == old(asked) + [Ask(n, p)]
      ensures p.None? ==> brk == old(brk)
      ensures p.Some? ==> old(brk) <= p.value && brk == p.value + n
    {
      var ok: bool := *;
      var gap :| gap >= 0;
      p := if ok then Some(brk + gap) else None;
      asked := asked + [Ask(n, p)];
      if !ok { return; }
      brk := brk + gap + n;
    }

    method Morecore(nunits: nat) returns (r: Option<int>)
      requires Ready()
      modifies `mem, `freep, `brk, `v, `asked
      ensures Ready() && Grew(old(mem), old(v), old(brk), mem, v)
      ensures AskedOnce(old(asked), asked, nunits, r.Some?)
      ensures r.None? ==> v == old(v) && mem == old(mem) && freep == old(freep) && brk == old(brk)
      ensures r.Some? ==> r == freep && HasFit(mem, v.ring, nunits)
    {
      var nu := if nunits < MINUNITS then MINUNITS else nunits;
      var p := Sbrk(nu);
      if p == None {
        assert Show(Tiled, 0);
        return None;
      }
      AddBlock(p.value, nu, old(brk));
      EnoughFit(mem, v.ring, nu, nunits);
      return freep;
    }

    /** The new units become a block, which is freed. */
    method AddBlock(hp: int, nu: nat, ghost before: int)
      requires Ready() && base < before <= hp && brk == hp + nu && nu > 0 && forall u :: u in v.owner ==> u < before
      modifies `mem, `freep, `v
      ensures Ready() && Grew(old(mem), old(v), before, mem, v) && HasFit(mem, v.ring, nu)
    {
      var junk: int := *;
      Grown(base, mem, v, hp, Header(junk, nu));
      mem := mem[hp := Header(junk, nu)];
      v := Grow(v, hp, nu);
      ghost var w := v;
      Free(hp + 1);
      assert w.live - {hp} == old(v).live;
      FitIn(base, mem, v, hp, nu);
    }
  
    /** The block p of the list, after prevp, gives up n units. */
    method Carve(prevp: int, p: int, n: nat, ghost k: int) returns (q: int)
      requires Ready() && n > 0 && 0 <= k && k + 1 < |v.ring| && prevp == v.ring[k] && p == v.ring[k + 1]
      requires mem[p].size >= n
      modifies `mem, `freep, `v
      ensures Ready() && Keeps(old(v), v) && v.owner.Keys == old(v).owner.Keys
      ensures q !in old(v).live && v.live == old(v).live + {q} && q in mem && mem[q].size == n
      ensures SameHeaders(old(mem), mem, old(v).live)
      ensures q == End(old(mem), p) - n && freep == Some(prevp)
    {
      q := p;
      if mem[p].size == n {
        TakeWhole(base, mem, v, k);
        mem := mem[prevp := mem[prevp].(ptr := mem[p].ptr)];
        v := Take(v, k);
      } else {
        var junk: int := *;
        CutTail(base, mem, v, k + 1, n, Header(junk, n));
        mem := mem[p := mem[p].(size := mem[p].size - n)];
        q := q + mem[p].size;
        mem := mem[q := Header(junk, n)];
        assert mem == CutMem(old(mem), p, n, Header(junk, n));
        v := Cut(v, p, q);
      }
      freep := Some(prevp);
    }
  
    /** The list is as it was, or has been made, of the block at base alone. */
    ghost predicate Started(mem: Mem, freep: Option<int>, mem': Mem, freep': Option<int>) {
      if freep.Some? then mem' == mem && freep' == freep
      else mem' == mem[base := Header(base, 0)] && freep' == Some(base)
    }

    /** The list is made on the first call. */
    method Start()
      requires Valid()
      modifies `mem, `freep
      ensures Ready() && SameHeaders(old(mem), mem, v.live)
      ensures Started(old(mem), old(freep), mem, freep) && (old(freep) == None ==> v.ring == [base])
    {
      if freep == None {
        mem := mem[base := Header(base, 0)];
        freep := Some(base);
      } else {
        NotLive(base, mem, v, 0);
      }
    }

    /** One round of the list, from the block after freep up to freep itself. */
    method Round(n: nat) returns (found: bool, prevp: int, p: int, ghost i: int)
      requires Ring(mem, v.ring) && mem[v.ring[0]].size == 0 && freep.Some? && freep.value in v.ring && n > 0
      ensures found <==> HasFit(mem, v.ring, n)
      ensures found ==> 0 < i < |v.ring| && prevp == v.ring[i - 1] && p == v.ring[i]
      ensures found ==> NextFit(mem, v.ring, freep.value, n, i)
    {
      prevp := freep.value;
      ghost var f :| 0 <= f < |v.ring| && v.ring[f] == prevp;
      WalkStart(mem, v.ring, f, n);
      i := After(|v.ring|, f);
      p := mem[prevp].ptr;
      while mem[p].size < n
        invariant Walk(mem, v.ring, f, n, prevp, p, i)
        decreases Distance(|v.ring|, i, f)
      {
        if p == freep.value {
          WalkOver(mem, v.ring, f, n, prevp, p, i);
          return false, prevp, p, i;
        }
        WalkOn(mem, v.ring, f, n, prevp, p, i);
        i := After(|v.ring|, i);
        prevp := p;
        p := mem[p].ptr;
      }
      WalkFirst(mem, v.ring, f, n, prevp, p, i);
      found := true;
    }

    /** The loop of `malloc`: a round that finds nothing is followed by a round of the grown heap. */
    method FindFit(n: nat) returns (ok: bool, prevp: int, p: int, ghost i: int)
      requires Ready() && n > 0
      modifies `mem, `freep, `brk, `v, `asked
      ensures Ready() && Grew(old(mem), old(v), old(brk), mem, v)
      ensures if HasFit(old(mem), old(v).ring, n)
        then ok && asked == old(asked) && v == old(v) && mem == old(mem) && freep == old(freep)
        else AskedOnce(old(asked), asked, n, ok)
      ensures !ok ==> v == old(v) && mem == old(mem) && freep == old(freep) && brk == old(brk)
      ensures ok ==> 0 < i < |v.ring| && prevp == v.ring[i - 1] && p == v.ring[i]
      ensures ok ==> NextFit(mem, v.ring, freep.value, n, i)
    {
      NotLive(base, mem, v, 0);
      ok, prevp, p, i := Round(n);
      while !ok
        invariant Ready() && Grew(old(mem), old(v), old(brk), mem, v)
        invariant ok <==> HasFit(mem, v.ring, n)
        invariant ok ==> 0 < i < |v.ring| && prevp == v.ring[i - 1] && p == v.ring[i]
        invariant ok ==> NextFit(mem, v.ring, freep.value, n, i)
        invariant !ok ==> !HasFit(old(mem), old(v).ring, n) && brk == old(brk)
        invariant if !ok || HasFit(old(mem), old(v).ring, n)
          then asked == old(asked) && v == old(v) && mem == old(mem) && freep == old(freep)
          else AskedOnce(old(asked), asked, n, true)
        decreases !ok
      {
        var q := Morecore(n);
        if q == None { return; }
        ok, prevp, p, i := Round(n);
      }
    }

    /** The loop of `malloc` and the return out of it. */
    method Obtain(n: nat) returns (q: Option<int>, ghost i: int)
      requires Ready() && n > 0
      modifies `mem, `freep, `brk, `v, `asked
      ensures Ready() && Keeps(old(v), v) && Above(old(v), v, old(brk))
      ensures SameHeaders(old(mem), mem, old(v).live)
      ensures if HasFit(old(mem), old(v).ring, n)
        then && asked == old(asked) && v.owner.Keys == old(v).owner.Keys
             && Taken(old(mem), old(v).ring, old(freep), n, i, q, freep)
        else AskedOnce(old(asked), asked, n, q.Some?)
      ensures q.Some? ==> var a := q.value;
        a !in old(v).live && v.live == old(v).live + {a} && a in mem && mem[a].size == n
      ensures q.None? ==> v == old(v) && mem == old(mem) && freep == old(freep) && brk == old(brk)
    {
      var ok, prevp, p, j := FindFit(n);
      i := j;
      if !ok { return None, i; }
      var a := Carve(prevp, p, n, i - 1);
      return Some(a), i;
    }

    method Malloc(nbytes: nat) returns (r: Option<int>, ghost i: int)
      requires Valid() && NoOverflow(nbytes)
      modifies `mem, `freep, `brk, `v, `asked
      ensures Ready() && Keeps(old(v), v) && Above(old(v), v, old(brk))
      ensures SameHeaders(old(mem), mem, old(v).live)
      ensures if old(Ready()) && HasFit(old(mem), old(v).ring, Units(nbytes))
        then && r.Some? && asked == old(asked) && v.owner.Keys == old(v).owner.Keys
             && Taken(old(mem), old(v).ring, old(freep), Units(nbytes), i, Some(r.value - 1), freep)
        else AskedOnce(old(asked), asked, Units(nbytes), r.Some?)
      ensures r.Some? ==> var a := r.value - 1;
        && a !in old(v).live && v.live == old(v).live + {a}
        && a in mem && mem[a].size == Units(nbytes) && 8 * (mem[a].size - 2) < nbytes <= 8 * (mem[a].size - 1)
      ensures r.None? ==> v == old(v) && brk == old(brk) && Started(old(mem), old(freep), mem, freep)
    {
      Start();
      var q, j := Obtain(Units(nbytes));
      i := j;
      return if q == None then None else Some(q.value + 1), i;
    }
  }
}
