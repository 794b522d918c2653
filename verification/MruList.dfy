/**
 The circular doubly linked list of xv6/bio.c, by index instead of by pointer: `next` and `prev`
 are the links, and `ring` is the order they spell out, starting at the list head.
 */
module MruList {
  ghost predicate Unique(ring: seq<nat>) {
    forall j, k :: 0 <= j < k < |ring| ==> ring[j] != ring[k]
  }

  function After(ring: seq<nat>, k: nat): nat
    requires k < |ring|
  {
    if k + 1 < |ring| then ring[k + 1] else ring[0]
  }

  function Before(ring: seq<nat>, k: nat): nat
    requires k < |ring|
  {
    if k > 0 then ring[k - 1] else ring[|ring| - 1]
  }

  ghost predicate Linked(next: seq<nat>, prev: seq<nat>, ring: seq<nat>) {
    && |next| == |prev|
    && |ring| >= 1
    && Unique(ring)
    && (forall k :: 0 <= k < |ring| ==> ring[k] < |next|)
    && (forall k :: 0 <= k < |ring| ==> At(next, prev, ring, k))
  }

  /** The links of the k-th node lead to its neighbours. */
  ghost predicate At(next: seq<nat>, prev: seq<nat>, ring: seq<nat>, k: nat)
    requires k < |ring|
  {
    && ring[k] < |next| == |prev|
    && next[ring[k]] == After(ring, k)
    && prev[ring[k]] == Before(ring, k)
  }

  /** Take the node at position k off the list (xv6/bio.c:132-133). */
  function Unlink(next: seq<nat>, prev: seq<nat>, b: nat): (r: (seq<nat>, seq<nat>))
    requires b < |next| == |prev| && next[b] < |prev| && prev[b] < |next|
  {
    var prev' := prev[next[b] := prev[b]];
    (next[prev'[b] := next[b]], prev')
  }

  /** Insert b just after the head h (xv6/bio.c:134-137). */
  function PushFront(next: seq<nat>, prev: seq<nat>, h: nat, b: nat): (r: (seq<nat>, seq<nat>))
    requires b < |next| == |prev| && h < |next| && next[h] < |prev|
  {
    var next' := next[b := next[h]];
    var prev' := prev[b := h];
    (next'[h := b], prev'[next'[h] := b])
  }

  lemma UnlinkRing(next: seq<nat>, prev: seq<nat>, ring: seq<nat>, k: nat)
    requires Linked(next, prev, ring) && 0 < k < |ring|
    ensures At(next, prev, ring, k)
    ensures var b := ring[k];
            && next[b] < |prev| && prev[b] < |next|
            && Linked(Unlink(next, prev, b).0, Unlink(next, prev, b).1, Without(ring, k))
  {
    var k1 := if k + 1 < |ring| then k + 1 else 0;
    assert At(next, prev, ring, k) && At(next, prev, ring, k - 1) && At(next, prev, ring, k1);
    var (n, p) := Unlink(next, prev, ring[k]);
    var r := Without(ring, k);
    forall j | 0 <= j < |r| ensures At(n, p, r, j) {
      UnlinkAt(next, prev, ring, k, j);
    }
  }

  ghost function Without(ring: seq<nat>, k: nat): (r: seq<nat>)
    requires k < |ring|
    ensures |r| == |ring| - 1 && forall j :: 0 <= j < |r| ==> r[j] == ring[if j < k then j else j + 1]
  {
    ring[..k] + ring[k + 1..]
  }

  lemma UnlinkAt(next: seq<nat>, prev: seq<nat>, ring: seq<nat>, k: nat, j: nat)
    requires Linked(next, prev, ring) && 0 < k < |ring| && j < |ring| - 1 && At(next, prev, ring, k)
    requires next[ring[k]] < |prev| && prev[ring[k]] < |next|
    ensures var (n, p) := Unlink(next, prev, ring[k]); At(n, p, Without(ring, k), j)
  {
    var k1 := if k + 1 < |ring| then k + 1 else 0;
    assert At(next, prev, ring, k - 1) && At(next, prev, ring, k1);
    assert At(next, prev, ring, if j < k then j else j + 1);
  }

  lemma PushFrontRing(next: seq<nat>, prev: seq<nat>, ring: seq<nat>, b: nat)
    requires Linked(next, prev, ring) && b < |next| && b !in ring
    ensures At(next, prev, ring, 0) && next[ring[0]] < |prev|
    ensures var (n, p) := PushFront(next, prev, ring[0], b);
            Linked(n, p, [ring[0], b] + ring[1..])
  {
    var k1 := if 1 < |ring| then 1 else 0;
    assert At(next, prev, ring, 0) && At(next, prev, ring, k1);
    var (n, p) := PushFront(next, prev, ring[0], b);
    var r := [ring[0], b] + ring[1..];
    forall j | 0 <= j < |r| ensures At(n, p, r, j) {
      if j != 1 {
        assert At(next, prev, ring, if j == 0 then 0 else j - 1);
      }
    }
  }

  ghost predicate MovedToFront(before: seq<nat>, after: seq<nat>, b: nat) {
    exists k :: 0 < k < |before| && before[k] == b && after == ToFront(before, k)
  }

  ghost function ToFront(ring: seq<nat>, k: nat): seq<nat>
    requires 0 < k < |ring|
  {
    [ring[0], ring[k]] + ring[1..k] + ring[k + 1..]
  }

  lemma MoveToFrontRing(next: seq<nat>, prev: seq<nat>, ring: seq<nat>, k: nat)
    requires Linked(next, prev, ring) && 0 < k < |ring|
    ensures var b := ring[k];
            && next[b] < |prev| && prev[b] < |next|
            && var (n, p) := Unlink(next, prev, b);
               && n[ring[0]] < |p|
               && var (n', p') := PushFront(n, p, ring[0], b);
                  Linked(n', p', ToFront(ring, k))
  {
    UnlinkRing(next, prev, ring, k);
    var (n, p) := Unlink(next, prev, ring[k]);
    var rest := Without(ring, k);
    PushFrontRing(n, p, rest, ring[k]);
    assert [rest[0], ring[k]] + rest[1..] == ToFront(ring, k);
  }

  function Below(n: nat): (s: set<nat>)
    ensures |s| == n
    ensures forall b: nat :: b in s <==> b < n
  {
    if n == 0 then {} else Below(n - 1) + {n - 1}
  }

  ghost function Elements(ring: seq<nat>): (s: set<nat>)
    ensures forall b :: b in s <==> b in ring
  {
    set b | b in ring
  }

  lemma {:induction false} ElementsCount(ring: seq<nat>)
    requires Unique(ring)
    ensures |Elements(ring)| == |ring|
  {
    if ring != [] {
      var front, last := ring[..|ring| - 1], ring[|ring| - 1];
      ElementsCount(front);
      assert ring == front + [last];
      assert Elements(ring) == Elements(front) + {last};
    }
  }

  lemma {:induction false} SubsetSize(a: set<nat>, b: set<nat>)
    requires a <= b && |a| == |b|
    ensures a == b
  {
    if a != {} {
      var x :| x in a;
      SubsetSize(a - {x}, b - {x});
    }
  }

  /** A list of n distinct nodes below n is a permutation of all of them. */
  lemma Covers(ring: seq<nat>, b: nat)
    requires Unique(ring) && b < |ring|
    requires forall k :: 0 <= k < |ring| ==> ring[k] < |ring|
    ensures b in ring
  {
    ElementsCount(ring);
    SubsetSize(Elements(ring), Below(|ring|));
    assert b in Below(|ring|);
  }
}
