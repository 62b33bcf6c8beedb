/** Finite directed graphs: paths, cycles, what lies below and above a cycle, pigeonhole and loop removal. */
module Graph {
  import opened Common

  /** Graph items are hashable values about which only equality is known. */
  type Item(==, !new)

  type Edge = (Item, Item)

  ghost predicate IsPath(edges: set<Edge>, p: seq<Item>) {
    && p != []
    && forall i :: 0 <= i < |p| - 1 ==> (p[i], p[i + 1]) in edges
  }

  ghost predicate PathInto(edges: set<Edge>, p: seq<Item>, x: Item) {
    IsPath(edges, p) && p[|p| - 1] == x
  }

  /** A closed path: at least one edge, back where it began. */
  ghost predicate IsCycle(edges: set<Edge>, c: seq<Item>) {
    IsPath(edges, c) && |c| >= 2 && c[0] == c[|c| - 1]
  }

  ghost predicate HasCycle(edges: set<Edge>) {
    exists c :: IsCycle(edges, c)
  }

  /** x can be reached from an item on some cycle. */
  ghost predicate BelowCycle(edges: set<Edge>, x: Item) {
    exists c, q :: IsCycle(edges, c) && PathInto(edges, q, x) && q[0] == c[0]
  }

  /** An item on some cycle can be reached from x. */
  ghost predicate AboveCycle(edges: set<Edge>, x: Item) {
    exists c, q :: IsCycle(edges, c) && IsPath(edges, q) && q[0] == x && q[|q| - 1] == c[0]
  }

  /** Every item of s has a predecessor that is again in s. */
  ghost predicate Stuck(edges: set<Edge>, s: set<Item>) {
    forall x {:trigger HasParentIn(edges, s, x)} :: x in s ==> HasParentIn(edges, s, x)
  }

  ghost predicate HasParentIn(edges: set<Edge>, s: set<Item>, x: Item) {
    exists a :: a in s && (a, x) in edges
  }

  /** xs lists distinct items, each one after all of its predecessors. */
  ghost predicate ParentsFirst(edges: set<Edge>, xs: seq<Item>) {
    && Distinct(xs)
    && forall k, a :: 0 <= k < |xs| && (a, xs[k]) in edges ==> a in xs[..k]
  }

  /** The longest path that ends in x has exactly k edges. */
  ghost predicate LongestPathInto(edges: set<Edge>, x: Item, k: nat) {
    && (exists p :: PathInto(edges, p, x) && |p| == k + 1)
    && (forall p :: PathInto(edges, p, x) ==> |p| <= k + 1)
  }

  lemma {:induction false} DistinctFitsIn<T>(p: seq<T>, s: set<T>)
    requires Distinct(p)
    requires forall i :: 0 <= i < |p| ==> p[i] in s
    ensures |p| <= |s|
  {
    if p == [] {
    } else {
      DistinctFitsIn(p[1..], s - {p[0]});
    }
  }

  lemma PathOfOne(edges: set<Edge>, x: Item)
    ensures PathInto(edges, [x], x)
  {}

  lemma PathSlice(edges: set<Edge>, p: seq<Item>, i: nat, j: nat)
    requires IsPath(edges, p) && i < j <= |p|
    ensures PathInto(edges, p[i..j], p[j - 1])
    ensures p[i..j][0] == p[i]
  {}

  lemma PathJoin(edges: set<Edge>, p: seq<Item>, q: seq<Item>)
    requires IsPath(edges, p) && IsPath(edges, q) && p[|p| - 1] == q[0]
    ensures PathInto(edges, p + q[1..], q[|q| - 1])
    ensures (p + q[1..])[0] == p[0]
  {
    var r := p + q[1..];
    forall i | 0 <= i < |r| - 1 ensures (r[i], r[i + 1]) in edges {
      if i >= |p| - 1 {
        assert r[i] == q[i - (|p| - 1)];
        assert r[i + 1] == q[i - (|p| - 1) + 1];
      }
    }
  }

  /** In a stuck set one can walk backwards for as long as one likes. */
  lemma {:induction false} BackwardWalk(edges: set<Edge>, s: set<Item>, x: Item, n: nat) returns (p: seq<Item>)
    requires Stuck(edges, s) && x in s
    ensures PathInto(edges, p, x) && |p| == n + 1
    ensures forall i :: 0 <= i < |p| ==> p[i] in s
  {
    if n == 0 {
      p := [x];
    } else {
      assert HasParentIn(edges, s, x);
      var a :| a in s && (a, x) in edges;
      var q := BackwardWalk(edges, s, a, n - 1);
      p := q + [x];
    }
  }

  /** Pigeonhole: a long enough backward walk repeats an item. */
  lemma StuckIsBelowCycle(edges: set<Edge>, s: set<Item>, x: Item)
    requires Stuck(edges, s) && x in s
    ensures BelowCycle(edges, x)
  {
    var p := BackwardWalk(edges, s, x, |s|);
    if Distinct(p) {
      DistinctFitsIn(p, s);
      assert false;
    }
    var i, j :| 0 <= i < j < |p| && p[i] == p[j];
    PathSlice(edges, p, i, j + 1);
    PathSlice(edges, p, i, |p|);
    assert IsCycle(edges, p[i..j + 1]) && PathInto(edges, p[i..|p|], x);
  }

  /** Whatever lies below a cycle has a predecessor below a cycle. */
  lemma BelowCycleParent(edges: set<Edge>, x: Item) returns (a: Item)
    requires BelowCycle(edges, x)
    ensures (a, x) in edges && BelowCycle(edges, a)
  {
    var c, q :| IsCycle(edges, c) && PathInto(edges, q, x) && q[0] == c[0];
    var r := if |q| >= 2 then q else c;
    a := r[|r| - 2];
    PathSlice(edges, r, 0, |r| - 1);
    assert PathInto(edges, r[0..|r| - 1], a);
  }

  /** Along a path that ends inside a parents-first list, positions go up. */
  lemma {:induction false} PathRanks(edges: set<Edge>, xs: seq<Item>, p: seq<Item>, k: nat)
    requires ParentsFirst(edges, xs) && IsPath(edges, p) && k < |xs| && xs[k] == p[|p| - 1]
    ensures p[0] in xs[..k + 1]
    ensures |p| >= 2 ==> p[0] in xs[..k]
  {
    if |p| >= 2 {
      var a := p[|p| - 2];
      assert (a, xs[k]) in edges;
      var j :| 0 <= j < k && xs[j] == a;
      PathSlice(edges, p, 0, |p| - 1);
      PathRanks(edges, xs, p[0..|p| - 1], j);
    }
  }

  lemma ParentsFirstNotBelowCycle(edges: set<Edge>, xs: seq<Item>, x: Item)
    requires ParentsFirst(edges, xs) && x in xs
    ensures !BelowCycle(edges, x)
  {
    if BelowCycle(edges, x) {
      var c, q :| IsCycle(edges, c) && PathInto(edges, q, x) && q[0] == c[0];
      var k :| 0 <= k < |xs| && xs[k] == x;
      PathRanks(edges, xs, q, k);
      var j :| 0 <= j <= k && xs[j] == c[0];
      PathRanks(edges, xs, c, j);
      assert false;
    }
  }

  /** A parents-first list together with a stuck remainder splits a graph in
      exactly one way: the remainder is what lies below a cycle. */
  lemma RemainderIsBelowCycle(edges: set<Edge>, xs: seq<Item>, rest: set<Item>, x: Item)
    requires ParentsFirst(edges, xs) && Stuck(edges, rest)
    requires x in xs || x in rest
    ensures x in rest <==> BelowCycle(edges, x)
    ensures x in xs <==> !BelowCycle(edges, x)
  {
    if x in rest { StuckIsBelowCycle(edges, rest, x); }
    if x in xs { ParentsFirstNotBelowCycle(edges, xs, x); }
  }

  lemma CycleItem(edges: set<Edge>) returns (x: Item, y: Item)
    requires HasCycle(edges)
    ensures (x, y) in edges && BelowCycle(edges, x)
  {
    var c :| IsCycle(edges, c);
    PathOfOne(edges, c[0]);
    x, y := c[0], c[1];
  }

  /** Any path can be made simple without changing its ends. */
  lemma {:induction false} SimplePath(edges: set<Edge>, p: seq<Item>) returns (q: seq<Item>)
    requires IsPath(edges, p)
    ensures PathInto(edges, q, p[|p| - 1]) && q[0] == p[0] && Distinct(q)
    decreases |p|
  {
    if Distinct(p) {
      q := p;
    } else {
      var i, j :| 0 <= i < j < |p| && p[i] == p[j];
      PathSlice(edges, p, 0, i + 1);
      PathSlice(edges, p, j, |p|);
      PathJoin(edges, p[0..i + 1], p[j..|p|]);
      q := SimplePath(edges, p[0..i + 1] + p[j..|p|][1..]);
    }
  }

  // ---------- the same graph read backwards ----------

  ghost function Reversed(edges: set<Edge>): set<Edge> {
    set e | e in edges :: (e.1, e.0)
  }

  ghost function Backwards(p: seq<Item>): seq<Item> {
    seq(|p|, i requires 0 <= i < |p| => p[|p| - 1 - i])
  }

  lemma ReversedEdge(edges: set<Edge>, a: Item, b: Item)
    ensures (a, b) in Reversed(edges) <==> (b, a) in edges
  {
    if (b, a) in edges { assert ((b, a).1, (b, a).0) in Reversed(edges); }
  }

  lemma BackwardsPath(edges: set<Edge>, p: seq<Item>)
    requires IsPath(Reversed(edges), p)
    ensures IsPath(edges, Backwards(p)) && Backwards(p)[0] == p[|p| - 1] && Backwards(p)[|p| - 1] == p[0]
  {
    var q := Backwards(p);
    forall i | 0 <= i < |q| - 1 ensures (q[i], q[i + 1]) in edges {
      var j := |p| - 2 - i;
      assert (p[j], p[j + 1]) in Reversed(edges);
      ReversedEdge(edges, p[j], p[j + 1]);
    }
  }

  lemma BelowReversed(edges: set<Edge>, x: Item)
    requires BelowCycle(Reversed(edges), x)
    ensures AboveCycle(edges, x)
  {
    var c, q :| IsCycle(Reversed(edges), c) && PathInto(Reversed(edges), q, x) && q[0] == c[0];
    BackwardsPath(edges, c);
    BackwardsPath(edges, q);
    assert IsCycle(edges, Backwards(c));
  }

  ghost predicate HasChildIn(edges: set<Edge>, s: set<Item>, x: Item) {
    exists b :: b in s && (x, b) in edges
  }

  /** Every item of s has a successor that is again in s. */
  ghost predicate StuckForward(edges: set<Edge>, s: set<Item>) {
    forall x {:trigger HasChildIn(edges, s, x)} :: x in s ==> HasChildIn(edges, s, x)
  }

  lemma ReversedParent(edges: set<Edge>, s: set<Item>, x: Item)
    requires HasChildIn(edges, s, x)
    ensures HasParentIn(Reversed(edges), s, x)
  {
    var b :| b in s && (x, b) in edges;
    ReversedEdge(edges, b, x);
  }

  /** A finite set in which everyone has a successor lies above cycles. */
  lemma StuckForwardIsAboveCycle(edges: set<Edge>, s: set<Item>, x: Item)
    requires StuckForward(edges, s) && x in s
    ensures AboveCycle(edges, x)
  {
    assert Stuck(Reversed(edges), s) by {
      forall a | a in s ensures HasParentIn(Reversed(edges), s, a) {
        assert HasChildIn(edges, s, a);
        ReversedParent(edges, s, a);
      }
    }
    StuckIsBelowCycle(Reversed(edges), s, x);
    BelowReversed(edges, x);
  }

  lemma AboveCycleChild(edges: set<Edge>, x: Item) returns (b: Item)
    requires AboveCycle(edges, x)
    ensures (x, b) in edges
  {
    var c, q :| IsCycle(edges, c) && IsPath(edges, q) && q[0] == x && q[|q| - 1] == c[0];
    b := if |q| >= 2 then q[1] else c[1];
  }

  lemma BelowCycleChild(edges: set<Edge>, x: Item, b: Item)
    requires BelowCycle(edges, x) && (x, b) in edges
    ensures BelowCycle(edges, b)
  {
    var c, q :| IsCycle(edges, c) && PathInto(edges, q, x) && q[0] == c[0];
    assert PathInto(edges, q + [b], b) && (q + [b])[0] == c[0];
  }
}
