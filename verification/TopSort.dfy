/** Dependency sorting: topsort, and the tables it shares with the level sorts. */
module TopSort {
  import opened Common
  import opened Graph

  /** What topsort returns or raises; the error carries its three arguments. */
  datatype SortResult =
    | Sorted(answer: seq<Item>)
    | CycleError(answer: seq<Item>, numParents: map<Item, int>, children: map<Item, seq<Item>>)

  // ---------- what a pair list means ----------

  ghost function EdgesOf(pairs: seq<Edge>): set<Edge> {
    set e | e in pairs
  }

  ghost function ItemsOf(pairs: seq<Edge>): set<Item> {
    if pairs == [] then {}
    else
      var e := pairs[|pairs| - 1];
      ItemsOf(pairs[..|pairs| - 1]) + {e.0, e.1}
  }

  /** The children that p gains, one per pair, in the order of the pairs. */
  ghost function ChildrenOf(pairs: seq<Edge>, p: Item): seq<Item> {
    if pairs == [] then []
    else
      var e := pairs[|pairs| - 1];
      ChildrenOf(pairs[..|pairs| - 1], p) + (if e.0 == p then [e.1] else [])
  }

  /** How many of the pairs lead into c from a parent in live. */
  ghost function PairsInto(pairs: seq<Edge>, live: set<Item>, c: Item): nat {
    if pairs == [] then 0
    else
      var e := pairs[|pairs| - 1];
      PairsInto(pairs[..|pairs| - 1], live, c) + (if e.0 in live && e.1 == c then 1 else 0)
  }

  ghost function Kids(children: map<Item, seq<Item>>, p: Item): seq<Item> {
    if p in children then children[p] else []
  }

  /** num_parents holds exactly the live items, each with the number of pairs
      that lead into it from live parents. */
  ghost predicate Counts(pairs: seq<Edge>, live: set<Item>, numParents: map<Item, int>) {
    && numParents.Keys == live
    && forall x :: x in live ==> numParents[x] == PairsInto(pairs, live, x)
  }

  /** children holds, for the live items that have any, their children in the
      order of the pairs. */
  ghost predicate ChildLists(pairs: seq<Edge>, live: set<Item>, children: map<Item, seq<Item>>) {
    && (forall p :: p in children ==> p in live && children[p] != [])
    && (forall p :: p in live ==> Kids(children, p) == ChildrenOf(pairs, p))
  }

  /** done lists, parents first, the items that are no longer live. */
  ghost predicate Progress(edges: set<Edge>, nodes: set<Item>, done: seq<Item>, live: set<Item>) {
    && ParentsFirst(edges, done)
    && (forall x :: x in done ==> x in nodes)
    && (forall x :: x in live <==> x in nodes && x !in done)
  }

  ghost predicate Within(edges: set<Edge>, nodes: set<Item>) {
    forall a, b :: (a, b) in edges ==> a in nodes && b in nodes
  }

  /** live consists of the nodes that can be reached from a cycle. */
  ghost predicate IsCyclicPart(edges: set<Edge>, nodes: set<Item>, live: set<Item>) {
    forall x :: x in live <==> x in nodes && BelowCycle(edges, x)
  }

  // ---------- counting lemmas ----------

  lemma {:induction false} ChildrenOfMember(pairs: seq<Edge>, p: Item, c: Item)
    ensures c in ChildrenOf(pairs, p) <==> (p, c) in pairs
  {
    if pairs == [] {
    } else {
      var front := pairs[..|pairs| - 1];
      ChildrenOfMember(front, p, c);
      assert pairs == front + [pairs[|pairs| - 1]];
    }
  }

  lemma {:induction false} ItemsOfMember(pairs: seq<Edge>, a: Item, b: Item)
    requires (a, b) in pairs
    ensures a in ItemsOf(pairs) && b in ItemsOf(pairs)
  {
    var front := pairs[..|pairs| - 1];
    assert pairs == front + [pairs[|pairs| - 1]];
    if (a, b) in front { ItemsOfMember(front, a, b); }
  }

  lemma PairsWithinItems(pairs: seq<Edge>)
    ensures Within(EdgesOf(pairs), ItemsOf(pairs))
  {
    forall a, b | (a, b) in EdgesOf(pairs) ensures a in ItemsOf(pairs) && b in ItemsOf(pairs) {
      ItemsOfMember(pairs, a, b);
    }
  }

  lemma {:induction false} PairsIntoZero(pairs: seq<Edge>, live: set<Item>, c: Item)
    ensures PairsInto(pairs, live, c) == 0 <==> !HasParentIn(EdgesOf(pairs), live, c)
  {
    if pairs == [] {
    } else {
      var front := pairs[..|pairs| - 1];
      var e := pairs[|pairs| - 1];
      PairsIntoZero(front, live, c);
      assert pairs == front + [e];
      if HasParentIn(EdgesOf(front), live, c) {
        var a :| a in live && (a, c) in EdgesOf(front);
        assert (a, c) in EdgesOf(pairs);
      }
      if HasParentIn(EdgesOf(pairs), live, c) {
        var a :| a in live && (a, c) in EdgesOf(pairs);
        assert (a, c) == e || (a, c) in EdgesOf(front);
      }
      if e.0 in live && e.1 == c {
        assert (e.0, c) in EdgesOf(pairs);
      }
    }
  }

  lemma CountsZero(pairs: seq<Edge>, live: set<Item>, numParents: map<Item, int>)
    requires Counts(pairs, live, numParents)
    ensures forall x {:trigger HasParentIn(EdgesOf(pairs), live, x)} :: x in live ==>
      (numParents[x] == 0 <==> !HasParentIn(EdgesOf(pairs), live, x))
  {
    forall x | x in live ensures numParents[x] == 0 <==> !HasParentIn(EdgesOf(pairs), live, x) {
      PairsIntoZero(pairs, live, x);
    }
  }

  /** The items are those that some pair mentions. */
  lemma {:induction false} ItemsMentioned(pairs: seq<Edge>, x: Item)
    ensures x in ItemsOf(pairs) <==> exists k :: 0 <= k < |pairs| && (pairs[k].0 == x || pairs[k].1 == x)
  {
    if pairs == [] {
    } else {
      var n := |pairs| - 1;
      ItemsMentioned(pairs[..n], x);
      assert forall k :: 0 <= k < n ==> pairs[..n][k] == pairs[k];
      assert x in ItemsOf(pairs[..n]) ==> exists k :: 0 <= k < n && (pairs[k].0 == x || pairs[k].1 == x);
    }
  }

  /** A child list has one entry per pair, in the order of the pairs; the count of an item
      is the number of pairs into it. */
  lemma {:induction false} TablesByPairs(pairs: seq<Edge>, live: set<Item>, k: nat)
    requires k < |pairs|
    ensures var (p, c) := pairs[k];
      var before := Count(pairs[..k], (e: Edge) => e.0 == p);
      && |ChildrenOf(pairs, p)| == Count(pairs, (e: Edge) => e.0 == p)
      && before < |ChildrenOf(pairs, p)| && ChildrenOf(pairs, p)[before] == c
    ensures var c := pairs[k].1;
      PairsInto(pairs, live, c) == Count(pairs, (e: Edge) => e.0 in live && e.1 == c)
  {
    ChildrenCounted(pairs, pairs[k].0);
    ChildrenCounted(pairs[..k], pairs[k].0);
    PairsCounted(pairs, live, pairs[k].1);
    ChildrenPrefix(pairs, pairs[k].0, k + 1);
    assert pairs[..k + 1][..k] == pairs[..k];
  }

  lemma {:induction false} ChildrenCounted(pairs: seq<Edge>, p: Item)
    ensures |ChildrenOf(pairs, p)| == Count(pairs, (e: Edge) => e.0 == p)
  {
    if pairs == [] {
    } else {
      ChildrenCounted(pairs[..|pairs| - 1], p);
    }
  }

  lemma {:induction false} PairsCounted(pairs: seq<Edge>, live: set<Item>, c: Item)
    ensures PairsInto(pairs, live, c) == Count(pairs, (e: Edge) => e.0 in live && e.1 == c)
  {
    if pairs == [] {
    } else {
      PairsCounted(pairs[..|pairs| - 1], live, c);
    }
  }

  lemma {:induction false} ChildrenPrefix(pairs: seq<Edge>, p: Item, k: nat)
    requires k <= |pairs|
    ensures ChildrenOf(pairs[..k], p) <= ChildrenOf(pairs, p)
    decreases |pairs|
  {
    if k == |pairs| {
      assert pairs[..k] == pairs;
    } else {
      ChildrenPrefix(pairs[..|pairs| - 1], p, k);
      assert pairs[..|pairs| - 1][..k] == pairs[..k];
    }
  }

  /** Retiring p takes away exactly the pairs that p's child list spells out. */
  lemma {:induction false} PairsIntoRetire(pairs: seq<Edge>, live: set<Item>, p: Item, c: Item)
    requires p in live
    ensures PairsInto(pairs, live, c) == PairsInto(pairs, live - {p}, c) + multiset(ChildrenOf(pairs, p))[c]
  {
    if pairs == [] {
    } else {
      PairsIntoRetire(pairs[..|pairs| - 1], live, p, c);
    }
  }

  // ---------- building the two dictionaries ----------

  ghost predicate TablesFor(front: seq<Edge>, live: set<Item>,
                            numParents: map<Item, int>, children: map<Item, seq<Item>>) {
    && numParents.Keys == ItemsOf(front)
    && (forall x :: PairsInto(front, live, x) == if x in numParents then numParents[x] else 0)
    && (forall p :: Kids(children, p) == ChildrenOf(front, p))
    && (forall p :: p in children ==> children[p] != [])
  }

  lemma TablesStep(front: seq<Edge>, e: Edge, live: set<Item>,
                   numParents: map<Item, int>, numParents': map<Item, int>,
                   children: map<Item, seq<Item>>, children': map<Item, seq<Item>>)
    requires e.0 in live && TablesFor(front, live, numParents, children)
    requires numParents'.Keys == numParents.Keys + {e.0, e.1}
    requires forall x :: x in numParents' ==>
      numParents'[x] == (if x in numParents then numParents[x] else 0) + (if x == e.1 then 1 else 0)
    requires children' == children[e.0 := Kids(children, e.0) + [e.1]]
    ensures TablesFor(front + [e], live, numParents', children')
  {
    assert (front + [e])[..|front|] == front;
    forall p ensures Kids(children', p) == ChildrenOf(front + [e], p) {
      assert Kids(children, p) == ChildrenOf(front, p);
    }
    forall x ensures PairsInto(front + [e], live, x) == if x in numParents' then numParents'[x] else 0 {
      assert PairsInto(front, live, x) == if x in numParents then numParents[x] else 0;
    }
  }

  lemma TablesDone(pairs: seq<Edge>, numParents: map<Item, int>, children: map<Item, seq<Item>>)
    requires TablesFor(pairs, ItemsOf(pairs), numParents, children)
    ensures Counts(pairs, ItemsOf(pairs), numParents) && ChildLists(pairs, ItemsOf(pairs), children)
  {
    forall p | p in children ensures p in ItemsOf(pairs) {
      var c := Kids(children, p)[0];
      ChildrenOfMember(pairs, p, c);
      ItemsOfMember(pairs, p, c);
    }
  }

  /** The loop with which both entry points start. */
  method BuildTables(pairs: seq<Edge>) returns (numParents: map<Item, int>, children: map<Item, seq<Item>>)
    ensures Counts(pairs, ItemsOf(pairs), numParents)
    ensures ChildLists(pairs, ItemsOf(pairs), children)
  {
    ghost var live := ItemsOf(pairs);
    numParents := map[];
    children := map[];
    for k := 0 to |pairs|
      invariant TablesFor(pairs[..k], live, numParents, children)
    {
      var (parent, child) := pairs[k];
      ghost var numParents0, children0 := numParents, children;
      if parent !in numParents {
        numParents := numParents[parent := 0];
      }
      if child !in numParents {
        numParents := numParents[child := 0];
      }
      numParents := numParents[child := numParents[child] + 1];
      children := children[parent := (if parent in children then children[parent] else []) + [child]];
      assert pairs[..k + 1] == pairs[..k] + [pairs[k]];
      assert pairs[k] == (parent, child) && pairs[k] in pairs;
      ItemsOfMember(pairs, parent, child);
      TablesStep(pairs[..k], pairs[k], live, numParents0, numParents, children0, children);
    }
    assert pairs[..|pairs|] == pairs;
    TablesDone(pairs, numParents, children);
  }

  /** The keys whose count is zero, in whatever order the dictionary yields them. */
  method WithoutParents(numParents: map<Item, int>) returns (xs: seq<Item>)
    ensures Distinct(xs)
    ensures forall x :: x in xs <==> x in numParents && numParents[x] == 0
  {
    xs := [];
    var keys := numParents.Keys;
    while keys != {}
      invariant keys <= numParents.Keys && Distinct(xs)
      invariant forall x :: x in xs <==> x in numParents.Keys - keys && numParents[x] == 0
    {
      var x :| x in keys;
      keys := keys - {x};
      if numParents[x] == 0 {
        xs := xs + [x];
      }
    }
  }

  // ---------- retiring one item ----------

  lemma ParentRetired(edges: set<Edge>, nodes: set<Item>, done: seq<Item>, live: set<Item>, p: Item, c: Item)
    requires Progress(edges, nodes, done, live) && (p, c) in edges && c in done
    ensures p in done
  {
    var k :| 0 <= k < |done| && done[k] == c;
    assert p in done[..k];
  }

  /** An item without a live parent can be retired; its children are all still
      live, so no later decrement meets a deleted key. */
  lemma RetireStep(edges: set<Edge>, nodes: set<Item>, done: seq<Item>, live: set<Item>, p: Item)
    requires Progress(edges, nodes, done, live) && Within(edges, nodes)
    requires p in live && !HasParentIn(edges, live, p)
    ensures Progress(edges, nodes, done + [p], live - {p})
    ensures forall c :: (p, c) in edges ==> c in live - {p}
  {
    var done' := done + [p];
    forall k, a | 0 <= k < |done'| && (a, done'[k]) in edges ensures a in done'[..k] {
      assert done'[..k] == done[..k];
      if k == |done| { assert a in nodes && a !in live; }
    }
    forall c | (p, c) in edges ensures c in live - {p} {
      if c in done { ParentRetired(edges, nodes, done, live, p, c); }
      assert c in nodes && HasParentIn(edges, live, c);
    }
  }

  ghost function Remaining(pairs: seq<Edge>, live: set<Item>): map<Item, nat> {
    map x | x in live :: PairsInto(pairs, live, x)
  }

  lemma CountsRemaining(pairs: seq<Edge>, live: set<Item>)
    ensures Counts(pairs, live, Remaining(pairs, live))
  {}

  /** Deleting p's own entry leaves each count ahead by p's share of it. */
  lemma RetireCounts(pairs: seq<Edge>, live: set<Item>, numParents: map<Item, int>, p: Item)
    requires Counts(pairs, live, numParents) && p in live
    ensures Ahead(numParents - {p}, Remaining(pairs, live - {p}), ChildrenOf(pairs, p))
    ensures ChildrenOf(pairs, p) == [] ==> numParents - {p} == Remaining(pairs, live - {p})
  {
    var remaining := Remaining(pairs, live - {p});
    forall x | x in remaining ensures (numParents - {p})[x] == remaining[x] + multiset(ChildrenOf(pairs, p))[x] {
      PairsIntoRetire(pairs, live, p, x);
    }
    if ChildrenOf(pairs, p) == [] { NothingAhead(numParents - {p}, remaining); }
  }

  /** Each count is ahead of what should remain by its number of occurrences in kids. */
  ghost predicate Ahead(numParents: map<Item, int>, remaining: map<Item, nat>, kids: seq<Item>) {
    && numParents.Keys == remaining.Keys
    && forall x :: x in remaining ==> numParents[x] == remaining[x] + multiset(kids)[x]
  }

  lemma NothingAhead(numParents: map<Item, int>, remaining: map<Item, nat>)
    requires Ahead(numParents, remaining, [])
    ensures numParents == remaining
  {}

  lemma OneKidLess(numParents: map<Item, int>, remaining: map<Item, nat>, kids: seq<Item>, j: nat)
    requires j < |kids| && kids[j] in remaining && Ahead(numParents, remaining, kids[j..])
    ensures numParents[kids[j]] > 0
    ensures Ahead(numParents[kids[j] := numParents[kids[j]] - 1], remaining, kids[j + 1..])
  {
    assert kids[j..] == [kids[j]] + kids[j + 1..];
  }

  lemma ChildrenLive(pairs: seq<Edge>, p: Item, rest: set<Item>, kids: seq<Item>)
    requires multiset(kids) == multiset(ChildrenOf(pairs, p))
    requires forall c :: (p, c) in EdgesOf(pairs) ==> c in rest
    ensures forall c :: c in kids ==> c in rest
  {
    forall c | c in kids ensures c in rest {
      assert c in multiset(kids);
      ChildrenOfMember(pairs, p, c);
      assert (p, c) in EdgesOf(pairs);
    }
  }

  /** Once no live item is free, the live items are those below a cycle. */
  lemma LiveIsCyclicPart(edges: set<Edge>, nodes: set<Item>, done: seq<Item>, live: set<Item>)
    requires Progress(edges, nodes, done, live) && Within(edges, nodes) && Stuck(edges, live)
    ensures IsCyclicPart(edges, nodes, live)
    ensures live == {} <==> !HasCycle(edges)
    ensures forall x :: x in done <==> x in nodes && !BelowCycle(edges, x)
  {
    forall x | x in nodes ensures x in live <==> BelowCycle(edges, x) {
      RemainderIsBelowCycle(edges, done, live, x);
    }
    if HasCycle(edges) {
      var x, y := CycleItem(edges);
    }
  }

  // ---------- topsort ----------

  /** xs[i..] lists, once each, the live items whose count is zero. */
  ghost predicate Pending(xs: seq<Item>, i: nat, live: set<Item>, numParents: map<Item, int>) {
    && i <= |xs| && numParents.Keys == live && Distinct(xs[i..])
    && forall x :: x in xs[i..] <==> x in live && numParents[x] == 0
  }

  lemma PendingStep(xs: seq<Item>, i: nat, live: set<Item>, numParents: map<Item, int>, child: Item)
    requires Pending(xs, i, live, numParents) && child in live && numParents[child] > 0
    ensures Pending(if numParents[child] == 1 then xs + [child] else xs, i, live,
                    numParents[child := numParents[child] - 1])
    ensures (xs + [child])[..i] == xs[..i]
  {
    assert (xs + [child])[i..] == xs[i..] + [child];
    assert child !in xs[i..];
  }

  /** The inner loop: one decrement per child of the retired item; a child whose
      count reaches zero joins the end of the answer. */
  method KnockDown(answer0: seq<Item>, ghost i: nat, numParents0: map<Item, int>, kids: seq<Item>,
                   ghost live: set<Item>, ghost remaining: map<Item, nat>)
    returns (answer: seq<Item>, numParents: map<Item, int>)
    requires Pending(answer0, i, live, numParents0) && Ahead(numParents0, remaining, kids)
    requires forall c :: c in kids ==> c in live
    ensures Pending(answer, i, live, numParents) && answer[..i] == answer0[..i]
    ensures numParents == remaining
  {
    answer, numParents := answer0, numParents0;
    for j := 0 to |kids|
      invariant Pending(answer, i, live, numParents) && answer[..i] == answer0[..i]
      invariant Ahead(numParents, remaining, kids[j..])
    {
      var child := kids[j];
      assert child in kids;
      OneKidLess(numParents, remaining, kids, j);
      PendingStep(answer, i, live, numParents, child);
      numParents := numParents[child := numParents[child] - 1];
      if numParents[child] == 0 {
        answer := answer + [child];
      }
    }
    assert kids[|kids|..] == [];
    NothingAhead(numParents, remaining);
  }

  lemma ChildListsStep(pairs: seq<Edge>, live: set<Item>, children: map<Item, seq<Item>>, p: Item)
    requires ChildLists(pairs, live, children)
    ensures ChildLists(pairs, live - {p}, children - {p})
    ensures p in live ==> Kids(children, p) == ChildrenOf(pairs, p)
    ensures p !in children ==> children - {p} == children
  {}

  /** The state between two items of the answer: answer[..i] is retired. */
  ghost predicate SortInv(pairs: seq<Edge>, answer: seq<Item>, i: nat, live: set<Item>, numParents: map<Item, int>) {
    && Pending(answer, i, live, numParents)
    && Progress(EdgesOf(pairs), ItemsOf(pairs), answer[..i], live)
    && Counts(pairs, live, numParents)
  }

  lemma TakeNext(pairs: seq<Edge>, answer: seq<Item>, i: nat, live: set<Item>, numParents: map<Item, int>)
    requires SortInv(pairs, answer, i, live, numParents) && i < |answer|
    ensures var p := answer[i];
      && p in live
      && Progress(EdgesOf(pairs), ItemsOf(pairs), answer[..i + 1], live - {p})
      && Pending(answer, i + 1, live - {p}, numParents - {p})
      && (forall c :: c in ChildrenOf(pairs, p) ==> c in live - {p})
  {
    var p := answer[i];
    PendingTail(answer, i, live, numParents);
    assert answer[..i] + [p] == answer[..i + 1];
    PairsWithinItems(pairs);
    PairsIntoZero(pairs, live, p);
    RetireStep(EdgesOf(pairs), ItemsOf(pairs), answer[..i], live, p);
    ChildrenLive(pairs, p, live - {p}, ChildrenOf(pairs, p));
  }

  lemma PendingTail(xs: seq<Item>, i: nat, live: set<Item>, numParents: map<Item, int>)
    requires Pending(xs, i, live, numParents) && i < |xs|
    ensures xs[i] in live && numParents[xs[i]] == 0
    ensures Pending(xs, i + 1, live - {xs[i]}, numParents - {xs[i]})
  {
    assert xs[i] == xs[i..][0] && xs[i..] == [xs[i]] + xs[i + 1..];
  }

  lemma SortDone(pairs: seq<Edge>, answer: seq<Item>, live: set<Item>, numParents: map<Item, int>)
    requires SortInv(pairs, answer, |answer|, live, numParents)
    ensures ParentsFirst(EdgesOf(pairs), answer)
    ensures IsCyclicPart(EdgesOf(pairs), ItemsOf(pairs), live)
    ensures live == {} <==> !HasCycle(EdgesOf(pairs))
    ensures forall x :: x in answer <==> x in ItemsOf(pairs) && !BelowCycle(EdgesOf(pairs), x)
    ensures live == {} ==> forall x :: x in answer <==> x in ItemsOf(pairs)
  {
    assert answer[..|answer|] == answer;
    PairsWithinItems(pairs);
    CountsZero(pairs, live, numParents);
    LiveIsCyclicPart(EdgesOf(pairs), ItemsOf(pairs), answer, live);
  }

  method Topsort(pairs: seq<Edge>) returns (r: SortResult)
    ensures r.Sorted? <==> !HasCycle(EdgesOf(pairs))
    ensures ParentsFirst(EdgesOf(pairs), r.answer)
    ensures forall x :: x in r.answer <==> x in ItemsOf(pairs) && !BelowCycle(EdgesOf(pairs), x)
    ensures r.Sorted? ==> forall x :: x in r.answer <==> x in ItemsOf(pairs)
    ensures r.CycleError? ==>
      var left := r.numParents.Keys;
      && IsCyclicPart(EdgesOf(pairs), ItemsOf(pairs), left)
      && Counts(pairs, left, r.numParents) && ChildLists(pairs, left, r.children)
  {
    var numParents, children := BuildTables(pairs);
    var answer := WithoutParents(numParents);
    ghost var live := ItemsOf(pairs);
    assert answer[0..] == answer && answer[..0] == [];
    var i := 0;
    while i < |answer|
      invariant SortInv(pairs, answer, i, live, numParents)
      invariant ChildLists(pairs, live, children)
      decreases live
    {
      var parent := answer[i];
      TakeNext(pairs, answer, i, live, numParents);
      ChildListsStep(pairs, live, children, parent);
      RetireCounts(pairs, live, numParents, parent);
      CountsRemaining(pairs, live - {parent});
      numParents := numParents - {parent};
      live := live - {parent};
      i := i + 1;
      if parent in children {
        answer, numParents := KnockDown(answer, i, numParents, children[parent], live, Remaining(pairs, live));
        children := children - {parent};
      }
    }
    SortDone(pairs, answer, live, numParents);
    if numParents != map[] {
      r := CycleError(answer, numParents, children);
    } else {
      r := Sorted(answer);
    }
  }

  /** What a cycle error promises of each leftover item: a leftover parent. */
  lemma LeftoverHasParent(pairs: seq<Edge>, left: set<Item>, numParents: map<Item, int>, x: Item)
    requires IsCyclicPart(EdgesOf(pairs), ItemsOf(pairs), left) && Counts(pairs, left, numParents) && x in left
    ensures HasParentIn(EdgesOf(pairs), left, x) && numParents[x] >= 1
  {
    var a := BelowCycleParent(EdgesOf(pairs), x);
    PairsWithinItems(pairs);
    assert a in left && (a, x) in EdgesOf(pairs);
    PairsIntoZero(pairs, left, x);
  }

  /** The comment in the source promises a child instead. Every leftover item has
      one exactly when whatever a cycle reaches reaches a cycle in turn. */
  lemma LeftoversHaveChildrenIff(pairs: seq<Edge>, left: set<Item>)
    requires IsCyclicPart(EdgesOf(pairs), ItemsOf(pairs), left)
    ensures (forall x :: x in left ==> ChildrenOf(pairs, x) != []) <==>
      (forall x :: x in ItemsOf(pairs) && BelowCycle(EdgesOf(pairs), x) ==> AboveCycle(EdgesOf(pairs), x))
  {
    if forall x :: x in left ==> ChildrenOf(pairs, x) != [] {
      forall x | x in left ensures AboveCycle(EdgesOf(pairs), x) { LeftIsAbove(pairs, left, x); }
    } else {
      var x :| x in left && ChildrenOf(pairs, x) == [];
      if AboveCycle(EdgesOf(pairs), x) { AboveHasChild(pairs, x); }
    }
  }

  lemma AboveHasChild(pairs: seq<Edge>, x: Item)
    requires AboveCycle(EdgesOf(pairs), x)
    ensures ChildrenOf(pairs, x) != []
  {
    var b := AboveCycleChild(EdgesOf(pairs), x);
    ChildrenOfMember(pairs, x, b);
  }

  lemma LeftIsAbove(pairs: seq<Edge>, left: set<Item>, x: Item)
    requires IsCyclicPart(EdgesOf(pairs), ItemsOf(pairs), left) && x in left
    requires forall a :: a in left ==> ChildrenOf(pairs, a) != []
    ensures AboveCycle(EdgesOf(pairs), x)
  {
    assert StuckForward(EdgesOf(pairs), left) by {
      forall a | a in left ensures HasChildIn(EdgesOf(pairs), left, a) { ChildIsLeft(pairs, left, a); }
    }
    StuckForwardIsAboveCycle(EdgesOf(pairs), left, x);
  }

  lemma ChildIsLeft(pairs: seq<Edge>, left: set<Item>, x: Item)
    requires IsCyclicPart(EdgesOf(pairs), ItemsOf(pairs), left) && x in left && ChildrenOf(pairs, x) != []
    ensures HasChildIn(EdgesOf(pairs), left, x)
  {
    var b := ChildrenOf(pairs, x)[0];
    ChildrenOfMember(pairs, x, b);
    ItemsOfMember(pairs, x, b);
    BelowCycleChild(EdgesOf(pairs), x, b);
  }

  /** An input of the other kind: b is left without a child. */
  lemma LeftoverWithoutChild(a: Item, b: Item)
    requires a != b
    ensures var pairs := [(a, a), (a, b)];
      && IsCyclicPart(EdgesOf(pairs), ItemsOf(pairs), {a, b})
      && b in ItemsOf(pairs) && ChildrenOf(pairs, b) == []
  {
    var pairs := [(a, a), (a, b)];
    var edges := EdgesOf(pairs);
    assert pairs[..1] == [(a, a)] && [(a, a)][..0] == [];
    assert ItemsOf(pairs[..1]) == {a};
    assert ItemsOf(pairs) == ItemsOf(pairs[..1]) + {a, b} == {a, b};
    assert ChildrenOf(pairs[..1], b) == [];
    assert (a, a) in pairs && (a, b) in pairs;
    assert IsCycle(edges, [a, a]);
    PathOfOne(edges, a);
    assert PathInto(edges, [a], a) && PathInto(edges, [a, b], b);
    assert BelowCycle(edges, a) by { assert [a][0] == [a, a][0]; }
    assert BelowCycle(edges, b) by { assert [a, b][0] == [a, a][0]; }
  }
}
