/** Dependency sorting by depth levels: topsort_levels and topsort_levels_core.
    The generator is modelled by the levels it yields and the way it stops. */
module TopSortLevels {
  import opened Common
  import opened Graph
  import opened TopSort

  datatype LevelsEnd =
    | StopIteration
    | LevelsCycleError(numParents: map<Item, int>, children: map<Item, seq<Item>>)

  ghost function Flatten(levels: seq<seq<Item>>): seq<Item> {
    if levels == [] then [] else Flatten(levels[..|levels| - 1]) + levels[|levels| - 1]
  }

  ghost predicate InLevel(levels: seq<seq<Item>>, k: nat, x: Item) {
    k < |levels| && x in levels[k]
  }

  ghost predicate NoEmptyLevel(levels: seq<seq<Item>>) {
    forall k :: 0 <= k < |levels| ==> levels[k] != []
  }

  /** What the arguments of the core function are documented to mean: num_parents
      counts the entries of the child lists, which pairs lists in some order. */
  ghost predicate Consistent(pairs: seq<Edge>, numParents: map<Item, int>, children: map<Item, seq<Item>>) {
    && Within(EdgesOf(pairs), numParents.Keys)
    && Counts(pairs, numParents.Keys, numParents)
    && forall p :: multiset(Kids(children, p)) == multiset(ChildrenOf(pairs, p))
  }

  /** Every level holds only items whose longest incoming path has that length. */
  ghost predicate DepthsRight(edges: set<Edge>, levels: seq<seq<Item>>) {
    forall k, x :: InLevel(levels, k, x) ==> LongestPathInto(edges, x, k)
  }

  lemma {:induction false} FlattenMember(levels: seq<seq<Item>>, x: Item)
    ensures x in Flatten(levels) <==> exists k :: InLevel(levels, k, x)
  {
    if levels == [] {
    } else {
      var front, n := levels[..|levels| - 1], |levels| - 1;
      FlattenMember(front, x);
      if k :| InLevel(front, k, x) { assert InLevel(levels, k, x); }
      if k :| InLevel(levels, k, x) { assert k == n || InLevel(front, k, x); }
      if x in levels[n] { assert InLevel(levels, n, x); }
    }
  }

  lemma FlattenSnoc(levels: seq<seq<Item>>, level: seq<Item>)
    ensures Flatten(levels + [level]) == Flatten(levels) + level
  {
    assert (levels + [level])[..|levels|] == levels;
  }

  // ---------- the depth of one item ----------

  lemma ParentLevel(edges: set<Edge>, nodes: set<Item>, levels: seq<seq<Item>>, live: set<Item>, a: Item, x: Item)
    returns (j: nat)
    requires Within(edges, nodes) && Progress(edges, nodes, Flatten(levels), live)
    requires !HasParentIn(edges, live, x) && (a, x) in edges
    ensures InLevel(levels, j, a)
  {
    assert a in nodes && a !in live;
    FlattenMember(levels, a);
    j :| InLevel(levels, j, a);
  }

  lemma PathThroughParent(edges: set<Edge>, a: Item, x: Item, j: nat, p: seq<Item>)
    requires PathInto(edges, p, x) && |p| >= 2 && p[|p| - 2] == a && LongestPathInto(edges, a, j)
    ensures |p| <= j + 2
  {
    PathSlice(edges, p, 0, |p| - 1);
  }

  /** x is free and was not free one round ago: its depth is the round number. */
  lemma FreeItemDepth(edges: set<Edge>, nodes: set<Item>, levels: seq<seq<Item>>, live: set<Item>,
                      previous: set<Item>, x: Item)
    requires Within(edges, nodes) && Progress(edges, nodes, Flatten(levels), live)
    requires DepthsRight(edges, levels)
    requires x in live && !HasParentIn(edges, live, x)
    requires levels != [] ==> HasParentIn(edges, live + previous, x)
    requires levels != [] ==> forall a :: a in previous ==> a in levels[|levels| - 1]
    ensures LongestPathInto(edges, x, |levels|)
  {
    FreeItemPath(edges, levels, live, previous, x);
    forall p | PathInto(edges, p, x) ensures |p| <= |levels| + 1 {
      if |p| >= 2 {
        var a := p[|p| - 2];
        assert (a, x) in edges;
        var j := ParentLevel(edges, nodes, levels, live, a, x);
        PathThroughParent(edges, a, x, j, p);
      }
    }
  }

  lemma FreeItemPath(edges: set<Edge>, levels: seq<seq<Item>>, live: set<Item>, previous: set<Item>, x: Item)
    requires DepthsRight(edges, levels) && !HasParentIn(edges, live, x)
    requires levels != [] ==> HasParentIn(edges, live + previous, x)
    requires levels != [] ==> forall a :: a in previous ==> a in levels[|levels| - 1]
    ensures exists p :: PathInto(edges, p, x) && |p| == |levels| + 1
  {
    if levels == [] {
      PathOfOne(edges, x);
      assert |[x]| == 1;
    } else {
      var a :| a in live + previous && (a, x) in edges;
      assert InLevel(levels, |levels| - 1, a);
      var p :| PathInto(edges, p, a) && |p| == |levels|;
      var q := p + [x];
      assert PathInto(edges, q, x);
    }
  }

  /** The state in which round |levels| begins. */
  ghost predicate RoundInv(edges: set<Edge>, nodes: set<Item>, levels: seq<seq<Item>>, live: set<Item>,
                           previous: set<Item>) {
    && Within(edges, nodes) && Progress(edges, nodes, Flatten(levels), live)
    && DepthsRight(edges, levels)
    && (levels != [] ==> WereNotFree(edges, live, previous))
    && (levels != [] ==> forall a :: a in previous ==> a in levels[|levels| - 1])
  }

  lemma LevelDepth(edges: set<Edge>, nodes: set<Item>, levels: seq<seq<Item>>, live: set<Item>,
                   previous: set<Item>, level: seq<Item>, k: nat, x: Item)
    requires RoundInv(edges, nodes, levels, live, previous) && InLevel(levels + [level], k, x)
    requires x in level ==> x in live && !HasParentIn(edges, live, x)
    ensures LongestPathInto(edges, x, k)
  {
    if k < |levels| {
      assert InLevel(levels, k, x);
    } else {
      if levels != [] { assert HasParentIn(edges, live + previous, x); }
      FreeItemDepth(edges, nodes, levels, live, previous, x);
    }
  }

  lemma LevelDepths(edges: set<Edge>, nodes: set<Item>, levels: seq<seq<Item>>, live: set<Item>,
                    previous: set<Item>, level: seq<Item>)
    requires RoundInv(edges, nodes, levels, live, previous)
    requires forall x :: x in level ==> x in live && !HasParentIn(edges, live, x)
    ensures DepthsRight(edges, levels + [level])
  {
    forall k, x | InLevel(levels + [level], k, x) ensures LongestPathInto(edges, x, k) {
      LevelDepth(edges, nodes, levels, live, previous, level, k, x);
    }
  }

  /** Nothing left over was free, so each leftover item had a parent that was
      live when the level was collected: left over too, or in that level. */
  lemma NextRound(edges: set<Edge>, nodes: set<Item>, levels: seq<seq<Item>>, live0: set<Item>,
                  previous: set<Item>, level: seq<Item>, live: set<Item>)
    requires RoundInv(edges, nodes, levels, live0, previous)
    requires forall x :: x in level <==> x in live0 && !HasParentIn(edges, live0, x)
    requires forall x :: x in live <==> x in live0 && x !in level
    requires Progress(edges, nodes, Flatten(levels) + level, live)
    ensures RoundInv(edges, nodes, levels + [level], live, live0 - live)
  {
    LevelDepths(edges, nodes, levels, live0, previous, level);
    FlattenSnoc(levels, level);
    assert live + (live0 - live) == live0;
    assert WereNotFree(edges, live, live0 - live);
  }

  /** Every live item had a parent among the live items and the last level. */
  ghost predicate WereNotFree(edges: set<Edge>, live: set<Item>, previous: set<Item>) {
    forall x {:trigger HasParentIn(edges, live + previous, x)} :: x in live ==> HasParentIn(edges, live + previous, x)
  }

  // ---------- the loops ----------

  /** One decrement per child of a retired item. No key is ever missing. */
  method Decrement(numParents0: map<Item, int>, kids: seq<Item>, ghost remaining: map<Item, nat>)
    returns (numParents: map<Item, int>)
    requires Ahead(numParents0, remaining, kids) && forall c :: c in kids ==> c in remaining
    ensures numParents == remaining
  {
    numParents := numParents0;
    for j := 0 to |kids|
      invariant Ahead(numParents, remaining, kids[j..])
    {
      assert kids[j] in kids;
      OneKidLess(numParents, remaining, kids, j);
      numParents := numParents[kids[j] := numParents[kids[j]] - 1];
    }
    assert kids[|kids|..] == [];
    NothingAhead(numParents, remaining);
  }

  ghost predicate LevelInv(pairs: seq<Edge>, nodes: set<Item>, done: seq<Item>, live: set<Item>,
                           numParents: map<Item, int>) {
    && Within(EdgesOf(pairs), nodes)
    && Progress(EdgesOf(pairs), nodes, done, live)
    && Counts(pairs, live, numParents)
  }

  /** The child lists that retiring a level will read are still in place. */
  ghost predicate KidsKept(pairs: seq<Edge>, live: set<Item>, children: map<Item, seq<Item>>) {
    forall p :: p in live ==> multiset(Kids(children, p)) == multiset(ChildrenOf(pairs, p))
  }

  lemma KidsStillKept(pairs: seq<Edge>, live0: set<Item>, live: set<Item>, children: map<Item, seq<Item>>)
    requires KidsKept(pairs, live0, children) && live <= live0
    ensures KidsKept(pairs, live, children - (live0 - live))
  {
    forall p | p in live ensures Kids(children - (live0 - live), p) == Kids(children, p) {}
  }

  /** One item of the level: its entry goes, its children's counts come down. */
  method RetireOne(ghost pairs: seq<Edge>, ghost nodes: set<Item>, ghost done: seq<Item>, ghost live: set<Item>,
                   p: Item, numParents0: map<Item, int>, children0: map<Item, seq<Item>>)
    returns (numParents: map<Item, int>, children: map<Item, seq<Item>>)
    requires LevelInv(pairs, nodes, done, live, numParents0)
    requires p in live && !HasParentIn(EdgesOf(pairs), live, p)
    requires multiset(Kids(children0, p)) == multiset(ChildrenOf(pairs, p))
    ensures LevelInv(pairs, nodes, done + [p], live - {p}, numParents)
    ensures children == children0 - {p}
  {
    RetireStep(EdgesOf(pairs), nodes, done, live, p);
    RetireCounts(pairs, live, numParents0, p);
    numParents, children := numParents0 - {p}, children0;
    if p in children {
      ChildrenLive(pairs, p, live - {p}, children[p]);
      numParents := Decrement(numParents, children[p], Remaining(pairs, live - {p}));
      children := children - {p};
    }
    CountsRemaining(pairs, live - {p});
  }

  /** All members of a level, free when the level was collected, are retired in turn. */
  method RetireLevel(ghost pairs: seq<Edge>, ghost nodes: set<Item>, ghost done: seq<Item>, ghost live0: set<Item>,
                     level: seq<Item>, numParents0: map<Item, int>, children0: map<Item, seq<Item>>)
    returns (numParents: map<Item, int>, children: map<Item, seq<Item>>)
    requires LevelInv(pairs, nodes, done, live0, numParents0) && Distinct(level)
    requires forall x :: x in level ==> x in live0 && !HasParentIn(EdgesOf(pairs), live0, x)
    requires KidsKept(pairs, live0, children0)
    ensures LevelInv(pairs, nodes, done + level, numParents.Keys, numParents)
    ensures forall x :: x in numParents <==> x in live0 && x !in level
    ensures children == children0 - (live0 - numParents.Keys) && KidsKept(pairs, numParents.Keys, children)
  {
    numParents, children := numParents0, children0;
    ghost var live := live0;
    assert done + level[..0] == done && live0 - live == {};
    for q := 0 to |level|
      invariant LevelInv(pairs, nodes, done + level[..q], live, numParents)
      invariant forall x :: x in live <==> x in live0 && x !in level[..q]
      invariant children == children0 - (live0 - live) && KidsKept(pairs, live, children)
    {
      var p := level[q];
      OneLessLive(live0, live, level, q);
      assert done + level[..q + 1] == done + level[..q] + [p];
      FewerParents(EdgesOf(pairs), live0, live, p);
      ghost var before := children;
      numParents, children := RetireOne(pairs, nodes, done + level[..q], live, p, numParents, children);
      DeletedTwice(children0, live0, live, live - {p});
      assert live - (live - {p}) == {p};
      KidsStillKept(pairs, live, live - {p}, before);
      live := live - {p};
    }
    assert level[..|level|] == level;
  }

  lemma OneLessLive(live0: set<Item>, live: set<Item>, level: seq<Item>, q: nat)
    requires Distinct(level) && q < |level| && level[q] in live0
    requires forall x :: x in live <==> x in live0 && x !in level[..q]
    ensures level[q] in live && level[..q + 1] == level[..q] + [level[q]]
    ensures forall x :: x in live - {level[q]} <==> x in live0 && x !in level[..q + 1]
  {
    assert level[..q + 1] == level[..q] + [level[q]];
  }

  lemma DeletedTwice(m: map<Item, seq<Item>>, all: set<Item>, some: set<Item>, fewer: set<Item>)
    requires fewer <= some <= all
    ensures m - (all - some) - (some - fewer) == m - (all - fewer)
  {
    assert (all - some) + (some - fewer) == all - fewer;
  }

  lemma FewerParents(edges: set<Edge>, live0: set<Item>, live: set<Item>, p: Item)
    requires live <= live0 && !HasParentIn(edges, live0, p)
    ensures !HasParentIn(edges, live, p)
  {}

  /** An item with a deepest path does not lie below a cycle, so it has a level. */
  lemma DeepestPathHasLevel(edges: set<Edge>, nodes: set<Item>, levels: seq<seq<Item>>, live: set<Item>,
                            x: Item, k: nat)
    requires Progress(edges, nodes, Flatten(levels), live) && Stuck(edges, live)
    requires DepthsRight(edges, levels)
    requires x in nodes && LongestPathInto(edges, x, k)
    ensures InLevel(levels, k, x)
  {
    if x in live {
      var p := BackwardWalk(edges, live, x, k + 1);
      assert false;
    }
    FlattenMember(levels, x);
    var j :| InLevel(levels, j, x);
    SameDepth(edges, x, j, k);
  }

  lemma SameDepth(edges: set<Edge>, x: Item, j: nat, k: nat)
    requires LongestPathInto(edges, x, j) && LongestPathInto(edges, x, k)
    ensures j == k
  {}

  lemma LevelMember(edges: set<Edge>, nodes: set<Item>, levels: seq<seq<Item>>, live: set<Item>, x: Item, k: nat)
    requires Progress(edges, nodes, Flatten(levels), live) && Stuck(edges, live)
    requires DepthsRight(edges, levels)
    ensures InLevel(levels, k, x) <==> x in nodes && LongestPathInto(edges, x, k)
  {
    if InLevel(levels, k, x) { FlattenMember(levels, x); }
    if x in nodes && LongestPathInto(edges, x, k) { DeepestPathHasLevel(edges, nodes, levels, live, x, k); }
  }

  lemma LevelsDone(edges: set<Edge>, nodes: set<Item>, levels: seq<seq<Item>>, live: set<Item>, previous: set<Item>)
    requires RoundInv(edges, nodes, levels, live, previous) && Stuck(edges, live)
    ensures forall k, x :: InLevel(levels, k, x) <==> x in nodes && LongestPathInto(edges, x, k)
    ensures IsCyclicPart(edges, nodes, live)
    ensures live == {} <==> !HasCycle(edges)
    ensures ParentsFirst(edges, Flatten(levels))
    ensures forall x :: x in Flatten(levels) <==> x in nodes && !BelowCycle(edges, x)
  {
    forall k, x ensures InLevel(levels, k, x) <==> x in nodes && LongestPathInto(edges, x, k) {
      LevelMember(edges, nodes, levels, live, x, k);
    }
    LiveIsCyclicPart(edges, nodes, Flatten(levels), live);
  }

  lemma NothingFree(pairs: seq<Edge>, live: set<Item>, numParents: map<Item, int>)
    requires Counts(pairs, live, numParents)
    requires forall x :: x in numParents ==> numParents[x] != 0
    ensures Stuck(EdgesOf(pairs), live)
  {
    CountsZero(pairs, live, numParents);
  }

  /** One round after a level has been collected. */
  method TakeLevel(ghost pairs: seq<Edge>, ghost nodes: set<Item>, ghost levels: seq<seq<Item>>, ghost live0: set<Item>,
                   ghost previous0: set<Item>, level: seq<Item>, numParents0: map<Item, int>,
                   children0: map<Item, seq<Item>>, ghost all: map<Item, seq<Item>>)
    returns (numParents: map<Item, int>, children: map<Item, seq<Item>>,
             ghost live: set<Item>, ghost previous: set<Item>)
    requires RoundInv(EdgesOf(pairs), nodes, levels, live0, previous0) && NoEmptyLevel(levels)
    requires Counts(pairs, live0, numParents0) && KidsKept(pairs, live0, children0)
    requires children0 == all - (nodes - live0)
    requires level != [] && Distinct(level)
    requires forall x :: x in level <==> x in live0 && !HasParentIn(EdgesOf(pairs), live0, x)
    ensures RoundInv(EdgesOf(pairs), nodes, levels + [level], live, previous) && NoEmptyLevel(levels + [level])
    ensures Counts(pairs, live, numParents) && KidsKept(pairs, live, children)
    ensures children == all - (nodes - live) && live < live0
  {
    numParents, children := RetireLevel(pairs, nodes, Flatten(levels), live0, level, numParents0, children0);
    live := numParents.Keys;
    assert level[0] in level;
    NextRound(EdgesOf(pairs), nodes, levels, live0, previous0, level, live);
    DeletedTwice(all, nodes, live0, live);
    previous := live0 - live;
  }

  /** The generator's loop: collect what is free, yield it, retire it. */
  method YieldLevels(ghost pairs: seq<Edge>, numParents0: map<Item, int>, children0: map<Item, seq<Item>>)
    returns (levels: seq<seq<Item>>, numParents: map<Item, int>, children: map<Item, seq<Item>>,
             ghost previous: set<Item>)
    requires Within(EdgesOf(pairs), numParents0.Keys) && Counts(pairs, numParents0.Keys, numParents0)
    requires KidsKept(pairs, numParents0.Keys, children0)
    ensures RoundInv(EdgesOf(pairs), numParents0.Keys, levels, numParents.Keys, previous) && NoEmptyLevel(levels)
    ensures Stuck(EdgesOf(pairs), numParents.Keys) && Counts(pairs, numParents.Keys, numParents)
    ensures children == children0 - (numParents0.Keys - numParents.Keys)
  {
    ghost var edges, nodes := EdgesOf(pairs), numParents0.Keys;
    ghost var live := nodes;
    numParents, children, previous, levels := numParents0, children0, {}, [];
    while true
      invariant RoundInv(edges, nodes, levels, live, previous) && NoEmptyLevel(levels)
      invariant Counts(pairs, live, numParents) && KidsKept(pairs, live, children)
      invariant children == children0 - (nodes - live)
      decreases live
    {
      var level := WithoutParents(numParents);
      if level == [] {
        NothingFree(pairs, live, numParents);
        return;
      }
      CountsZero(pairs, live, numParents);
      numParents, children, live, previous :=
        TakeLevel(pairs, nodes, levels, live, previous, level, numParents, children, children0);
      levels := levels + [level];
    }
  }

  /** The generator. Level k holds exactly the items whose longest incoming path
      has k edges; what is left when no item is free lies below a cycle. */
  method TopsortLevelsCore(ghost pairs: seq<Edge>, numParents0: map<Item, int>, children0: map<Item, seq<Item>>)
    returns (levels: seq<seq<Item>>, end: LevelsEnd)
    requires Consistent(pairs, numParents0, children0)
    ensures end.StopIteration? <==> !HasCycle(EdgesOf(pairs))
    ensures forall k, x :: InLevel(levels, k, x) <==>
      x in numParents0 && LongestPathInto(EdgesOf(pairs), x, k)
    ensures ParentsFirst(EdgesOf(pairs), Flatten(levels)) && NoEmptyLevel(levels)
    ensures forall x :: x in Flatten(levels) <==> x in numParents0 && !BelowCycle(EdgesOf(pairs), x)
    ensures end.LevelsCycleError? ==>
      var left := end.numParents.Keys;
      && IsCyclicPart(EdgesOf(pairs), numParents0.Keys, left)
      && Counts(pairs, left, end.numParents)
      && end.children == children0 - (numParents0.Keys - left)
  {
    var numParents, children;
    ghost var previous;
    levels, numParents, children, previous := YieldLevels(pairs, numParents0, children0);
    LevelsDone(EdgesOf(pairs), numParents0.Keys, levels, numParents.Keys, previous);
    if numParents != map[] {
      end := LevelsCycleError(numParents, children);
    } else {
      end := StopIteration;
    }
  }

  method TopsortLevels(pairs: seq<Edge>) returns (levels: seq<seq<Item>>, end: LevelsEnd)
    ensures end.StopIteration? <==> !HasCycle(EdgesOf(pairs))
    ensures forall k, x :: InLevel(levels, k, x) <==>
      x in ItemsOf(pairs) && LongestPathInto(EdgesOf(pairs), x, k)
    ensures ParentsFirst(EdgesOf(pairs), Flatten(levels)) && NoEmptyLevel(levels)
    ensures forall x :: x in Flatten(levels) <==> x in ItemsOf(pairs) && !BelowCycle(EdgesOf(pairs), x)
    ensures end.LevelsCycleError? ==>
      var left := end.numParents.Keys;
      && IsCyclicPart(EdgesOf(pairs), ItemsOf(pairs), left)
      && Counts(pairs, left, end.numParents) && ChildLists(pairs, left, end.children)
  {
    var numParents, children := BuildTables(pairs);
    PairsWithinItems(pairs);
    BuiltIsConsistent(pairs, numParents, children);
    levels, end := TopsortLevelsCore(pairs, numParents, children);
    if end.LevelsCycleError? {
      ChildListsAll(pairs, ItemsOf(pairs), children, end.numParents.Keys);
    }
  }

  lemma BuiltIsConsistent(pairs: seq<Edge>, numParents: map<Item, int>, children: map<Item, seq<Item>>)
    requires Counts(pairs, ItemsOf(pairs), numParents) && ChildLists(pairs, ItemsOf(pairs), children)
    ensures Consistent(pairs, numParents, children)
  {
    PairsWithinItems(pairs);
    forall p ensures Kids(children, p) == ChildrenOf(pairs, p) {
      var kids := ChildrenOf(pairs, p);
      if p !in ItemsOf(pairs) && kids != [] {
        assert kids[0] in kids;
        ChildrenOfMember(pairs, p, kids[0]);
      }
    }
  }

  lemma ChildListsAll(pairs: seq<Edge>, nodes: set<Item>, children: map<Item, seq<Item>>, live: set<Item>)
    requires ChildLists(pairs, nodes, children) && live <= nodes
    ensures ChildLists(pairs, live, children - (nodes - live))
  {
    forall p | p in live ensures Kids(children - (nodes - live), p) == ChildrenOf(pairs, p) {
      assert Kids(children, p) == ChildrenOf(pairs, p);
    }
  }

  // ---------- no layering has fewer levels ----------

  /** rank puts every node in one of n layers, parents in earlier layers. */
  ghost predicate IsLayering(edges: set<Edge>, rank: map<Item, nat>, n: nat) {
    && Within(edges, rank.Keys)
    && (forall a, b :: (a, b) in edges ==> rank[a] < rank[b])
    && (forall x :: x in rank ==> rank[x] < n)
  }

  lemma {:induction false} RanksClimb(edges: set<Edge>, rank: map<Item, nat>, n: nat, p: seq<Item>, x: Item)
    requires IsLayering(edges, rank, n) && PathInto(edges, p, x) && x in rank
    ensures rank[x] >= |p| - 1
  {
    if |p| >= 2 {
      assert (p[|p| - 2], x) in edges;
      PathSlice(edges, p, 0, |p| - 1);
      RanksClimb(edges, rank, n, p[0..|p| - 1], p[|p| - 2]);
    }
  }

  /** Levels by longest path are as few as any layering can do with. */
  lemma FewestLevels(edges: set<Edge>, levels: seq<seq<Item>>, rank: map<Item, nat>, n: nat)
    requires forall k, x :: InLevel(levels, k, x) <==> x in rank && LongestPathInto(edges, x, k)
    requires NoEmptyLevel(levels) && IsLayering(edges, rank, n)
    ensures |levels| <= n
  {
    if levels != [] {
      var k := |levels| - 1;
      var x := levels[k][0];
      assert InLevel(levels, k, x);
      var p :| PathInto(edges, p, x) && |p| == k + 1;
      RanksClimb(edges, rank, n, p, x);
    }
  }
}
