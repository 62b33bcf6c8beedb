/** find_cycles: a depth-first search over all simple paths, with an explicit
    stack of paths, that yields every simple cycle once up to rotation. */
module FindCycles {
  import opened Common
  import opened Graph
  import opened Rotations

  type Children = map<Item, seq<Item>>

  ghost function EdgesIn(pc: Children): set<Edge> {
    set p, c | p in pc && c in pc[p] :: (p, c)
  }

  ghost function NodesIn(pc: Children): set<Item> {
    pc.Keys + set p, c | p in pc && c in pc[p] :: c
  }

  /** A cycle as it is yielded: distinct items, each a child of the one before,
      and the first a child of the last. */
  ghost predicate SimpleCycle(edges: set<Edge>, c: seq<Item>) {
    IsPath(edges, c) && Distinct(c) && (c[|c| - 1], c[0]) in edges
  }

  ghost predicate Reported(cycles: seq<seq<Item>>, c: seq<Item>) {
    exists k :: 0 <= k < |cycles| && Rotated(cycles[k], c)
  }

  /** What has been yielded so far: simple cycles, no two the same up to rotation. */
  ghost predicate GoodCycles(edges: set<Edge>, cycles: seq<seq<Item>>) {
    && (forall k :: 0 <= k < |cycles| ==> SimpleCycle(edges, cycles[k]))
    && (forall i, j :: 0 <= i < j < |cycles| ==> !Rotated(cycles[i], cycles[j]))
  }

  /** A simple path that starts at root. */
  ghost predicate Trail(edges: set<Edge>, root: Item, q: seq<Item>) {
    IsPath(edges, q) && q[0] == root && Distinct(q)
  }

  /** Every cycle that closes at the end of q has been reported. */
  ghost predicate Covered(edges: set<Edge>, cycles: seq<seq<Item>>, q: seq<Item>)
    requires q != []
  {
    forall i :: 0 <= i < |q| && (q[|q| - 1], q[i]) in edges ==> Reported(cycles, q[i..])
  }

  /** Some stacked path is where q, or a shorter part of q, will be continued from. */
  ghost predicate Awaited(paths: seq<seq<Item>>, q: seq<Item>) {
    exists i :: 0 <= i < |paths| && paths[i] <= q
  }

  /** Every trail from root has been dealt with, or will be. */
  ghost predicate Progressing(edges: set<Edge>, root: Item, cycles: seq<seq<Item>>, paths: seq<seq<Item>>) {
    forall q :: Trail(edges, root, q) ==> Covered(edges, cycles, q) || Awaited(paths, q)
  }

  ghost predicate Explored(edges: set<Edge>, cycles: seq<seq<Item>>, root: Item) {
    forall q :: Trail(edges, root, q) ==> Covered(edges, cycles, q)
  }

  ghost predicate Reached(edges: set<Edge>, roots: set<Item>, x: Item) {
    exists q :: PathInto(edges, q, x) && q[0] in roots
  }

  // ---------- termination: the work a stacked path stands for ----------

  ghost predicate Closed(pc: Children, nodes: set<Item>) {
    forall p, c :: p in pc && c in pc[p] ==> c in nodes
  }

  ghost predicate SimpleIn(nodes: set<Item>, p: seq<Item>) {
    p != [] && Distinct(p) && forall i :: 0 <= i < |p| ==> p[i] in nodes
  }

  /** The number of pops that path p gives rise to, itself included. */
  ghost function Work(pc: Children, nodes: set<Item>, p: seq<Item>): nat
    requires Closed(pc, nodes) && SimpleIn(nodes, p)
    decreases |nodes| - |p|, 1, 0
  {
    DistinctFitsIn(p, nodes);
    var last := p[|p| - 1];
    1 + if last in pc then WorkBelow(pc, nodes, p, pc[last]) else 0
  }

  ghost function WorkBelow(pc: Children, nodes: set<Item>, p: seq<Item>, kids: seq<Item>): nat
    requires Closed(pc, nodes) && SimpleIn(nodes, p)
    requires forall c :: c in kids ==> c in nodes
    decreases |nodes| - |p|, 0, |kids|
  {
    DistinctFitsIn(p, nodes);
    if kids == [] then 0
    else if kids[0] in p then WorkBelow(pc, nodes, p, kids[1..])
    else
      assert SimpleIn(nodes, p + [kids[0]]);
      DistinctFitsIn(p + [kids[0]], nodes);
      Work(pc, nodes, p + [kids[0]]) + WorkBelow(pc, nodes, p, kids[1..])
  }

  ghost function StackWork(pc: Children, nodes: set<Item>, paths: seq<seq<Item>>): nat
    requires Closed(pc, nodes) && forall i :: 0 <= i < |paths| ==> SimpleIn(nodes, paths[i])
  {
    if paths == [] then 0
    else StackWork(pc, nodes, paths[..|paths| - 1]) + Work(pc, nodes, paths[|paths| - 1])
  }

  lemma StackWorkPush(pc: Children, nodes: set<Item>, paths: seq<seq<Item>>, p: seq<Item>)
    requires Closed(pc, nodes) && SimpleIn(nodes, p)
    requires forall i :: 0 <= i < |paths| ==> SimpleIn(nodes, paths[i])
    ensures StackWork(pc, nodes, paths + [p]) == StackWork(pc, nodes, paths) + Work(pc, nodes, p)
  {
    assert (paths + [p])[..|paths|] == paths;
  }

  // ---------- the loops ----------

  /** The search of the cycles found so far. */
  method IsDup(cycles: seq<seq<Item>>, cycle: seq<Item>) returns (isDup: bool)
    requires cycle != []
    ensures isDup <==> Reported(cycles, cycle)
  {
    isDup := false;
    for k := 0 to |cycles|
      invariant forall m :: 0 <= m < k ==> !Rotated(cycles[m], cycle)
    {
      var same := IsRotated(cycles[k], cycle);
      if same.yes {
        return true;
      }
    }
  }

  /** path.index(child) */
  method Index(path: seq<Item>, child: Item) returns (i: nat)
    requires child in path
    ensures i < |path| && path[i] == child && child !in path[..i]
  {
    i := 0;
    while path[i] != child
      invariant i < |path| && child !in path[..i]
      decreases |path| - i
    {
      assert path[..i + 1] == path[..i] + [path[i]];
      i := i + 1;
    }
  }

  lemma CycleFound(edges: set<Edge>, path: seq<Item>, i: nat)
    requires IsPath(edges, path) && Distinct(path) && i < |path| && (path[|path| - 1], path[i]) in edges
    ensures SimpleCycle(edges, path[i..])
  {
    PathSlice(edges, path, i, |path|);
    assert path[i..|path|] == path[i..];
  }

  lemma ReportedGrows(cycles: seq<seq<Item>>, more: seq<seq<Item>>, c: seq<Item>)
    requires cycles <= more && Reported(cycles, c)
    ensures Reported(more, c)
  {
    var k :| 0 <= k < |cycles| && Rotated(cycles[k], c);
    assert more[k] == cycles[k];
  }

  lemma GoodCyclesSnoc(edges: set<Edge>, cycles: seq<seq<Item>>, c: seq<Item>)
    requires GoodCycles(edges, cycles) && SimpleCycle(edges, c) && !Reported(cycles, c)
    ensures GoodCycles(edges, cycles + [c]) && Reported(cycles + [c], c)
  {
    RotatedRefl(c);
    assert (cycles + [c])[|cycles|] == c;
  }

  /** What is known about each stacked path while root is explored. */
  ghost predicate GoodStack(edges: set<Edge>, nodes: set<Item>, root: Item, paths: seq<seq<Item>>) {
    forall i :: 0 <= i < |paths| ==> SimpleIn(nodes, paths[i]) && Trail(edges, root, paths[i])
  }

  ghost predicate VisitedReached(edges: set<Edge>, roots: set<Item>, visited: set<Item>) {
    forall x :: x in visited ==> Reached(edges, roots, x)
  }

  /** After kids[..j]: cycles closed by them are reported, the others stacked. */
  ghost predicate KidsDone(path: seq<Item>, kids: seq<Item>, j: nat, cycles: seq<seq<Item>>, paths: seq<seq<Item>>)
    requires j <= |kids|
  {
    && (forall i, m :: 0 <= i < |path| && 0 <= m < j && kids[m] == path[i] ==> Reported(cycles, path[i..]))
    && (forall m :: 0 <= m < j && kids[m] !in path ==> path + [kids[m]] in paths)
  }

  lemma KidsDoneStep(path: seq<Item>, kids: seq<Item>, j: nat, cycles: seq<seq<Item>>, paths: seq<seq<Item>>,
                     cycles': seq<seq<Item>>, paths': seq<seq<Item>>)
    requires j < |kids| && KidsDone(path, kids, j, cycles, paths)
    requires cycles <= cycles' && paths <= paths'
    requires forall i :: 0 <= i < |path| && kids[j] == path[i] ==> Reported(cycles', path[i..])
    requires kids[j] !in path ==> path + [kids[j]] in paths'
    ensures KidsDone(path, kids, j + 1, cycles', paths')
  {
    forall i, m | 0 <= i < |path| && 0 <= m < j + 1 && kids[m] == path[i] ensures Reported(cycles', path[i..]) {
      if m < j { ReportedGrows(cycles, cycles', path[i..]); }
    }
    forall m | 0 <= m < j + 1 && kids[m] !in path ensures path + [kids[m]] in paths' {
      if m < j {
        var n :| 0 <= n < |paths| && paths[n] == path + [kids[m]];
        assert paths'[n] == paths[n];
      }
    }
  }

  /** A child already on the path closes a cycle. */
  method CloseCycle(ghost edges: set<Edge>, path: seq<Item>, child: Item, cycles0: seq<seq<Item>>)
    returns (cycles: seq<seq<Item>>)
    requires IsPath(edges, path) && Distinct(path) && child in path && (path[|path| - 1], child) in edges
    requires GoodCycles(edges, cycles0)
    ensures GoodCycles(edges, cycles) && cycles0 <= cycles
    ensures forall i :: 0 <= i < |path| && child == path[i] ==> Reported(cycles, path[i..])
  {
    var at := Index(path, child);
    var cycle := path[at..];
    CycleFound(edges, path, at);
    cycles := cycles0;
    var isDup := IsDup(cycles, cycle);
    if !isDup {
      GoodCyclesSnoc(edges, cycles, cycle);
      cycles := cycles + [cycle];
    }
  }

  lemma Extend(edges: set<Edge>, nodes: set<Item>, root: Item, roots: set<Item>, path: seq<Item>, c: Item)
    requires SimpleIn(nodes, path) && Trail(edges, root, path) && root in roots
    requires (path[|path| - 1], c) in edges && c in nodes && c !in path
    ensures SimpleIn(nodes, path + [c]) && Trail(edges, root, path + [c]) && Reached(edges, roots, c)
  {
    assert PathInto(edges, path + [c], c);
  }

  /** The for loop over the children of the popped path's last item. */
  method VisitChildren(ghost pc: Children, ghost nodes: set<Item>, ghost root: Item, ghost roots: set<Item>,
                       path: seq<Item>, kids: seq<Item>,
                       cycles0: seq<seq<Item>>, paths0: seq<seq<Item>>, visited0: set<Item>)
    returns (cycles: seq<seq<Item>>, paths: seq<seq<Item>>, visited: set<Item>)
    requires Closed(pc, nodes) && SimpleIn(nodes, path) && Trail(EdgesIn(pc), root, path) && root in roots
    requires forall c :: c in kids ==> c in nodes && (path[|path| - 1], c) in EdgesIn(pc)
    requires GoodCycles(EdgesIn(pc), cycles0) && GoodStack(EdgesIn(pc), nodes, root, paths0)
    requires VisitedReached(EdgesIn(pc), roots, visited0)
    ensures GoodCycles(EdgesIn(pc), cycles) && GoodStack(EdgesIn(pc), nodes, root, paths)
    ensures cycles0 <= cycles && paths0 <= paths && visited0 <= visited
    ensures KidsDone(path, kids, |kids|, cycles, paths)
    ensures VisitedReached(EdgesIn(pc), roots, visited)
    ensures StackWork(pc, nodes, paths) == StackWork(pc, nodes, paths0) + WorkBelow(pc, nodes, path, kids)
  {
    ghost var edges := EdgesIn(pc);
    cycles, paths, visited := cycles0, paths0, visited0;
    for j := 0 to |kids|
      invariant GoodCycles(edges, cycles) && GoodStack(edges, nodes, root, paths)
      invariant cycles0 <= cycles && paths0 <= paths && visited0 <= visited
      invariant KidsDone(path, kids, j, cycles, paths)
      invariant VisitedReached(edges, roots, visited)
      invariant StackWork(pc, nodes, paths) + WorkBelow(pc, nodes, path, kids[j..])
             == StackWork(pc, nodes, paths0) + WorkBelow(pc, nodes, path, kids)
    {
      var child := kids[j];
      assert child in kids && kids[j..][0] == child && kids[j..][1..] == kids[j + 1..];
      ghost var cyclesBefore, pathsBefore := cycles, paths;
      if child in path {
        cycles := CloseCycle(edges, path, child, cycles);
      } else {
        Extend(edges, nodes, root, roots, path, child);
        StackWorkPush(pc, nodes, paths, path + [child]);
        paths := paths + [path + [child]];
        assert paths[|paths| - 1] == path + [child];
        visited := visited + {child};
      }
      KidsDoneStep(path, kids, j, cyclesBefore, pathsBefore, cycles, paths);
    }
  }

  /** Popping a path and visiting its children loses no trail. */
  lemma ProgressStep(edges: set<Edge>, root: Item, path: seq<Item>, kids: seq<Item>,
                     cycles: seq<seq<Item>>, rest: seq<seq<Item>>, cycles': seq<seq<Item>>, paths': seq<seq<Item>>)
    requires path != [] && Progressing(edges, root, cycles, rest + [path])
    requires cycles <= cycles' && rest <= paths'
    requires KidsDone(path, kids, |kids|, cycles', paths')
    requires forall c :: (path[|path| - 1], c) in edges ==> c in kids
    ensures Progressing(edges, root, cycles', paths')
  {
    forall q | Trail(edges, root, q) ensures Covered(edges, cycles', q) || Awaited(paths', q) {
      if Covered(edges, cycles, q) {
        CoveredGrows(edges, cycles, cycles', q);
      } else {
        var i :| 0 <= i < |rest + [path]| && (rest + [path])[i] <= q;
        if i < |rest| {
          assert paths'[i] == rest[i];
        } else {
          PrefixPopped(edges, path, kids, cycles', paths', q);
        }
      }
    }
  }

  lemma CoveredGrows(edges: set<Edge>, cycles: seq<seq<Item>>, more: seq<seq<Item>>, q: seq<Item>)
    requires q != [] && cycles <= more && Covered(edges, cycles, q)
    ensures Covered(edges, more, q)
  {
    forall i | 0 <= i < |q| && (q[|q| - 1], q[i]) in edges ensures Reported(more, q[i..]) {
      ReportedGrows(cycles, more, q[i..]);
    }
  }

  lemma PrefixPopped(edges: set<Edge>, path: seq<Item>, kids: seq<Item>,
                     cycles: seq<seq<Item>>, paths: seq<seq<Item>>, q: seq<Item>)
    requires path != [] && path <= q && IsPath(edges, q) && Distinct(q)
    requires KidsDone(path, kids, |kids|, cycles, paths)
    requires forall c :: (path[|path| - 1], c) in edges ==> c in kids
    ensures Covered(edges, cycles, q) || Awaited(paths, q)
  {
    if |q| == |path| {
      assert q == path;
      forall i | 0 <= i < |q| && (q[|q| - 1], q[i]) in edges ensures Reported(cycles, q[i..]) {
        assert (path[|path| - 1], path[i]) in edges && path[i] in kids;
      }
    } else {
      var c := q[|path|];
      assert q[|path| - 1] == path[|path| - 1] && (q[|path| - 1], q[|path| - 1 + 1]) in edges;
      assert c in kids && c !in path;
      var n :| 0 <= n < |paths| && paths[n] == path + [c];
      assert paths[n] <= q;
    }
  }

  /** The while loop: explore everything that starts at root. */
  method Explore(pc: Children, ghost nodes: set<Item>, root: Item, ghost roots: set<Item>,
                 cycles0: seq<seq<Item>>, visited0: set<Item>)
    returns (cycles: seq<seq<Item>>, visited: set<Item>)
    requires Closed(pc, nodes) && root in nodes && root in roots
    requires GoodCycles(EdgesIn(pc), cycles0) && VisitedReached(EdgesIn(pc), roots, visited0)
    ensures GoodCycles(EdgesIn(pc), cycles) && cycles0 <= cycles
    ensures VisitedReached(EdgesIn(pc), roots, visited) && visited0 <= visited
    ensures Explored(EdgesIn(pc), cycles, root)
  {
    ghost var edges := EdgesIn(pc);
    cycles, visited := cycles0, visited0;
    var paths := [[root]];
    StartProgress(edges, root, cycles);
    while paths != []
      invariant GoodCycles(edges, cycles) && cycles0 <= cycles
      invariant VisitedReached(edges, roots, visited) && visited0 <= visited
      invariant GoodStack(edges, nodes, root, paths)
      invariant Progressing(edges, root, cycles, paths)
      decreases StackWork(pc, nodes, paths)
    {
      var path := paths[|paths| - 1];
      ghost var stack := paths;
      paths := paths[..|paths| - 1];
      assert stack == paths + [path];
      var parent := path[|path| - 1];
      ghost var cyclesBefore, rest := cycles, paths;
      if parent !in pc {
        ProgressStep(edges, root, path, [], cycles, paths, cycles, paths);
        continue;
      }
      cycles, paths, visited := VisitChildren(pc, nodes, root, roots, path, pc[parent], cycles, paths, visited);
      ProgressStep(edges, root, path, pc[parent], cyclesBefore, rest, cycles, paths);
    }
  }

  lemma StartProgress(edges: set<Edge>, root: Item, cycles: seq<seq<Item>>)
    ensures Progressing(edges, root, cycles, [[root]])
  {
    forall q | Trail(edges, root, q) ensures Awaited([[root]], q) {
      assert [[root]][0] <= q;
    }
  }

  // ---------- nothing is lost by skipping visited roots ----------

  /** The first item of q that lies on c. */
  lemma FirstOn(q: seq<Item>, c: seq<Item>) returns (i: nat, j: nat)
    requires q != [] && q[|q| - 1] in c
    ensures i < |q| && j < |c| && q[i] == c[j]
    ensures forall m :: 0 <= m < i ==> q[m] !in c
  {
    i := 0;
    while q[i] !in c
      invariant i < |q| && forall m :: 0 <= m < i ==> q[m] !in c
      decreases |q| - i
    {
      i := i + 1;
    }
    j :| 0 <= j < |c| && c[j] == q[i];
  }

  lemma RotationIsCycle(edges: set<Edge>, c: seq<Item>, j: nat)
    requires SimpleCycle(edges, c) && j < |c|
    ensures SimpleCycle(edges, Rotation(c, j)) && Rotation(c, j)[0] == c[j]
    ensures forall x :: x in Rotation(c, j) <==> x in c
  {
    var r := Rotation(c, j);
    if j == 0 {
      assert r == c;
    } else {
      PathSlice(edges, c, 0, j);
      PathSlice(edges, c, j, |c|);
      assert c[0..j] == c[..j] && c[j..|c|] == c[j..];
      PathJoin(edges, [c[|c| - 1], c[0]], c[..j]);
      PathJoin(edges, c[j..], [c[|c| - 1]] + c[..j]);
      assert ([c[|c| - 1]] + c[..j])[1..] == c[..j] && [c[|c| - 1], c[0]] + c[..j][1..] == [c[|c| - 1]] + c[..j];
      assert (c[j - 1], c[j - 1 + 1]) in edges;
    }
    assert c == c[..j] + c[j..];
  }

  /** A trail that first meets a cycle at its end can run on around the cycle. */
  lemma RunAround(edges: set<Edge>, root: Item, head: seq<Item>, r: seq<Item>)
    requires SimpleCycle(edges, r) && Trail(edges, root, head + [r[0]])
    requires forall x :: x in head ==> x !in r
    ensures Trail(edges, root, head + r)
  {
    var t, h := head + r, head + [r[0]];
    assert t[0] == h[0];
    forall m | 0 <= m < |t| - 1 ensures (t[m], t[m + 1]) in edges {
      if m >= |head| {
        assert (r[m - |head|], r[m - |head| + 1]) in edges;
      } else {
        assert (h[m], h[m + 1]) in edges;
      }
    }
    DistinctConcat(head, r);
  }

  lemma DistinctConcat(a: seq<Item>, b: seq<Item>)
    requires b != [] && Distinct(a + [b[0]]) && Distinct(b) && forall x :: x in a ==> x !in b
    ensures Distinct(a + b)
  {
    var t := a + b;
    forall i, j | 0 <= i < j < |t| ensures t[i] != t[j] {
      if j < |a| {
        assert (a + [b[0]])[i] != (a + [b[0]])[j];
      } else if i < |a| {
        assert a[i] in a && t[j] == b[j - |a|];
      }
    }
  }

  /** From a root that reaches the cycle there is a trail that runs once around it. */
  lemma TrailAround(edges: set<Edge>, root: Item, q: seq<Item>, c: seq<Item>) returns (t: seq<Item>, i: nat)
    requires Trail(edges, root, q) && q[|q| - 1] in c && SimpleCycle(edges, c)
    ensures Trail(edges, root, t) && i < |t| && (t[|t| - 1], t[i]) in edges
    ensures Rotated(t[i..], c)
  {
    var j;
    i, j := FirstOn(q, c);
    RotationIsCycle(edges, c, j);
    t := AroundFrom(edges, root, q, i, Rotation(c, j));
    RotatedFrom(c, j);
  }

  lemma AroundFrom(edges: set<Edge>, root: Item, q: seq<Item>, i: nat, r: seq<Item>) returns (t: seq<Item>)
    requires Trail(edges, root, q) && i < |q| && SimpleCycle(edges, r) && r[0] == q[i]
    requires forall m :: 0 <= m < i ==> q[m] !in r
    ensures Trail(edges, root, t) && i < |t| && (t[|t| - 1], t[i]) in edges && t[i..] == r
  {
    PathSlice(edges, q, 0, i + 1);
    assert q[0..i + 1] == q[..i] + [r[0]];
    RunAround(edges, root, q[..i], r);
    t := q[..i] + r;
    TailOf(q[..i], r);
  }

  lemma TailOf(head: seq<Item>, tail: seq<Item>)
    requires tail != []
    ensures (head + tail)[|head|..] == tail && (head + tail)[|head + tail| - 1] == tail[|tail| - 1]
    ensures (head + tail)[|head|] == tail[0]
  {}

  lemma RotatedFrom(c: seq<Item>, j: nat)
    requires j < |c|
    ensures Rotated(Rotation(c, j), c)
  {
    assert Rotated(c, Rotation(c, j));
    RotatedSym(c, Rotation(c, j));
  }

  /** Once every key is reached from explored roots, no simple cycle is missing. */
  lemma NoneMissing(pc: Children, roots: set<Item>, cycles: seq<seq<Item>>, c: seq<Item>)
    requires forall r :: r in roots ==> Explored(EdgesIn(pc), cycles, r)
    requires forall k :: k in pc ==> Reached(EdgesIn(pc), roots, k)
    requires SimpleCycle(EdgesIn(pc), c)
    ensures Reported(cycles, c)
  {
    var edges := EdgesIn(pc);
    var last := c[|c| - 1];
    assert (last, c[0]) in edges;
    var p :| PathInto(edges, p, last) && p[0] in roots;
    var q := SimplePath(edges, p);
    var t, i := TrailAround(edges, p[0], q, c);
    assert Covered(edges, cycles, t);
    var k :| 0 <= k < |cycles| && Rotated(cycles[k], t[i..]);
    RotatedTrans(cycles[k], t[i..], c);
  }

  /** The outer loop. Every simple cycle of the graph is yielded, exactly once up
      to rotation, and nothing else is. */
  method FindCycles(pc: Children) returns (cycles: seq<seq<Item>>)
    ensures forall k :: 0 <= k < |cycles| ==> SimpleCycle(EdgesIn(pc), cycles[k])
    ensures forall i, j :: 0 <= i < j < |cycles| ==> !Rotated(cycles[i], cycles[j])
    ensures forall c :: SimpleCycle(EdgesIn(pc), c) ==> Reported(cycles, c)
  {
    ghost var edges, nodes := EdgesIn(pc), NodesIn(pc);
    ghost var roots: set<Item> := {};
    cycles := [];
    var visited: set<Item> := {};
    var keys := pc.Keys;
    while keys != {}
      invariant keys <= pc.Keys && roots <= pc.Keys
      invariant GoodCycles(edges, cycles) && VisitedReached(edges, roots, visited)
      invariant forall k :: k in pc.Keys - keys ==> k in roots || k in visited
      invariant forall r :: r in roots ==> Explored(edges, cycles, r)
    {
      var parent :| parent in keys;
      keys := keys - {parent};
      if parent in visited {
        continue;
      }
      MoreRoots(edges, roots, roots + {parent}, visited);
      ghost var before := cycles;
      cycles, visited := Explore(pc, nodes, parent, roots + {parent}, cycles, visited);
      ExploredGrows(edges, roots, before, cycles);
      roots := roots + {parent};
    }
    AllKeysReached(pc, roots, visited);
    forall c | SimpleCycle(edges, c) ensures Reported(cycles, c) {
      NoneMissing(pc, roots, cycles, c);
    }
  }

  lemma MoreRoots(edges: set<Edge>, roots: set<Item>, more: set<Item>, visited: set<Item>)
    requires VisitedReached(edges, roots, visited) && roots <= more
    ensures VisitedReached(edges, more, visited)
  {
    forall x | x in visited ensures Reached(edges, more, x) {
      var q :| PathInto(edges, q, x) && q[0] in roots;
      assert q[0] in more;
    }
  }

  lemma ExploredGrows(edges: set<Edge>, roots: set<Item>, cycles: seq<seq<Item>>, more: seq<seq<Item>>)
    requires cycles <= more && forall r :: r in roots ==> Explored(edges, cycles, r)
    ensures forall r :: r in roots ==> Explored(edges, more, r)
  {
    forall r, q | r in roots && Trail(edges, r, q) ensures Covered(edges, more, q) {
      assert Explored(edges, cycles, r);
      CoveredGrows(edges, cycles, more, q);
    }
  }

  lemma AllKeysReached(pc: Children, roots: set<Item>, visited: set<Item>)
    requires VisitedReached(EdgesIn(pc), roots, visited)
    requires forall k :: k in pc ==> k in roots || k in visited
    ensures forall k :: k in pc ==> Reached(EdgesIn(pc), roots, k)
  {
    forall k | k in pc ensures Reached(EdgesIn(pc), roots, k) {
      if k in roots { PathOfOne(EdgesIn(pc), k); assert [k][0] in roots; }
    }
  }

  /** "Once up to rotation" said of the cycle: one entry, and one only, stands for it. */
  lemma ReportedOnce(edges: set<Edge>, cycles: seq<seq<Item>>, c: seq<Item>, i: nat, j: nat)
    requires forall i, j :: 0 <= i < j < |cycles| ==> !Rotated(cycles[i], cycles[j])
    requires i < |cycles| && j < |cycles| && Rotated(cycles[i], c) && Rotated(cycles[j], c)
    ensures i == j
  {
    RotatedSym(cycles[i], c);
    RotatedSym(cycles[j], c);
    RotatedTrans(cycles[i], c, cycles[j]);
    RotatedTrans(cycles[j], c, cycles[i]);
  }

  // ---------- the debugging aid agrees with the sorts ----------

  lemma {:induction false} SimpleCycleWithin(edges: set<Edge>, c: seq<Item>) returns (d: seq<Item>)
    requires IsCycle(edges, c)
    ensures SimpleCycle(edges, d)
    decreases |c|
  {
    var front := c[..|c| - 1];
    if Distinct(front) {
      PathSlice(edges, c, 0, |c| - 1);
      assert c[0..|c| - 1] == front;
      d := front;
    } else {
      var i, j :| 0 <= i < j < |front| && front[i] == front[j];
      PathSlice(edges, c, i, j + 1);
      d := SimpleCycleWithin(edges, c[i..j + 1]);
    }
  }

  /** Cycles are yielded exactly when sorting the same edges raises a CycleError. */
  lemma YieldsIffHasCycle(edges: set<Edge>, cycles: seq<seq<Item>>)
    requires forall k :: 0 <= k < |cycles| ==> SimpleCycle(edges, cycles[k])
    requires forall c :: SimpleCycle(edges, c) ==> Reported(cycles, c)
    ensures cycles != [] <==> HasCycle(edges)
  {
    if cycles != [] {
      var c := cycles[0];
      var closed := c + [c[0]];
      PathJoin(edges, c, [c[|c| - 1], c[0]]);
      assert c + [c[|c| - 1], c[0]][1..] == closed;
      assert IsCycle(edges, closed);
    }
    if HasCycle(edges) {
      var c :| IsCycle(edges, c);
      var d := SimpleCycleWithin(edges, c);
    }
  }
}
