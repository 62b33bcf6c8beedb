/** The configuration-path enumerator: DoGather walks a possibly cyclic graph of
    types along attributes, subclasses and aggregations, with two stacks. */
module Introspect {
  import opened Common

  type Tid = nat

  /** A labelled step from one type to another, and the steps that each type has. */
  type Link = (string, Tid)
  type LinkMap = Tid -> seq<Link>

  /** One arrival of the walk: the links taken from the root (as positions in the
      link list of each type on the way), the type reached and the labels passed. */
  datatype Visit = Visit(walk: seq<nat>, end: Tid, labels: seq<string>)

  ghost predicate Closed(links: LinkMap, types: set<Tid>) {
    forall tid, k :: tid in types && 0 <= k < |links(tid)| ==> links(tid)[k].1 in types
  }

  // ---------- the order of the search ----------

  ghost function Unseen(types: set<Tid>, seen: seq<Tid>): set<Tid> {
    set tid | tid in types && tid !in seen
  }

  lemma FewerUnseen(types: set<Tid>, seen: seq<Tid>, tid: Tid)
    requires tid in types && tid !in seen
    ensures |Unseen(types, seen + [tid])| < |Unseen(types, seen)|
  {
    assert Unseen(types, seen + [tid]) == Unseen(types, seen) - {tid};
  }

  ghost function Follow(links: LinkMap, here: Visit, k: nat): Visit
    requires k < |links(here.end)|
  {
    var link := links(here.end)[k];
    Visit(here.walk + [k], link.1, here.labels + [link.0])
  }

  /** The visits that DoGather makes when called at here, with the types in seen
      already being processed. */
  ghost function Visits(links: LinkMap, types: set<Tid>, here: Visit, seen: seq<Tid>): seq<Visit>
    requires Closed(links, types) && here.end in types
    decreases |Unseen(types, seen)|, 1, 0
  {
    if here.end in seen then []
    else [here] + VisitsVia(links, types, here, seen, |links(here.end)|)
  }

  /** What the first n links of here.end lead to. */
  ghost function VisitsVia(links: LinkMap, types: set<Tid>, here: Visit, seen: seq<Tid>, n: nat): seq<Visit>
    requires Closed(links, types) && here.end in types && here.end !in seen && n <= |links(here.end)|
    decreases |Unseen(types, seen)|, 0, n
  {
    if n == 0 then []
    else
      FewerUnseen(types, seen, here.end);
      VisitsVia(links, types, here, seen, n - 1)
        + Visits(links, types, Follow(links, here, n - 1), seen + [here.end])
  }

  // ---------- walks, independently of the search ----------

  /** The types passed by a walk from tid; a bad position cuts the list short. */
  ghost function TypesAlong(links: LinkMap, tid: Tid, walk: seq<nat>): seq<Tid>
    ensures TypesAlong(links, tid, walk) != []
    decreases |walk|
  {
    if walk == [] || walk[0] >= |links(tid)| then [tid]
    else [tid] + TypesAlong(links, links(tid)[walk[0]].1, walk[1..])
  }

  ghost function LabelsAlong(links: LinkMap, tid: Tid, walk: seq<nat>): seq<string>
    decreases |walk|
  {
    if walk == [] || walk[0] >= |links(tid)| then []
    else [links(tid)[walk[0]].0] + LabelsAlong(links, links(tid)[walk[0]].1, walk[1..])
  }

  /** A walk along links that never comes to a type twice. */
  ghost predicate SimpleWalk(links: LinkMap, tid: Tid, walk: seq<nat>) {
    && |TypesAlong(links, tid, walk)| == |walk| + 1
    && Distinct(TypesAlong(links, tid, walk))
  }

  ghost predicate SimpleAvoiding(links: LinkMap, tid: Tid, walk: seq<nat>, seen: seq<Tid>) {
    && SimpleWalk(links, tid, walk)
    && forall i :: 0 <= i < |TypesAlong(links, tid, walk)| ==> TypesAlong(links, tid, walk)[i] !in seen
  }

  /** The visit that a walk amounts to when it starts at here. */
  ghost function Continue(links: LinkMap, here: Visit, walk: seq<nat>): Visit {
    var along := TypesAlong(links, here.end, walk);
    Visit(here.walk + walk, along[|along| - 1], here.labels + LabelsAlong(links, here.end, walk))
  }

  lemma StepAvoids(links: LinkMap, tid: Tid, walk: seq<nat>, seen: seq<Tid>)
    requires walk != [] && walk[0] < |links(tid)|
    ensures SimpleAvoiding(links, tid, walk, seen) <==>
      tid !in seen && SimpleAvoiding(links, links(tid)[walk[0]].1, walk[1..], seen + [tid])
  {
    var next := links(tid)[walk[0]].1;
    var along, rest := TypesAlong(links, tid, walk), TypesAlong(links, next, walk[1..]);
    assert along == [tid] + rest;
    if SimpleAvoiding(links, tid, walk, seen) {
      assert along[0] == tid;
      forall i, j | 0 <= i < j < |rest| ensures rest[i] != rest[j] {
        assert along[i + 1] != along[j + 1];
      }
      forall i | 0 <= i < |rest| ensures rest[i] !in seen + [tid] {
        assert rest[i] == along[i + 1] && along[0] != along[i + 1];
      }
    }
    if tid !in seen && SimpleAvoiding(links, next, walk[1..], seen + [tid]) {
      forall i, j | 0 <= i < j < |along| ensures along[i] != along[j] {
        assert along[j] == rest[j - 1];
        if i > 0 { assert along[i] == rest[i - 1]; }
      }
      forall i | 0 <= i < |along| ensures along[i] !in seen {
        if i > 0 { assert along[i] == rest[i - 1]; }
      }
    }
  }

  lemma NoStepAvoids(links: LinkMap, here: Visit, seen: seq<Tid>)
    ensures SimpleAvoiding(links, here.end, [], seen) <==> here.end !in seen
    ensures Continue(links, here, []) == here
  {
    var along := TypesAlong(links, here.end, []);
    assert along == [here.end] && along[0] == here.end;
    assert here.walk + [] == here.walk && here.labels + [] == here.labels;
  }

  lemma ContinueStep(links: LinkMap, here: Visit, k: nat, walk: seq<nat>)
    requires k < |links(here.end)|
    ensures Continue(links, here, [k] + walk) == Continue(links, Follow(links, here, k), walk)
  {
    var w := [k] + walk;
    assert w[1..] == walk;
    assert here.walk + w == here.walk + [k] + walk;
    var link := links(here.end)[k];
    assert here.labels + ([link.0] + LabelsAlong(links, link.1, walk))
      == here.labels + [link.0] + LabelsAlong(links, link.1, walk);
  }

  /** Every visit is a simple walk onwards from here. */
  lemma {:induction false} VisitsSound(links: LinkMap, types: set<Tid>, here: Visit, seen: seq<Tid>, i: nat)
    returns (walk: seq<nat>)
    requires Closed(links, types) && here.end in types
    requires i < |Visits(links, types, here, seen)|
    ensures SimpleAvoiding(links, here.end, walk, seen)
    ensures Visits(links, types, here, seen)[i] == Continue(links, here, walk)
    ensures i == 0 <==> walk == []
    decreases |Unseen(types, seen)|, 1, 0
  {
    NoStepAvoids(links, here, seen);
    if i == 0 {
      walk := [];
    } else {
      walk := ViaSound(links, types, here, seen, |links(here.end)|, i - 1);
    }
  }

  lemma {:induction false} ViaSound(links: LinkMap, types: set<Tid>, here: Visit, seen: seq<Tid>, n: nat, i: nat)
    returns (walk: seq<nat>)
    requires Closed(links, types) && here.end in types && here.end !in seen && n <= |links(here.end)|
    requires i < |VisitsVia(links, types, here, seen, n)|
    ensures walk != [] && walk[0] < n && SimpleAvoiding(links, here.end, walk, seen)
    ensures VisitsVia(links, types, here, seen, n)[i] == Continue(links, here, walk)
    decreases |Unseen(types, seen)|, 0, n
  {
    var before := VisitsVia(links, types, here, seen, n - 1);
    if i < |before| {
      walk := ViaSound(links, types, here, seen, n - 1, i);
    } else {
      FewerUnseen(types, seen, here.end);
      var next := Follow(links, here, n - 1);
      var rest := VisitsSound(links, types, next, seen + [here.end], i - |before|);
      walk := [n - 1] + rest;
      assert walk[1..] == rest;
      StepAvoids(links, here.end, walk, seen);
      ContinueStep(links, here, n - 1, rest);
    }
  }

  /** Every simple walk onwards from here is visited. */
  lemma {:induction false} VisitsComplete(links: LinkMap, types: set<Tid>, here: Visit, seen: seq<Tid>, walk: seq<nat>)
    requires Closed(links, types) && here.end in types
    requires SimpleAvoiding(links, here.end, walk, seen)
    ensures Continue(links, here, walk) in Visits(links, types, here, seen)
    decreases |Unseen(types, seen)|, 1, 0
  {
    NoStepAvoids(links, here, seen);
    assert TypesAlong(links, here.end, walk)[0] == here.end;
    if walk == [] {
      assert Visits(links, types, here, seen)[0] == here;
    } else {
      ViaComplete(links, types, here, seen, |links(here.end)|, walk);
    }
  }

  lemma {:induction false} ViaComplete(links: LinkMap, types: set<Tid>, here: Visit, seen: seq<Tid>, n: nat,
                                       walk: seq<nat>)
    requires Closed(links, types) && here.end in types && here.end !in seen && n <= |links(here.end)|
    requires walk != [] && walk[0] < n && SimpleAvoiding(links, here.end, walk, seen)
    ensures Continue(links, here, walk) in VisitsVia(links, types, here, seen, n)
    decreases |Unseen(types, seen)|, 0, n
  {
    if walk[0] < n - 1 {
      ViaComplete(links, types, here, seen, n - 1, walk);
    } else {
      FewerUnseen(types, seen, here.end);
      StepAvoids(links, here.end, walk, seen);
      VisitsComplete(links, types, Follow(links, here, n - 1), seen + [here.end], walk[1..]);
      ContinueStep(links, here, n - 1, walk[1..]);
      assert [walk[0]] + walk[1..] == walk;
    }
  }

  /** No walk is visited twice. */
  lemma {:induction false} VisitsDistinct(links: LinkMap, types: set<Tid>, here: Visit, seen: seq<Tid>, i: nat, j: nat)
    requires Closed(links, types) && here.end in types
    requires i < j < |Visits(links, types, here, seen)|
    ensures Visits(links, types, here, seen)[i].walk != Visits(links, types, here, seen)[j].walk
    decreases |Unseen(types, seen)|, 1, 0
  {
    if i == 0 {
      var walk := VisitsSound(links, types, here, seen, j);
    } else {
      ViaDistinct(links, types, here, seen, |links(here.end)|, i - 1, j - 1);
    }
  }

  lemma {:induction false} ViaDistinct(links: LinkMap, types: set<Tid>, here: Visit, seen: seq<Tid>, n: nat,
                                       i: nat, j: nat)
    requires Closed(links, types) && here.end in types && here.end !in seen && n <= |links(here.end)|
    requires i < j < |VisitsVia(links, types, here, seen, n)|
    ensures VisitsVia(links, types, here, seen, n)[i].walk != VisitsVia(links, types, here, seen, n)[j].walk
    decreases |Unseen(types, seen)|, 0, n
  {
    var before := VisitsVia(links, types, here, seen, n - 1);
    FewerUnseen(types, seen, here.end);
    var next := Follow(links, here, n - 1);
    if j < |before| {
      ViaDistinct(links, types, here, seen, n - 1, i, j);
    } else if i >= |before| {
      VisitsDistinct(links, types, next, seen + [here.end], i - |before|, j - |before|);
    } else {
      var walk := ViaSound(links, types, here, seen, n - 1, i);
      var rest := VisitsSound(links, types, next, seen + [here.end], j - |before|);
      DifferentLinks(here.walk, walk, n - 1, rest);
    }
  }

  lemma DifferentLinks(prefix: seq<nat>, walk: seq<nat>, k: nat, rest: seq<nat>)
    requires walk != [] && walk[0] != k
    ensures prefix + walk != prefix + [k] + rest
  {
    assert (prefix + walk)[|prefix|] == walk[0];
    assert (prefix + [k] + rest)[|prefix|] == k;
  }

  ghost function VisitOf(links: LinkMap, root: Tid, walk: seq<nat>): Visit {
    Continue(links, Visit([], root, []), walk)
  }

  /** From a root, with nothing being processed: one visit per simple walk. */
  lemma OneVisitPerWalk(links: LinkMap, types: set<Tid>, root: Tid)
    requires Closed(links, types) && root in types
    ensures var visits := Visits(links, types, Visit([], root, []), []);
      && (forall i :: 0 <= i < |visits| ==>
            SimpleWalk(links, root, visits[i].walk) && visits[i] == VisitOf(links, root, visits[i].walk))
      && (forall i, j :: 0 <= i < j < |visits| ==> visits[i].walk != visits[j].walk)
      && (forall walk :: SimpleWalk(links, root, walk) ==> VisitOf(links, root, walk) in visits)
  {
    var here := Visit([], root, []);
    var visits := Visits(links, types, here, []);
    forall i | 0 <= i < |visits|
      ensures SimpleWalk(links, root, visits[i].walk) && visits[i] == VisitOf(links, root, visits[i].walk)
    {
      var walk := VisitsSound(links, types, here, [], i);
      assert [] + walk == walk;
    }
    forall i, j | 0 <= i < j < |visits| ensures visits[i].walk != visits[j].walk {
      VisitsDistinct(links, types, here, [], i, j);
    }
    forall walk | SimpleWalk(links, root, walk) ensures VisitOf(links, root, walk) in visits {
      VisitsComplete(links, types, here, [], walk);
    }
  }

  // ---------- the links of a type ----------

  datatype Attribute =
    | Pointer(name: string, pointee: Tid)
    | Container(name: string, item: Tid)
    | Other(name: string)

  /** What the TypeId system reports. */
  datatype TypeInfo = TypeInfo(
    attributes: Tid -> seq<Attribute>,
    name: Tid -> string,
    isChildOf: (Tid, Tid) -> bool,
    registered: seq<Tid>,
    objectTid: Tid)

  type Aggregates = seq<(Tid, Tid)>

  ghost function AttributeLinks(info: TypeInfo, attributes: seq<Attribute>): seq<Link> {
    if attributes == [] then []
    else
      AttributeLinks(info, attributes[..|attributes| - 1]) + AttributeLink(info, attributes[|attributes| - 1])
  }

  ghost function AttributeLink(info: TypeInfo, a: Attribute): seq<Link> {
    match a
    case Pointer(name, pointee) => if pointee == info.objectTid then [] else [(name, pointee)]
    case Container(name, item) => [(name + "/[i]", item)]
    case Other(_) => []
  }

  ghost function ChildLinks(info: TypeInfo, tid: Tid, types: seq<Tid>): seq<Link> {
    if types == [] then []
    else ChildLinks(info, tid, types[..|types| - 1]) + ChildLink(info, tid, types[|types| - 1])
  }

  ghost function ChildLink(info: TypeInfo, tid: Tid, child: Tid): seq<Link> {
    if info.isChildOf(child, tid) then [("$" + info.name(child), child)] else []
  }

  ghost function AggregateLinks(info: TypeInfo, tid: Tid, aggregates: Aggregates): seq<Link> {
    if aggregates == [] then []
    else
      AggregateLinks(info, tid, aggregates[..|aggregates| - 1])
        + AggregateLink(info, tid, aggregates[|aggregates| - 1])
  }

  ghost function AggregateLink(info: TypeInfo, tid: Tid, pair: (Tid, Tid)): seq<Link> {
    var other := if pair.1 == tid then pair.0 else pair.1;
    if pair.0 == tid || pair.1 == tid then [("$" + info.name(other), other)] else []
  }

  ghost function LinksOf(info: TypeInfo, aggregates: Aggregates): LinkMap {
    tid => AttributeLinks(info, info.attributes(tid))
      + ChildLinks(info, tid, info.registered)
      + AggregateLinks(info, tid, aggregates)
  }

  lemma {:induction false} AttributePrefix(info: TypeInfo, attributes: seq<Attribute>, i: nat)
    requires i <= |attributes|
    ensures AttributeLinks(info, attributes[..i]) <= AttributeLinks(info, attributes)
    decreases |attributes|
  {
    if i < |attributes| {
      var front := attributes[..|attributes| - 1];
      AttributePrefix(info, front, i);
      assert front[..i] == attributes[..i];
    } else {
      assert attributes[..i] == attributes;
    }
  }

  lemma {:induction false} ChildPrefix(info: TypeInfo, tid: Tid, types: seq<Tid>, i: nat)
    requires i <= |types|
    ensures ChildLinks(info, tid, types[..i]) <= ChildLinks(info, tid, types)
    decreases |types|
  {
    if i < |types| {
      var front := types[..|types| - 1];
      ChildPrefix(info, tid, front, i);
      assert front[..i] == types[..i];
    } else {
      assert types[..i] == types;
    }
  }

  lemma {:induction false} AggregatePrefix(info: TypeInfo, tid: Tid, aggregates: Aggregates, i: nat)
    requires i <= |aggregates|
    ensures AggregateLinks(info, tid, aggregates[..i]) <= AggregateLinks(info, tid, aggregates)
    decreases |aggregates|
  {
    if i < |aggregates| {
      var front := aggregates[..|aggregates| - 1];
      AggregatePrefix(info, tid, front, i);
      assert front[..i] == aggregates[..i];
    } else {
      assert aggregates[..i] == aggregates;
    }
  }

  /** How many links of tid stem from the first i attributes; from all attributes
      and the first j registered types; from those and the first k aggregations. */
  ghost function AttributesUpTo(info: TypeInfo, tid: Tid, i: nat): nat
    requires i <= |info.attributes(tid)|
  {
    |AttributeLinks(info, info.attributes(tid)[..i])|
  }

  ghost function ChildrenUpTo(info: TypeInfo, tid: Tid, j: nat): nat
    requires j <= |info.registered|
  {
    |AttributeLinks(info, info.attributes(tid))| + |ChildLinks(info, tid, info.registered[..j])|
  }

  ghost function AggregatesUpTo(info: TypeInfo, tid: Tid, aggregates: Aggregates, k: nat): nat
    requires k <= |aggregates|
  {
    |AttributeLinks(info, info.attributes(tid))| + |ChildLinks(info, tid, info.registered)|
      + |AggregateLinks(info, tid, aggregates[..k])|
  }

  lemma UpToEnds(info: TypeInfo, tid: Tid, aggregates: Aggregates)
    ensures AttributesUpTo(info, tid, 0) == 0
    ensures AttributesUpTo(info, tid, |info.attributes(tid)|) == ChildrenUpTo(info, tid, 0)
    ensures ChildrenUpTo(info, tid, |info.registered|) == AggregatesUpTo(info, tid, aggregates, 0)
    ensures AggregatesUpTo(info, tid, aggregates, |aggregates|) == |LinksOf(info, aggregates)(tid)|
  {
    assert info.attributes(tid)[..|info.attributes(tid)|] == info.attributes(tid);
    assert info.registered[..|info.registered|] == info.registered;
    assert aggregates[..|aggregates|] == aggregates;
  }

  /** The next links, if any, are those that stand at position n. */
  ghost predicate NextLinks(links: seq<Link>, n: nat, next: seq<Link>, n': nat) {
    n' == n + |next| && n' <= |links| && (next != [] ==> links[n] == next[0])
  }

  lemma AttributeLinkAt(info: TypeInfo, aggregates: Aggregates, tid: Tid, i: nat)
    requires i < |info.attributes(tid)|
    ensures NextLinks(LinksOf(info, aggregates)(tid), AttributesUpTo(info, tid, i),
      AttributeLink(info, info.attributes(tid)[i]), AttributesUpTo(info, tid, i + 1))
  {
    var attributes := info.attributes(tid);
    AttributePrefix(info, attributes, i + 1);
    assert attributes[..i + 1][..i] == attributes[..i];
  }

  lemma ChildLinkAt(info: TypeInfo, aggregates: Aggregates, tid: Tid, j: nat)
    requires j < |info.registered|
    ensures NextLinks(LinksOf(info, aggregates)(tid), ChildrenUpTo(info, tid, j),
      ChildLink(info, tid, info.registered[j]), ChildrenUpTo(info, tid, j + 1))
  {
    ChildPrefix(info, tid, info.registered, j + 1);
    assert info.registered[..j + 1][..j] == info.registered[..j];
  }

  lemma AggregateLinkAt(info: TypeInfo, aggregates: Aggregates, tid: Tid, k: nat)
    requires k < |aggregates|
    ensures NextLinks(LinksOf(info, aggregates)(tid), AggregatesUpTo(info, tid, aggregates, k),
      AggregateLink(info, tid, aggregates[k]), AggregatesUpTo(info, tid, aggregates, k + 1))
  {
    AggregatePrefix(info, tid, aggregates, k + 1);
    assert aggregates[..k + 1][..k] == aggregates[..k];
  }

  // ---------- which links there are, and how many of each ----------

  /** A pointer to anything but Object, under its name; a container, under its name and /[i]. */
  ghost predicate AttributeLeads(info: TypeInfo, a: Attribute, link: Link) {
    match a
    case Pointer(name, pointee) => pointee != info.objectTid && link == (name, pointee)
    case Container(name, item) => link == (name + "/[i]", item)
    case Other(_) => false
  }

  /** A registered child, under a dollar sign and its name. */
  ghost predicate ChildLeads(info: TypeInfo, tid: Tid, child: Tid, link: Link) {
    info.isChildOf(child, tid) && link == ("$" + info.name(child), child)
  }

  /** The other side of an aggregation, under a dollar sign and its name. */
  ghost predicate AggregateLeads(info: TypeInfo, tid: Tid, pair: (Tid, Tid), link: Link) {
    (pair == (tid, link.1) || pair == (link.1, tid)) && link.0 == "$" + info.name(link.1)
  }

  /** How many attributes, registered types and aggregations lead from tid along link. */
  ghost function LinkCount(info: TypeInfo, aggregates: Aggregates, tid: Tid, link: Link): nat {
    Count(info.attributes(tid), (a: Attribute) => AttributeLeads(info, a, link))
      + Count(info.registered, (child: Tid) => ChildLeads(info, tid, child, link))
      + Count(aggregates, (pair: (Tid, Tid)) => AggregateLeads(info, tid, pair, link))
  }

  ghost function Same(link: Link): Link -> bool {
    l => l == link
  }

  lemma CountOne(l: Link, link: Link)
    ensures Count([l], Same(link)) == OneIf(l == link) && Count([], Same(link)) == 0
  {
    assert [l][..0] == [];
  }

  lemma {:induction false} CountAttributes(info: TypeInfo, attributes: seq<Attribute>, link: Link)
    ensures Count(AttributeLinks(info, attributes), Same(link))
      == Count(attributes, (a: Attribute) => AttributeLeads(info, a, link))
  {
    if attributes == [] {
    } else {
      var front, a := attributes[..|attributes| - 1], attributes[|attributes| - 1];
      CountAttributes(info, front, link);
      CountConcat(AttributeLinks(info, front), AttributeLink(info, a), Same(link));
      CountAttribute(info, a, link);
    }
  }

  lemma CountAttribute(info: TypeInfo, a: Attribute, link: Link)
    ensures Count(AttributeLink(info, a), Same(link)) == OneIf(AttributeLeads(info, a, link))
  {
    match a
    case Pointer(name, pointee) => CountOne((name, pointee), link);
    case Container(name, item) => CountOne((name + "/[i]", item), link);
    case Other(_) =>
  }

  lemma {:induction false} CountChildren(info: TypeInfo, tid: Tid, types: seq<Tid>, link: Link)
    ensures Count(ChildLinks(info, tid, types), Same(link))
      == Count(types, (child: Tid) => ChildLeads(info, tid, child, link))
  {
    if types == [] {
    } else {
      var front, child := types[..|types| - 1], types[|types| - 1];
      CountChildren(info, tid, front, link);
      CountConcat(ChildLinks(info, tid, front), ChildLink(info, tid, child), Same(link));
      CountOne(("$" + info.name(child), child), link);
    }
  }

  lemma {:induction false} CountAggregates(info: TypeInfo, tid: Tid, aggregates: Aggregates, link: Link)
    ensures Count(AggregateLinks(info, tid, aggregates), Same(link))
      == Count(aggregates, (pair: (Tid, Tid)) => AggregateLeads(info, tid, pair, link))
  {
    if aggregates == [] {
    } else {
      var front, pair := aggregates[..|aggregates| - 1], aggregates[|aggregates| - 1];
      CountAggregates(info, tid, front, link);
      CountConcat(AggregateLinks(info, tid, front), AggregateLink(info, tid, pair), Same(link));
      CountAggregate(info, tid, pair, link);
    }
  }

  lemma CountAggregate(info: TypeInfo, tid: Tid, pair: (Tid, Tid), link: Link)
    ensures Count(AggregateLink(info, tid, pair), Same(link)) == OneIf(AggregateLeads(info, tid, pair, link))
  {
    var other := if pair.1 == tid then pair.0 else pair.1;
    CountOne(("$" + info.name(other), other), link);
  }

  /** A link is followed once for each attribute, child and aggregation that leads along it. */
  lemma LinksCounted(info: TypeInfo, aggregates: Aggregates, tid: Tid, link: Link)
    ensures Count(LinksOf(info, aggregates)(tid), Same(link)) == LinkCount(info, aggregates, tid, link)
  {
    var a, b := AttributeLinks(info, info.attributes(tid)), ChildLinks(info, tid, info.registered);
    var c := AggregateLinks(info, tid, aggregates);
    CountAttributes(info, info.attributes(tid), link);
    CountChildren(info, tid, info.registered, link);
    CountAggregates(info, tid, aggregates, link);
    CountConcat(a, b, Same(link));
    CountConcat(a + b, c, Same(link));
  }

  lemma {:induction false} CountPositive<T>(xs: seq<T>, p: T -> bool)
    ensures Count(xs, p) > 0 <==> exists k :: 0 <= k < |xs| && p(xs[k])
  {
    if xs == [] {
    } else {
      var n := |xs| - 1;
      CountPositive(xs[..n], p);
      if k :| 0 <= k < n && p(xs[..n][k]) { assert p(xs[k]); }
      if k :| 0 <= k < |xs| && p(xs[k]) {
        if k < n { assert p(xs[..n][k]); }
      }
    }
  }

  /** The links of a type are these and no others. */
  lemma LinkIff(info: TypeInfo, aggregates: Aggregates, tid: Tid, link: Link)
    ensures link in LinksOf(info, aggregates)(tid) <==>
      || (exists i :: 0 <= i < |info.attributes(tid)| && AttributeLeads(info, info.attributes(tid)[i], link))
      || (exists j :: 0 <= j < |info.registered| && ChildLeads(info, tid, info.registered[j], link))
      || (exists k :: 0 <= k < |aggregates| && AggregateLeads(info, tid, aggregates[k], link))
  {
    LinksCounted(info, aggregates, tid, link);
    CountPositive(LinksOf(info, aggregates)(tid), Same(link));
    CountPositive(info.attributes(tid), (a: Attribute) => AttributeLeads(info, a, link));
    CountPositive(info.registered, (child: Tid) => ChildLeads(info, tid, child, link));
    CountPositive(aggregates, (pair: (Tid, Tid)) => AggregateLeads(info, tid, pair, link));
  }

  // ---------- how often each chain of links is walked ----------

  /** The links that a walk from tid takes. */
  ghost function ChainAlong(links: LinkMap, tid: Tid, walk: seq<nat>): seq<Link>
    decreases |walk|
  {
    if walk == [] || walk[0] >= |links(tid)| then []
    else [links(tid)[walk[0]]] + ChainAlong(links, links(tid)[walk[0]].1, walk[1..])
  }

  /** The chain leads from tid to types that are new each time. */
  ghost predicate Fresh(tid: Tid, chain: seq<Link>, seen: seq<Tid>)
    decreases |chain|
  {
    tid !in seen && (chain == [] || Fresh(chain[0].1, chain[1..], seen + [tid]))
  }

  ghost function TypesOf(tid: Tid, chain: seq<Link>): seq<Tid> {
    [tid] + seq(|chain|, i requires 0 <= i < |chain| => chain[i].1)
  }

  lemma {:induction false} FreshIff(tid: Tid, chain: seq<Link>, seen: seq<Tid>)
    ensures Fresh(tid, chain, seen) <==>
      Distinct(TypesOf(tid, chain)) && forall i :: 0 <= i < |TypesOf(tid, chain)| ==> TypesOf(tid, chain)[i] !in seen
    decreases |chain|
  {
    var types := TypesOf(tid, chain);
    assert types[0] == tid;
    if chain == [] {
    } else {
      var rest := TypesOf(chain[0].1, chain[1..]);
      FreshIff(chain[0].1, chain[1..], seen + [tid]);
      assert forall i :: 0 <= i < |rest| ==> rest[i] == types[i + 1];
      assert forall i :: 1 <= i < |types| ==> types[i] == rest[i - 1];
    }
  }

  ghost function Product(links: LinkMap, tid: Tid, chain: seq<Link>): nat
    decreases |chain|
  {
    if chain == [] then 1 else Count(links(tid), Same(chain[0])) * Product(links, chain[0].1, chain[1..])
  }

  /** Visits that come from here along the chain. */
  ghost function Along(links: LinkMap, here: Visit, chain: seq<Link>): Visit -> bool {
    (v: Visit) => |here.walk| <= |v.walk| && ChainAlong(links, here.end, v.walk[|here.walk|..]) == chain
  }

  lemma {:induction false} CountNone<T>(xs: seq<T>, p: T -> bool)
    requires forall k :: 0 <= k < |xs| ==> !p(xs[k])
    ensures Count(xs, p) == 0
  {
    if xs == [] {
    } else {
      CountNone(xs[..|xs| - 1], p);
    }
  }

  lemma {:induction false} CountSame<T>(xs: seq<T>, p: T -> bool, q: T -> bool)
    requires forall k :: 0 <= k < |xs| ==> p(xs[k]) == q(xs[k])
    ensures Count(xs, p) == Count(xs, q)
  {
    if xs == [] {
    } else {
      CountSame(xs[..|xs| - 1], p, q);
    }
  }

  /** Seen from here, a visit behind the k-th link has that link in front of its chain. */
  lemma AlongFollow(links: LinkMap, here: Visit, k: nat, walk: seq<nat>, chain: seq<Link>)
    requires k < |links(here.end)|
    ensures var v := Continue(links, Follow(links, here, k), walk);
      && v.walk == here.walk + [k] + walk
      && (Along(links, here, chain)(v) <==>
            chain != [] && chain[0] == links(here.end)[k] && Along(links, Follow(links, here, k), chain[1..])(v))
  {
    var v, next := Continue(links, Follow(links, here, k), walk), Follow(links, here, k);
    var link := links(here.end)[k];
    assert v.walk[|here.walk|..] == [k] + walk && v.walk[|next.walk|..] == walk;
    assert ([k] + walk)[1..] == walk;
    var rest := ChainAlong(links, link.1, walk);
    assert ChainAlong(links, here.end, [k] + walk) == [link] + rest;
    if chain != [] { assert chain == [chain[0]] + chain[1..]; }
  }

  lemma CountBlock(links: LinkMap, types: set<Tid>, here: Visit, seen: seq<Tid>, k: nat, chain: seq<Link>)
    requires Closed(links, types) && here.end in types && here.end !in seen && k < |links(here.end)|
    ensures var next, block := Follow(links, here, k), Visits(links, types, Follow(links, here, k), seen + [here.end]);
      Count(block, Along(links, here, chain)) ==
        if chain != [] && chain[0] == links(here.end)[k] then Count(block, Along(links, next, chain[1..])) else 0
  {
    var next, block := Follow(links, here, k), Visits(links, types, Follow(links, here, k), seen + [here.end]);
    forall i | 0 <= i < |block|
      ensures Along(links, here, chain)(block[i]) <==>
        chain != [] && chain[0] == links(here.end)[k] && Along(links, next, chain[1..])(block[i])
    {
      var walk := VisitsSound(links, types, next, seen + [here.end], i);
      AlongFollow(links, here, k, walk, chain);
    }
    if chain != [] && chain[0] == links(here.end)[k] {
      CountSame(block, Along(links, here, chain), Along(links, next, chain[1..]));
    } else {
      CountNone(block, Along(links, here, chain));
    }
  }

  /** From here, each chain to new types is walked once per choice of parallel links. */
  lemma {:induction false} ChainsCounted(links: LinkMap, types: set<Tid>, here: Visit, seen: seq<Tid>,
                                         chain: seq<Link>)
    requires Closed(links, types) && here.end in types
    ensures Count(Visits(links, types, here, seen), Along(links, here, chain))
      == if Fresh(here.end, chain, seen) then Product(links, here.end, chain) else 0
    decreases |Unseen(types, seen)|, 1, 0
  {
    if here.end !in seen {
      var n := |links(here.end)|;
      var via := VisitsVia(links, types, here, seen, n);
      ChainsVia(links, types, here, seen, n, chain);
      CountConcat([here], via, Along(links, here, chain));
      CountHere(links, here, chain);
      assert links(here.end)[..n] == links(here.end);
    }
  }

  lemma CountHere(links: LinkMap, here: Visit, chain: seq<Link>)
    ensures Count([here], Along(links, here, chain)) == OneIf(chain == [])
  {
    assert [here][..0] == [];
    assert here.walk[|here.walk|..] == [];
  }

  lemma {:induction false} ChainsVia(links: LinkMap, types: set<Tid>, here: Visit, seen: seq<Tid>, n: nat,
                                     chain: seq<Link>)
    requires Closed(links, types) && here.end in types && here.end !in seen && n <= |links(here.end)|
    ensures Count(VisitsVia(links, types, here, seen, n), Along(links, here, chain)) ==
      if chain != [] && Fresh(chain[0].1, chain[1..], seen + [here.end])
      then Count(links(here.end)[..n], Same(chain[0])) * Product(links, chain[0].1, chain[1..]) else 0
    decreases |Unseen(types, seen)|, 0, n
  {
    if n == 0 {
    } else {
      FewerUnseen(types, seen, here.end);
      var next := Follow(links, here, n - 1);
      ChainsVia(links, types, here, seen, n - 1, chain);
      CountConcat(VisitsVia(links, types, here, seen, n - 1), Visits(links, types, next, seen + [here.end]),
                  Along(links, here, chain));
      CountBlock(links, types, here, seen, n - 1, chain);
      if chain != [] {
        ChainsCounted(links, types, next, seen + [here.end], chain[1..]);
        OneMoreLink(links(here.end), n, chain[0], Product(links, chain[0].1, chain[1..]));
      }
    }
  }

  lemma OneMoreLink(all: seq<Link>, n: nat, link: Link, ways: nat)
    requires 0 < n <= |all|
    ensures Count(all[..n], Same(link)) * ways
      == Count(all[..n - 1], Same(link)) * ways + (if all[n - 1] == link then ways else 0)
  {
    assert all[..n] == all[..n - 1] + [all[n - 1]];
    CountSnoc(all[..n - 1], all[n - 1], Same(link));
  }

  /** In how many ways the chain can be walked, by the type information itself. */
  ghost function Ways(info: TypeInfo, aggregates: Aggregates, tid: Tid, chain: seq<Link>): nat
    decreases |chain|
  {
    if chain == [] then 1
    else LinkCount(info, aggregates, tid, chain[0]) * Ways(info, aggregates, chain[0].1, chain[1..])
  }

  lemma {:induction false} WaysAreProducts(info: TypeInfo, aggregates: Aggregates, tid: Tid, chain: seq<Link>)
    ensures Product(LinksOf(info, aggregates), tid, chain) == Ways(info, aggregates, tid, chain)
    decreases |chain|
  {
    if chain == [] {
    } else {
      WaysAreProducts(info, aggregates, chain[0].1, chain[1..]);
      LinksCounted(info, aggregates, tid, chain[0]);
    }
  }

  /** The visits that DoGather makes from tid along each chain of links. */
  lemma WalkedOften(info: TypeInfo, aggregates: Aggregates, types: set<Tid>, tid: Tid, chain: seq<Link>)
    requires Closed(LinksOf(info, aggregates), types) && tid in types
    ensures var links, start := LinksOf(info, aggregates), Visit([], tid, []);
      Count(Visits(links, types, start, []), Along(links, start, chain))
        == if Distinct(TypesOf(tid, chain)) then Ways(info, aggregates, tid, chain) else 0
  {
    ChainsCounted(LinksOf(info, aggregates), types, Visit([], tid, []), [], chain);
    FreshIff(tid, chain, []);
    WaysAreProducts(info, aggregates, tid, chain);
  }

  // ---------- what is recorded of a chain ----------

  ghost function LabelsOf(chain: seq<Link>): seq<string> {
    seq(|chain|, i requires 0 <= i < |chain| => chain[i].0)
  }

  /** The labels, each after a slash. */
  ghost function PathText(labels: seq<string>): string {
    if labels == [] then "" else "/" + labels[0] + PathText(labels[1..])
  }

  /** The type at the end of the chain, and the path to it. */
  ghost function RecordOf(tid: Tid, chain: seq<Link>): (Tid, string) {
    (if chain == [] then tid else chain[|chain| - 1].1, PathText(LabelsOf(chain)))
  }

  lemma {:induction false} PathTextSnoc(labels: seq<string>, last: string)
    ensures PathText(labels + [last]) == PathText(labels) + "/" + last
  {
    if labels == [] {
      assert [last][1..] == [];
    } else {
      assert (labels + [last])[1..] == labels[1..] + [last];
      PathTextSnoc(labels[1..], last);
    }
  }

  lemma {:induction false} PathStringIs(labels: seq<string>)
    ensures PathString(labels) == PathText(labels)
  {
    if labels == [] {
    } else {
      PathStringIs(labels[..|labels| - 1]);
      PathTextSnoc(labels[..|labels| - 1], labels[|labels| - 1]);
      FrontLast(labels);
    }
  }

  lemma {:induction false} WalkAndChain(links: LinkMap, tid: Tid, walk: seq<nat>)
    ensures TypesAlong(links, tid, walk) == TypesOf(tid, ChainAlong(links, tid, walk))
    ensures LabelsAlong(links, tid, walk) == LabelsOf(ChainAlong(links, tid, walk))
    decreases |walk|
  {
    if walk == [] || walk[0] >= |links(tid)| {
    } else {
      WalkAndChain(links, links(tid)[walk[0]].1, walk[1..]);
    }
  }

  lemma RecordOfVisit(links: LinkMap, tid: Tid, walk: seq<nat>)
    ensures var v := VisitOf(links, tid, walk);
      (v.end, PathString(v.labels)) == RecordOf(tid, ChainAlong(links, tid, walk))
  {
    var chain := ChainAlong(links, tid, walk);
    WalkAndChain(links, tid, walk);
    PathStringIs(LabelsOf(chain));
    assert [] + LabelsAlong(links, tid, walk) == LabelsOf(chain);
  }

  ghost function ChainsOf(links: LinkMap, tid: Tid, visits: seq<Visit>): seq<seq<Link>> {
    seq(|visits|, i requires 0 <= i < |visits| => ChainAlong(links, tid, visits[i].walk))
  }

  ghost function Equals(chain: seq<Link>): seq<Link> -> bool {
    c => c == chain
  }

  lemma {:induction false} CountChains(links: LinkMap, tid: Tid, visits: seq<Visit>, chain: seq<Link>)
    ensures Count(ChainsOf(links, tid, visits), Equals(chain)) == Count(visits, Along(links, Visit([], tid, []), chain))
  {
    if visits == [] {
    } else {
      var n := |visits| - 1;
      CountChains(links, tid, visits[..n], chain);
      assert ChainsOf(links, tid, visits)[..n] == ChainsOf(links, tid, visits[..n]);
      assert visits[n].walk[0..] == visits[n].walk;
    }
  }

  // ---------- the search itself ----------

  function PathString(labels: seq<string>): string {
    if labels == [] then "" else PathString(labels[..|labels| - 1]) + "/" + labels[|labels| - 1]
  }

  ghost function Records(visits: seq<Visit>): seq<(Tid, string)> {
    seq(|visits|, i requires 0 <= i < |visits| => (visits[i].end, PathString(visits[i].labels)))
  }

  lemma RecordsConcat(a: seq<Visit>, b: seq<Visit>)
    ensures Records(a + b) == Records(a) + Records(b)
  {}

  lemma RecordsHereFirst(links: LinkMap, types: set<Tid>, here: Visit, seen: seq<Tid>, out: seq<(Tid, string)>)
    requires Closed(links, types) && here.end in types && here.end !in seen
    ensures out + [(here.end, PathString(here.labels))]
        + Records(VisitsVia(links, types, here, seen, |links(here.end)|))
      == out + Records(Visits(links, types, here, seen))
  {
    RecordsConcat([here], VisitsVia(links, types, here, seen, |links(here.end)|));
    assert Records([here]) == [(here.end, PathString(here.labels))];
  }

  class StaticInformation {
    const info: TypeInfo
    var output: seq<(Tid, string)>
    var currentPath: seq<string>
    var alreadyProcessed: seq<Tid>
    var aggregates: Aggregates

    constructor (info: TypeInfo)
      ensures this.info == info
      ensures output == [] && currentPath == [] && alreadyProcessed == [] && aggregates == []
    {
      this.info := info;
      output, currentPath, alreadyProcessed, aggregates := [], [], [], [];
    }

    ghost function Links(): LinkMap
      reads this
    {
      LinksOf(info, aggregates)
    }

    method GetCurrentPath() returns (path: string)
      ensures path == PathString(currentPath)
    {
      path := "";
      for i := 0 to |currentPath|
        invariant path == PathString(currentPath[..i])
      {
        assert currentPath[..i + 1][..i] == currentPath[..i];
        path := path + "/" + currentPath[i];
      }
      assert currentPath[..|currentPath|] == currentPath;
    }

    method HasAlreadyBeenProcessed(tid: Tid) returns (found: bool)
      ensures found <==> tid in alreadyProcessed
    {
      for i := 0 to |alreadyProcessed|
        invariant tid !in alreadyProcessed[..i]
      {
        if alreadyProcessed[i] == tid {
          return true;
        }
      }
      return false;
    }

    method RecordOutput(tid: Tid)
      modifies this`output
      ensures output == old(output) + [(tid, PathString(currentPath))]
    {
      var path := GetCurrentPath();
      output := output + [(tid, path)];
    }

    /** Follow one link: push on both stacks, gather, pop both. */
    method FollowLink(tid: Tid, name: string, next: Tid, ghost types: set<Tid>, ghost here: Visit, ghost k: nat)
      requires Closed(Links(), types) && tid in types && tid !in alreadyProcessed
      requires here.end == tid && here.labels == currentPath
      requires k < |Links()(tid)| && Links()(tid)[k] == (name, next)
      modifies this`output, this`currentPath, this`alreadyProcessed
      ensures currentPath == old(currentPath) && alreadyProcessed == old(alreadyProcessed)
      ensures output == old(output)
        + Records(Visits(Links(), types, Follow(Links(), here, k), old(alreadyProcessed) + [tid]))
      decreases |Unseen(types, alreadyProcessed)|, 0
    {
      FewerUnseen(types, alreadyProcessed, tid);
      currentPath := currentPath + [name];
      alreadyProcessed := alreadyProcessed + [tid];
      DoGather(next, types, Follow(Links(), here, k));
      alreadyProcessed := alreadyProcessed[..|alreadyProcessed| - 1];
      currentPath := currentPath[..|currentPath| - 1];
    }

    /** The state between two links: the first n have been followed. */
    ghost predicate Followed(links: LinkMap, types: set<Tid>, here: Visit, seen: seq<Tid>, n: nat,
                             before: seq<(Tid, string)>)
      reads this
    {
      && Closed(links, types) && here.end in types && here.end !in seen && n <= |links(here.end)|
      && Links() == links && currentPath == here.labels && alreadyProcessed == seen
      && output == before + Records(VisitsVia(links, types, here, seen, n))
    }

    method FollowNext(tid: Tid, name: string, next: Tid, ghost links: LinkMap, ghost types: set<Tid>, ghost here: Visit,
                      ghost seen: seq<Tid>, ghost n: nat, ghost before: seq<(Tid, string)>)
      requires Followed(links, types, here, seen, n, before) && here.end == tid
      requires n < |links(tid)| && links(tid)[n] == (name, next)
      modifies this`output, this`currentPath, this`alreadyProcessed
      ensures Followed(links, types, here, seen, n + 1, before)
      decreases |Unseen(types, alreadyProcessed)|, 1
    {
      FollowLink(tid, name, next, types, here, n);
      RecordsConcat(VisitsVia(links, types, here, seen, n),
                    Visits(links, types, Follow(links, here, n), seen + [tid]));
    }

    method GatherAttributes(tid: Tid, ghost links: LinkMap, ghost types: set<Tid>, ghost here: Visit,
                            ghost seen: seq<Tid>, ghost before: seq<(Tid, string)>)
      requires Followed(links, types, here, seen, 0, before) && here.end == tid
      modifies this`output, this`currentPath, this`alreadyProcessed
      ensures Followed(links, types, here, seen, ChildrenUpTo(info, tid, 0), before)
      decreases |Unseen(types, alreadyProcessed)|, 3
    {
      UpToEnds(info, tid, aggregates);
      var attributes := info.attributes(tid);
      for i := 0 to |attributes|
        invariant Followed(links, types, here, seen, AttributesUpTo(info, tid, i), before)
      {
        AttributeLinkAt(info, aggregates, tid, i);
        FollowAttribute(tid, attributes[i], links, types, here, seen, AttributesUpTo(info, tid, i),
                        AttributesUpTo(info, tid, i + 1), before);
      }
    }

    method FollowAttribute(tid: Tid, a: Attribute, ghost links: LinkMap, ghost types: set<Tid>, ghost here: Visit,
                           ghost seen: seq<Tid>, ghost n: nat, ghost n': nat, ghost before: seq<(Tid, string)>)
      requires Followed(links, types, here, seen, n, before) && here.end == tid
      requires NextLinks(links(tid), n, AttributeLink(info, a), n')
      modifies this`output, this`currentPath, this`alreadyProcessed
      ensures Followed(links, types, here, seen, n', before)
      decreases |Unseen(types, alreadyProcessed)|, 2
    {
      match a {
        case Pointer(name, pointee) =>
          if pointee != info.objectTid {
            FollowNext(tid, name, pointee, links, types, here, seen, n, before);
          }
        case Container(name, item) =>
          FollowNext(tid, name + "/[i]", item, links, types, here, seen, n, before);
        case Other(_) =>
      }
    }

    method GatherChildren(tid: Tid, ghost links: LinkMap, ghost types: set<Tid>, ghost here: Visit,
                          ghost seen: seq<Tid>, ghost before: seq<(Tid, string)>)
      requires Followed(links, types, here, seen, ChildrenUpTo(info, tid, 0), before) && here.end == tid
      modifies this`output, this`currentPath, this`alreadyProcessed
      ensures Followed(links, types, here, seen, AggregatesUpTo(info, tid, aggregates, 0), before)
      decreases |Unseen(types, alreadyProcessed)|, 3
    {
      UpToEnds(info, tid, aggregates);
      for j := 0 to |info.registered|
        invariant Followed(links, types, here, seen, ChildrenUpTo(info, tid, j), before)
      {
        ChildLinkAt(info, aggregates, tid, j);
        FollowChild(tid, info.registered[j], links, types, here, seen, ChildrenUpTo(info, tid, j),
                    ChildrenUpTo(info, tid, j + 1), before);
      }
    }

    method FollowChild(tid: Tid, child: Tid, ghost links: LinkMap, ghost types: set<Tid>, ghost here: Visit,
                       ghost seen: seq<Tid>, ghost n: nat, ghost n': nat, ghost before: seq<(Tid, string)>)
      requires Followed(links, types, here, seen, n, before) && here.end == tid
      requires NextLinks(links(tid), n, ChildLink(info, tid, child), n')
      modifies this`output, this`currentPath, this`alreadyProcessed
      ensures Followed(links, types, here, seen, n', before)
      decreases |Unseen(types, alreadyProcessed)|, 2
    {
      if info.isChildOf(child, tid) {
        FollowNext(tid, "$" + info.name(child), child, links, types, here, seen, n, before);
      }
    }

    method GatherAggregates(tid: Tid, ghost links: LinkMap, ghost types: set<Tid>, ghost here: Visit,
                            ghost seen: seq<Tid>, ghost before: seq<(Tid, string)>)
      requires Followed(links, types, here, seen, AggregatesUpTo(info, tid, aggregates, 0), before) && here.end == tid
      modifies this`output, this`currentPath, this`alreadyProcessed
      ensures Followed(links, types, here, seen, |links(tid)|, before)
      decreases |Unseen(types, alreadyProcessed)|, 3
    {
      var all := aggregates;
      UpToEnds(info, tid, all);
      for k := 0 to |all|
        invariant aggregates == all
        invariant Followed(links, types, here, seen, AggregatesUpTo(info, tid, all, k), before)
      {
        AggregateLinkAt(info, all, tid, k);
        FollowAggregate(tid, all[k], links, types, here, seen, AggregatesUpTo(info, tid, all, k),
                        AggregatesUpTo(info, tid, all, k + 1), before);
      }
    }

    method FollowAggregate(tid: Tid, pair: (Tid, Tid), ghost links: LinkMap, ghost types: set<Tid>, ghost here: Visit,
                           ghost seen: seq<Tid>, ghost n: nat, ghost n': nat, ghost before: seq<(Tid, string)>)
      requires Followed(links, types, here, seen, n, before) && here.end == tid
      requires NextLinks(links(tid), n, AggregateLink(info, tid, pair), n')
      modifies this`output, this`currentPath, this`alreadyProcessed
      ensures Followed(links, types, here, seen, n', before)
      decreases |Unseen(types, alreadyProcessed)|, 2
    {
      if pair.0 == tid || pair.1 == tid {
        var other := pair.1;
        if pair.1 == tid {
          other := pair.0;
        }
        FollowNext(tid, "$" + info.name(other), other, links, types, here, seen, n, before);
      }
    }

    /** Records one (type, path) entry per visit and leaves both stacks as they were. */
    method DoGather(tid: Tid, ghost types: set<Tid>, ghost here: Visit)
      requires Closed(Links(), types) && tid in types
      requires here.end == tid && here.labels == currentPath
      modifies this`output, this`currentPath, this`alreadyProcessed
      ensures currentPath == old(currentPath) && alreadyProcessed == old(alreadyProcessed)
      ensures output == old(output) + Records(Visits(Links(), types, here, old(alreadyProcessed)))
      decreases |Unseen(types, alreadyProcessed)|, 4
    {
      var done := HasAlreadyBeenProcessed(tid);
      if done {
        return;
      }
      ghost var links, seen := Links(), alreadyProcessed;
      RecordOutput(tid);
      ghost var before := output;
      GatherAttributes(tid, links, types, here, seen, before);
      GatherChildren(tid, links, types, here, seen, before);
      GatherAggregates(tid, links, types, here, seen, before);
      RecordsHereFirst(links, types, here, seen, old(output));
    }

    /** Gather: Uniquefy works on a copy of the output and leaves it alone. The
        paths recorded are those of the simple walks from tid, one for each: each chain
        of links to new types once for every way of walking it. */
    method Gather(tid: Tid, ghost types: set<Tid>) returns (ghost visits: seq<Visit>, ghost chains: seq<seq<Link>>)
      requires Closed(Links(), types) && tid in types
      requires currentPath == [] && alreadyProcessed == []
      modifies this`output, this`currentPath, this`alreadyProcessed
      ensures currentPath == [] && alreadyProcessed == []
      ensures output == old(output) + Records(visits)
      ensures forall i :: 0 <= i < |visits| ==>
        SimpleWalk(Links(), tid, visits[i].walk) && visits[i] == VisitOf(Links(), tid, visits[i].walk)
      ensures forall i, j :: 0 <= i < j < |visits| ==> visits[i].walk != visits[j].walk
      ensures forall walk :: SimpleWalk(Links(), tid, walk) ==> VisitOf(Links(), tid, walk) in visits
      ensures |output| == old(|output|) + |chains| && output[..old(|output|)] == old(output)
      ensures forall i :: 0 <= i < |chains| ==> output[old(|output|) + i] == RecordOf(tid, chains[i])
      ensures forall chain ::
        Count(chains, Equals(chain)) == if Distinct(TypesOf(tid, chain)) then Ways(info, aggregates, tid, chain) else 0
    {
      ghost var links := Links();
      visits := Visits(links, types, Visit([], tid, []), []);
      chains := ChainsOf(links, tid, visits);
      OneVisitPerWalk(links, types, tid);
      DoGather(tid, types, Visit([], tid, []));
      forall i | 0 <= i < |chains| ensures Records(visits)[i] == RecordOf(tid, chains[i]) {
        RecordOfVisit(links, tid, visits[i].walk);
      }
      forall chain ensures Count(chains, Equals(chain))
        == if Distinct(TypesOf(tid, chain)) then Ways(info, aggregates, tid, chain) else 0
      {
        WalkedOften(info, aggregates, types, tid, chain);
        CountChains(links, tid, visits, chain);
      }
    }
  }
}
