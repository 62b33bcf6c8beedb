/** Pipeline.run against the pipelines and AND-OR lists of the POSIX.1-2017 Shell Command Language. */
module PosixLists {
  import opened Common
  import opened ShellParse
  import opened ShellRun

  // The POSIX side (sections 2.9.2 and 2.9.3) is defined on the node list itself: cd is
  // a command like any other, with status 0, and the && after it counts.

  /** The node list by pipelines: each is the list of the positions of its items. */
  datatype AndOr = One(items: seq<nat>) | Chain(items: seq<nat>, op: Node, rest: AndOr)

  /** What can be seen from outside: each process that is started, with its
      directory and what its standard input is, and each process that is waited for. */
  datatype Source = Inherited | Fed(command: nat) | Named(file: string)
  datatype Seen = Started(command: nat, cwd: seq<string>, input: Source) | Ended(command: nat)

  datatype Finished = Finished(seen: seq<Seen>, status: int)

  // ---------- pipelines ----------

  function Prepend(i: nat, list: AndOr): AndOr {
    match list
    case One(items) => One([i] + items)
    case Chain(items, op, rest) => Chain([i] + items, op, rest)
  }

  function ListFrom(nodes: seq<Node>, i: nat): AndOr
    requires ItemsFrom(nodes, i)
    decreases |nodes| - i
  {
    if i + 1 == |nodes| then One([i])
    else if nodes[i + 1] == Pipe then Prepend(i, ListFrom(nodes, i + 2))
    else Chain([i], nodes[i + 1], ListFrom(nodes, i + 2))
  }

  /** A pipeline consists of commands; only its last item may be a cd. */
  predicate GoodPipeline(nodes: seq<Node>, items: seq<nat>) {
    && items != []
    && (forall k :: 0 <= k < |items| ==> items[k] < |nodes|)
    && (forall k :: 0 <= k < |items| - 1 ==> nodes[items[k]].Command?)
    && (nodes[Final(items)].Command? || nodes[Final(items)].Chdir?)
  }

  predicate GoodList(nodes: seq<Node>, list: AndOr) {
    && GoodPipeline(nodes, list.items)
    && (list.Chain? ==> list.op in [And, Or] && GoodList(nodes, list.rest))
  }

  function Final(items: seq<nat>): nat
    requires items != []
  {
    items[|items| - 1]
  }

  lemma {:induction false} ListIsGood(nodes: seq<Node>, i: nat)
    requires ItemsFrom(nodes, i)
    ensures GoodList(nodes, ListFrom(nodes, i))
    decreases |nodes| - i
  {
    if i + 1 == |nodes| {
    } else {
      ListIsGood(nodes, i + 2);
      if nodes[i + 1] == Pipe { PrependIsGood(nodes, i, ListFrom(nodes, i + 2)); }
    }
  }

  lemma PrependIsGood(nodes: seq<Node>, i: nat, list: AndOr)
    requires GoodList(nodes, list) && i < |nodes| && nodes[i].Command?
    ensures GoodList(nodes, Prepend(i, list))
  {
    var items := Prepend(i, list).items;
    assert forall k :: 1 <= k < |items| ==> items[k] == list.items[k - 1];
  }

  // ---------- what POSIX prescribes ----------

  predicate Commands(nodes: seq<Node>, items: seq<nat>) {
    forall k :: 0 <= k < |items| ==> items[k] < |nodes| && nodes[items[k]].Command?
  }

  /** A redirection of standard input takes effect after the pipe is connected. */
  function PosixInput(c: Node, previous: Option<nat>): Source
    requires c.Command?
  {
    if c.stdin.Some? then Named(c.stdin.value) else if previous.Some? then Fed(previous.value) else Inherited
  }

  function FedBy(items: seq<nat>): Option<nat> {
    if items == [] then None else Some(Final(items))
  }

  /** The commands of a pipeline: a cd starts no process. */
  function Processes(nodes: seq<Node>, items: seq<nat>): seq<nat>
    requires GoodPipeline(nodes, items)
  {
    if nodes[Final(items)].Chdir? then items[..|items| - 1] else items
  }

  ghost function PosixStarts(nodes: seq<Node>, items: seq<nat>, cwd: seq<string>): seq<Seen>
    requires Commands(nodes, items)
  {
    if items == [] then []
    else
      var front, k := items[..|items| - 1], Final(items);
      PosixStarts(nodes, front, cwd) + [Started(k, cwd, PosixInput(nodes[k], FedBy(front)))]
  }

  ghost function PosixEnds(items: seq<nat>): seq<Seen> {
    if items == [] then [] else PosixEnds(items[..|items| - 1]) + [Ended(Final(items))]
  }

  ghost function PosixHere(nodes: seq<Node>, items: seq<nat>, cwd: seq<string>): seq<Seen>
    requires GoodPipeline(nodes, items)
  {
    PosixStarts(nodes, Processes(nodes, items), cwd) + PosixEnds(Processes(nodes, items))
  }

  function PosixStatus(nodes: seq<Node>, items: seq<nat>, status: nat -> int): int
    requires GoodPipeline(nodes, items)
  {
    if nodes[Final(items)].Chdir? then 0 else status(Final(items))
  }

  /** Only a cd outside of a longer pipeline changes the directory of what follows;
      without a directory it goes home. */
  function DirAfter(nodes: seq<Node>, items: seq<nat>, cwd: seq<string>, home: string): seq<string>
    requires GoodPipeline(nodes, items)
  {
    if |items| > 1 then cwd
    else match nodes[items[0]]
      case Chdir(Some(d)) => cwd + [d]
      case Chdir(None) => cwd + [home]
      case _ => cwd
  }

  predicate Proceeds(op: Node, status: int) {
    if op == And then status == 0 else status != 0
  }

  /** && and || have equal precedence and associate to the left, so a pipeline that
      is skipped (runs is false) passes the status last on to the operator after it. */
  ghost function Posix(nodes: seq<Node>, list: AndOr, runs: bool, last: int, cwd: seq<string>, status: nat -> int,
                       home: string): Finished
    requires GoodList(nodes, list)
    decreases list
  {
    var now := if runs then PosixStatus(nodes, list.items, status) else last;
    var dir := if runs then DirAfter(nodes, list.items, cwd, home) else cwd;
    var here := if runs then PosixHere(nodes, list.items, cwd) else [];
    match list
    case One(_) => Finished(here, now)
    case Chain(_, op, rest) =>
      var then' := Posix(nodes, rest, Proceeds(op, now), now, dir, status, home);
      Finished(here + then'.seen, then'.status)
  }

  // ---------- when run does the same ----------

  /** Nothing but cd's. */
  predicate OnlyCds(nodes: seq<Node>, list: AndOr)
    requires GoodList(nodes, list)
    decreases list
  {
    && |list.items| == 1 && nodes[list.items[0]].Chdir?
    && (list.Chain? ==> list.op == And && OnlyCds(nodes, list.rest))
  }

  /** After op has stopped the list, no other operator follows that would start a
      process or change the status; only an && before nothing but cd's does neither. */
  predicate SkipsRest(nodes: seq<Node>, list: AndOr, op: Node)
    requires GoodList(nodes, list)
    decreases list
  {
    match list
    case One(_) => true
    case Chain(_, next, rest) => if next == op then SkipsRest(nodes, rest, op) else op == Or && OnlyCds(nodes, rest)
  }

  /** No command that a pipe feeds names an input file. */
  predicate InputsFromPipes(nodes: seq<Node>, items: seq<nat>)
    requires Commands(nodes, items)
  {
    forall k :: 1 <= k < |items| ==> nodes[items[k]].stdin.None?
  }

  /** Each cd that is reached names a directory, is followed by something and is not
      part of a longer pipeline; no command that is reached has both a pipe and a
      file to read from; and where run stops, POSIX skips the rest. */
  predicate LikePosix(nodes: seq<Node>, list: AndOr, status: nat -> int)
    requires GoodList(nodes, list)
    decreases list
  {
    var k := Final(list.items);
    if nodes[k].Chdir? then
      |list.items| == 1 && nodes[k].dir.Some? && list.Chain? && LikePosix(nodes, list.rest, status)
    else
      && InputsFromPipes(nodes, list.items)
      && (list.Chain? ==>
            if Stops(list.op, status(k)) then SkipsRest(nodes, list.rest, list.op)
            else LikePosix(nodes, list.rest, status))
  }

  // ---------- what can be seen of a run ----------

  ghost function InputSeen(e: Event): Source
    requires e.Launch?
  {
    match e.stdin
    case InheritIn => Inherited
    case FromPipe(k) => Fed(k)
    case FromFile(_) => if e.opens == [] then Inherited else Named(e.opens[0].name)
  }

  ghost function Look(e: Event): seq<Seen> {
    match e
    case Launch(k, _, _, _, _, cwd) => [Started(k, cwd, InputSeen(e))]
    case Wait(k) => [Ended(k)]
    case Close(_) => []
  }

  ghost function Visible(log: seq<Event>): seq<Seen> {
    if log == [] then [] else Visible(log[..|log| - 1]) + Look(log[|log| - 1])
  }

  function RunInput(c: Node, previous: Option<nat>): Source
    requires c.Command?
  {
    if previous.Some? then Fed(previous.value) else if c.stdin.Some? then Named(c.stdin.value) else Inherited
  }

  ghost function StartsOf(nodes: seq<Node>, segment: seq<Member>): seq<Seen>
    requires ValidMembers(nodes, segment)
  {
    if segment == [] then []
    else
      var front, m := segment[..|segment| - 1], segment[|segment| - 1];
      StartsOf(nodes, front) + [Started(m.command, m.cwd, RunInput(nodes[m.command], Previous(front)))]
  }

  ghost function EndsOf(segment: seq<Member>): seq<Seen> {
    if segment == [] then []
    else EndsOf(segment[..|segment| - 1]) + [Ended(segment[|segment| - 1].command)]
  }

  ghost function RunSeen(nodes: seq<Node>, script: Script, status: nat -> int): seq<Seen>
    requires GoodScript(nodes, script)
  {
    match script
    case Last(segment) => StartsOf(nodes, segment) + EndsOf(segment)
    case Then(segment, op, rest) =>
      StartsOf(nodes, segment) + EndsOf(segment)
        + (if Stops(op, StatusOf(segment, status)) then [] else RunSeen(nodes, rest, status))
    case Broken(segment) => StartsOf(nodes, segment)
  }

  lemma {:induction false} VisibleConcat(a: seq<Event>, b: seq<Event>)
    ensures Visible(a + b) == Visible(a) + Visible(b)
    decreases |b|
  {
    if b == [] {
      assert a + b == a;
    } else {
      var n := |b| - 1;
      assert (a + b)[..|a + b| - 1] == a + b[..n];
      VisibleConcat(a, b[..n]);
    }
  }

  lemma LaunchSeen(m: Member, c: Node, previous: Option<nat>, h: Handle)
    requires c.Command?
    ensures Look(LaunchOf(m, c, previous, h)) == [Started(m.command, m.cwd, RunInput(c, previous))]
  {}

  lemma {:induction false} VisibleLaunches(nodes: seq<Node>, segment: seq<Member>, h: Handle)
    requires ValidMembers(nodes, segment)
    ensures Visible(SegmentLaunches(nodes, segment, h)) == StartsOf(nodes, segment)
  {
    if segment == [] {
    } else {
      var front, m := segment[..|segment| - 1], segment[|segment| - 1];
      var h' := HandlesAfter(nodes, front, h);
      VisibleLaunches(nodes, front, h);
      LaunchSeen(m, nodes[m.command], Previous(front), h');
      VisibleSnoc(SegmentLaunches(nodes, front, h), LaunchOf(m, nodes[m.command], Previous(front), h'));
    }
  }

  lemma VisibleSnoc(log: seq<Event>, e: Event)
    ensures Visible(log + [e]) == Visible(log) + Look(e)
  {
    assert (log + [e])[..|log|] == log;
  }

  lemma {:induction false} VisibleWaits(segment: seq<Member>)
    ensures Visible(Waits(segment)) == EndsOf(segment)
  {
    if segment == [] {
    } else {
      var n := |segment| - 1;
      VisibleWaits(segment[..n]);
      VisibleSnoc(Waits(segment[..n]), Wait(segment[n].command));
      assert Waits(segment) == Waits(segment[..n]) + [Wait(segment[n].command)];
    }
  }

  lemma {:induction false} VisibleCloses(h: Handle, n: nat)
    ensures Visible(Closes(h, n)) == []
  {
    if n == 0 {
    } else {
      VisibleCloses(h, n - 1);
      assert Closes(h, n)[..n - 1] == Closes(h, n - 1);
    }
  }

  lemma VisibleSegment(nodes: seq<Node>, segment: seq<Member>, h: Handle)
    requires ValidMembers(nodes, segment)
    ensures Visible(SegmentEvents(nodes, segment, h)) == StartsOf(nodes, segment) + EndsOf(segment)
  {
    HandlesGrow(nodes, segment, h);
    var n := HandlesAfter(nodes, segment, h) - h;
    VisibleLaunches(nodes, segment, h);
    VisibleWaits(segment);
    VisibleCloses(h, n);
    VisibleConcat(SegmentLaunches(nodes, segment, h), Waits(segment));
    VisibleConcat(SegmentLaunches(nodes, segment, h) + Waits(segment), Closes(h, n));
  }

  lemma {:induction false} VisibleEvents(nodes: seq<Node>, script: Script, status: nat -> int, h: Handle)
    requires GoodScript(nodes, script)
    ensures Visible(EventsOf(nodes, script, status, h)) == RunSeen(nodes, script, status)
    decreases script
  {
    match script
    case Last(segment) => VisibleSegment(nodes, segment, h);
    case Then(segment, op, rest) =>
      VisibleSegment(nodes, segment, h);
      if Stops(op, StatusOf(segment, status)) {
        assert SegmentEvents(nodes, segment, h) + [] == SegmentEvents(nodes, segment, h);
      } else {
        var h' := HandlesAfter(nodes, segment, h);
        VisibleEvents(nodes, rest, status, h');
        VisibleConcat(SegmentEvents(nodes, segment, h), EventsOf(nodes, rest, status, h'));
      }
    case Broken(segment) => VisibleLaunches(nodes, segment, h);
  }

  // ---------- the script that run follows, by pipelines ----------

  ghost function MembersOf(items: seq<nat>, cwd: seq<string>): seq<Member> {
    if items == [] then [] else MembersOf(items[..|items| - 1], cwd) + [Member(Final(items), cwd)]
  }

  ghost function ScriptOf(nodes: seq<Node>, list: AndOr, before: seq<Member>, cwd: seq<string>): Script
    requires GoodList(nodes, list)
    decreases list
  {
    var k := Final(list.items);
    var segment := before + MembersOf(Processes(nodes, list.items), cwd);
    if nodes[k].Chdir? then
      if list.One? || nodes[k].dir.None? then Broken(segment)
      else ScriptOf(nodes, list.rest, segment, cwd + [nodes[k].dir.value])
    else match list
      case One(_) => Last(segment)
      case Chain(_, op, rest) => Then(segment, op, ScriptOf(nodes, rest, [], cwd))
  }

  lemma {:induction false} MembersPrepend(i: nat, items: seq<nat>, cwd: seq<string>)
    ensures MembersOf([i] + items, cwd) == [Member(i, cwd)] + MembersOf(items, cwd)
  {
    if items == [] {
      assert MembersOf([i], cwd) == MembersOf([], cwd) + [Member(i, cwd)] by { assert [i][..0] == []; }
      assert [i] + items == [i];
    } else {
      var front := items[..|items| - 1];
      assert ([i] + items)[..|items|] == [i] + front;
      MembersPrepend(i, front, cwd);
    }
  }

  lemma PrependScript(nodes: seq<Node>, i: nat, list: AndOr, before: seq<Member>, cwd: seq<string>)
    requires GoodList(nodes, list) && i < |nodes| && nodes[i].Command?
    ensures GoodList(nodes, Prepend(i, list))
    ensures ScriptOf(nodes, Prepend(i, list), before, cwd) == ScriptOf(nodes, list, before + [Member(i, cwd)], cwd)
  {
    PrependIsGood(nodes, i, list);
    var long := Prepend(i, list);
    assert Final(long.items) == Final(list.items);
    assert Processes(nodes, long.items) == [i] + Processes(nodes, list.items);
    MembersPrepend(i, Processes(nodes, list.items), cwd);
    assert before + MembersOf(Processes(nodes, long.items), cwd)
      == before + [Member(i, cwd)] + MembersOf(Processes(nodes, list.items), cwd);
  }

  lemma {:induction false} SameScript(nodes: seq<Node>, i: nat, before: seq<Member>, cwd: seq<string>)
    requires ItemsFrom(nodes, i)
    ensures GoodList(nodes, ListFrom(nodes, i))
    ensures ScriptFrom(nodes, i, before, cwd) == ScriptOf(nodes, ListFrom(nodes, i), before, cwd)
    decreases |nodes| - i
  {
    ListIsGood(nodes, i);
    if i + 1 == |nodes| {
      AloneScript(nodes, i, before, cwd);
    } else if nodes[i + 1] == Pipe {
      SameScript(nodes, i + 2, before + [Member(i, cwd)], cwd);
      PrependScript(nodes, i, ListFrom(nodes, i + 2), before, cwd);
    } else {
      AloneScript(nodes, i, before, cwd);
      if nodes[i].Command? {
        SameScript(nodes, i + 2, [], cwd);
      } else if nodes[i].dir.Some? {
        SameScript(nodes, i + 2, before, cwd + [nodes[i].dir.value]);
      }
    }
  }

  /** The members of a pipeline of one item. */
  lemma AloneScript(nodes: seq<Node>, i: nat, before: seq<Member>, cwd: seq<string>)
    requires GoodPipeline(nodes, [i])
    ensures before + MembersOf(Processes(nodes, [i]), cwd)
      == if nodes[i].Chdir? then before else before + [Member(i, cwd)]
  {
    assert [i][..0] == [];
    MembersPrepend(i, [], cwd);
    assert [i] + [] == [i];
  }

  lemma {:induction false} MembersAreValid(nodes: seq<Node>, items: seq<nat>, cwd: seq<string>)
    requires Commands(nodes, items)
    ensures ValidMembers(nodes, MembersOf(items, cwd)) && |MembersOf(items, cwd)| == |items|
    ensures items != [] ==> MembersOf(items, cwd)[|items| - 1].command == Final(items)
  {
    if items == [] {
    } else {
      MembersAreValid(nodes, items[..|items| - 1], cwd);
    }
  }

  lemma {:induction false} ScriptOfIsGood(nodes: seq<Node>, list: AndOr, before: seq<Member>, cwd: seq<string>)
    requires GoodList(nodes, list) && ValidMembers(nodes, before)
    ensures GoodScript(nodes, ScriptOf(nodes, list, before, cwd))
    decreases list
  {
    var k := Final(list.items);
    var members := MembersOf(Processes(nodes, list.items), cwd);
    MembersAreValid(nodes, Processes(nodes, list.items), cwd);
    if nodes[k].Chdir? {
      if list.Chain? && nodes[k].dir.Some? {
        ScriptOfIsGood(nodes, list.rest, before + members, cwd + [nodes[k].dir.value]);
      }
    } else if list.Chain? {
      ScriptOfIsGood(nodes, list.rest, [], cwd);
    }
  }

  // ---------- one pipeline ----------

  lemma InputsOfFront(nodes: seq<Node>, items: seq<nat>)
    requires items != [] && Commands(nodes, items)
    ensures Commands(nodes, items[..|items| - 1])
    ensures InputsFromPipes(nodes, items) <==>
      InputsFromPipes(nodes, items[..|items| - 1]) && (|items| > 1 ==> nodes[Final(items)].stdin.None?)
  {}

  /** run starts the commands of a pipeline as POSIX does, unless one that the pipe
      feeds names an input file; it waits for them in the same order. */
  lemma {:induction false} SameStarts(nodes: seq<Node>, items: seq<nat>, cwd: seq<string>)
    requires Commands(nodes, items)
    ensures ValidMembers(nodes, MembersOf(items, cwd))
    ensures EndsOf(MembersOf(items, cwd)) == PosixEnds(items)
    ensures |StartsOf(nodes, MembersOf(items, cwd))| == |PosixStarts(nodes, items, cwd)| == |items|
    ensures StartsOf(nodes, MembersOf(items, cwd)) == PosixStarts(nodes, items, cwd) <==> InputsFromPipes(nodes, items)
  {
    MembersAreValid(nodes, items, cwd);
    if items == [] {
    } else {
      var front, k := items[..|items| - 1], Final(items);
      SameStarts(nodes, front, cwd);
      MembersAreValid(nodes, front, cwd);
      InputsOfFront(nodes, items);
      StartsSnoc(nodes, MembersOf(front, cwd), Member(k, cwd));
      SameSnoc(StartsOf(nodes, MembersOf(front, cwd)), Started(k, cwd, RunInput(nodes[k], FedBy(front))),
               PosixStarts(nodes, front, cwd), Started(k, cwd, PosixInput(nodes[k], FedBy(front))));
    }
  }

  lemma StartsSnoc(nodes: seq<Node>, segment: seq<Member>, m: Member)
    requires ValidMembers(nodes, segment) && m.command < |nodes| && nodes[m.command].Command?
    ensures ValidMembers(nodes, segment + [m])
    ensures StartsOf(nodes, segment + [m])
      == StartsOf(nodes, segment) + [Started(m.command, m.cwd, RunInput(nodes[m.command], Previous(segment)))]
    ensures EndsOf(segment + [m]) == EndsOf(segment) + [Ended(m.command)]
  {
    assert (segment + [m])[..|segment|] == segment;
  }

  lemma SameSnoc(a: seq<Seen>, x: Seen, b: seq<Seen>, y: Seen)
    requires |a| == |b|
    ensures a + [x] == b + [y] <==> a == b && x == y
  {
    if a + [x] == b + [y] {
      assert a == (a + [x])[..|a|] && b == (b + [y])[..|b|];
      assert x == (a + [x])[|a|] && y == (b + [y])[|b|];
    }
  }

  lemma SameParts(run: seq<Seen>, posix: seq<Seen>, ends: seq<Seen>, r: seq<Seen>, p: seq<Seen>)
    requires |run| == |posix|
    ensures (run + ends) + r == (posix + ends) + p <==> run == posix && r == p
  {
    var a, b := (run + ends) + r, (posix + ends) + p;
    if a == b {
      assert run == a[..|run|] && posix == b[..|run|];
      assert r == a[|run| + |ends|..] && p == b[|run| + |ends|..];
    }
  }

  // ---------- a cd in a longer pipeline ----------

  /** From here on, either the script breaks off or its segment gains a member. */
  lemma {:induction false} SegmentGrows(nodes: seq<Node>, list: AndOr, before: seq<Member>, cwd: seq<string>)
    requires GoodList(nodes, list)
    ensures var script := ScriptOf(nodes, list, before, cwd);
      script.Broken? || |script.segment| > |before|
    decreases list
  {
    var k := Final(list.items);
    var segment := before + MembersOf(Processes(nodes, list.items), cwd);
    if nodes[k].Chdir? {
      if list.Chain? && nodes[k].dir.Some? {
        SegmentGrows(nodes, list.rest, segment, cwd + [nodes[k].dir.value]);
      }
    } else {
      MembersAreValid(nodes, list.items, cwd);
    }
  }

  lemma {:induction false} StartsAreStarted(nodes: seq<Node>, segment: seq<Member>, k: nat)
    requires ValidMembers(nodes, segment) && k < |segment|
    ensures |StartsOf(nodes, segment)| == |segment| && StartsOf(nodes, segment)[k].Started?
  {
    var n := |segment| - 1;
    if n == 0 {
    } else {
      StartsAreStarted(nodes, segment[..n], if k < n then k else 0);
    }
  }

  lemma {:induction false} EndsAreEnded(items: seq<nat>)
    requires items != []
    ensures |PosixEnds(items)| == |items| && PosixEnds(items)[0].Ended?
  {
    if |items| == 1 {
    } else {
      EndsAreEnded(items[..|items| - 1]);
    }
  }

  // ---------- what is left after run has stopped ----------

  lemma StartsSomething(nodes: seq<Node>, items: seq<nat>, cwd: seq<string>)
    requires GoodPipeline(nodes, items)
    ensures PosixHere(nodes, items, cwd) == [] <==> |items| == 1 && nodes[items[0]].Chdir?
  {
    var processes := Processes(nodes, items);
    SameStarts(nodes, processes, cwd);
    if processes != [] { EndsAreEnded(processes); }
  }

  /** A list that is executed starts a process, unless it consists of cd's joined by
      && only; a cd leaves status 0. */
  lemma {:induction false} RunningTail(nodes: seq<Node>, list: AndOr, last: int, cwd: seq<string>, status: nat -> int,
                                       home: string)
    requires GoodList(nodes, list) && CdsBeforeAnd(nodes, list)
    ensures var p := Posix(nodes, list, true, last, cwd, status, home);
      if OnlyCds(nodes, list) then p == Finished([], 0) else p.seen != []
    decreases list
  {
    StartsSomething(nodes, list.items, cwd);
    if PosixHere(nodes, list.items, cwd) == [] && list.Chain? {
      RunningTail(nodes, list.rest, 0, DirAfter(nodes, list.items, cwd, home), status, home);
    }
  }

  /** The parser lets only && follow a cd. */
  predicate CdsBeforeAnd(nodes: seq<Node>, list: AndOr)
    requires GoodList(nodes, list)
    decreases list
  {
    list.Chain? ==> (nodes[Final(list.items)].Chdir? ==> list.op == And) && CdsBeforeAnd(nodes, list.rest)
  }

  lemma {:induction false} ListHasCdsBeforeAnd(nodes: seq<Node>, i: nat)
    requires ItemsFrom(nodes, i)
    ensures GoodList(nodes, ListFrom(nodes, i)) && CdsBeforeAnd(nodes, ListFrom(nodes, i))
    decreases |nodes| - i
  {
    ListIsGood(nodes, i);
    if i + 1 == |nodes| {
    } else {
      ListHasCdsBeforeAnd(nodes, i + 2);
      if nodes[i + 1] == Pipe { assert Final(ListFrom(nodes, i).items) == Final(ListFrom(nodes, i + 2).items); }
    }
  }

  lemma {:induction false} SkippedTail(nodes: seq<Node>, list: AndOr, op: Node, last: int, cwd: seq<string>,
                                       status: nat -> int, home: string)
    requires GoodList(nodes, list) && CdsBeforeAnd(nodes, list) && op in [And, Or] && Stops(op, last)
    ensures Posix(nodes, list, false, last, cwd, status, home) == Finished([], last) <==> SkipsRest(nodes, list, op)
    decreases list
  {
    match list
    case One(_) =>
    case Chain(_, next, rest) =>
      if next == op {
        SkippedTail(nodes, rest, op, last, cwd, status, home);
      } else {
        RunningTail(nodes, rest, last, cwd, status, home);
      }
  }

  // ---------- run against POSIX ----------

  /** What run does with the list: its outcome and what can be seen. */
  ghost function RunOf(nodes: seq<Node>, list: AndOr, cwd: seq<string>, status: nat -> int): (Outcome, seq<Seen>)
    requires GoodList(nodes, list)
  {
    ScriptOfIsGood(nodes, list, [], cwd);
    var script := ScriptOf(nodes, list, [], cwd);
    (ValueOf(nodes, script, status), RunSeen(nodes, script, status))
  }

  ghost predicate Agree(run: (Outcome, seq<Seen>), posix: Finished) {
    run == (Returned(posix.status), posix.seen)
  }

  /** A leading cd: run goes on after the && as POSIX does, or breaks off. */
  lemma CdFirst(nodes: seq<Node>, list: AndOr, last: int, cwd: seq<string>, status: nat -> int, home: string)
    requires GoodList(nodes, list) && CdsBeforeAnd(nodes, list) && |list.items| == 1 && nodes[list.items[0]].Chdir?
    ensures var run, posix := RunOf(nodes, list, cwd, status), Posix(nodes, list, true, last, cwd, status, home);
      var dir := nodes[list.items[0]].dir;
      if list.One? || dir.None? then run.0.Raised?
      else
        && run == RunOf(nodes, list.rest, cwd + [dir.value], status)
        && posix == Posix(nodes, list.rest, true, 0, cwd + [dir.value], status, home)
  {
    assert Processes(nodes, list.items) == [];
    ScriptOfIsGood(nodes, list, [], cwd);
    assert [] + MembersOf([], cwd) == [];
    assert PosixHere(nodes, list.items, cwd) == [];
  }

  /** A cd at the end of a longer pipeline: run takes what follows into the pipeline. */
  lemma CdDiffers(nodes: seq<Node>, list: AndOr, last: int, cwd: seq<string>, status: nat -> int, home: string)
    requires GoodList(nodes, list) && |list.items| > 1 && nodes[Final(list.items)].Chdir?
    ensures !Agree(RunOf(nodes, list, cwd, status), Posix(nodes, list, true, last, cwd, status, home))
  {
    var k := Final(list.items);
    var processes := Processes(nodes, list.items);
    var segment := [] + MembersOf(processes, cwd);
    MembersAreValid(nodes, processes, cwd);
    ScriptOfIsGood(nodes, list, [], cwd);
    var script := ScriptOf(nodes, list, [], cwd);
    if list.Chain? && nodes[k].dir.Some? {
      SegmentGrows(nodes, list.rest, segment, cwd + [nodes[k].dir.value]);
      if !script.Broken? {
        StartsAreStarted(nodes, script.segment, |processes|);
        SameStarts(nodes, processes, cwd);
        EndsAreEnded(processes);
        StartedIsNotEnded(RunOf(nodes, list, cwd, status).1, Posix(nodes, list, true, last, cwd, status, home).seen,
                          |processes|);
      }
    }
  }

  lemma StartedIsNotEnded(a: seq<Seen>, b: seq<Seen>, k: nat)
    requires k < |a| && k < |b| && a[k].Started? && b[k].Ended?
    ensures a != b
  {}

  /** A pipeline of commands, as run has it. */
  lemma RunPipeline(nodes: seq<Node>, list: AndOr, cwd: seq<string>, status: nat -> int)
    requires GoodList(nodes, list) && Commands(nodes, list.items)
    ensures ValidMembers(nodes, MembersOf(list.items, cwd))
    ensures var members, s := MembersOf(list.items, cwd), status(Final(list.items));
      var here := StartsOf(nodes, members) + EndsOf(members);
      RunOf(nodes, list, cwd, status)
        == if list.One? || Stops(list.op, s) then (Returned(s), here + [])
           else (RunOf(nodes, list.rest, cwd, status).0, here + RunOf(nodes, list.rest, cwd, status).1)
  {
    var members := MembersOf(list.items, cwd);
    MembersAreValid(nodes, list.items, cwd);
    ScriptOfIsGood(nodes, list, [], cwd);
    assert [] + members == members;
    assert StartsOf(nodes, members) + EndsOf(members) + [] == StartsOf(nodes, members) + EndsOf(members);
    if list.Chain? { ScriptOfIsGood(nodes, list.rest, [], cwd); }
  }

  /** The same pipeline, as POSIX has it. */
  lemma PosixPipeline(nodes: seq<Node>, list: AndOr, last: int, cwd: seq<string>, status: nat -> int, home: string)
    requires GoodList(nodes, list) && Commands(nodes, list.items)
    ensures var s := status(Final(list.items));
      var here := PosixStarts(nodes, list.items, cwd) + PosixEnds(list.items);
      Posix(nodes, list, true, last, cwd, status, home)
        == match list
           case One(_) => Finished(here + [], s)
           case Chain(_, op, rest) =>
             var p := Posix(nodes, rest, Proceeds(op, s), s, cwd, status, home);
             Finished(here + p.seen, p.status)
  {
    var here := PosixStarts(nodes, list.items, cwd) + PosixEnds(list.items);
    assert here + [] == here;
  }

  /** A pipeline of commands agrees when its inputs do and what follows does. */
  lemma AgreePipeline(nodes: seq<Node>, list: AndOr, last: int, cwd: seq<string>, status: nat -> int, home: string)
    requires GoodList(nodes, list) && CdsBeforeAnd(nodes, list) && Commands(nodes, list.items)
    requires list.Chain? && !Stops(list.op, status(Final(list.items))) ==>
      (LikePosix(nodes, list.rest, status) <==>
         Agree(RunOf(nodes, list.rest, cwd, status),
               Posix(nodes, list.rest, true, status(Final(list.items)), cwd, status, home)))
    ensures Agree(RunOf(nodes, list, cwd, status), Posix(nodes, list, true, last, cwd, status, home)) <==>
      LikePosix(nodes, list, status)
  {
    var members, s := MembersOf(list.items, cwd), status(Final(list.items));
    RunPipeline(nodes, list, cwd, status);
    PosixPipeline(nodes, list, last, cwd, status, home);
    SameStarts(nodes, list.items, cwd);
    var run, posix, ends := StartsOf(nodes, members), PosixStarts(nodes, list.items, cwd), PosixEnds(list.items);
    match list
    case One(_) => SameParts(run, posix, ends, [], []);
    case Chain(_, op, rest) =>
      var p := Posix(nodes, rest, Proceeds(op, s), s, cwd, status, home);
      if Stops(op, s) {
        SkippedTail(nodes, rest, op, s, cwd, status, home);
        SameParts(run, posix, ends, [], p.seen);
      } else {
        SameParts(run, posix, ends, RunOf(nodes, rest, cwd, status).1, p.seen);
      }
  }

  lemma {:induction false} AgreeIff(nodes: seq<Node>, list: AndOr, last: int, cwd: seq<string>, status: nat -> int,
                                    home: string)
    requires GoodList(nodes, list) && CdsBeforeAnd(nodes, list)
    ensures Agree(RunOf(nodes, list, cwd, status), Posix(nodes, list, true, last, cwd, status, home)) <==>
      LikePosix(nodes, list, status)
    decreases list
  {
    var k := Final(list.items);
    if nodes[k].Command? {
      if list.Chain? { AgreeIff(nodes, list.rest, status(k), cwd, status, home); }
      AgreePipeline(nodes, list, last, cwd, status, home);
    } else if |list.items| > 1 {
      CdDiffers(nodes, list, last, cwd, status, home);
    } else {
      CdFirst(nodes, list, last, cwd, status, home);
      if list.Chain? && nodes[k].dir.Some? {
        AgreeIff(nodes, list.rest, 0, cwd + [nodes[k].dir.value], status, home);
      }
    }
  }

  /** run does what POSIX prescribes: the same result, and the same processes
      started and waited for in the same order, in the same directories, with the
      same standard input. */
  ghost predicate RunsLikePosix(nodes: seq<Node>, status: nat -> int, home: string)
    requires ItemsFrom(nodes, 0)
  {
    ListIsGood(nodes, 0);
    var (outcome, log) := Reference(nodes, status);
    Agree((outcome, Visible(log)), Posix(nodes, ListFrom(nodes, 0), true, 0, [], status, home))
  }

  lemma PosixIff(nodes: seq<Node>, status: nat -> int, home: string)
    requires ItemsFrom(nodes, 0)
    ensures GoodList(nodes, ListFrom(nodes, 0))
    ensures RunsLikePosix(nodes, status, home) <==> LikePosix(nodes, ListFrom(nodes, 0), status)
  {
    var list := ListFrom(nodes, 0);
    ListHasCdsBeforeAnd(nodes, 0);
    ScriptIsGood(nodes, 0, [], []);
    VisibleEvents(nodes, ScriptFrom(nodes, 0, [], []), status, 0);
    SameScript(nodes, 0, [], []);
    AgreeIff(nodes, list, 0, [], status, home);
  }

  // ---------- whatever the statuses ----------

  /** The same condition when any pipeline may succeed or fail. */
  predicate AlwaysLikePosix(nodes: seq<Node>, list: AndOr)
    requires GoodList(nodes, list)
    decreases list
  {
    var k := Final(list.items);
    if nodes[k].Chdir? then
      |list.items| == 1 && nodes[k].dir.Some? && list.Chain? && AlwaysLikePosix(nodes, list.rest)
    else
      && InputsFromPipes(nodes, list.items)
      && (list.Chain? ==> SkipsRest(nodes, list.rest, list.op) && AlwaysLikePosix(nodes, list.rest))
  }

  /** The last positions of the pipelines increase. */
  predicate Above(list: AndOr, b: nat) {
    list.items != [] && b <= Final(list.items) && (list.Chain? ==> Above(list.rest, Final(list.items) + 1))
  }

  lemma {:induction false} ListIsAbove(nodes: seq<Node>, i: nat)
    requires ItemsFrom(nodes, i)
    ensures Above(ListFrom(nodes, i), i)
    decreases |nodes| - i
  {
    if i + 1 == |nodes| {
    } else {
      ListIsAbove(nodes, i + 2);
      if nodes[i + 1] == Pipe {
        assert Final(ListFrom(nodes, i).items) == Final(ListFrom(nodes, i + 2).items);
      } else {
        AboveLess(ListFrom(nodes, i + 2), i + 2, i + 1);
      }
    }
  }

  lemma AboveLess(list: AndOr, b: nat, c: nat)
    requires Above(list, b) && c <= b
    ensures Above(list, c)
  {}

  lemma {:induction false} SameStatuses(nodes: seq<Node>, list: AndOr, b: nat, status: nat -> int, other: nat -> int)
    requires GoodList(nodes, list) && Above(list, b) && forall k :: k >= b ==> status(k) == other(k)
    ensures LikePosix(nodes, list, status) == LikePosix(nodes, list, other)
    decreases list
  {
    match list
    case One(_) =>
    case Chain(items, _, rest) => SameStatuses(nodes, rest, Final(items) + 1, status, other);
  }

  lemma {:induction false} AlwaysLike(nodes: seq<Node>, list: AndOr, status: nat -> int)
    requires GoodList(nodes, list) && AlwaysLikePosix(nodes, list)
    ensures LikePosix(nodes, list, status)
    decreases list
  {
    match list
    case One(_) =>
    case Chain(_, _, rest) => AlwaysLike(nodes, rest, status);
  }

  /** The status with which && (or ||) stops the list, or does not. */
  function StatusFor(op: Node, stops: bool): int {
    if (op == And) == stops then 1 else 0
  }

  lemma {:induction false} Unlike(nodes: seq<Node>, list: AndOr, b: nat) returns (status: nat -> int)
    requires GoodList(nodes, list) && Above(list, b) && !AlwaysLikePosix(nodes, list)
    ensures !LikePosix(nodes, list, status)
    decreases list
  {
    match list
    case One(_) => status := (_: nat) => 0;
    case Chain(items, op, rest) =>
      var k := Final(items);
      if AlwaysLikePosix(nodes, rest) {
        status := (_: nat) => StatusFor(op, true);
      } else {
        var later := Unlike(nodes, rest, k + 1);
        status := (j: nat) => if j == k then StatusFor(op, false) else later(j);
        SameStatuses(nodes, rest, k + 1, later, status);
      }
  }

  /** run can be relied on to do what POSIX prescribes, whatever the commands
      return, exactly for these node lists. */
  lemma AlwaysIff(nodes: seq<Node>, home: string)
    requires ItemsFrom(nodes, 0)
    ensures GoodList(nodes, ListFrom(nodes, 0))
    ensures (forall status :: RunsLikePosix(nodes, status, home)) <==> AlwaysLikePosix(nodes, ListFrom(nodes, 0))
  {
    var list := ListFrom(nodes, 0);
    ListIsGood(nodes, 0);
    ListIsAbove(nodes, 0);
    if AlwaysLikePosix(nodes, list) {
      forall status ensures RunsLikePosix(nodes, status, home) {
        PosixIff(nodes, status, home);
        AlwaysLike(nodes, list, status);
      }
    } else {
      var status := Unlike(nodes, list, 0);
      PosixIff(nodes, status, home);
    }
  }

  // ---------- where they differ ----------

  /** x || cd d && y with status 0 throughout: run stops after x, POSIX runs y. */
  lemma CdAfterOr(x: Node, d: string, y: Node, home: string)
    requires x.Command? && y.Command?
    ensures var nodes := [x, Or, Chdir(Some(d)), And, y];
      ItemsFrom(nodes, 0) && !RunsLikePosix(nodes, _ => 0, home)
  {
    var nodes := [x, Or, Chdir(Some(d)), And, y];
    assert ItemsFrom(nodes, 4) && ItemsFrom(nodes, 2);
    assert ListFrom(nodes, 4) == One([4]);
    assert ListFrom(nodes, 2) == Chain([2], And, One([4]));
    assert ListFrom(nodes, 0) == Chain([0], Or, Chain([2], And, One([4])));
    PosixIff(nodes, _ => 0, home);
  }

  /** a | cd d && b: run pipes a into b, POSIX pipes it into cd and runs b alone. */
  lemma CdInPipeline(a: Node, d: string, b: Node, status: nat -> int, home: string)
    requires a.Command? && b.Command?
    ensures var nodes := [a, Pipe, Chdir(Some(d)), And, b];
      ItemsFrom(nodes, 0) && !RunsLikePosix(nodes, status, home)
  {
    var nodes := [a, Pipe, Chdir(Some(d)), And, b];
    assert ItemsFrom(nodes, 4) && ItemsFrom(nodes, 2);
    assert ListFrom(nodes, 4) == One([4]);
    assert ListFrom(nodes, 2) == Chain([2], And, One([4]));
    assert ListFrom(nodes, 0) == Chain([0] + [2], And, One([4]));
    PosixIff(nodes, status, home);
  }
}
