/** What run connects each process to, in which order its events come, and where it ends. */
module ShellLaunches {
  import opened Common
  import opened ShellParse
  import opened ShellRun

  // Everything here is said of the node list and of the log, field by field.

  /** The output of command k is the input of whatever stands at position i: a pipe
      follows k, and nothing but cd's lies in between. */
  ghost predicate Feeds(nodes: seq<Node>, k: nat, i: nat) {
    && k + 1 < i < |nodes| && nodes[k].Command? && nodes[k + 1] == Pipe
    && forall j :: k + 2 <= j < i ==> !nodes[j].Command?
  }

  ghost predicate NotFed(nodes: seq<Node>, i: nat) {
    forall k: nat :: !Feeds(nodes, k, i)
  }

  /** The directories of the cd's before position i, in order. */
  ghost function DirsBefore(nodes: seq<Node>, i: nat): seq<string>
    requires i <= |nodes|
  {
    if i == 0 then []
    else if nodes[i - 1].Chdir? && nodes[i - 1].dir.Some? then DirsBefore(nodes, i - 1) + [nodes[i - 1].dir.value]
    else DirsBefore(nodes, i - 1)
  }

  predicate NullName(name: string) {
    name == "NUL:" || name == "/dev/null"
  }

  /** Standard input: the pipe if one feeds the command, else the file it names, opened for
      reading by this very launch, else inherited. */
  ghost predicate InputIs(nodes: seq<Node>, i: nat, c: Node, e: Event)
    requires c.Command? && e.Launch?
  {
    match e.stdin
    case FromPipe(k) => Feeds(nodes, k, i)
    case FromFile(h) => NotFed(nodes, i) && c.stdin.Some? && OpenRead(c.stdin.value, h) in e.opens
    case InheritIn => NotFed(nodes, i) && c.stdin == None
  }

  /** A file written to is one of the two names of the null device, or was opened for
      writing under that handle by this very launch. */
  ghost predicate WritesTo(name: string, file: FileRef, e: Event)
    requires e.Launch?
  {
    match file
    case DevNull => NullName(name)
    case Opened(h) => !NullName(name) && OpenWrite(name, h) in e.opens
  }

  ghost predicate OutputIs(c: Node, e: Event)
    requires c.Command? && e.Launch?
  {
    match e.stdout
    case InheritOut => c.stdout == Inherit
    case ToPipe => c.stdout == PIPE
    case ToStdout => false
    case ToFile(file) => c.stdout.File? && WritesTo(c.stdout.file, file, e)
  }

  ghost predicate ErrorsAre(c: Node, e: Event)
    requires c.Command? && e.Launch?
  {
    match e.stderr
    case InheritOut => c.stderr == SameAsParent
    case ToPipe => false
    case ToStdout => c.stderr == STDOUT
    case ToFile(file) => c.stderr.ErrFile? && WritesTo(c.stderr.errFile, file, e)
  }

  ghost function OpenedFor(target: Target): nat {
    OneIf(target.ToFile? && target.file.Opened?)
  }

  /** Nothing else is opened: input first, errors last, with increasing handles. */
  ghost predicate OpensJust(e: Event)
    requires e.Launch?
  {
    && |e.opens| == OneIf(e.stdin.FromFile?) + OpenedFor(e.stdout) + OpenedFor(e.stderr)
    && (forall a, b :: 0 <= a < b < |e.opens| ==> e.opens[a].handle < e.opens[b].handle)
    && (e.stdin.FromFile? ==> e.opens != [] && e.opens[0].handle == e.stdin.handle)
    && (OpenedFor(e.stderr) == 1 ==>
          e.opens != [] && e.opens[|e.opens| - 1].handle == e.stderr.file.handle)
  }

  /** The launch connects its command as the node list says. */
  ghost predicate Connected(nodes: seq<Node>, e: Event)
    requires e.Launch?
  {
    var i := e.command;
    && i < |nodes| && nodes[i].Command?
    && InputIs(nodes, i, nodes[i], e) && OutputIs(nodes[i], e) && ErrorsAre(nodes[i], e) && OpensJust(e)
    && e.cwd == DirsBefore(nodes, i)
  }

  ghost predicate AllConnected(nodes: seq<Node>, log: seq<Event>) {
    forall k :: 0 <= k < |log| && log[k].Launch? ==> Connected(nodes, log[k])
  }

  // ---------- one launch ----------

  lemma OutputConnected(c: Node, h: Handle, e: Event)
    requires c.Command? && e.Launch? && e.stdout == StdoutOf(c, h)
    requires forall o :: o in OpenWrites(StdoutFile(c), h) ==> o in e.opens
    ensures OutputIs(c, e) && OpenedFor(e.stdout) == |OpenWrites(StdoutFile(c), h)|
  {
    if c.stdout.File? && !IsNullDevice(c.stdout.file) {
      assert OpenWrites(StdoutFile(c), h)[0] == OpenWrite(c.stdout.file, h);
    }
  }

  lemma ErrorsConnected(c: Node, h: Handle, e: Event)
    requires c.Command? && e.Launch? && e.stderr == StderrOf(c, h)
    requires forall o :: o in OpenWrites(StderrFile(c), h) ==> o in e.opens
    ensures ErrorsAre(c, e) && OpenedFor(e.stderr) == |OpenWrites(StderrFile(c), h)|
  {
    if c.stderr.ErrFile? && !IsNullDevice(c.stderr.errFile) {
      assert OpenWrites(StderrFile(c), h)[0] == OpenWrite(c.stderr.errFile, h);
    }
  }

  lemma InputConnected(nodes: seq<Node>, i: nat, c: Node, previous: Option<nat>, h: Handle, e: Event)
    requires c.Command? && e.Launch? && e.stdin == StdinOf(c, previous, h)
    requires forall o :: o in OpenReads(StdinFile(c, previous.Some?), h) ==> o in e.opens
    requires if previous.Some? then Feeds(nodes, previous.value, i) else NotFed(nodes, i)
    ensures InputIs(nodes, i, c, e) && OneIf(e.stdin.FromFile?) == |OpenReads(StdinFile(c, previous.Some?), h)|
  {
    if previous.None? && c.stdin.Some? {
      assert OpenReads(StdinFile(c, previous.Some?), h)[0] == OpenRead(c.stdin.value, h);
    }
  }

  lemma LaunchConnected(nodes: seq<Node>, m: Member, previous: Option<nat>, h: Handle)
    requires m.command < |nodes| && nodes[m.command].Command? && m.cwd == DirsBefore(nodes, m.command)
    requires if previous.Some? then Feeds(nodes, previous.value, m.command) else NotFed(nodes, m.command)
    ensures Connected(nodes, LaunchOf(m, nodes[m.command], previous, h))
  {
    var c, piped := nodes[m.command], previous.Some?;
    var e := LaunchOf(m, c, previous, h);
    var h1, h2 := AfterStdin(c, piped, h), AfterStdout(c, piped, h);
    InputConnected(nodes, m.command, c, previous, h, e);
    OutputConnected(c, h1, e);
    ErrorsConnected(c, h2, e);
    LaunchOpensJust(c, previous, h, e);
  }

  lemma LaunchOpensJust(c: Node, previous: Option<nat>, h: Handle, e: Event)
    requires c.Command? && e.Launch?
    requires var piped := previous.Some?;
      var h1, h2 := AfterStdin(c, piped, h), AfterStdout(c, piped, h);
      && e.opens == OpenReads(StdinFile(c, piped), h) + OpenWrites(StdoutFile(c), h1) + OpenWrites(StderrFile(c), h2)
      && e.stdin == StdinOf(c, previous, h) && e.stdout == StdoutOf(c, h1) && e.stderr == StderrOf(c, h2)
      && OneIf(e.stdin.FromFile?) == |OpenReads(StdinFile(c, piped), h)|
      && OpenedFor(e.stdout) == |OpenWrites(StdoutFile(c), h1)|
      && OpenedFor(e.stderr) == |OpenWrites(StderrFile(c), h2)|
    ensures OpensJust(e)
  {}

  // ---------- the members of the segments ----------

  /** The members stand in the directory given by the cd's before them, and each is fed by
      the one before it. */
  ghost predicate Placed(nodes: seq<Node>, segment: seq<Member>) {
    && ValidMembers(nodes, segment)
    && (segment != [] ==>
          var front, m := segment[..|segment| - 1], segment[|segment| - 1];
          Placed(nodes, front) && m.cwd == DirsBefore(nodes, m.command) && FedBySegment(nodes, front, m.command))
  }

  ghost predicate PlacedScript(nodes: seq<Node>, script: Script) {
    && Placed(nodes, script.segment)
    && (!script.Broken? ==>
          script.segment != [] && EndsSegment(nodes, script.segment[|script.segment| - 1].command))
    && (script.Then? ==> PlacedScript(nodes, script.rest))
  }

  /** What stands at position i is fed by the segment that has been begun. */
  ghost predicate FedBySegment(nodes: seq<Node>, segment: seq<Member>, i: nat) {
    if segment == [] then NotFed(nodes, i) else Feeds(nodes, segment[|segment| - 1].command, i)
  }

  lemma PastCd(nodes: seq<Node>, segment: seq<Member>, i: nat, next: nat)
    requires FedBySegment(nodes, segment, i) && next == i + 2 < |nodes| && nodes[i].Chdir? && nodes[i + 1] == And
    ensures FedBySegment(nodes, segment, next)
  {
    if segment == [] {
      forall k: nat ensures !Feeds(nodes, k, next) { FeedsTheCd(nodes, k, i, next); }
    }
  }

  lemma FeedsTheCd(nodes: seq<Node>, k: nat, i: nat, next: nat)
    requires next == i + 2 < |nodes| && nodes[i].Chdir? && nodes[i + 1] == And
    ensures Feeds(nodes, k, next) ==> Feeds(nodes, k, i)
  {}

  lemma PastOperator(nodes: seq<Node>, i: nat, next: nat)
    requires next == i + 2 < |nodes| && nodes[i].Command? && nodes[i + 1] in [And, Or]
    ensures NotFed(nodes, next)
  {
    forall k: nat ensures !Feeds(nodes, k, next) {
      if Feeds(nodes, k, next) && k + 2 <= i { assert false; }
    }
  }

  lemma MoreMembers(nodes: seq<Node>, segment: seq<Member>, m: Member)
    requires Placed(nodes, segment) && m.command < |nodes| && nodes[m.command].Command?
    requires m.cwd == DirsBefore(nodes, m.command) && FedBySegment(nodes, segment, m.command)
    ensures Placed(nodes, segment + [m])
  {
    assert (segment + [m])[..|segment|] == segment;
  }

  lemma DirsAfterTwo(nodes: seq<Node>, i: nat)
    requires i + 2 <= |nodes| && !nodes[i + 1].Chdir?
    ensures DirsBefore(nodes, i + 2)
      == if nodes[i].Chdir? && nodes[i].dir.Some? then DirsBefore(nodes, i) + [nodes[i].dir.value]
         else DirsBefore(nodes, i)
  {}

  /** The item at i with its operator has been read, and what comes next is at i + 2. */
  ghost predicate Ready(nodes: seq<Node>, i: nat, segment: seq<Member>, cwd: seq<string>) {
    && i <= |nodes| && Placed(nodes, segment)
    && cwd == DirsBefore(nodes, i) && FedBySegment(nodes, segment, i)
  }

  lemma CdReady(nodes: seq<Node>, i: nat, segment: seq<Member>, cwd: seq<string>)
    requires Ready(nodes, i, segment, cwd) && i + 2 < |nodes|
    requires nodes[i].Chdir? && nodes[i].dir.Some? && nodes[i + 1] == And
    ensures Ready(nodes, i + 2, segment, cwd + [nodes[i].dir.value])
  {
    DirsAfterTwo(nodes, i);
    PastCd(nodes, segment, i, i + 2);
  }

  lemma CommandReady(nodes: seq<Node>, i: nat, segment: seq<Member>, cwd: seq<string>)
    requires Ready(nodes, i, segment, cwd) && i < |nodes| && nodes[i].Command?
    ensures Placed(nodes, segment + [Member(i, cwd)])
    ensures i + 2 < |nodes| && nodes[i + 1] == Pipe ==> Ready(nodes, i + 2, segment + [Member(i, cwd)], cwd)
    ensures i + 2 < |nodes| && nodes[i + 1] in [And, Or] ==> Ready(nodes, i + 2, [], cwd)
  {
    MoreMembers(nodes, segment, Member(i, cwd));
    if i + 2 < |nodes| && nodes[i + 1] in [Pipe, And, Or] {
      DirsAfterTwo(nodes, i);
      if nodes[i + 1] == Pipe { assert Feeds(nodes, i, i + 2); } else { PastOperator(nodes, i, i + 2); }
    }
  }

  lemma {:induction false} ScriptIsPlaced(nodes: seq<Node>, i: nat, segment: seq<Member>, cwd: seq<string>)
    requires ItemsFrom(nodes, i) && Ready(nodes, i, segment, cwd)
    ensures PlacedScript(nodes, ScriptFrom(nodes, i, segment, cwd))
    decreases |nodes| - i
  {
    if nodes[i].Chdir? {
      if i + 1 < |nodes| && nodes[i].dir.Some? {
        CdReady(nodes, i, segment, cwd);
        ScriptIsPlaced(nodes, i + 2, segment, cwd + [nodes[i].dir.value]);
      }
    } else {
      CommandReady(nodes, i, segment, cwd);
      if i + 1 < |nodes| && nodes[i + 1] == Pipe {
        ScriptIsPlaced(nodes, i + 2, segment + [Member(i, cwd)], cwd);
      } else if i + 1 < |nodes| {
        ScriptIsPlaced(nodes, i + 2, [], cwd);
      }
    }
  }

  // ---------- every launch of a run ----------

  lemma {:induction false} LaunchesConnected(nodes: seq<Node>, segment: seq<Member>, h: Handle)
    requires Placed(nodes, segment)
    ensures AllConnected(nodes, SegmentLaunches(nodes, segment, h))
  {
    if segment == [] {
    } else {
      var front, m := segment[..|segment| - 1], segment[|segment| - 1];
      LaunchesConnected(nodes, front, h);
      LaunchConnected(nodes, m, Previous(front), HandlesAfter(nodes, front, h));
      ConnectedSnoc(nodes, SegmentLaunches(nodes, front, h),
                    LaunchOf(m, nodes[m.command], Previous(front), HandlesAfter(nodes, front, h)));
    }
  }

  lemma ConnectedSnoc(nodes: seq<Node>, log: seq<Event>, e: Event)
    requires AllConnected(nodes, log) && e.Launch? && Connected(nodes, e)
    ensures AllConnected(nodes, log + [e])
  {}

  lemma ConnectedConcat(nodes: seq<Node>, a: seq<Event>, b: seq<Event>)
    requires AllConnected(nodes, a) && AllConnected(nodes, b)
    ensures AllConnected(nodes, a + b)
  {}

  lemma SegmentConnected(nodes: seq<Node>, segment: seq<Member>, h: Handle)
    requires Placed(nodes, segment)
    ensures AllConnected(nodes, SegmentEvents(nodes, segment, h))
  {
    HandlesGrow(nodes, segment, h);
    LaunchesConnected(nodes, segment, h);
    ConnectedConcat(nodes, SegmentLaunches(nodes, segment, h), Waits(segment));
    ConnectedConcat(nodes, SegmentLaunches(nodes, segment, h) + Waits(segment),
                    Closes(h, HandlesAfter(nodes, segment, h) - h));
  }

  lemma {:induction false} ScriptConnected(nodes: seq<Node>, script: Script, status: nat -> int, h: Handle)
    requires GoodScript(nodes, script) && PlacedScript(nodes, script)
    ensures AllConnected(nodes, EventsOf(nodes, script, status, h))
    decreases script
  {
    var segment := script.segment;
    if script.Broken? {
      LaunchesConnected(nodes, segment, h);
    } else {
      SegmentConnected(nodes, segment, h);
      if script.Then? && !Stops(script.op, StatusOf(segment, status)) {
        var h1 := HandlesAfter(nodes, segment, h);
        ScriptConnected(nodes, script.rest, status, h1);
        ConnectedConcat(nodes, SegmentEvents(nodes, segment, h), EventsOf(nodes, script.rest, status, h1));
      } else {
        assert SegmentEvents(nodes, segment, h) + [] == SegmentEvents(nodes, segment, h);
      }
    }
  }

  lemma WholeScriptIsPlaced(nodes: seq<Node>)
    requires ItemsFrom(nodes, 0)
    ensures GoodScript(nodes, ScriptFrom(nodes, 0, [], [])) && PlacedScript(nodes, ScriptFrom(nodes, 0, [], []))
  {
    ScriptIsGood(nodes, 0, [], []);
    ScriptIsPlaced(nodes, 0, [], []);
  }

  /** Every process of every run is connected as the node list says. */
  lemma RunConnects(nodes: seq<Node>, status: nat -> int)
    requires ItemsFrom(nodes, 0)
    ensures AllConnected(nodes, Reference(nodes, status).1)
  {
    WholeScriptIsPlaced(nodes);
    ScriptConnected(nodes, ScriptFrom(nodes, 0, [], []), status, 0);
  }

  lemma {:induction false} PipeFollows(nodes: seq<Node>, i: nat)
    requires GoodPairs(nodes) && i < |nodes| && nodes[i].Command?
    ensures i + 1 < |nodes| && (nodes[i].stdout == PIPE <==> nodes[i + 1] == Pipe)
    decreases |nodes|
  {
    if i + 2 >= |nodes| {
    } else {
      PipeFollows(nodes[..|nodes| - 2], i);
    }
  }

  /** For parsed nodes: a process writes to a pipe exactly when the next operator is one. */
  lemma PipesAsWritten(tokens: seq<string>, status: nat -> int)
    requires Parsed(tokens).Some?
    ensures ItemsFrom(Parsed(tokens).value, 0)
    ensures var nodes := Parsed(tokens).value;
      forall k :: 0 <= k < |Reference(nodes, status).1| ==> PipedAsWritten(nodes, Reference(nodes, status).1[k])
  {
    var nodes := Parsed(tokens).value;
    ParsedCanRun(tokens);
    RunConnects(nodes, status);
    ParsedIsGrammatical(tokens);
    var log := Reference(nodes, status).1;
    forall k | 0 <= k < |log| ensures PipedAsWritten(nodes, log[k]) {
      if log[k].Launch? { PipeIfNext(nodes, log[k]); }
    }
  }

  ghost predicate PipedAsWritten(nodes: seq<Node>, e: Event) {
    e.Launch? ==> (e.stdout == ToPipe <==> e.command + 1 < |nodes| && nodes[e.command + 1] == Pipe)
  }

  lemma PipeIfNext(nodes: seq<Node>, e: Event)
    requires Grammatical(nodes) && e.Launch? && Connected(nodes, e)
    ensures PipedAsWritten(nodes, e)
  {
    if e.command < |nodes| - 1 { PipeFollows(nodes[..|nodes| - 1], e.command); }
  }

  // ---------- the order of the events ----------

  /** All processes that were started have been waited for, and all files closed. */
  ghost predicate Quiet(log: seq<Event>) {
    Launched(log) == Waited(log) && forall h :: Openings(log, h) == Closings(log, h)
  }

  /** After log comes e: a process starts on the input of a pipe or when all is quiet; only
      whole pipe segments are waited for; files are closed after all waiting. */
  ghost predicate InOrder(nodes: seq<Node>, log: seq<Event>, e: Event) {
    var started := Launched(log);
    match e
    case Launch(_, _, stdin, _, _, _) => stdin.FromPipe? || Quiet(log)
    case Wait(_) => started != [] && EndsSegment(nodes, started[|started| - 1])
    case Close(_) => started == Waited(log)
  }

  ghost predicate Orderly(nodes: seq<Node>, done: seq<Event>, events: seq<Event>) {
    forall p :: 0 <= p < |events| ==> InOrder(nodes, done + events[..p], events[p])
  }

  lemma OrderlyConcat(nodes: seq<Node>, done: seq<Event>, a: seq<Event>, b: seq<Event>)
    requires Orderly(nodes, done, a) && Orderly(nodes, done + a, b)
    ensures Orderly(nodes, done, a + b)
  {
    var all := a + b;
    forall p | 0 <= p < |all| ensures InOrder(nodes, done + all[..p], all[p]) {
      if p < |a| {
        assert all[..p] == a[..p];
      } else {
        assert InOrder(nodes, (done + a) + b[..p - |a|], b[p - |a|]);
        assert done + all[..p] == (done + a) + b[..p - |a|];
      }
    }
  }

  lemma OrderlySnoc(nodes: seq<Node>, done: seq<Event>, a: seq<Event>, e: Event)
    requires Orderly(nodes, done, a) && InOrder(nodes, done + a, e)
    ensures Orderly(nodes, done, a + [e])
  {
    forall p | 0 <= p < |a + [e]| ensures InOrder(nodes, done + (a + [e])[..p], (a + [e])[p]) {
      assert (a + [e])[..p] == a[..p];
      if p == |a| { assert a[..p] == a; }
    }
  }

  lemma {:induction false} LaunchesOrderly(nodes: seq<Node>, done: seq<Event>, segment: seq<Member>, h: Handle)
    requires Quiet(done) && ValidMembers(nodes, segment)
    ensures Orderly(nodes, done, SegmentLaunches(nodes, segment, h))
  {
    if segment == [] {
    } else {
      var front, m := segment[..|segment| - 1], segment[|segment| - 1];
      var launches := SegmentLaunches(nodes, front, h);
      LaunchesOrderly(nodes, done, front, h);
      if front == [] { assert done + launches == done; }
      OrderlySnoc(nodes, done, launches, LaunchOf(m, nodes[m.command], Previous(front), HandlesAfter(nodes, front, h)));
    }
  }

  lemma WaitsOrderly(nodes: seq<Node>, done: seq<Event>, segment: seq<Member>)
    requires Launched(done) != [] && EndsSegment(nodes, Launched(done)[|Launched(done)| - 1])
    ensures Orderly(nodes, done, Waits(segment))
  {
    forall p | 0 <= p < |segment| ensures InOrder(nodes, done + Waits(segment)[..p], Waits(segment)[p]) {
      assert Waits(segment)[..p] == Waits(segment[..p]);
      WaitedWaits(segment[..p]);
      LaunchedConcat(done, Waits(segment)[..p]);
      assert Launched(done) + [] == Launched(done);
    }
  }

  lemma ClosesOrderly(nodes: seq<Node>, done: seq<Event>, h: Handle, n: nat)
    requires Launched(done) == Waited(done)
    ensures Orderly(nodes, done, Closes(h, n))
  {
    forall p | 0 <= p < n ensures InOrder(nodes, done + Closes(h, n)[..p], Closes(h, n)[p]) {
      assert Closes(h, n)[..p] == Closes(h, p);
      ClosesRunNothing(h, p);
      LaunchedConcat(done, Closes(h, p));
    }
  }

  lemma LaunchedBy(nodes: seq<Node>, done: seq<Event>, segment: seq<Member>, h: Handle)
    requires ValidMembers(nodes, segment)
    ensures var launches := SegmentLaunches(nodes, segment, h);
      Launched(done + launches) == Launched(done) + CommandsOf(segment) && Waited(done + launches) == Waited(done)
  {
    var launches := SegmentLaunches(nodes, segment, h);
    LaunchesOnly(nodes, segment, h);
    LaunchedLaunches(launches, segment);
    LaunchedConcat(done, launches);
    assert Waited(done) + [] == Waited(done);
  }

  /** With the whole segment launched: all waits, then all closes. */
  lemma AfterLaunches(nodes: seq<Node>, done: seq<Event>, started: seq<nat>, segment: seq<Member>, h: Handle, n: nat)
    requires segment != [] && EndsSegment(nodes, segment[|segment| - 1].command)
    requires Launched(done) == started + CommandsOf(segment) && Waited(done) == started
    ensures Orderly(nodes, done, Waits(segment)) && Orderly(nodes, done + Waits(segment), Closes(h, n))
  {
    LastCommand(started, segment);
    WaitsOrderly(nodes, done, segment);
    WaitedWaits(segment);
    LaunchedConcat(done, Waits(segment));
    assert Launched(done) + [] == Launched(done);
    ClosesOrderly(nodes, done + Waits(segment), h, n);
  }

  lemma ThreeOrderly(nodes: seq<Node>, done: seq<Event>, a: seq<Event>, b: seq<Event>, c: seq<Event>)
    requires Orderly(nodes, done, a) && Orderly(nodes, done + a, b) && Orderly(nodes, done + a + b, c)
    ensures Orderly(nodes, done, a + b + c)
  {
    OrderlyConcat(nodes, done, a, b);
    assert done + (a + b) == done + a + b;
    OrderlyConcat(nodes, done, a + b, c);
  }

  lemma LastCommand(started: seq<nat>, segment: seq<Member>)
    requires segment != []
    ensures var all := started + CommandsOf(segment);
      all != [] && all[|all| - 1] == segment[|segment| - 1].command
  {}

  lemma PartsOrderly(nodes: seq<Node>, done: seq<Event>, launches: seq<Event>, segment: seq<Member>, h: Handle, n: nat)
    requires segment != [] && EndsSegment(nodes, segment[|segment| - 1].command)
    requires Launched(done + launches) == Launched(done) + CommandsOf(segment)
    requires Waited(done + launches) == Launched(done) && Orderly(nodes, done, launches)
    ensures Orderly(nodes, done, launches + Waits(segment) + Closes(h, n))
  {
    AfterLaunches(nodes, done + launches, Launched(done), segment, h, n);
    ThreeOrderly(nodes, done, launches, Waits(segment), Closes(h, n));
  }

  lemma SegmentParts(nodes: seq<Node>, segment: seq<Member>, h: Handle) returns (n: nat)
    requires ValidMembers(nodes, segment)
    ensures SegmentEvents(nodes, segment, h) == SegmentLaunches(nodes, segment, h) + Waits(segment) + Closes(h, n)
  {
    HandlesGrow(nodes, segment, h);
    n := HandlesAfter(nodes, segment, h) - h;
  }

  lemma SegmentOrderly(nodes: seq<Node>, done: seq<Event>, segment: seq<Member>, h: Handle)
    requires Quiet(done) && ValidMembers(nodes, segment)
    requires segment != [] && EndsSegment(nodes, segment[|segment| - 1].command)
    ensures Orderly(nodes, done, SegmentEvents(nodes, segment, h))
  {
    var n := SegmentParts(nodes, segment, h);
    LaunchedBy(nodes, done, segment, h);
    LaunchesOrderly(nodes, done, segment, h);
    PartsOrderly(nodes, done, SegmentLaunches(nodes, segment, h), segment, h, n);
  }

  lemma QuietAfter(nodes: seq<Node>, done: seq<Event>, segment: seq<Member>, h: Handle)
    requires Quiet(done) && ValidMembers(nodes, segment)
    ensures Quiet(done + SegmentEvents(nodes, segment, h))
  {
    var events := SegmentEvents(nodes, segment, h);
    SegmentRuns(nodes, segment, h);
    LaunchedConcat(done, events);
    forall x ensures Openings(done + events, x) == Closings(done + events, x) {
      SegmentCloses(nodes, segment, h, x);
      CountsConcat(done, events, x);
    }
  }

  lemma {:induction false} ScriptOrderly(nodes: seq<Node>, done: seq<Event>, script: Script, status: nat -> int,
                                         h: Handle)
    requires GoodScript(nodes, script) && PlacedScript(nodes, script) && Quiet(done)
    ensures Orderly(nodes, done, EventsOf(nodes, script, status, h))
    decreases script
  {
    var segment := script.segment;
    if script.Broken? {
      LaunchesOrderly(nodes, done, segment, h);
    } else {
      SegmentOrderly(nodes, done, segment, h);
      if script.Then? && !Stops(script.op, StatusOf(segment, status)) {
        var h1 := HandlesAfter(nodes, segment, h);
        QuietAfter(nodes, done, segment, h);
        ScriptOrderly(nodes, done + SegmentEvents(nodes, segment, h), script.rest, status, h1);
        OrderlyConcat(nodes, done, SegmentEvents(nodes, segment, h), EventsOf(nodes, script.rest, status, h1));
      } else {
        assert SegmentEvents(nodes, segment, h) + [] == SegmentEvents(nodes, segment, h);
      }
    }
  }

  /** Only the processes of one pipe segment run at the same time. */
  lemma RunIsOrderly(nodes: seq<Node>, status: nat -> int, p: nat)
    requires ItemsFrom(nodes, 0) && p < |Reference(nodes, status).1|
    ensures var log := Reference(nodes, status).1; InOrder(nodes, log[..p], log[p])
  {
    WholeScriptIsPlaced(nodes);
    ScriptOrderly(nodes, [], ScriptFrom(nodes, 0, [], []), status, 0);
    var log := Reference(nodes, status).1;
    assert InOrder(nodes, [] + log[..p], log[p]);
    assert [] + log[..p] == log[..p];
  }

  // ---------- where a run ends ----------

  /** The command at c ends a segment, and its status ends the run: it is the last one, or
      has failed before && or succeeded before ||. */
  ghost predicate StopsAt(nodes: seq<Node>, status: nat -> int, c: nat) {
    && EndsSegment(nodes, c)
    && (c + 1 == |nodes| || (nodes[c + 1] == And && status(c) != 0) || (nodes[c + 1] == Or && status(c) == 0))
  }

  /** A cd without directory, or with nothing after it. */
  ghost predicate BreaksAt(nodes: seq<Node>, d: nat) {
    d < |nodes| && nodes[d].Chdir? && (d + 1 == |nodes| || nodes[d].dir.None?)
  }

  ghost predicate EndsAt(nodes: seq<Node>, status: nat -> int, p: nat) {
    StopsAt(nodes, status, p) || BreaksAt(nodes, p)
  }

  ghost predicate FirstEnd(nodes: seq<Node>, status: nat -> int, i: nat, p: nat) {
    i <= p < |nodes| && EndsAt(nodes, status, p) && forall j :: i <= j < p ==> !EndsAt(nodes, status, j)
  }

  /** What is said of a run that ends at p, when the commands in started were launched before. */
  ghost predicate EndedAt(nodes: seq<Node>, status: nat -> int, i: nat, p: nat, started: seq<nat>,
                          outcome: Outcome, log: seq<Event>)
    requires p < |nodes|
  {
    && outcome == (if nodes[p].Chdir? then Raised else Returned(status(p)))
    && Launched(log) == started + CommandsFrom(nodes[..p + 1], i)
    && Waited(log) <= Launched(log) && (outcome.Returned? ==> Waited(log) == Launched(log))
  }

  lemma CommandsOfTwo(nodes: seq<Node>, i: nat, p: nat)
    requires i + 2 <= p < |nodes| && !nodes[i + 1].Command?
    ensures CommandsFrom(nodes[..p + 1], i)
      == if nodes[i].Command? then [i] + CommandsFrom(nodes[..p + 1], i + 2) else CommandsFrom(nodes[..p + 1], i + 2)
  {
    OneNode(nodes[..p + 1], i);
    OneNode(nodes[..p + 1], i + 1);
  }

  lemma CommandsOfOne(nodes: seq<Node>, i: nat)
    requires i < |nodes|
    ensures CommandsFrom(nodes[..i + 1], i) == if nodes[i].Command? then [i] else []
  {
    OneNode(nodes[..i + 1], i);
  }

  lemma FirstEndBack(nodes: seq<Node>, status: nat -> int, i: nat, p: nat)
    requires FirstEnd(nodes, status, i + 2, p)
    requires !EndsAt(nodes, status, i) && !EndsAt(nodes, status, i + 1)
    ensures FirstEnd(nodes, status, i, p)
  {
    forall j | i <= j < p ensures !EndsAt(nodes, status, j) {}
  }

  /** A cd that is passed: the run from here is the run from the next item. */
  lemma PastCdEnds(nodes: seq<Node>, status: nat -> int, i: nat, p: nat, started: seq<nat>, outcome: Outcome,
                   log: seq<Event>)
    requires i + 2 < |nodes| && nodes[i].Chdir? && nodes[i].dir.Some? && nodes[i + 1] == And
    requires FirstEnd(nodes, status, i + 2, p) && EndedAt(nodes, status, i + 2, p, started, outcome, log)
    ensures FirstEnd(nodes, status, i, p) && EndedAt(nodes, status, i, p, started, outcome, log)
  {
    FirstEndBack(nodes, status, i, p);
    CommandsOfTwo(nodes, i, p);
  }

  lemma PastPipeEnds(nodes: seq<Node>, status: nat -> int, i: nat, p: nat, started: seq<nat>, outcome: Outcome,
                     log: seq<Event>)
    requires i + 2 < |nodes| && nodes[i].Command? && nodes[i + 1] == Pipe
    requires FirstEnd(nodes, status, i + 2, p) && EndedAt(nodes, status, i + 2, p, started + [i], outcome, log)
    ensures FirstEnd(nodes, status, i, p) && EndedAt(nodes, status, i, p, started, outcome, log)
  {
    FirstEndBack(nodes, status, i, p);
    CommandsOfTwo(nodes, i, p);
    Append3(started, [i], CommandsFrom(nodes[..p + 1], i + 2));
  }

  /** A segment that does not stop the run, and the rest. */
  lemma PastSegmentEnds(nodes: seq<Node>, status: nat -> int, i: nat, p: nat, started: seq<nat>, outcome: Outcome,
                        log: seq<Event>, before: seq<Event>)
    requires i + 2 < |nodes| && nodes[i].Command? && nodes[i + 1] in [And, Or] && !StopsAt(nodes, status, i)
    requires FirstEnd(nodes, status, i + 2, p) && EndedAt(nodes, status, i + 2, p, [], outcome, log)
    requires Launched(before) == started + [i] == Waited(before)
    ensures FirstEnd(nodes, status, i, p) && EndedAt(nodes, status, i, p, started, outcome, before + log)
  {
    FirstEndBack(nodes, status, i, p);
    CommandsOfTwo(nodes, i, p);
    LaunchedConcat(before, log);
    Append3(started, [i], CommandsFrom(nodes[..p + 1], i + 2));
    assert [] + CommandsFrom(nodes[..p + 1], i + 2) == CommandsFrom(nodes[..p + 1], i + 2);
  }

  lemma LastSegmentEnds(nodes: seq<Node>, status: nat -> int, i: nat, started: seq<nat>, log: seq<Event>)
    requires StopsAt(nodes, status, i) && Launched(log) == started + [i] == Waited(log)
    ensures FirstEnd(nodes, status, i, i) && EndedAt(nodes, status, i, i, started, Returned(status(i)), log)
  {
    CommandsOfOne(nodes, i);
  }

  lemma BrokenEnds(nodes: seq<Node>, status: nat -> int, i: nat, started: seq<nat>, log: seq<Event>)
    requires BreaksAt(nodes, i) && Launched(log) == started && Waited(log) == []
    ensures FirstEnd(nodes, status, i, i) && EndedAt(nodes, status, i, i, started, Raised, log)
  {
    CommandsOfOne(nodes, i);
    assert started + [] == started;
  }

  lemma EndsHere(nodes: seq<Node>, i: nat, segment: seq<Member>, cwd: seq<string>, status: nat -> int, h: Handle)
    requires ItemsFrom(nodes, i) && ValidMembers(nodes, segment) && EndsAt(nodes, status, i)
    requires GoodScript(nodes, ScriptFrom(nodes, i, segment, cwd))
    ensures FirstEnd(nodes, status, i, i)
    ensures var script := ScriptFrom(nodes, i, segment, cwd);
      EndedAt(nodes, status, i, i, CommandsOf(segment), ValueOf(nodes, script, status),
              EventsOf(nodes, script, status, h))
  {
    var script := ScriptFrom(nodes, i, segment, cwd);
    if nodes[i].Chdir? {
      LaunchesOnly(nodes, segment, h);
      LaunchedLaunches(SegmentLaunches(nodes, segment, h), segment);
      BrokenEnds(nodes, status, i, CommandsOf(segment), EventsOf(nodes, script, status, h));
    } else {
      OneSegmentRuns(nodes, script, status, h);
      CommandsOfMore(segment, Member(i, cwd), []);
      LastSegmentEnds(nodes, status, i, CommandsOf(segment), EventsOf(nodes, script, status, h));
    }
  }

  lemma {:induction false} ScriptEnds(nodes: seq<Node>, i: nat, segment: seq<Member>, cwd: seq<string>,
                                      status: nat -> int, h: Handle) returns (p: nat)
    requires ItemsFrom(nodes, i) && ValidMembers(nodes, segment)
    requires GoodScript(nodes, ScriptFrom(nodes, i, segment, cwd))
    ensures FirstEnd(nodes, status, i, p)
    ensures var script := ScriptFrom(nodes, i, segment, cwd);
      EndedAt(nodes, status, i, p, CommandsOf(segment), ValueOf(nodes, script, status),
              EventsOf(nodes, script, status, h))
    decreases |nodes| - i
  {
    var m := Member(i, cwd);
    var script := ScriptFrom(nodes, i, segment, cwd);
    var outcome, log := ValueOf(nodes, script, status), EventsOf(nodes, script, status, h);
    if EndsAt(nodes, status, i) {
      p := i;
      EndsHere(nodes, i, segment, cwd, status, h);
    } else if nodes[i].Chdir? {
      p := ScriptEnds(nodes, i + 2, segment, cwd + [nodes[i].dir.value], status, h);
      PastCdEnds(nodes, status, i, p, CommandsOf(segment), outcome, log);
    } else if nodes[i + 1] == Pipe {
      p := ScriptEnds(nodes, i + 2, segment + [m], cwd, status, h);
      CommandsOfMore(segment, m, []);
      PastPipeEnds(nodes, status, i, p, CommandsOf(segment), outcome, log);
    } else {
      p := ScriptEnds(nodes, i + 2, [], cwd, status, HandlesAfter(nodes, segment + [m], h));
      ThenEnds(nodes, i, p, segment, m, script, status, h);
    }
  }

  lemma SegmentRan(nodes: seq<Node>, segment: seq<Member>, m: Member, all: seq<Member>, h: Handle)
    requires ValidMembers(nodes, all) && all == segment + [m]
    ensures Launched(SegmentEvents(nodes, all, h)) == CommandsOf(segment) + [m.command]
    ensures Waited(SegmentEvents(nodes, all, h)) == CommandsOf(segment) + [m.command]
  {
    SegmentRuns(nodes, all, h);
    CommandsOfMore(segment, m, []);
  }

  lemma ThenEnds(nodes: seq<Node>, i: nat, p: nat, segment: seq<Member>, m: Member, script: Script,
                 status: nat -> int, h: Handle)
    requires GoodScript(nodes, script) && script.Then? && script.segment == segment + [m] && m.command == i
    requires i + 2 < |nodes| && nodes[i].Command? && script.op == nodes[i + 1] && script.op in [And, Or]
    requires !StopsAt(nodes, status, i) && FirstEnd(nodes, status, i + 2, p)
    requires EndedAt(nodes, status, i + 2, p, [], ValueOf(nodes, script.rest, status),
                     EventsOf(nodes, script.rest, status, HandlesAfter(nodes, script.segment, h)))
    ensures FirstEnd(nodes, status, i, p)
    ensures EndedAt(nodes, status, i, p, CommandsOf(segment), ValueOf(nodes, script, status),
                    EventsOf(nodes, script, status, h))
  {
    SegmentRan(nodes, segment, m, script.segment, h);
    ThenEvents(nodes, script, status, h);
    PastSegmentEnds(nodes, status, i, p, CommandsOf(segment), ValueOf(nodes, script, status),
                    EventsOf(nodes, script.rest, status, HandlesAfter(nodes, script.segment, h)),
                    SegmentEvents(nodes, script.segment, h));
  }

  lemma ThenEvents(nodes: seq<Node>, script: Script, status: nat -> int, h: Handle)
    requires GoodScript(nodes, script) && script.Then? && !Stops(script.op, StatusOf(script.segment, status))
    ensures ValueOf(nodes, script, status) == ValueOf(nodes, script.rest, status)
    ensures EventsOf(nodes, script, status, h)
      == SegmentEvents(nodes, script.segment, h)
        + EventsOf(nodes, script.rest, status, HandlesAfter(nodes, script.segment, h))
  {}

  /** A run ends at the first position of the node list where a segment's status decides or
      a cd is broken. It has launched all commands up to there, in order; it returns the
      status of the command there, having waited for all of them, or fails at the cd. */
  lemma WhereRunEnds(nodes: seq<Node>, status: nat -> int) returns (p: nat)
    requires ItemsFrom(nodes, 0)
    ensures p < |nodes| && EndsAt(nodes, status, p) && forall j :: 0 <= j < p ==> !EndsAt(nodes, status, j)
    ensures Reference(nodes, status).0 == if nodes[p].Chdir? then Raised else Returned(status(p))
    ensures Launched(Reference(nodes, status).1) == CommandsFrom(nodes[..p + 1], 0)
    ensures Waited(Reference(nodes, status).1) <= CommandsFrom(nodes[..p + 1], 0)
    ensures nodes[p].Command? ==> Waited(Reference(nodes, status).1) == CommandsFrom(nodes[..p + 1], 0)
  {
    ScriptIsGood(nodes, 0, [], []);
    p := ScriptEnds(nodes, 0, [], [], status, 0);
    assert CommandsOf([]) + CommandsFrom(nodes[..p + 1], 0) == CommandsFrom(nodes[..p + 1], 0);
  }
}
