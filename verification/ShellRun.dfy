/** Pipeline.run with verbose off: its loop, against a reference semantics by pipe segments. */
module ShellRun {
  import opened Common
  import opened ShellParse

  // Processes are an oracle: status(i) is the exit status of the command at position i.

  type Handle = nat

  /** A file that run may have to close: the shared null device, or one it opened. */
  datatype FileRef = DevNull | Opened(handle: Handle)

  datatype Input = InheritIn | FromPipe(command: nat) | FromFile(handle: Handle)
  datatype Target = InheritOut | ToPipe | ToStdout | ToFile(file: FileRef)

  datatype Opening = OpenRead(name: string, handle: Handle) | OpenWrite(name: string, handle: Handle)

  /** Launch: the files in opens are opened in that order, then the process starts. */
  datatype Event =
    | Launch(command: nat, opens: seq<Opening>, stdin: Input, stdout: Target, stderr: Target, cwd: seq<string>)
    | Wait(command: nat)
    | Close(handle: Handle)

  datatype Outcome = Returned(status: int) | Raised

  /** A command of a segment, with the directories that cd has joined so far. */
  datatype Member = Member(command: nat, cwd: seq<string>)

  /** The node list by pipe segments. Broken: a cd without directory or without
      anything after it, met when the members in segment have been launched. */
  datatype Script =
    | Last(segment: seq<Member>)
    | Then(segment: seq<Member>, op: Node, rest: Script)
    | Broken(segment: seq<Member>)

  predicate IsNullDevice(name: string) {
    name == "NUL:" || name == "/dev/null"
  }

  /** Items and operators alternate from position i on, as the parser leaves them. */
  predicate ItemsFrom(nodes: seq<Node>, i: nat)
    decreases |nodes| - i
  {
    && i < |nodes| && (nodes[i].Command? || nodes[i].Chdir?)
    && (i + 1 == |nodes| ||
        (i + 2 < |nodes| && (if nodes[i].Chdir? then nodes[i + 1] == And else nodes[i + 1] in [Pipe, And, Or])
         && ItemsFrom(nodes, i + 2)))
  }

  /** The script from node i on, when segment has been begun. */
  function ScriptFrom(nodes: seq<Node>, i: nat, segment: seq<Member>, cwd: seq<string>): Script
    requires ItemsFrom(nodes, i)
    decreases |nodes| - i
  {
    match nodes[i]
    case Chdir(dir) =>
      if i + 1 == |nodes| || dir.None? then Broken(segment)
      else ScriptFrom(nodes, i + 2, segment, cwd + [dir.value])
    case Command(_, _, _, _, _, _) =>
      var more := segment + [Member(i, cwd)];
      if i + 1 == |nodes| then Last(more)
      else if nodes[i + 1] == Pipe then ScriptFrom(nodes, i + 2, more, cwd)
      else Then(more, nodes[i + 1], ScriptFrom(nodes, i + 2, [], cwd))
  }

  // ---------- what one command does ----------

  predicate ValidMembers(nodes: seq<Node>, segment: seq<Member>) {
    forall k :: 0 <= k < |segment| ==> segment[k].command < |nodes| && nodes[segment[k].command].Command?
  }

  /** Opening name for writing uses up a handle unless it is the null device. */
  function Uses(name: Option<string>): nat {
    if name.Some? && !IsNullDevice(name.value) then 1 else 0
  }

  function OpenWrites(name: Option<string>, h: Handle): seq<Opening> {
    if Uses(name) == 1 then [OpenWrite(name.value, h)] else []
  }

  function OpenOutFile(name: string, h: Handle): FileRef {
    if IsNullDevice(name) then DevNull else Opened(h)
  }

  function StdinFile(c: Node, piped: bool): Option<string>
    requires c.Command?
  {
    if piped then None else c.stdin
  }

  function StdoutFile(c: Node): Option<string>
    requires c.Command?
  {
    match c.stdout case File(name) => Some(name) case _ => None
  }

  function StderrFile(c: Node): Option<string>
    requires c.Command?
  {
    match c.stderr case ErrFile(name) => Some(name) case _ => None
  }

  function OpenReads(name: Option<string>, h: Handle): seq<Opening> {
    match name case None => [] case Some(f) => [OpenRead(f, h)]
  }

  /** The handles that launching c uses up: stdin first, then stdout, then stderr. */
  function AfterStdin(c: Node, piped: bool, h: Handle): Handle
    requires c.Command?
  {
    if StdinFile(c, piped).Some? then h + 1 else h
  }

  function AfterStdout(c: Node, piped: bool, h: Handle): Handle
    requires c.Command?
  {
    AfterStdin(c, piped, h) + Uses(StdoutFile(c))
  }

  function AfterStderr(c: Node, piped: bool, h: Handle): Handle
    requires c.Command?
  {
    AfterStdout(c, piped, h) + Uses(StderrFile(c))
  }

  function StdinOf(c: Node, previous: Option<nat>, h: Handle): Input
    requires c.Command?
  {
    if previous.Some? then FromPipe(previous.value) else if c.stdin.Some? then FromFile(h) else InheritIn
  }

  function StdoutOf(c: Node, h: Handle): Target
    requires c.Command?
  {
    match c.stdout case Inherit => InheritOut case PIPE => ToPipe case File(f) => ToFile(OpenOutFile(f, h))
  }

  function StderrOf(c: Node, h: Handle): Target
    requires c.Command?
  {
    match c.stderr case SameAsParent => InheritOut case STDOUT => ToStdout case ErrFile(f) => ToFile(OpenOutFile(f, h))
  }

  /** Opening the files of c and launching it, after the command previous of its segment. */
  function LaunchOf(m: Member, c: Node, previous: Option<nat>, h: Handle): Event
    requires c.Command?
  {
    var piped := previous.Some?;
    var h1, h2 := AfterStdin(c, piped, h), AfterStdout(c, piped, h);
    Launch(m.command, OpenReads(StdinFile(c, piped), h) + OpenWrites(StdoutFile(c), h1) + OpenWrites(StderrFile(c), h2),
           StdinOf(c, previous, h), StdoutOf(c, h1), StderrOf(c, h2), m.cwd)
  }

  function Previous(segment: seq<Member>): Option<nat> {
    if segment == [] then None else Some(segment[|segment| - 1].command)
  }

  /** The handles in use after the segment's commands have been launched. */
  function HandlesAfter(nodes: seq<Node>, segment: seq<Member>, h: Handle): Handle
    requires ValidMembers(nodes, segment)
  {
    if segment == [] then h
    else
      var front, m := segment[..|segment| - 1], segment[|segment| - 1];
      AfterStderr(nodes[m.command], front != [], HandlesAfter(nodes, front, h))
  }

  ghost function SegmentLaunches(nodes: seq<Node>, segment: seq<Member>, h: Handle): seq<Event>
    requires ValidMembers(nodes, segment)
  {
    if segment == [] then []
    else
      var front, m := segment[..|segment| - 1], segment[|segment| - 1];
      SegmentLaunches(nodes, front, h)
        + [LaunchOf(m, nodes[m.command], Previous(front), HandlesAfter(nodes, front, h))]
  }

  ghost function Waits(segment: seq<Member>): seq<Event> {
    seq(|segment|, k requires 0 <= k < |segment| => Wait(segment[k].command))
  }

  ghost function Closes(h: Handle, n: nat): seq<Event> {
    seq(n, (k: nat) => Close(h + k))
  }

  /** A whole segment: launch all, wait for all in order, close what was opened. */
  ghost function SegmentEvents(nodes: seq<Node>, segment: seq<Member>, h: Handle): seq<Event>
    requires ValidMembers(nodes, segment)
  {
    HandlesGrow(nodes, segment, h);
    SegmentLaunches(nodes, segment, h) + Waits(segment) + Closes(h, HandlesAfter(nodes, segment, h) - h)
  }

  lemma {:induction false} HandlesGrow(nodes: seq<Node>, segment: seq<Member>, h: Handle)
    requires ValidMembers(nodes, segment)
    ensures h <= HandlesAfter(nodes, segment, h)
  {
    if segment == [] {
    } else {
      HandlesGrow(nodes, segment[..|segment| - 1], h);
    }
  }

  // ---------- the reference semantics ----------

  ghost predicate GoodScript(nodes: seq<Node>, script: Script) {
    ValidMembers(nodes, script.segment) &&
    match script
    case Last(segment) => segment != []
    case Then(segment, op, rest) => segment != [] && op in [And, Or] && GoodScript(nodes, rest)
    case Broken(_) => true
  }

  /** A pipeline's status is that of its last command. */
  function StatusOf(segment: seq<Member>, status: nat -> int): int
    requires segment != []
  {
    status(segment[|segment| - 1].command)
  }

  predicate Stops(op: Node, status: int) {
    if op == And then status != 0 else status == 0
  }

  /** The right-nested value: a && (b || ...), stopping for good at a short-circuit. */
  ghost function ValueOf(nodes: seq<Node>, script: Script, status: nat -> int): Outcome
    requires GoodScript(nodes, script)
  {
    match script
    case Last(segment) => Returned(StatusOf(segment, status))
    case Then(segment, op, rest) =>
      var s := StatusOf(segment, status);
      if Stops(op, s) then Returned(s) else ValueOf(nodes, rest, status)
    case Broken(_) => Raised
  }

  ghost function EventsOf(nodes: seq<Node>, script: Script, status: nat -> int, h: Handle): seq<Event>
    requires GoodScript(nodes, script)
  {
    match script
    case Last(segment) => SegmentEvents(nodes, segment, h)
    case Then(segment, op, rest) =>
      SegmentEvents(nodes, segment, h)
        + (if Stops(op, StatusOf(segment, status)) then []
           else EventsOf(nodes, rest, status, HandlesAfter(nodes, segment, h)))
    case Broken(segment) => SegmentLaunches(nodes, segment, h)
  }

  lemma {:induction false} ScriptIsGood(nodes: seq<Node>, i: nat, segment: seq<Member>, cwd: seq<string>)
    requires ItemsFrom(nodes, i) && ValidMembers(nodes, segment)
    ensures GoodScript(nodes, ScriptFrom(nodes, i, segment, cwd))
    decreases |nodes| - i
  {
    match nodes[i]
    case Chdir(dir) =>
      if i + 1 < |nodes| && dir.Some? { ScriptIsGood(nodes, i + 2, segment, cwd + [dir.value]); }
    case Command(_, _, _, _, _, _) =>
      if i + 1 < |nodes| {
        ScriptIsGood(nodes, i + 2, if nodes[i + 1] == Pipe then segment + [Member(i, cwd)] else [], cwd);
      }
  }

  // ---------- run ----------

  /** _exec_piped_commands: wait for all, in order; the last status unless all are 0. */
  method ExecPipedCommands(commands: seq<Member>, status: nat -> int) returns (retval: int, log: seq<Event>)
    ensures log == Waits(commands)
    ensures commands != [] ==> retval == StatusOf(commands, status)
    ensures commands == [] ==> retval == 0
  {
    var retvals: seq<int> := [];
    log := [];
    for k := 0 to |commands|
      invariant |retvals| == k && forall j :: 0 <= j < k ==> retvals[j] == status(commands[j].command)
      invariant log == Waits(commands)[..k]
    {
      log := log + [Wait(commands[k].command)];
      retvals := retvals + [status(commands[k].command)];
    }
    retval := 0;
    for j := 0 to |retvals|
      invariant retval == 0 && forall i :: 0 <= i < j ==> retvals[i] == 0
    {
      if retvals[j] != 0 {
        retval := retvals[|retvals| - 1];
        return;
      }
    }
  }

  /** The handles among files, in order: the null device is never closed. */
  ghost function HandlesOf(files: seq<FileRef>): seq<Handle> {
    if files == [] then []
    else
      var f := files[|files| - 1];
      HandlesOf(files[..|files| - 1]) + (if f.Opened? then [f.handle] else [])
  }

  ghost function Range(h: Handle, n: nat): seq<Handle> {
    seq(n, (k: nat) => h + k)
  }

  lemma HandlesSnoc(files: seq<FileRef>, f: FileRef)
    ensures HandlesOf(files + [f]) == HandlesOf(files) + (if f.Opened? then [f.handle] else [])
  {
    assert (files + [f])[..|files|] == files;
  }

  method CloseFiles(filesToClose: seq<FileRef>, ghost h: Handle, ghost n: nat) returns (log: seq<Event>)
    requires HandlesOf(filesToClose) == Range(h, n)
    ensures log == Closes(h, n)
  {
    log := [];
    for k := 0 to |filesToClose|
      invariant |log| == |HandlesOf(filesToClose[..k])|
      invariant forall j :: 0 <= j < |log| ==> log[j] == Close(HandlesOf(filesToClose[..k])[j])
    {
      assert filesToClose[..k + 1] == filesToClose[..k] + [filesToClose[k]];
      HandlesSnoc(filesToClose[..k], filesToClose[k]);
      if filesToClose[k].Opened? {
        log := log + [Close(filesToClose[k].handle)];
      }
    }
    assert filesToClose[..|filesToClose|] == filesToClose;
  }

  /** _open_out_file, and the entry in files_to_close. */
  method OpenTarget(name: string, files0: seq<FileRef>, h0: Handle)
    returns (file: FileRef, files: seq<FileRef>, h: Handle, opens: seq<Opening>)
    ensures file == OpenOutFile(name, h0) && opens == OpenWrites(Some(name), h0) && h == h0 + Uses(Some(name))
    ensures HandlesOf(files) == HandlesOf(files0) + Range(h0, h - h0)
  {
    h, opens := h0, [];
    if IsNullDevice(name) {
      file := DevNull;
    } else {
      file := Opened(h);
      opens := [OpenWrite(name, h)];
      h := h + 1;
    }
    HandlesSnoc(files0, file);
    files := files0 + [file];
  }

  method OpenInput(c: Node, previous: Option<nat>, files0: seq<FileRef>, h0: Handle)
    returns (stdin: Input, files: seq<FileRef>, h: Handle, opens: seq<Opening>)
    requires c.Command?
    ensures stdin == StdinOf(c, previous, h0) && opens == OpenReads(StdinFile(c, previous.Some?), h0)
    ensures h == AfterStdin(c, previous.Some?, h0)
    ensures HandlesOf(files) == HandlesOf(files0) + Range(h0, h - h0)
  {
    stdin, files, h, opens := InheritIn, files0, h0, [];
    if previous.Some? {
      stdin := FromPipe(previous.value);
    } else if c.stdin.Some? {
      stdin := FromFile(h);
      opens := [OpenRead(c.stdin.value, h)];
      HandlesSnoc(files, Opened(h));
      files := files + [Opened(h)];
      h := h + 1;
    }
  }

  lemma RangeJoin(h0: Handle, h1: Handle, h2: Handle)
    requires h0 <= h1 <= h2
    ensures Range(h0, h1 - h0) + Range(h1, h2 - h1) == Range(h0, h2 - h0)
  {}

  lemma Append3<T>(a: seq<T>, b: seq<T>, c: seq<T>)
    ensures (a + b) + c == a + (b + c)
  {}

  lemma MoreHandles(before: seq<Handle>, all: seq<Handle>, h0: Handle, h1: Handle, h2: Handle)
    requires h0 <= h1 <= h2 && all == before + Range(h0, h1 - h0) + Range(h1, h2 - h1)
    ensures all == before + Range(h0, h2 - h0)
  {
    RangeJoin(h0, h1, h2);
    Append3(before, Range(h0, h1 - h0), Range(h1, h2 - h1));
  }

  method OpenStdout(c: Node, files0: seq<FileRef>, h0: Handle)
    returns (stdout: Target, files: seq<FileRef>, h: Handle, opens: seq<Opening>)
    requires c.Command?
    ensures stdout == StdoutOf(c, h0) && opens == OpenWrites(StdoutFile(c), h0) && h == h0 + Uses(StdoutFile(c))
    ensures HandlesOf(files) == HandlesOf(files0) + Range(h0, h - h0)
  {
    stdout, files, h, opens := InheritOut, files0, h0, [];
    match c.stdout {
      case Inherit =>
      case PIPE => stdout := ToPipe;
      case File(name) =>
        var file;
        file, files, h, opens := OpenTarget(name, files, h);
        stdout := ToFile(file);
    }
  }

  method OpenStderr(c: Node, files0: seq<FileRef>, h0: Handle)
    returns (stderr: Target, files: seq<FileRef>, h: Handle, opens: seq<Opening>)
    requires c.Command?
    ensures stderr == StderrOf(c, h0) && opens == OpenWrites(StderrFile(c), h0) && h == h0 + Uses(StderrFile(c))
    ensures HandlesOf(files) == HandlesOf(files0) + Range(h0, h - h0)
  {
    stderr, files, h, opens := InheritOut, files0, h0, [];
    match c.stderr {
      case SameAsParent =>
      case STDOUT => stderr := ToStdout;
      case ErrFile(name) =>
        var file;
        file, files, h, opens := OpenTarget(name, files, h);
        stderr := ToFile(file);
    }
  }

  /** Open what the command asks for, remember it, and start the process. */
  method StartCommand(m: Member, c: Node, previous: Option<nat>, files0: seq<FileRef>, h0: Handle)
    returns (filesToClose: seq<FileRef>, h: Handle, launch: Event)
    requires c.Command?
    ensures launch == LaunchOf(m, c, previous, h0)
    ensures h == AfterStderr(c, previous.Some?, h0)
    ensures HandlesOf(filesToClose) == HandlesOf(files0) + Range(h0, h - h0)
  {
    var stdin, stdout, stderr, opens1, opens2, opens3;
    stdin, filesToClose, h, opens1 := OpenInput(c, previous, files0, h0);
    ghost var h1 := h;
    stdout, filesToClose, h, opens2 := OpenStdout(c, filesToClose, h);
    MoreHandles(HandlesOf(files0), HandlesOf(filesToClose), h0, h1, h);
    ghost var h2 := h;
    stderr, filesToClose, h, opens3 := OpenStderr(c, filesToClose, h);
    MoreHandles(HandlesOf(files0), HandlesOf(filesToClose), h0, h2, h);
    launch := Launch(m.command, opens1 + opens2 + opens3, stdin, stdout, stderr, m.cwd);
  }

  /** What remains to be said of a run that stands before node i. */
  ghost predicate Continues(nodes: seq<Node>, status: nat -> int, i: nat, piped: seq<Member>, cwd: seq<string>,
                            h0: Handle, done: seq<Event>, outcome: Outcome, log: seq<Event>) {
    && ItemsFrom(nodes, i) && ValidMembers(nodes, piped)
    && var script := ScriptFrom(nodes, i, piped, cwd);
    && GoodScript(nodes, script)
    && outcome == ValueOf(nodes, script, status) && log == done + EventsOf(nodes, script, status, h0)
  }

  /** Where the loop stands: done was logged for finished segments; the current
      one began at handle h0 and its first commands, piped, are running. */
  ghost predicate Running(nodes: seq<Node>, piped: seq<Member>, files: seq<FileRef>, h0: Handle, h: Handle,
                          done: seq<Event>, log: seq<Event>) {
    && ValidMembers(nodes, piped) && h == HandlesAfter(nodes, piped, h0) && h0 <= h
    && HandlesOf(files) == Range(h0, h - h0)
    && log == done + SegmentLaunches(nodes, piped, h0)
  }

  lemma LaunchesSnoc(nodes: seq<Node>, piped: seq<Member>, m: Member, h0: Handle)
    requires ValidMembers(nodes, piped) && m.command < |nodes| && nodes[m.command].Command?
    ensures ValidMembers(nodes, piped + [m])
    ensures var c, h := nodes[m.command], HandlesAfter(nodes, piped, h0);
      && HandlesAfter(nodes, piped + [m], h0) == AfterStderr(c, piped != [], h)
      && SegmentLaunches(nodes, piped + [m], h0)
        == SegmentLaunches(nodes, piped, h0) + [LaunchOf(m, c, Previous(piped), h)]
  {
    assert (piped + [m])[..|piped|] == piped;
  }

  lemma StartedOne(nodes: seq<Node>, piped: seq<Member>, files: seq<FileRef>, h0: Handle, h: Handle,
                   done: seq<Event>, log: seq<Event>, m: Member, files': seq<FileRef>, h': Handle, launch: Event)
    requires Running(nodes, piped, files, h0, h, done, log)
    requires m.command < |nodes| && nodes[m.command].Command?
    requires h <= h' == AfterStderr(nodes[m.command], piped != [], h)
    requires launch == LaunchOf(m, nodes[m.command], Previous(piped), h)
    requires HandlesOf(files') == HandlesOf(files) + Range(h, h' - h)
    ensures Running(nodes, piped + [m], files', h0, h', done, log + [launch])
  {
    LaunchesSnoc(nodes, piped, m, h0);
    RangeJoin(h0, h, h');
    Append3(done, SegmentLaunches(nodes, piped, h0), [launch]);
  }

  /** Start node m.command as the next member of the current segment. */
  method StartMember(nodes: seq<Node>, piped: seq<Member>, m: Member, files0: seq<FileRef>,
                     ghost h0: Handle, h1: Handle, ghost done: seq<Event>, log0: seq<Event>)
    returns (files: seq<FileRef>, h: Handle, log: seq<Event>)
    requires Running(nodes, piped, files0, h0, h1, done, log0)
    requires m.command < |nodes| && nodes[m.command].Command?
    ensures Running(nodes, piped + [m], files, h0, h, done, log)
  {
    var launch;
    files, h, launch := StartCommand(m, nodes[m.command], Previous(piped), files0, h1);
    StartedOne(nodes, piped, files0, h0, h1, done, log0, m, files, h, launch);
    log := log0 + [launch];
  }

  lemma SegmentOver(nodes: seq<Node>, piped: seq<Member>, files: seq<FileRef>, h0: Handle, h: Handle,
                    done: seq<Event>, log: seq<Event>, waited: seq<Event>, closed: seq<Event>)
    requires Running(nodes, piped, files, h0, h, done, log)
    requires waited == Waits(piped) && closed == Closes(h0, h - h0)
    ensures log + waited + closed == done + SegmentEvents(nodes, piped, h0)
    ensures Running(nodes, [], [], h, h, log + waited + closed, log + waited + closed)
  {
    assert log + waited + closed == done + (SegmentLaunches(nodes, piped, h0) + waited + closed);
  }

  lemma AfterCd(nodes: seq<Node>, status: nat -> int, i: nat, piped: seq<Member>, cwd: seq<string>,
                h0: Handle, done: seq<Event>, outcome: Outcome, log: seq<Event>)
    requires Continues(nodes, status, i, piped, cwd, h0, done, outcome, log)
    requires nodes[i].Chdir? && i + 1 < |nodes| && nodes[i].dir.Some?
    ensures Continues(nodes, status, i + 2, piped, cwd + [nodes[i].dir.value], h0, done, outcome, log)
  {}

  lemma AfterPipe(nodes: seq<Node>, status: nat -> int, i: nat, piped: seq<Member>, cwd: seq<string>,
                  h0: Handle, done: seq<Event>, outcome: Outcome, log: seq<Event>)
    requires Continues(nodes, status, i, piped, cwd, h0, done, outcome, log)
    requires nodes[i].Command? && i + 1 < |nodes| && nodes[i + 1] == Pipe
    ensures Continues(nodes, status, i + 2, piped + [Member(i, cwd)], cwd, h0, done, outcome, log)
  {}

  /** The segment that ends with node i is over. */
  lemma AfterSegment(nodes: seq<Node>, status: nat -> int, i: nat, piped: seq<Member>, cwd: seq<string>,
                     h0: Handle, done: seq<Event>, outcome: Outcome, log: seq<Event>)
    requires Continues(nodes, status, i, piped, cwd, h0, done, outcome, log)
    requires nodes[i].Command? && !(i + 1 < |nodes| && nodes[i + 1] == Pipe)
    ensures var segment := piped + [Member(i, cwd)];
      var s := StatusOf(segment, status);
      && ValidMembers(nodes, segment)
      && (if i + 1 == |nodes| || Stops(nodes[i + 1], s)
          then outcome == Returned(s) && log == done + SegmentEvents(nodes, segment, h0)
          else Continues(nodes, status, i + 2, [], cwd, HandlesAfter(nodes, segment, h0),
                         done + SegmentEvents(nodes, segment, h0), outcome, log))
  {
    var segment := piped + [Member(i, cwd)];
    if i + 1 < |nodes| {
      var rest := ScriptFrom(nodes, i + 2, [], cwd);
      assert ScriptFrom(nodes, i, piped, cwd) == Then(segment, nodes[i + 1], rest);
    }
  }

  lemma BrokenHere(nodes: seq<Node>, status: nat -> int, i: nat, piped: seq<Member>, cwd: seq<string>,
                   h0: Handle, done: seq<Event>, outcome: Outcome, log: seq<Event>)
    requires Continues(nodes, status, i, piped, cwd, h0, done, outcome, log)
    requires nodes[i].Chdir? && (i + 1 == |nodes| || nodes[i].dir.None?)
    ensures outcome == Raised && log == done + SegmentLaunches(nodes, piped, h0)
  {}

  /** Wait for the segment's processes, then close its files. */
  method FinishSegment(ghost nodes: seq<Node>, piped: seq<Member>, files: seq<FileRef>, ghost h0: Handle, h: Handle,
                       ghost done: seq<Event>, log0: seq<Event>, status: nat -> int)
    returns (retval: int, log: seq<Event>)
    requires piped != [] && Running(nodes, piped, files, h0, h, done, log0)
    ensures retval == StatusOf(piped, status) && log == done + SegmentEvents(nodes, piped, h0)
    ensures Running(nodes, [], [], h, h, log, log)
  {
    var waited;
    retval, waited := ExecPipedCommands(piped, status);
    var closed := CloseFiles(files, h0, h - h0);
    SegmentOver(nodes, piped, files, h0, h, done, log0, waited, closed);
    log := log0 + waited + closed;
  }

  lemma PopTwo<T>(s: seq<T>, i: nat)
    requires i < |s|
    ensures s[i..] != [] && s[i..][0] == s[i] && s[i..][1..] == s[i + 1..] && (s[i + 1..] == [] <==> i + 1 == |s|)
    ensures i + 1 < |s| ==> s[i + 1..][0] == s[i + 1] && s[i + 1..][1..] == s[i + 2..]
  {}

  /** The loop of run: pops nodes off the front until a segment's status decides,
      or none is left. value and events are what the reference semantics says. */
  method RunLoop(nodes: seq<Node>, status: nat -> int, ghost value: Outcome, ghost events: seq<Event>)
    returns (outcome: Outcome, log: seq<Event>)
    requires Continues(nodes, status, 0, [], [], 0, [], value, events)
    ensures outcome == value && log == events
  {
    var pipeline := nodes;
    var position, cwd, h := 0, [], 0;
    var pipedCommands, filesToClose := [], [];
    ghost var h0, done := 0, [];
    log := [];
    while true
      invariant position <= |nodes| && pipeline == nodes[position..]
      invariant Continues(nodes, status, position, pipedCommands, cwd, h0, done, value, events)
      invariant Running(nodes, pipedCommands, filesToClose, h0, h, done, log)
      decreases |pipeline|
    {
      PopTwo(nodes, position);
      var node := pipeline[0];
      pipeline := pipeline[1..];
      if node.Chdir? {
        if pipeline == [] || node.dir.None? {
          BrokenHere(nodes, status, position, pipedCommands, cwd, h0, done, value, events);
          return Raised, log;
        }
        AfterCd(nodes, status, position, pipedCommands, cwd, h0, done, value, events);
        pipeline := pipeline[1..];
        cwd := cwd + [node.dir.value];
        position := position + 2;
        continue;
      }
      var m := Member(position, cwd);
      filesToClose, h, log := StartMember(nodes, pipedCommands, m, filesToClose, h0, h, done, log);
      if pipeline != [] && pipeline[0] == Pipe {
        AfterPipe(nodes, status, position, pipedCommands, cwd, h0, done, value, events);
        pipedCommands := pipedCommands + [m];
        pipeline := pipeline[1..];
        position := position + 2;
        continue;
      }
      AfterSegment(nodes, status, position, pipedCommands, cwd, h0, done, value, events);
      pipedCommands := pipedCommands + [m];
      var retval;
      retval, log := FinishSegment(nodes, pipedCommands, filesToClose, h0, h, done, log, status);
      if pipeline == [] || Stops(pipeline[0], retval) {
        return Returned(retval), log;
      }
      done, h0 := log, h;
      filesToClose, pipedCommands := [], [];
      pipeline := pipeline[1..];
      position := position + 2;
    }
  }

  /** Result and events of running the parsed nodes, by the reference semantics. */
  ghost function Reference(nodes: seq<Node>, status: nat -> int): (Outcome, seq<Event>)
    requires ItemsFrom(nodes, 0)
  {
    ScriptIsGood(nodes, 0, [], []);
    var script := ScriptFrom(nodes, 0, [], []);
    (ValueOf(nodes, script, status), EventsOf(nodes, script, status, 0))
  }

  lemma AtTheStart(nodes: seq<Node>, status: nat -> int)
    requires ItemsFrom(nodes, 0)
    ensures Continues(nodes, status, 0, [], [], 0, [], Reference(nodes, status).0, Reference(nodes, status).1)
  {
    ScriptIsGood(nodes, 0, [], []);
    NothingBefore(Reference(nodes, status).1);
  }

  lemma NothingBefore(events: seq<Event>)
    ensures [] + events == events
  {}

  method Run(nodes: seq<Node>, status: nat -> int) returns (outcome: Outcome, log: seq<Event>)
    requires ItemsFrom(nodes, 0)
    ensures (outcome, log) == Reference(nodes, status)
  {
    AtTheStart(nodes, status);
    outcome, log := RunLoop(nodes, status, Reference(nodes, status).0, Reference(nodes, status).1);
  }

  // ---------- the parser's output can be run ----------

  lemma {:induction false} PairsAreItems(nodes: seq<Node>, n: nat, i: nat)
    requires n < |nodes| && GoodPairs(nodes[..n]) && ItemsFrom(nodes, n) && i <= n && (n - i) % 2 == 0
    ensures ItemsFrom(nodes, i)
    decreases n
  {
    if i == n {
    } else {
      OnePairBack(nodes, n);
      PairsAreItems(nodes, n - 2, i);
    }
  }

  lemma OnePairBack(nodes: seq<Node>, n: nat)
    requires 2 <= n < |nodes| && GoodPairs(nodes[..n]) && ItemsFrom(nodes, n)
    ensures GoodPairs(nodes[..n - 2]) && ItemsFrom(nodes, n - 2)
  {
    assert nodes[..n][..n - 2] == nodes[..n - 2];
    assert nodes[..n][n - 2] == nodes[n - 2] && nodes[..n][n - 1] == nodes[n - 1];
    assert GoodItem(nodes[n - 2], Some(nodes[n - 1]));
  }

  lemma LastIsItem(nodes: seq<Node>)
    requires Grammatical(nodes)
    ensures ItemsFrom(nodes, |nodes| - 1)
  {}

  lemma {:induction false} PairsAreEven(nodes: seq<Node>)
    requires GoodPairs(nodes)
    ensures |nodes| % 2 == 0
    decreases |nodes|
  {
    if nodes == [] {
    } else {
      PairsAreEven(nodes[..|nodes| - 2]);
    }
  }

  /** Whatever parse returns meets what run asks of its nodes. */
  lemma ParsedCanRun(tokens: seq<string>)
    requires Parsed(tokens).Some?
    ensures ItemsFrom(Parsed(tokens).value, 0)
  {
    var nodes := Parsed(tokens).value;
    ParsedIsGrammatical(tokens);
    PairsAreEven(nodes[..|nodes| - 1]);
    LastIsItem(nodes);
    PairsAreItems(nodes, |nodes| - 1, 0);
  }

  // ---------- what the reference semantics guarantees ----------

  ghost function Closings(events: seq<Event>, h: Handle): nat {
    if events == [] then 0
    else Closings(events[..|events| - 1], h) + (if events[|events| - 1] == Close(h) then 1 else 0)
  }

  /** How often h is opened by these openings, by one event, and by these events. */
  ghost function TimesOpened(opens: seq<Opening>, h: Handle): nat {
    if opens == [] then 0
    else TimesOpened(opens[..|opens| - 1], h) + (if opens[|opens| - 1].handle == h then 1 else 0)
  }

  ghost function OpenedBy(e: Event, h: Handle): nat {
    if e.Launch? then TimesOpened(e.opens, h) else 0
  }

  ghost function Openings(events: seq<Event>, h: Handle): nat {
    if events == [] then 0
    else Openings(events[..|events| - 1], h) + OpenedBy(events[|events| - 1], h)
  }

  lemma {:induction false} CountsConcat(a: seq<Event>, b: seq<Event>, h: Handle)
    ensures Closings(a + b, h) == Closings(a, h) + Closings(b, h)
    ensures Openings(a + b, h) == Openings(a, h) + Openings(b, h)
    decreases |b|
  {
    if b == [] {
      assert a + b == a;
    } else {
      var n := |b| - 1;
      assert (a + b)[..|a + b| - 1] == a + b[..n];
      CountsConcat(a, b[..n], h);
    }
  }

  lemma {:induction false} NoClosings(events: seq<Event>, h: Handle)
    requires forall i :: 0 <= i < |events| ==> !events[i].Close?
    ensures Closings(events, h) == 0
  {
    if events == [] {
    } else {
      NoClosings(events[..|events| - 1], h);
    }
  }

  lemma {:induction false} NoOpenings(events: seq<Event>, h: Handle)
    requires forall i :: 0 <= i < |events| ==> !events[i].Launch?
    ensures Openings(events, h) == 0
  {
    if events == [] {
    } else {
      NoOpenings(events[..|events| - 1], h);
    }
  }

  lemma {:induction false} RangeClosings(h0: Handle, n: nat, h: Handle)
    ensures Closings(Closes(h0, n), h) == OneIf(h0 <= h < h0 + n)
  {
    if n == 0 {
    } else {
      assert Closes(h0, n)[..n - 1] == Closes(h0, n - 1);
      RangeClosings(h0, n - 1, h);
    }
  }

  lemma {:induction false} LaunchesOnly(nodes: seq<Node>, segment: seq<Member>, h0: Handle)
    requires ValidMembers(nodes, segment)
    ensures LaunchEach(SegmentLaunches(nodes, segment, h0), segment)
  {
    if segment == [] {
    } else {
      var front, m := segment[..|segment| - 1], segment[|segment| - 1];
      LaunchesOnly(nodes, front, h0);
      LaunchEachSnoc(SegmentLaunches(nodes, front, h0), segment,
                     LaunchOf(m, nodes[m.command], Previous(front), HandlesAfter(nodes, front, h0)));
    }
  }

  ghost predicate LaunchEach(events: seq<Event>, segment: seq<Member>) {
    && |events| == |segment|
    && forall i :: 0 <= i < |segment| ==> events[i].Launch? && events[i].command == segment[i].command
  }

  lemma LaunchEachSnoc(events: seq<Event>, segment: seq<Member>, e: Event)
    requires segment != [] && LaunchEach(events, segment[..|segment| - 1])
    requires e.Launch? && e.command == segment[|segment| - 1].command
    ensures LaunchEach(events + [e], segment)
  {}

  /** Openings numbered from h0 without gaps open each of these handles once. */
  lemma {:induction false} NumberedOpenOnce(opens: seq<Opening>, h0: Handle, h: Handle)
    requires forall k :: 0 <= k < |opens| ==> opens[k].handle == h0 + k
    ensures TimesOpened(opens, h) == OneIf(h0 <= h < h0 + |opens|)
  {
    if opens == [] {
    } else {
      NumberedOpenOnce(opens[..|opens| - 1], h0, h);
    }
  }

  lemma OneLaunchOpens(m: Member, c: Node, previous: Option<nat>, h0: Handle, h: Handle)
    requires c.Command?
    ensures h0 <= AfterStderr(c, previous.Some?, h0)
    ensures OpenedBy(LaunchOf(m, c, previous, h0), h) == OneIf(h0 <= h < AfterStderr(c, previous.Some?, h0))
  {
    var piped := previous.Some?;
    var a := OpenReads(StdinFile(c, piped), h0);
    var b := OpenWrites(StdoutFile(c), AfterStdin(c, piped, h0));
    var d := OpenWrites(StderrFile(c), AfterStdout(c, piped, h0));
    var opens := a + b + d;
    assert |a| <= 1 && |b| <= 1 && |d| <= 1;
    assert forall k :: 0 <= k < |opens| ==> opens[k].handle == h0 + k;
    assert AfterStderr(c, piped, h0) == h0 + |opens|;
    NumberedOpenOnce(opens, h0, h);
  }

  /** A segment opens each handle from h0 up to HandlesAfter once, and no other. */
  lemma {:induction false} LaunchesOpenOnce(nodes: seq<Node>, segment: seq<Member>, h0: Handle, h: Handle)
    requires ValidMembers(nodes, segment)
    ensures Openings(SegmentLaunches(nodes, segment, h0), h) == OneIf(h0 <= h < HandlesAfter(nodes, segment, h0))
  {
    if segment == [] {
    } else {
      var front, m := segment[..|segment| - 1], segment[|segment| - 1];
      LaunchesOpenOnce(nodes, front, h0, h);
      HandlesGrow(nodes, front, h0);
      var h1 := HandlesAfter(nodes, front, h0);
      OneLaunchOpens(m, nodes[m.command], Previous(front), h1, h);
      OpeningsSnoc(SegmentLaunches(nodes, front, h0), LaunchOf(m, nodes[m.command], Previous(front), h1), h);
    }
  }

  lemma OpeningsSnoc(events: seq<Event>, e: Event, h: Handle)
    ensures Openings(events + [e], h) == Openings(events, h) + OpenedBy(e, h)
  {
    assert (events + [e])[..|events|] == events;
  }

  lemma LaunchesCloseNothing(nodes: seq<Node>, segment: seq<Member>, h0: Handle, h: Handle)
    requires ValidMembers(nodes, segment)
    ensures Closings(SegmentLaunches(nodes, segment, h0), h) == 0
  {
    LaunchesOnly(nodes, segment, h0);
    NoClosings(SegmentLaunches(nodes, segment, h0), h);
  }

  lemma LaunchWaitCloseFiles(launches: seq<Event>, waits: seq<Event>, closes: seq<Event>, h: Handle)
    requires Closings(launches, h) == 0 && Closings(waits, h) == 0
    requires Openings(waits, h) == 0 && Openings(closes, h) == 0
    ensures Openings(launches + waits + closes, h) == Openings(launches, h)
    ensures Closings(launches + waits + closes, h) == Closings(closes, h)
  {
    CountsConcat(launches, waits, h);
    CountsConcat(launches + waits, closes, h);
  }

  /** A segment opens and closes the handles from h0 up to HandlesAfter, each once. */
  lemma SegmentCloses(nodes: seq<Node>, segment: seq<Member>, h0: Handle, h: Handle)
    requires ValidMembers(nodes, segment)
    ensures var events, end := SegmentEvents(nodes, segment, h0), HandlesAfter(nodes, segment, h0);
      Openings(events, h) == Closings(events, h) == OneIf(h0 <= h < end)
  {
    HandlesGrow(nodes, segment, h0);
    var n := HandlesAfter(nodes, segment, h0) - h0;
    LaunchesOpenOnce(nodes, segment, h0, h);
    LaunchesCloseNothing(nodes, segment, h0, h);
    NoClosings(Waits(segment), h);
    NoOpenings(Waits(segment), h);
    RangeClosings(h0, n, h);
    NoOpenings(Closes(h0, n), h);
    LaunchWaitCloseFiles(SegmentLaunches(nodes, segment, h0), Waits(segment), Closes(h0, n), h);
  }

  /** Opened at most once, closed at most as often, and all closed on a normal return. */
  ghost predicate OpenedAtMostOnce(events: seq<Event>, outcome: Outcome, h: Handle) {
    && Closings(events, h) <= Openings(events, h) <= 1
    && (outcome.Returned? ==> Closings(events, h) == Openings(events, h))
  }

  lemma {:induction false} ClosedExactlyOnce(nodes: seq<Node>, script: Script, status: nat -> int,
                                             h0: Handle, h: Handle)
    requires GoodScript(nodes, script)
    ensures OpenedAtMostOnce(EventsOf(nodes, script, status, h0), ValueOf(nodes, script, status), h)
    ensures h < h0 ==> Openings(EventsOf(nodes, script, status, h0), h) == 0
    decreases script
  {
    var segment := script.segment;
    SegmentCloses(nodes, segment, h0, h);
    HandlesGrow(nodes, segment, h0);
    if script.Broken? {
      LaunchesOpenOnce(nodes, segment, h0, h);
      LaunchesCloseNothing(nodes, segment, h0, h);
    } else if script.Then? && !Stops(script.op, StatusOf(segment, status)) {
      var h1 := HandlesAfter(nodes, segment, h0);
      ClosedExactlyOnce(nodes, script.rest, status, h1, h);
      CountsConcat(SegmentEvents(nodes, segment, h0), EventsOf(nodes, script.rest, status, h1), h);
    } else {
      assert SegmentEvents(nodes, segment, h0) + [] == SegmentEvents(nodes, segment, h0);
    }
  }

  /** In any run no handle is opened twice or closed without having been opened, and
      on a normal return every opened one has been closed, once. The null device has
      no handle at all. */
  lemma FilesOpenedAndClosedOnce(nodes: seq<Node>, status: nat -> int, h: Handle)
    requires ItemsFrom(nodes, 0)
    ensures OpenedAtMostOnce(Reference(nodes, status).1, Reference(nodes, status).0, h)
  {
    ScriptIsGood(nodes, 0, [], []);
    ClosedExactlyOnce(nodes, ScriptFrom(nodes, 0, [], []), status, 0, h);
  }

  // ---------- which commands are run ----------

  ghost function Launched(events: seq<Event>): seq<nat> {
    if events == [] then []
    else
      var e := events[|events| - 1];
      Launched(events[..|events| - 1]) + (if e.Launch? then [e.command] else [])
  }

  ghost function Waited(events: seq<Event>): seq<nat> {
    if events == [] then []
    else
      var e := events[|events| - 1];
      Waited(events[..|events| - 1]) + (if e.Wait? then [e.command] else [])
  }

  ghost function CommandsOf(segment: seq<Member>): seq<nat> {
    seq(|segment|, k requires 0 <= k < |segment| => segment[k].command)
  }

  ghost function SegmentCount(script: Script): nat {
    match script
    case Then(_, _, rest) => 1 + SegmentCount(rest)
    case _ => 1
  }

  ghost function SegmentAt(script: Script, k: nat): seq<Member>
    requires k < SegmentCount(script)
  {
    if k == 0 then script.segment else SegmentAt(script.rest, k - 1)
  }

  /** The commands of the first k segments. */
  ghost function CommandsIn(script: Script, k: nat): seq<nat>
    requires k <= SegmentCount(script)
  {
    if k == 0 then []
    else if k == 1 then CommandsOf(script.segment)
    else CommandsOf(script.segment) + CommandsIn(script.rest, k - 1)
  }

  /** The positions of the commands among the nodes from i on, in order. */
  function CommandsFrom(nodes: seq<Node>, i: nat): seq<nat>
    decreases |nodes| - i
  {
    if i >= |nodes| then []
    else (if nodes[i].Command? then [i] else []) + CommandsFrom(nodes, i + 1)
  }

  lemma {:induction false} LaunchedConcat(a: seq<Event>, b: seq<Event>)
    ensures Launched(a + b) == Launched(a) + Launched(b) && Waited(a + b) == Waited(a) + Waited(b)
    decreases |b|
  {
    if b == [] {
      assert a + b == a;
    } else {
      var n := |b| - 1;
      assert (a + b)[..|a + b| - 1] == a + b[..n];
      LaunchedConcat(a, b[..n]);
    }
  }

  lemma {:induction false} LaunchedLaunches(events: seq<Event>, segment: seq<Member>)
    requires LaunchEach(events, segment)
    ensures Launched(events) == CommandsOf(segment) && Waited(events) == []
  {
    if events == [] {
    } else {
      var n := |events| - 1;
      LaunchedLaunches(events[..n], segment[..n]);
      assert CommandsOf(segment) == CommandsOf(segment[..n]) + [segment[n].command];
    }
  }

  lemma {:induction false} WaitedWaits(segment: seq<Member>)
    ensures Waited(Waits(segment)) == CommandsOf(segment) && Launched(Waits(segment)) == []
  {
    if segment == [] {
    } else {
      var n := |segment| - 1;
      WaitedWaits(segment[..n]);
      assert Waits(segment)[..n] == Waits(segment[..n]);
      assert CommandsOf(segment) == CommandsOf(segment[..n]) + [segment[n].command];
    }
  }

  lemma {:induction false} ClosesRunNothing(h: Handle, n: nat)
    ensures Launched(Closes(h, n)) == [] && Waited(Closes(h, n)) == []
  {
    if n == 0 {
    } else {
      assert Closes(h, n)[..n - 1] == Closes(h, n - 1);
      ClosesRunNothing(h, n - 1);
    }
  }

  lemma SegmentRuns(nodes: seq<Node>, segment: seq<Member>, h: Handle)
    requires ValidMembers(nodes, segment)
    ensures Launched(SegmentEvents(nodes, segment, h)) == CommandsOf(segment)
    ensures Waited(SegmentEvents(nodes, segment, h)) == CommandsOf(segment)
  {
    HandlesGrow(nodes, segment, h);
    var launches, waits := SegmentLaunches(nodes, segment, h), Waits(segment);
    var closes := Closes(h, HandlesAfter(nodes, segment, h) - h);
    LaunchesOnly(nodes, segment, h);
    LaunchedLaunches(launches, segment);
    WaitedWaits(segment);
    ClosesRunNothing(h, HandlesAfter(nodes, segment, h) - h);
    LaunchWaitClose(launches, waits, closes, CommandsOf(segment));
  }

  lemma LaunchWaitClose(launches: seq<Event>, waits: seq<Event>, closes: seq<Event>, commands: seq<nat>)
    requires Launched(launches) == commands && Waited(launches) == []
    requires Launched(waits) == [] && Waited(waits) == commands
    requires Launched(closes) == [] && Waited(closes) == []
    ensures Launched(launches + waits + closes) == commands && Waited(launches + waits + closes) == commands
  {
    LaunchedConcat(launches, waits);
    LaunchedConcat(launches + waits, closes);
  }

  ghost predicate StopsHere(script: Script, status: nat -> int)
    requires script.segment != []
  {
    script.Last? || (script.Then? && Stops(script.op, StatusOf(script.segment, status)))
  }

  lemma OneSegmentRuns(nodes: seq<Node>, script: Script, status: nat -> int, h: Handle)
    requires GoodScript(nodes, script) && script.segment != [] && StopsHere(script, status)
    ensures Launched(EventsOf(nodes, script, status, h)) == CommandsOf(script.segment)
    ensures Waited(EventsOf(nodes, script, status, h)) == CommandsOf(script.segment)
    ensures ValueOf(nodes, script, status) == Returned(StatusOf(script.segment, status))
  {
    SegmentRuns(nodes, script.segment, h);
    assert SegmentEvents(nodes, script.segment, h) + [] == SegmentEvents(nodes, script.segment, h);
  }

  lemma MoreSegmentsRun(nodes: seq<Node>, script: Script, status: nat -> int, h: Handle)
    requires GoodScript(nodes, script) && script.Then? && !StopsHere(script, status)
    ensures var rest := EventsOf(nodes, script.rest, status, HandlesAfter(nodes, script.segment, h));
      && Launched(EventsOf(nodes, script, status, h)) == CommandsOf(script.segment) + Launched(rest)
      && Waited(EventsOf(nodes, script, status, h)) == CommandsOf(script.segment) + Waited(rest)
      && ValueOf(nodes, script, status) == ValueOf(nodes, script.rest, status)
  {
    SegmentRuns(nodes, script.segment, h);
    LaunchedConcat(SegmentEvents(nodes, script.segment, h),
                   EventsOf(nodes, script.rest, status, HandlesAfter(nodes, script.segment, h)));
  }

  /** The commands that are run, by the values of the segments. */
  ghost function RunCommands(nodes: seq<Node>, script: Script, status: nat -> int): seq<nat>
    requires GoodScript(nodes, script)
  {
    if GoesOn(script, status) then CommandsOf(script.segment) + RunCommands(nodes, script.rest, status)
    else CommandsOf(script.segment)
  }

  ghost predicate GoesOn(script: Script, status: nat -> int) {
    script.Then? && script.segment != [] && !Stops(script.op, StatusOf(script.segment, status))
  }

  lemma StopsOrGoesOn(nodes: seq<Node>, script: Script, status: nat -> int)
    requires GoodScript(nodes, script) && ValueOf(nodes, script, status).Returned?
    ensures script.segment != [] && ValidMembers(nodes, script.segment)
    ensures !StopsHere(script, status) ==>
      script.Then? && GoodScript(nodes, script.rest) && ValueOf(nodes, script.rest, status).Returned?
  {}

  /** On a normal return these commands are launched and waited for, each once, in
      this order. */
  lemma {:induction false} LaunchedAndWaited(nodes: seq<Node>, script: Script, status: nat -> int, h: Handle)
    requires GoodScript(nodes, script) && ValueOf(nodes, script, status).Returned?
    ensures Launched(EventsOf(nodes, script, status, h)) == RunCommands(nodes, script, status)
    ensures Waited(EventsOf(nodes, script, status, h)) == RunCommands(nodes, script, status)
    decreases script
  {
    StopsOrGoesOn(nodes, script, status);
    if StopsHere(script, status) {
      OneSegmentRuns(nodes, script, status, h);
      assert CommandsOf(script.segment) + [] == CommandsOf(script.segment);
    } else {
      LaunchedAndWaited(nodes, script.rest, status, HandlesAfter(nodes, script.segment, h));
      MoreSegmentsRun(nodes, script, status, h);
    }
  }

  /** The segment at which run stops. */
  ghost function LastRun(nodes: seq<Node>, script: Script, status: nat -> int): seq<Member>
    requires GoodScript(nodes, script)
  {
    if GoesOn(script, status) then LastRun(nodes, script.rest, status) else script.segment
  }

  lemma {:induction false} ResultOfLast(nodes: seq<Node>, script: Script, status: nat -> int)
    requires GoodScript(nodes, script) && ValueOf(nodes, script, status).Returned?
    ensures LastRun(nodes, script, status) != []
    ensures ValueOf(nodes, script, status) == Returned(StatusOf(LastRun(nodes, script, status), status))
    decreases script
  {
    StopsOrGoesOn(nodes, script, status);
    if StopsHere(script, status) {
    } else {
      ResultOfLast(nodes, script.rest, status);
    }
  }

  lemma {:induction false} FirstSegments(nodes: seq<Node>, script: Script, status: nat -> int) returns (k: nat)
    requires GoodScript(nodes, script)
    ensures 1 <= k <= SegmentCount(script)
    ensures RunCommands(nodes, script, status) == CommandsIn(script, k)
    ensures LastRun(nodes, script, status) == SegmentAt(script, k - 1)
    decreases script
  {
    if GoesOn(script, status) {
      var j := FirstSegments(nodes, script.rest, status);
      NextCommands(script, j);
      k := j + 1;
    } else {
      k := 1;
      FirstCommands(script);
    }
  }

  lemma NextCommands(script: Script, j: nat)
    requires script.Then? && 1 <= j <= SegmentCount(script.rest)
    ensures j + 1 <= SegmentCount(script) && SegmentAt(script, j) == SegmentAt(script.rest, j - 1)
    ensures CommandsIn(script, j + 1) == CommandsOf(script.segment) + CommandsIn(script.rest, j)
  {}

  /** They are the first k segments, whole, for some k, and the result is the status
      of the last of them. */
  lemma RunsFirstSegments(nodes: seq<Node>, script: Script, status: nat -> int) returns (k: nat)
    requires GoodScript(nodes, script) && ValueOf(nodes, script, status).Returned?
    ensures 1 <= k <= SegmentCount(script) && SegmentAt(script, k - 1) != []
    ensures RunCommands(nodes, script, status) == CommandsIn(script, k)
    ensures ValueOf(nodes, script, status) == Returned(StatusOf(SegmentAt(script, k - 1), status))
  {
    k := FirstSegments(nodes, script, status);
    ResultOfLast(nodes, script, status);
  }

  lemma FirstCommands(script: Script)
    ensures CommandsIn(script, 1) == CommandsOf(script.segment)
  {}

  ghost predicate Complete(script: Script) {
    match script case Last(_) => true case Then(_, _, rest) => Complete(rest) case Broken(_) => false
  }

  lemma CommandsFromPair(nodes: seq<Node>, i: nat)
    requires ItemsFrom(nodes, i)
    ensures CommandsFrom(nodes, i) == (if nodes[i].Command? then [i] else []) + CommandsFrom(nodes, i + 2)
    ensures i + 1 == |nodes| ==> CommandsFrom(nodes, i + 2) == []
  {
    assert CommandsFrom(nodes, i + 1) == CommandsFrom(nodes, i + 2);
  }

  /** The segments together are the commands of the node list, in order. */
  lemma {:induction false} SegmentsAreCommands(nodes: seq<Node>, i: nat, segment: seq<Member>, cwd: seq<string>)
    requires ItemsFrom(nodes, i) && Complete(ScriptFrom(nodes, i, segment, cwd))
    ensures var script := ScriptFrom(nodes, i, segment, cwd);
      CommandsIn(script, SegmentCount(script)) == CommandsOf(segment) + CommandsFrom(nodes, i)
    decreases |nodes| - i
  {
    CommandsFromPair(nodes, i);
    var more := segment + [Member(i, cwd)];
    if nodes[i].Chdir? {
      SegmentsAreCommands(nodes, i + 2, segment, cwd + [nodes[i].dir.value]);
    } else if i + 1 == |nodes| {
      CommandsOfMore(segment, Member(i, cwd), []);
      FirstCommands(Last(more));
    } else if nodes[i + 1] == Pipe {
      SegmentsAreCommands(nodes, i + 2, more, cwd);
      CommandsOfMore(segment, Member(i, cwd), CommandsFrom(nodes, i + 2));
    } else {
      SegmentsAreCommands(nodes, i + 2, [], cwd);
      CommandsOfMore(segment, Member(i, cwd), CommandsFrom(nodes, i + 2));
      CommandsOfThen(more, nodes[i + 1], ScriptFrom(nodes, i + 2, [], cwd), CommandsFrom(nodes, i + 2));
    }
  }

  lemma CommandsOfThen(segment: seq<Member>, op: Node, rest: Script, commands: seq<nat>)
    requires CommandsIn(rest, SegmentCount(rest)) == CommandsOf([]) + commands
    ensures var script := Then(segment, op, rest);
      CommandsIn(script, SegmentCount(script)) == CommandsOf(segment) + commands
  {
    assert CommandsOf([]) + commands == commands;
  }

  lemma CommandsOfMore(segment: seq<Member>, m: Member, rest: seq<nat>)
    ensures CommandsOf(segment + [m]) + rest == CommandsOf(segment) + ([m.command] + rest)
    ensures rest == [] ==> CommandsOf(segment + [m]) == CommandsOf(segment) + [m.command]
  {
    assert CommandsOf(segment + [m]) == CommandsOf(segment) + [m.command];
  }

  /** The first k segments, complete script or not, are a beginning of that list. */
  lemma {:induction false} SegmentsArePrefix(nodes: seq<Node>, i: nat, segment: seq<Member>, cwd: seq<string>, k: nat)
    requires ItemsFrom(nodes, i) && k <= SegmentCount(ScriptFrom(nodes, i, segment, cwd))
    ensures CommandsIn(ScriptFrom(nodes, i, segment, cwd), k) <= CommandsOf(segment) + CommandsFrom(nodes, i)
    decreases |nodes| - i
  {
    CommandsFromPair(nodes, i);
    var more := segment + [Member(i, cwd)];
    if k == 0 {
    } else if nodes[i].Chdir? {
      if i + 1 == |nodes| || nodes[i].dir.None? {
        FirstCommands(Broken(segment));
      } else {
        SegmentsArePrefix(nodes, i + 2, segment, cwd + [nodes[i].dir.value], k);
      }
    } else if i + 1 == |nodes| {
      CommandsOfMore(segment, Member(i, cwd), []);
      FirstCommands(Last(more));
    } else if nodes[i + 1] == Pipe {
      SegmentsArePrefix(nodes, i + 2, more, cwd, k);
      CommandsOfMore(segment, Member(i, cwd), CommandsFrom(nodes, i + 2));
    } else {
      SegmentsArePrefix(nodes, i + 2, [], cwd, k - 1);
      CommandsOfMore(segment, Member(i, cwd), CommandsFrom(nodes, i + 2));
      PrefixOfThen(more, nodes[i + 1], ScriptFrom(nodes, i + 2, [], cwd), CommandsFrom(nodes, i + 2), k);
    }
  }

  lemma PrefixOfThen(segment: seq<Member>, op: Node, rest: Script, commands: seq<nat>, k: nat)
    requires 1 <= k <= 1 + SegmentCount(rest) && CommandsIn(rest, k - 1) <= CommandsOf([]) + commands
    ensures CommandsIn(Then(segment, op, rest), k) <= CommandsOf(segment) + commands
  {
    assert CommandsOf([]) + commands == commands;
    if k == 1 {
      FirstCommands(Then(segment, op, rest));
    } else {
      NextCommands(Then(segment, op, rest), k - 1);
      PrefixAfter(CommandsOf(segment), CommandsIn(rest, k - 1), commands);
    }
  }

  lemma PrefixAfter(a: seq<nat>, x: seq<nat>, y: seq<nat>)
    requires x <= y
    ensures a + x <= a + y
  {}

  /** The command at position c ends a pipe segment. */
  predicate EndsSegment(nodes: seq<Node>, c: nat) {
    c < |nodes| && nodes[c].Command? && (c + 1 == |nodes| || nodes[c + 1] in [And, Or])
  }

  /** What run stops at is a whole segment. */
  lemma {:induction false} LastRunEnds(nodes: seq<Node>, i: nat, segment: seq<Member>, cwd: seq<string>,
                                       status: nat -> int)
    requires ItemsFrom(nodes, i) && GoodScript(nodes, ScriptFrom(nodes, i, segment, cwd))
    requires ValueOf(nodes, ScriptFrom(nodes, i, segment, cwd), status).Returned?
    ensures var last := LastRun(nodes, ScriptFrom(nodes, i, segment, cwd), status);
      last != [] && EndsSegment(nodes, last[|last| - 1].command)
    decreases |nodes| - i
  {
    var script := ScriptFrom(nodes, i, segment, cwd);
    if nodes[i].Chdir? {
      LastRunEnds(nodes, i + 2, segment, cwd + [nodes[i].dir.value], status);
    } else if i + 1 < |nodes| && nodes[i + 1] == Pipe {
      LastRunEnds(nodes, i + 2, segment + [Member(i, cwd)], cwd, status);
    } else if GoesOn(script, status) {
      LastRunEnds(nodes, i + 2, [], cwd, status);
    } else {
    }
  }

  lemma {:induction false} LastOfRunCommands(nodes: seq<Node>, script: Script, status: nat -> int)
    requires GoodScript(nodes, script) && ValueOf(nodes, script, status).Returned?
    ensures var run, last := RunCommands(nodes, script, status), LastRun(nodes, script, status);
      run != [] && last != [] && run[|run| - 1] == last[|last| - 1].command
    decreases script
  {
    if GoesOn(script, status) {
      LastOfRunCommands(nodes, script.rest, status);
    } else {
    }
  }

  ghost predicate AllUpToLast(nodes: seq<Node>, i: nat, run: seq<nat>) {
    && run != [] && i <= run[|run| - 1] < |nodes|
    && run == CommandsFrom(nodes[..run[|run| - 1] + 1], i)
  }

  lemma OneMoreInFront(nodes: seq<Node>, i: nat, run: seq<nat>)
    requires i < |nodes| && AllUpToLast(nodes, i + 1, run)
    ensures AllUpToLast(nodes, i, if nodes[i].Command? then [i] + run else run)
  {
    var upTo := nodes[..run[|run| - 1] + 1];
    assert upTo[i] == nodes[i];
    OneNode(upTo, i);
  }

  lemma OneNode(nodes: seq<Node>, i: nat)
    requires i < |nodes|
    ensures nodes[i].Command? ==> CommandsFrom(nodes, i) == [i] + CommandsFrom(nodes, i + 1)
    ensures !nodes[i].Command? ==> CommandsFrom(nodes, i) == CommandsFrom(nodes, i + 1)
  {}

  lemma JustOne(nodes: seq<Node>, i: nat)
    requires i < |nodes| && nodes[i].Command?
    ensures AllUpToLast(nodes, i, [i])
  {
    OneNode(nodes[..i + 1], i);
  }

  /** A beginning of the commands in order has all commands up to its last one. */
  lemma {:induction false} PrefixIsAllUpTo(nodes: seq<Node>, i: nat, run: seq<nat>)
    requires run != [] && run <= CommandsFrom(nodes, i)
    ensures AllUpToLast(nodes, i, run)
    decreases |nodes| - i
  {
    if i >= |nodes| {
    } else if nodes[i].Command? {
      OneNode(nodes, i);
      PrefixFront(run, i, CommandsFrom(nodes, i + 1));
      if |run| == 1 {
        JustOne(nodes, i);
      } else {
        PrefixIsAllUpTo(nodes, i + 1, run[1..]);
        OneMoreInFront(nodes, i, run[1..]);
      }
    } else {
      OneNode(nodes, i);
      PrefixIsAllUpTo(nodes, i + 1, run);
      OneMoreInFront(nodes, i, run);
    }
  }

  lemma PrefixFront(x: seq<nat>, a: nat, y: seq<nat>)
    requires x != [] && x <= [a] + y
    ensures x[1..] <= y && x == [a] + x[1..] && (|x| == 1 ==> x == [a])
  {}

  /** On a normal return the processes started are the first commands of the list, all of
      them up to the end of some pipe segment; they are waited for in the same order, and
      the status of the last one is returned. */
  lemma RunsAPrefix(nodes: seq<Node>, status: nat -> int) returns (last: nat)
    requires ItemsFrom(nodes, 0) && Reference(nodes, status).0.Returned?
    ensures EndsSegment(nodes, last) && Reference(nodes, status).0 == Returned(status(last))
    ensures Launched(Reference(nodes, status).1) == CommandsFrom(nodes[..last + 1], 0)
    ensures Waited(Reference(nodes, status).1) == CommandsFrom(nodes[..last + 1], 0)
    ensures CommandsFrom(nodes[..last + 1], 0) <= CommandsFrom(nodes, 0)
  {
    var run := BeginsTheCommands(nodes, status);
    last := run[|run| - 1];
    PrefixIsAllUpTo(nodes, 0, run);
  }

  lemma BeginsTheCommands(nodes: seq<Node>, status: nat -> int) returns (run: seq<nat>)
    requires ItemsFrom(nodes, 0) && Reference(nodes, status).0.Returned?
    ensures Launched(Reference(nodes, status).1) == Waited(Reference(nodes, status).1) == run
    ensures run <= CommandsFrom(nodes, 0) && run != []
    ensures EndsSegment(nodes, run[|run| - 1]) && Reference(nodes, status).0 == Returned(status(run[|run| - 1]))
  {
    ScriptIsGood(nodes, 0, [], []);
    var script := ScriptFrom(nodes, 0, [], []);
    run := RunCommands(nodes, script, status);
    LaunchedAndWaited(nodes, script, status, 0);
    var k := RunsFirstSegments(nodes, script, status);
    SegmentsArePrefix(nodes, 0, [], [], k);
    assert CommandsOf([]) + CommandsFrom(nodes, 0) == CommandsFrom(nodes, 0);
    LastRunEnds(nodes, 0, [], [], status);
    LastOfRunCommands(nodes, script, status);
    ResultOfLast(nodes, script, status);
  }
}
