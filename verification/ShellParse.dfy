/** The token parser of the small shell: Pipeline.parse, and the order in which
    Pipeline.run displays a pipeline. */
module ShellParse {
  import opened Common

  datatype Output = Inherit | PIPE | File(file: string)
  datatype Errput = SameAsParent | STDOUT | ErrFile(errFile: string)

  type EnvVars = seq<(string, string)>

  datatype Node =
    | Command(name: string, argv: seq<string>, stdin: Option<string>, stdout: Output, stderr: Errput, envVars: EnvVars)
    | Chdir(dir: Option<string>)
    | Pipe | And | Or

  function NewCommand(name: string, envVars: EnvVars): Node {
    Command(name, [name], None, Inherit, SameAsParent, envVars)
  }

  // ---------- environment assignments ----------

  predicate WordChar(c: char) {
    'a' <= c <= 'z' || 'A' <= c <= 'Z' || '0' <= c <= '9' || c == '_'
  }

  predicate Space(c: char) {
    c in [' ', '\t', '\n', '\r', 0x0b as char, 0x0c as char, 0x1c as char, 0x1d as char, 0x1e as char, 0x1f as char,
          0x85 as char, 0xa0 as char, 0x1680 as char, 0x2028 as char, 0x2029 as char, 0x202f as char, 0x205f as char,
          0x3000 as char]
    || 0x2000 as char <= c <= 0x200a as char
  }

  predicate KeyText(s: string) {
    s != "" && forall i :: 0 <= i < |s| ==> WordChar(s[i])
  }

  predicate ValueText(s: string) {
    s != "" && forall i :: 0 <= i < |s| ==> !Space(s[i])
  }

  /** The length of the longest prefix of word characters. */
  function WordPrefix(s: string): (n: nat)
    ensures n <= |s|
  {
    if s == "" || !WordChar(s[0]) then 0 else 1 + WordPrefix(s[1..])
  }

  function Chomp(s: string): string {
    if s != "" && s[|s| - 1] == '\n' then s[..|s| - 1] else s
  }

  /** key=value, where the value has no space and one final newline is ignored. */
  function EnvMatch(token: string): Option<(string, string)> {
    var n := WordPrefix(token);
    if n > 0 && n < |token| && token[n] == '=' && ValueText(Chomp(token[n + 1..]))
    then Some((token[..n], Chomp(token[n + 1..]))) else None
  }

  /** dict assignment: a key that is there keeps its place. */
  function Assign(envVars: EnvVars, key: string, value: string): EnvVars {
    if envVars == [] then [(key, value)]
    else if envVars[0].0 == key then [(key, value)] + envVars[1..]
    else [envVars[0]] + Assign(envVars[1..], key, value)
  }

  // ---------- the parser, one token at a time ----------

  datatype Mode = BEGIN | COMMAND | CHDIR | STDERR | STDOUT_FILE | STDIN

  datatype ParseState = ParseState(mode: Mode, current: Option<Node>, pipeline: seq<Node>, envVars: EnvVars)

  const Start := ParseState(BEGIN, None, [], [])

  const OPERATORS: seq<string> := [">", "2>", "2>&1", "<", "|", "&&", "||"]

  predicate IsCommand(current: Option<Node>) {
    current.Some? && current.value.Command?
  }

  function Commit(s: ParseState, command: Node, op: Node): ParseState {
    ParseState(BEGIN, None, s.pipeline + [command, op], s.envVars)
  }

  /** One round of the loop; None stands for a failed assertion. */
  function Step(s: ParseState, token: string): Option<ParseState> {
    match s.mode
    case BEGIN =>
      (match EnvMatch(token)
       case Some(kv) => Some(s.(envVars := Assign(s.envVars, kv.0, kv.1)))
       case None =>
         if s.current.Some? then None
         else if token == "cd" then
           if s.envVars == [] then Some(s.(mode := CHDIR, current := Some(Chdir(None)))) else None
         else Some(s.(mode := COMMAND, current := Some(NewCommand(token, s.envVars)), envVars := [])))
    case COMMAND =>
      if !IsCommand(s.current) then None
      else
        var c := s.current.value;
        if token == ">" then Some(s.(mode := STDOUT_FILE))
        else if token == "2>" then Some(s.(mode := STDERR))
        else if token == "2>&1" then
          if c.stderr.SameAsParent? then Some(s.(current := Some(c.(stderr := STDOUT)))) else None
        else if token == "<" then Some(s.(mode := STDIN))
        else if token == "|" then
          if c.stdout.Inherit? then Some(Commit(s, c.(stdout := PIPE), Pipe)) else None
        else if token == "&&" then Some(Commit(s, c, And))
        else if token == "||" then Some(Commit(s, c, Or))
        else Some(s.(current := Some(c.(argv := c.argv + [token]))))
    case CHDIR =>
      if s.current.None? || !s.current.value.Chdir? then None
      else if token == "&&" then Some(Commit(s, s.current.value, And))
      else if s.current.value.dir.None? then Some(s.(current := Some(Chdir(Some(token))))) else None
    case STDOUT_FILE =>
      if IsCommand(s.current) && s.current.value.stdout.Inherit?
      then Some(s.(mode := COMMAND, current := Some(s.current.value.(stdout := File(token))))) else None
    case STDERR =>
      if IsCommand(s.current) && s.current.value.stderr.SameAsParent?
      then Some(s.(mode := COMMAND, current := Some(s.current.value.(stderr := ErrFile(token))))) else None
    case STDIN =>
      if IsCommand(s.current) && s.current.value.stdin.None?
      then Some(s.(mode := COMMAND, current := Some(s.current.value.(stdin := Some(token))))) else None
  }

  function ReadAll(s: ParseState, tokens: seq<string>): Option<ParseState>
    decreases |tokens|
  {
    if tokens == [] then Some(s)
    else match Step(s, tokens[0])
      case None => None
      case Some(t) => ReadAll(t, tokens[1..])
  }

  function Finish(s: ParseState): Option<seq<Node>> {
    if s.current.Some? then Some(s.pipeline + [s.current.value]) else None
  }

  /** What parse returns; None when one of its assertions fails. */
  function Parsed(tokens: seq<string>): Option<seq<Node>> {
    match ReadAll(Start, tokens)
    case None => None
    case Some(s) => Finish(s)
  }

  // ---------- printing, in the order in which run displays ----------

  function PrintEnv(envVars: EnvVars): seq<string> {
    if envVars == [] then [] else [envVars[0].0 + "=" + envVars[0].1] + PrintEnv(envVars[1..])
  }

  function PrintStdin(stdin: Option<string>): seq<string> {
    match stdin case None => [] case Some(f) => ["<", f]
  }

  function PrintStdout(stdout: Output): seq<string> {
    match stdout case File(f) => [">", f] case _ => []
  }

  function PrintStderr(stderr: Errput): seq<string> {
    match stderr case SameAsParent => [] case STDOUT => ["2>&1"] case ErrFile(f) => ["2>", f]
  }

  /** piped: the command's stdin is the pipe, whatever its stdin field says. */
  function PrintNode(node: Node, piped: bool): seq<string> {
    match node
    case Command(_, argv, stdin, stdout, stderr, envVars) =>
      PrintEnv(envVars) + argv + (if piped then [] else PrintStdin(stdin)) + PrintStdout(stdout) + PrintStderr(stderr)
    case Chdir(dir) => ["cd"] + (match dir case None => [] case Some(d) => [d])
    case Pipe => ["|"]
    case And => ["&&"]
    case Or => ["||"]
  }

  /** Whether run is in its PIPE state after these nodes; a cd does not leave it. */
  function PipedAfter(nodes: seq<Node>): bool {
    if nodes == [] then false
    else
      var n := |nodes| - 1;
      match nodes[n]
      case Pipe => true
      case Or => false
      case And => n > 0 && nodes[n - 1].Chdir? && PipedAfter(nodes[..n - 1])
      case _ => PipedAfter(nodes[..n])
  }

  function Print(nodes: seq<Node>): seq<string> {
    if nodes == [] then []
    else Print(nodes[..|nodes| - 1]) + PrintNode(nodes[|nodes| - 1], PipedAfter(nodes[..|nodes| - 1]))
  }

  // ---------- what a parsed pipeline looks like ----------

  predicate GoodEnv(envVars: EnvVars) {
    && (forall i :: 0 <= i < |envVars| ==> KeyText(envVars[i].0) && ValueText(envVars[i].1))
    && (forall i, j :: 0 <= i < j < |envVars| ==> envVars[i].0 != envVars[j].0)
  }

  predicate GoodCommand(c: Node) {
    && c.Command? && c.argv != [] && c.argv[0] == c.name
    && c.name != "cd" && EnvMatch(c.name).None?
    && (forall i :: 1 <= i < |c.argv| ==> c.argv[i] !in OPERATORS)
    && GoodEnv(c.envVars)
  }

  /** An item before the operator op, or at the end. */
  predicate GoodItem(item: Node, op: Option<Node>) {
    match item
    case Command(_, _, _, stdout, _, _) => GoodCommand(item) && (stdout.PIPE? <==> op == Some(Pipe))
    case Chdir(dir) => dir != Some("&&") && op in [None, Some(And)]
    case _ => false
  }

  /** Items, each followed by an operator. */
  predicate GoodPairs(nodes: seq<Node>) {
    var n := |nodes|;
    n == 0 ||
    (n >= 2 && nodes[n - 1] in [Pipe, And, Or] && GoodItem(nodes[n - 2], Some(nodes[n - 1]))
     && GoodPairs(nodes[..n - 2]))
  }

  predicate Grammatical(nodes: seq<Node>) {
    nodes != [] && GoodItem(nodes[|nodes| - 1], None) && GoodPairs(nodes[..|nodes| - 1])
  }

  /** No command that is fed by a pipe also names an input file. */
  predicate NoPipedStdin(nodes: seq<Node>) {
    forall i :: 0 <= i < |nodes| && nodes[i].Command? && PipedAfter(nodes[..i]) ==> nodes[i].stdin.None?
  }

  // ---------- reading what was printed ----------

  lemma {:induction false} ReadAppend(s: ParseState, a: seq<string>, b: seq<string>)
    ensures ReadAll(s, a + b) == match ReadAll(s, a) case None => None case Some(t) => ReadAll(t, b)
    decreases |a|
  {
    if a == [] {
      assert a + b == b;
    } else {
      assert (a + b)[1..] == a[1..] + b;
      if Step(s, a[0]).Some? { ReadAppend(Step(s, a[0]).value, a[1..], b); }
    }
  }

  lemma ReadThen(s: ParseState, a: seq<string>, t: ParseState, b: seq<string>)
    requires ReadAll(s, a) == Some(t)
    ensures ReadAll(s, a + b) == ReadAll(t, b)
  {
    ReadAppend(s, a, b);
  }

  lemma ReadOne(s: ParseState, token: string)
    ensures ReadAll(s, [token]) == Step(s, token)
  {
    assert [token][1..] == [];
  }

  lemma {:induction false} WordPrefixOf(key: string, rest: string)
    requires forall i :: 0 <= i < |key| ==> WordChar(key[i])
    requires rest != "" && !WordChar(rest[0])
    ensures WordPrefix(key + rest) == |key|
  {
    if key == "" {
      assert key + rest == rest;
    } else {
      assert (key + rest)[1..] == key[1..] + rest;
      WordPrefixOf(key[1..], rest);
    }
  }

  lemma EnvMatchOf(key: string, value: string)
    requires KeyText(key) && ValueText(value)
    ensures EnvMatch(key + "=" + value) == Some((key, value))
  {
    var token := key + "=" + value;
    assert token == key + ("=" + value);
    WordPrefixOf(key, "=" + value);
    assert token[..|key|] == key && token[|key| + 1..] == value;
    assert !Space(value[|value| - 1]);
  }

  lemma {:induction false} AssignNew(envVars: EnvVars, key: string, value: string)
    requires forall i :: 0 <= i < |envVars| ==> envVars[i].0 != key
    ensures Assign(envVars, key, value) == envVars + [(key, value)]
  {
    if envVars == [] {
    } else {
      AssignNew(envVars[1..], key, value);
      assert envVars == [envVars[0]] + envVars[1..];
    }
  }

  lemma {:induction false} ReadEnv(s: ParseState, rest: EnvVars)
    requires s.mode == BEGIN && GoodEnv(s.envVars + rest)
    ensures ReadAll(s, PrintEnv(rest)) == Some(s.(envVars := s.envVars + rest))
    decreases |rest|
  {
    if rest == [] {
      assert s.envVars + rest == s.envVars;
    } else {
      var (key, value) := rest[0];
      assert (s.envVars + rest)[|s.envVars|] == rest[0];
      assert forall i :: 0 <= i < |s.envVars| ==> (s.envVars + rest)[i] == s.envVars[i];
      EnvMatchOf(key, value);
      AssignNew(s.envVars, key, value);
      var t := s.(envVars := s.envVars + [rest[0]]);
      assert t.envVars + rest[1..] == s.envVars + rest;
      ReadEnv(t, rest[1..]);
      assert PrintEnv(rest)[1..] == PrintEnv(rest[1..]);
    }
  }

  lemma {:induction false} ReadArgs(s: ParseState, words: seq<string>)
    requires s.mode == COMMAND && IsCommand(s.current)
    requires forall i :: 0 <= i < |words| ==> words[i] !in OPERATORS
    ensures var c := s.current.value;
      ReadAll(s, words) == Some(s.(current := Some(c.(argv := c.argv + words))))
    decreases |words|
  {
    var c := s.current.value;
    if words == [] {
      assert c.argv + words == c.argv;
    } else {
      var c' := c.(argv := c.argv + [words[0]]);
      var t := s.(current := Some(c'));
      PlainWord(s, words[0]);
      assert c'.argv + words[1..] == c.argv + words;
      ReadArgs(t, words[1..]);
    }
  }

  lemma PlainWord(s: ParseState, word: string)
    requires s.mode == COMMAND && IsCommand(s.current) && word !in OPERATORS
    ensures Step(s, word) == Some(s.(current := Some(s.current.value.(argv := s.current.value.argv + [word]))))
  {
    assert forall i :: 0 <= i < |OPERATORS| ==> word != OPERATORS[i];
    assert word != OPERATORS[0] && word != OPERATORS[1] && word != OPERATORS[2] && word != OPERATORS[3]
      && word != OPERATORS[4] && word != OPERATORS[5] && word != OPERATORS[6];
  }

  lemma ReadRedirect(s: ParseState, operator: string, file: string, m: ParseState, t: ParseState)
    requires Step(s, operator) == Some(m) && Step(m, file) == Some(t)
    ensures ReadAll(s, [operator, file]) == Some(t)
  {
    assert [operator, file][1..] == [file];
    ReadOne(m, file);
  }

  ghost predicate CommandOpen(s: ParseState, c: Node) {
    s.mode == COMMAND && s.current == Some(c) && c.Command?
  }

  lemma ReadStdin(s: ParseState, c: Node, stdin: Option<string>)
    requires CommandOpen(s, c) && c.stdin == None
    ensures ReadAll(s, PrintStdin(stdin)) == Some(s.(current := Some(c.(stdin := stdin))))
  {
    if stdin.Some? {
      ReadRedirect(s, "<", stdin.value, s.(mode := STDIN), s.(current := Some(c.(stdin := stdin))));
    }
  }

  lemma ReadStdout(s: ParseState, c: Node, stdout: Output)
    requires CommandOpen(s, c) && c.stdout == Inherit
    ensures ReadAll(s, PrintStdout(stdout)) ==
      Some(s.(current := Some(c.(stdout := if stdout.PIPE? then Inherit else stdout))))
  {
    if stdout.File? {
      ReadRedirect(s, ">", stdout.file, s.(mode := STDOUT_FILE), s.(current := Some(c.(stdout := stdout))));
    }
  }

  lemma ReadStderr(s: ParseState, c: Node, stderr: Errput)
    requires CommandOpen(s, c) && c.stderr == SameAsParent
    ensures ReadAll(s, PrintStderr(stderr)) == Some(s.(current := Some(c.(stderr := stderr))))
  {
    match stderr
    case SameAsParent =>
    case STDOUT => ReadOne(s, "2>&1");
    case ErrFile(f) => ReadRedirect(s, "2>", f, s.(mode := STDERR), s.(current := Some(c.(stderr := stderr))));
  }

  /** A node as it stands in current_command, before its operator is read. */
  function Opened(item: Node): Node {
    if item.Command? && item.stdout.PIPE? then item.(stdout := Inherit) else item
  }

  lemma ReadName(pipeline: seq<Node>, c: Node)
    requires GoodCommand(c)
    ensures ReadAll(ParseState(BEGIN, None, pipeline, []), PrintEnv(c.envVars) + c.argv)
      == Some(ParseState(COMMAND, Some(Command(c.name, c.argv, None, Inherit, SameAsParent, c.envVars)), pipeline, []))
  {
    var s := ParseState(BEGIN, None, pipeline, []);
    var s1 := s.(envVars := c.envVars);
    assert [] + c.envVars == c.envVars;
    ReadEnv(s, c.envVars);
    ReadThen(s, PrintEnv(c.envVars), s1, c.argv);
    var s2 := ParseState(COMMAND, Some(NewCommand(c.name, c.envVars)), pipeline, []);
    assert Step(s1, c.argv[0]) == Some(s2);
    var words := c.argv[1..];
    assert forall i :: 0 <= i < |words| ==> words[i] == c.argv[i + 1];
    ReadArgs(s2, words);
    assert [c.name] + words == c.argv;
  }

  lemma ReadCommand(pipeline: seq<Node>, c: Node, piped: bool)
    requires GoodCommand(c) && (piped ==> c.stdin.None?)
    ensures ReadAll(ParseState(BEGIN, None, pipeline, []), PrintNode(c, piped))
      == Some(ParseState(COMMAND, Some(Opened(c)), pipeline, []))
  {
    var s := ParseState(BEGIN, None, pipeline, []);
    var c1 := Command(c.name, c.argv, None, Inherit, SameAsParent, c.envVars);
    var c2 := c1.(stdin := c.stdin);
    var c3 := c2.(stdout := if c.stdout.PIPE? then Inherit else c.stdout);
    var c4 := c3.(stderr := c.stderr);
    assert c4 == Opened(c);
    var head := PrintEnv(c.envVars) + c.argv;
    ReadName(pipeline, c);
    var s1 := ParseState(COMMAND, Some(c1), pipeline, []);
    ReadStdin(s1, c1, c.stdin);
    ReadThen(s, head, s1, PrintStdin(c.stdin));
    var s2 := s1.(current := Some(c2));
    ReadStdout(s2, c2, c.stdout);
    ReadThen(s, head + PrintStdin(c.stdin), s2, PrintStdout(c.stdout));
    var s3 := s1.(current := Some(c3));
    ReadStderr(s3, c3, c.stderr);
    ReadThen(s, head + PrintStdin(c.stdin) + PrintStdout(c.stdout), s3, PrintStderr(c.stderr));
    assert head + (if piped then [] else PrintStdin(c.stdin)) == head + PrintStdin(c.stdin);
  }

  lemma ReadChdir(pipeline: seq<Node>, item: Node, piped: bool)
    requires item.Chdir? && item.dir != Some("&&")
    ensures ReadAll(ParseState(BEGIN, None, pipeline, []), PrintNode(item, piped))
      == Some(ParseState(CHDIR, Some(item), pipeline, []))
  {
    var s := ParseState(BEGIN, None, pipeline, []);
    var s1 := ParseState(CHDIR, Some(Chdir(None)), pipeline, []);
    assert WordPrefix("cd") == 2 by {
      assert WordPrefix("d") == 1 by { assert WordPrefix("") == 0; }
      assert "cd"[1..] == "d";
    }
    assert Step(s, "cd") == Some(s1);
    match item.dir
    case None => ReadOne(s, "cd");
    case Some(d) => ReadRedirect(s, "cd", d, s1, s1.(current := Some(item)));
  }

  lemma PrintSnoc(before: seq<Node>, node: Node)
    ensures Print(before + [node]) == Print(before) + PrintNode(node, PipedAfter(before))
  {
    assert (before + [node])[..|before|] == before;
  }

  function OpenState(pipeline: seq<Node>, item: Node): ParseState {
    ParseState(if item.Command? then COMMAND else CHDIR, Some(Opened(item)), pipeline, [])
  }

  lemma ReadOneMore(before: seq<Node>, item: Node, op: Option<Node>)
    requires ReadAll(Start, Print(before)) == Some(ParseState(BEGIN, None, before, []))
    requires GoodItem(item, op) && (PipedAfter(before) && item.Command? ==> item.stdin.None?)
    ensures ReadAll(Start, Print(before + [item])) == Some(OpenState(before, item))
  {
    ReadItem(before, item, op, PipedAfter(before));
    ReadThen(Start, Print(before), ParseState(BEGIN, None, before, []), PrintNode(item, PipedAfter(before)));
    PrintSnoc(before, item);
  }

  lemma ReadOnePair(before: seq<Node>, item: Node, op: Node)
    requires ReadAll(Start, Print(before + [item])) == Some(OpenState(before, item))
    requires GoodItem(item, Some(op)) && op in [Pipe, And, Or]
    ensures ReadAll(Start, Print(before + [item] + [op])) == Some(ParseState(BEGIN, None, before + [item] + [op], []))
  {
    var piped := PipedAfter(before + [item]);
    ReadOperator(before, item, op, piped);
    PrintSnoc(before + [item], op);
    ReadThen(Start, Print(before + [item]), OpenState(before, item), PrintNode(op, piped));
    TwoMore(before, item, op);
  }

  lemma TwoMore<T>(s: seq<T>, x: T, y: T)
    ensures s + [x, y] == s + [x] + [y]
  {}

  lemma LastItem(nodes: seq<Node>) returns (before: seq<Node>, item: Node)
    requires Grammatical(nodes) && NoPipedStdin(nodes)
    ensures nodes == before + [item] && GoodPairs(before) && NoPipedStdin(before) && GoodItem(item, None)
    ensures PipedAfter(before) && item.Command? ==> item.stdin.None?
  {
    var n := |nodes| - 1;
    before, item := nodes[..n], nodes[n];
    PrefixNoPipedStdin(nodes, n);
  }

  lemma LastPair(nodes: seq<Node>) returns (before: seq<Node>, item: Node, op: Node)
    requires GoodPairs(nodes) && NoPipedStdin(nodes) && nodes != []
    ensures nodes == before + [item] + [op] && op in [Pipe, And, Or]
    ensures GoodPairs(before) && NoPipedStdin(before) && GoodItem(item, Some(op))
    ensures PipedAfter(before) && item.Command? ==> item.stdin.None?
  {
    var n := |nodes|;
    before, item, op := nodes[..n - 2], nodes[n - 2], nodes[n - 1];
    PrefixNoPipedStdin(nodes, n - 2);
  }

  /** The items and operators of a good prefix are read back one pair at a time. */
  lemma {:induction false} ReadPairs(nodes: seq<Node>)
    requires GoodPairs(nodes) && NoPipedStdin(nodes)
    ensures ReadAll(Start, Print(nodes)) == Some(ParseState(BEGIN, None, nodes, []))
    decreases |nodes|
  {
    if nodes == [] {
    } else {
      var before, item, op := LastPair(nodes);
      ReadPairs(before);
      ReadOneMore(before, item, Some(op));
      ReadOnePair(before, item, op);
    }
  }

  lemma PrefixNoPipedStdin(nodes: seq<Node>, k: nat)
    requires NoPipedStdin(nodes) && k <= |nodes|
    ensures NoPipedStdin(nodes[..k])
    ensures k < |nodes| && nodes[k].Command? && PipedAfter(nodes[..k]) ==> nodes[k].stdin.None?
  {
    assert forall i :: 0 <= i < k ==> nodes[..k][..i] == nodes[..i];
  }

  lemma ReadItem(pipeline: seq<Node>, item: Node, op: Option<Node>, piped: bool)
    requires GoodItem(item, op) && (piped && item.Command? ==> item.stdin.None?)
    ensures ReadAll(ParseState(BEGIN, None, pipeline, []), PrintNode(item, piped))
      == Some(OpenState(pipeline, item))
  {
    if item.Command? { ReadCommand(pipeline, item, piped); } else { ReadChdir(pipeline, item, piped); }
  }

  lemma ReadOperator(pipeline: seq<Node>, item: Node, op: Node, piped: bool)
    requires GoodItem(item, Some(op)) && op in [Pipe, And, Or]
    ensures ReadAll(OpenState(pipeline, item), PrintNode(op, piped))
      == Some(ParseState(BEGIN, None, pipeline + [item, op], []))
  {
    ReadOne(OpenState(pipeline, item), PrintNode(op, piped)[0]);
  }

  /** Printing a grammatical pipeline and parsing it gives the pipeline back. */
  lemma RoundTrip(nodes: seq<Node>)
    requires Grammatical(nodes) && NoPipedStdin(nodes)
    ensures Parsed(Print(nodes)) == Some(nodes)
  {
    var before, item := LastItem(nodes);
    ReadPairs(before);
    ReadOneMore(before, item, None);
  }

  // ---------- everything that is parsed is grammatical ----------

  ghost predicate GoodState(s: ParseState) {
    && GoodPairs(s.pipeline) && GoodEnv(s.envVars)
    && (s.mode != BEGIN ==> s.envVars == [])
    && match s.mode
       case BEGIN => s.current == None
       case CHDIR => s.current.Some? && s.current.value.Chdir? && s.current.value.dir != Some("&&")
       case _ => s.current.Some? && GoodCommand(s.current.value) && !s.current.value.stdout.PIPE?
  }

  lemma {:induction false} WordPrefixChars(s: string)
    ensures forall i :: 0 <= i < WordPrefix(s) ==> WordChar(s[i])
  {
    if s == "" || !WordChar(s[0]) {
    } else {
      WordPrefixChars(s[1..]);
      forall i | 0 <= i < WordPrefix(s) ensures WordChar(s[i]) {
        if i > 0 { assert s[i] == s[1..][i - 1]; }
      }
    }
  }

  ghost predicate HasKey(envVars: EnvVars, key: string) {
    exists j :: 0 <= j < |envVars| && envVars[j].0 == key
  }

  lemma GoodEnvTail(envVars: EnvVars, key: string)
    requires envVars != [] && GoodEnv(envVars)
    ensures GoodEnv(envVars[1..]) && !HasKey(envVars[1..], envVars[0].0)
    ensures HasKey(envVars[1..], key) ==> HasKey(envVars, key)
  {
    var rest := envVars[1..];
    assert forall i :: 0 <= i < |rest| ==> rest[i] == envVars[i + 1];
    if j :| 0 <= j < |rest| && rest[j].0 == key { assert envVars[j + 1].0 == key; }
  }

  lemma GoodEnvCons(first: (string, string), more: EnvVars)
    requires GoodEnv(more) && !HasKey(more, first.0) && KeyText(first.0) && ValueText(first.1)
    ensures GoodEnv([first] + more)
  {}

  lemma {:induction false} AssignedKeys(envVars: EnvVars, key: string, value: string, k: string)
    requires GoodEnv(envVars) && HasKey(Assign(envVars, key, value), k)
    ensures k == key || HasKey(envVars, k)
  {
    var all := Assign(envVars, key, value);
    var i :| 0 <= i < |all| && all[i].0 == k;
    if envVars == [] {
    } else if i == 0 {
      assert envVars[0].0 == key || envVars[0].0 == k;
    } else {
      GoodEnvTail(envVars, k);
      if envVars[0].0 == key {
        assert envVars[1..][i - 1].0 == k;
      } else {
        assert Assign(envVars[1..], key, value)[i - 1].0 == k;
        AssignedKeys(envVars[1..], key, value, k);
      }
    }
  }

  lemma {:induction false} AssignKeepsGood(envVars: EnvVars, key: string, value: string)
    requires GoodEnv(envVars) && KeyText(key) && ValueText(value)
    ensures GoodEnv(Assign(envVars, key, value))
  {
    if envVars == [] {
    } else {
      var first, rest := envVars[0], envVars[1..];
      GoodEnvTail(envVars, key);
      if first.0 == key {
        GoodEnvCons((key, value), rest);
      } else {
        var more := Assign(rest, key, value);
        AssignKeepsGood(rest, key, value);
        if HasKey(more, first.0) { AssignedKeys(rest, key, value, first.0); }
        GoodEnvCons(first, more);
      }
    }
  }

  lemma CommitKeepsGood(s: ParseState, item: Node, op: Node)
    requires GoodPairs(s.pipeline) && s.envVars == [] && GoodItem(item, Some(op)) && op in [Pipe, And, Or]
    ensures GoodState(Commit(s, item, op))
  {
    var nodes := s.pipeline + [item, op];
    assert nodes[..|nodes| - 2] == s.pipeline;
  }

  lemma BeginKeepsGood(s: ParseState, token: string)
    requires GoodState(s) && s.mode == BEGIN && Step(s, token).Some?
    ensures GoodState(Step(s, token).value)
  {
    match EnvMatch(token) {
      case Some(kv) =>
        WordPrefixChars(token);
        AssignKeepsGood(s.envVars, kv.0, kv.1);
      case None =>
    }
  }

  lemma WordKeepsGood(s: ParseState, token: string)
    requires GoodState(s) && s.mode == COMMAND && token !in OPERATORS
    ensures Step(s, token).Some? && GoodState(Step(s, token).value)
  {
    PlainWord(s, token);
    ArgumentKeepsGood(s.current.value, token);
  }

  lemma ArgumentKeepsGood(c: Node, word: string)
    requires GoodCommand(c) && word !in OPERATORS
    ensures GoodCommand(c.(argv := c.argv + [word]))
  {}

  lemma CommandKeepsGood(s: ParseState, token: string)
    requires GoodState(s) && s.mode == COMMAND && Step(s, token).Some?
    ensures GoodState(Step(s, token).value)
  {
    var c := s.current.value;
    if token == "|" {
      CommitKeepsGood(s, c.(stdout := PIPE), Pipe);
    } else if token == "&&" {
      CommitKeepsGood(s, c, And);
    } else if token == "||" {
      CommitKeepsGood(s, c, Or);
    } else if token !in OPERATORS {
      WordKeepsGood(s, token);
    }
  }

  lemma StepKeepsGood(s: ParseState, token: string)
    requires GoodState(s) && Step(s, token).Some?
    ensures GoodState(Step(s, token).value)
  {
    match s.mode
    case BEGIN => BeginKeepsGood(s, token);
    case COMMAND => CommandKeepsGood(s, token);
    case CHDIR => if token == "&&" { CommitKeepsGood(s, s.current.value, And); }
    case _ =>
  }

  lemma {:induction false} ReadKeepsGood(s: ParseState, tokens: seq<string>)
    requires GoodState(s) && ReadAll(s, tokens).Some?
    ensures GoodState(ReadAll(s, tokens).value)
    decreases |tokens|
  {
    if tokens == [] {
    } else {
      StepKeepsGood(s, tokens[0]);
      ReadKeepsGood(Step(s, tokens[0]).value, tokens[1..]);
    }
  }

  lemma ParsedIsGrammatical(tokens: seq<string>)
    requires Parsed(tokens).Some?
    ensures Grammatical(Parsed(tokens).value)
  {
    ReadKeepsGood(Start, tokens);
    var s := ReadAll(Start, tokens).value;
    assert (s.pipeline + [s.current.value])[..|s.pipeline|] == s.pipeline;
  }

  // ---------- exactly which pipelines survive printing and parsing ----------

  /** The pipeline without the input files that printing does not show. */
  function Strip(nodes: seq<Node>): seq<Node> {
    if nodes == [] then []
    else
      var before, node := nodes[..|nodes| - 1], nodes[|nodes| - 1];
      Strip(before) + [if node.Command? && PipedAfter(before) then node.(stdin := None) else node]
  }

  lemma {:induction false} StripAt(nodes: seq<Node>, i: nat)
    requires i < |nodes|
    ensures |Strip(nodes)| == |nodes|
    ensures Strip(nodes)[i] ==
      if nodes[i].Command? && PipedAfter(nodes[..i]) then nodes[i].(stdin := None) else nodes[i]
    decreases |nodes|
  {
    var n := |nodes| - 1;
    if n == 0 {
    } else {
      StripAt(nodes[..n], if i < n then i else 0);
    }
    if i < n { assert nodes[..n][..i] == nodes[..i]; }
  }

  lemma {:induction false} PipedSameShape(a: seq<Node>, b: seq<Node>)
    requires |a| == |b|
    requires forall i :: 0 <= i < |a| ==> a[i] == b[i] || (a[i].Command? && b[i].Command?)
    ensures PipedAfter(a) == PipedAfter(b)
    decreases |a|
  {
    var n := |a| - 1;
    if n < 0 {
    } else {
      PipedSameShape(a[..n], b[..n]);
    }
    if n < 1 {
    } else {
      PipedSameShape(a[..n - 1], b[..n - 1]);
    }
  }

  lemma StripKeepsPiped(nodes: seq<Node>)
    ensures |Strip(nodes)| == |nodes| && PipedAfter(Strip(nodes)) == PipedAfter(nodes)
  {
    if nodes != [] { StripAt(nodes, 0); }
    forall i | 0 <= i < |nodes| ensures Strip(nodes)[i] == nodes[i] || (Strip(nodes)[i].Command? && nodes[i].Command?) {
      StripAt(nodes, i);
    }
    PipedSameShape(Strip(nodes), nodes);
  }

  lemma PrintIgnoresStdin(node: Node, piped: bool, stripped: Node)
    requires stripped == if node.Command? && piped then node.(stdin := None) else node
    ensures PrintNode(stripped, piped) == PrintNode(node, piped)
  {}

  lemma {:induction false} StripPrintsTheSame(nodes: seq<Node>)
    ensures Print(Strip(nodes)) == Print(nodes)
    decreases |nodes|
  {
    if nodes == [] {
    } else {
      var n := |nodes| - 1;
      var before, node := nodes[..n], nodes[n];
      StripPrintsTheSame(before);
      StripKeepsPiped(before);
      var stripped := if node.Command? && PipedAfter(before) then node.(stdin := None) else node;
      StripPrintsNode(before, node, stripped);
      FrontLast(nodes);
    }
  }

  lemma StripPrintsNode(before: seq<Node>, node: Node, stripped: Node)
    requires stripped == if node.Command? && PipedAfter(before) then node.(stdin := None) else node
    requires Print(Strip(before)) == Print(before) && PipedAfter(Strip(before)) == PipedAfter(before)
    ensures Print(Strip(before) + [stripped]) == Print(before + [node])
  {
    PrintSnoc(Strip(before), stripped);
    PrintIgnoresStdin(node, PipedAfter(before), stripped);
    PrintSnoc(before, node);
  }

  lemma StripNoPipedStdin(nodes: seq<Node>)
    ensures NoPipedStdin(Strip(nodes))
  {
    var stripped := Strip(nodes);
    forall i | 0 <= i < |stripped| && stripped[i].Command? && PipedAfter(stripped[..i])
      ensures stripped[i].stdin.None?
    {
      StripKeepsPiped(nodes);
      StripAt(nodes, i);
      forall j | 0 <= j < i ensures stripped[j] == nodes[j] || (stripped[j].Command? && nodes[j].Command?) {
        StripAt(nodes, j);
      }
      PipedSameShape(stripped[..i], nodes[..i]);
    }
  }

  ghost predicate SameButStdin(a: Node, b: Node) {
    a == b || (a.Command? && b.Command? && a.(stdin := None) == b.(stdin := None))
  }

  lemma {:induction false} GoodPairsSame(a: seq<Node>, b: seq<Node>)
    requires |a| == |b| && GoodPairs(a) && forall i :: 0 <= i < |a| ==> SameButStdin(a[i], b[i])
    ensures GoodPairs(b)
    decreases |a|
  {
    var n := |a|;
    if n == 0 {
    } else {
      assert SameButStdin(a[n - 2], b[n - 2]) && SameButStdin(a[n - 1], b[n - 1]);
      GoodItemSame(a[n - 2], b[n - 2], a[n - 1]);
      GoodPairsSame(a[..n - 2], b[..n - 2]);
    }
  }

  lemma GoodItemSame(a: Node, b: Node, op: Node)
    requires SameButStdin(a, b) && GoodItem(a, Some(op))
    ensures GoodItem(b, Some(op))
  {}

  lemma StripGrammatical(nodes: seq<Node>)
    requires Grammatical(nodes)
    ensures Grammatical(Strip(nodes))
  {
    var n := |nodes| - 1;
    var stripped := Strip(nodes);
    StripKeepsPiped(nodes);
    forall i | 0 <= i < |nodes| ensures SameButStdin(nodes[i], stripped[i]) {
      StripAt(nodes, i);
    }
    assert SameButStdin(nodes[n], stripped[n]);
    GoodPairsSame(nodes[..n], stripped[..n]);
  }

  /** Printing and parsing gives a pipeline back exactly when it is grammatical
      and no command fed by a pipe names an input file. */
  lemma RoundTripIff(nodes: seq<Node>)
    ensures Parsed(Print(nodes)) == Some(nodes) <==> Grammatical(nodes) && NoPipedStdin(nodes)
  {
    if Parsed(Print(nodes)) == Some(nodes) {
      ParsedIsGrammatical(Print(nodes));
      StripGrammatical(nodes);
      StripNoPipedStdin(nodes);
      StripPrintsTheSame(nodes);
      RoundTrip(Strip(nodes));
      assert Strip(nodes) == nodes;
    }
    if Grammatical(nodes) && NoPipedStdin(nodes) {
      RoundTrip(nodes);
    }
  }

  /** a | b < f is displayed as a | b, and the file is lost. */
  lemma PipedStdinIsLost(f: string)
    ensures var a := Command("a", ["a"], None, PIPE, SameAsParent, []);
      var b := Command("b", ["b"], Some(f), Inherit, SameAsParent, []);
      Grammatical([a, Pipe, b]) && Parsed(Print([a, Pipe, b])) != Some([a, Pipe, b])
  {
    var a := Command("a", ["a"], None, PIPE, SameAsParent, []);
    var b := Command("b", ["b"], Some(f), Inherit, SameAsParent, []);
    var nodes := [a, Pipe, b];
    assert EnvMatch("a").None? && EnvMatch("b").None?;
    assert GoodPairs([a, Pipe]) by { assert [a, Pipe][..0] == []; }
    assert nodes[..2] == [a, Pipe];
    assert PipedAfter(nodes[..2]) && nodes[2].stdin.Some?;
    RoundTripIff(nodes);
  }

  /** What printing and parsing loses of any parsed command line is just the
      input files of commands that are fed by a pipe. */
  lemma ReparseStrips(tokens: seq<string>)
    requires Parsed(tokens).Some?
    ensures Parsed(Print(Parsed(tokens).value)) == Some(Strip(Parsed(tokens).value))
  {
    var nodes := Parsed(tokens).value;
    ParsedIsGrammatical(tokens);
    StripGrammatical(nodes);
    StripNoPipedStdin(nodes);
    StripPrintsTheSame(nodes);
    RoundTrip(Strip(nodes));
  }

  // ---------- the parser object ----------

  class Pipeline {
    var currentCommand: Option<Node>
    var pipeline: seq<Node>

    constructor ()
      ensures currentCommand == None && pipeline == []
    {
      currentCommand, pipeline := None, [];
    }

    method CommitCommand()
      requires currentCommand.Some?
      modifies this
      ensures pipeline == old(pipeline) + [old(currentCommand).value] && currentCommand == None
    {
      pipeline := pipeline + [currentCommand.value];
      currentCommand := None;
    }

    method CommitAndAppend(op: Node)
      requires currentCommand.Some?
      modifies this
      ensures pipeline == old(pipeline) + [old(currentCommand).value, op] && currentCommand == None
    {
      CommitCommand();
      pipeline := pipeline + [op];
    }

    /** The loop body for one token; ok is false when an assertion fails. */
    method ReadToken(mode0: Mode, envVars0: EnvVars, token: string)
      returns (ok: bool, mode: Mode, envVars: EnvVars)
      requires GoodState(ParseState(mode0, currentCommand, pipeline, envVars0))
      modifies this
      ensures Step(ParseState(mode0, old(currentCommand), old(pipeline), envVars0), token)
        == if ok then Some(ParseState(mode, currentCommand, pipeline, envVars)) else None
    {
      ok, mode, envVars := true, mode0, envVars0;
      match mode {
        case BEGIN =>
          match EnvMatch(token) {
            case Some(kv) => envVars := Assign(envVars, kv.0, kv.1);
            case None =>
              if token == "cd" {
                currentCommand := Some(Chdir(None));
                ok := envVars == [];
                mode := CHDIR;
              } else {
                currentCommand := Some(NewCommand(token, envVars));
                envVars := [];
                mode := COMMAND;
              }
          }
        case COMMAND =>
          var c := currentCommand.value;
          if token == ">" {
            mode := STDOUT_FILE;
          } else if token == "2>" {
            mode := STDERR;
          } else if token == "2>&1" {
            ok := c.stderr.SameAsParent?;
            currentCommand := Some(c.(stderr := STDOUT));
          } else if token == "<" {
            mode := STDIN;
          } else if token == "|" {
            ok := c.stdout.Inherit?;
            currentCommand := Some(c.(stdout := PIPE));
            CommitAndAppend(Pipe);
            mode := BEGIN;
          } else if token == "&&" {
            CommitAndAppend(And);
            mode := BEGIN;
          } else if token == "||" {
            CommitAndAppend(Or);
            mode := BEGIN;
          } else {
            currentCommand := Some(c.(argv := c.argv + [token]));
          }
        case CHDIR =>
          if token == "&&" {
            CommitAndAppend(And);
            mode := BEGIN;
          } else {
            ok := currentCommand.value.dir.None?;
            currentCommand := Some(Chdir(Some(token)));
          }
        case STDOUT_FILE =>
          ok := currentCommand.value.stdout.Inherit?;
          currentCommand := Some(currentCommand.value.(stdout := File(token)));
          mode := COMMAND;
        case STDERR =>
          ok := currentCommand.value.stderr.SameAsParent?;
          currentCommand := Some(currentCommand.value.(stderr := ErrFile(token)));
          mode := COMMAND;
        case STDIN =>
          ok := currentCommand.value.stdin.None?;
          currentCommand := Some(currentCommand.value.(stdin := Some(token)));
          mode := COMMAND;
      }
    }

    /** parse, from the list of tokens on. */
    method Parse(command: seq<string>) returns (result: Option<seq<Node>>)
      modifies this
      ensures result == Parsed(command)
      ensures result.Some? ==> pipeline == result.value && currentCommand == None && Grammatical(pipeline)
    {
      currentCommand, pipeline := None, [];
      var tokens := command;
      var mode, envVars := BEGIN, [];
      while tokens != []
        invariant GoodState(ParseState(mode, currentCommand, pipeline, envVars))
        invariant ReadAll(Start, command) == ReadAll(ParseState(mode, currentCommand, pipeline, envVars), tokens)
        decreases |tokens|
      {
        var token := tokens[0];
        ghost var before := ParseState(mode, currentCommand, pipeline, envVars);
        tokens := tokens[1..];
        var ok;
        ok, mode, envVars := ReadToken(mode, envVars, token);
        if !ok {
          return None;
        }
        StepKeepsGood(before, token);
      }
      if currentCommand.None? {
        return None;
      }
      CommitCommand();
      ParsedIsGrammatical(command);
      return Some(pipeline);
    }
  }
}
