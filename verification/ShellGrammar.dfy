/** The command language as a grammar: which token lists parse accepts, and what they mean. */
module ShellGrammar {
  import opened Common
  import opened ShellParse

  // ---------- command lines ----------

  /** What may follow the name of a command. */
  datatype Part = Word(word: string) | ReadFrom(file: string) | WriteTo(file: string) | ErrorsTo(file: string)
                | ErrorsToOutput

  datatype Item = Invoke(assignments: seq<string>, name: string, parts: seq<Part>) | Cd(dir: Option<string>)

  /** Items with the operators after them, and the last item; dangling is a redirection at
      the very end that names no file. */
  datatype Line = Line(done: seq<(Item, Node)>, last: Item, dangling: seq<string>)

  function SpellPart(part: Part): seq<string> {
    match part
    case Word(w) => [w]
    case ReadFrom(f) => ["<", f]
    case WriteTo(f) => [">", f]
    case ErrorsTo(f) => ["2>", f]
    case ErrorsToOutput => ["2>&1"]
  }

  function SpellParts(parts: seq<Part>): seq<string> {
    if parts == [] then [] else SpellParts(parts[..|parts| - 1]) + SpellPart(parts[|parts| - 1])
  }

  function SpellItem(item: Item): seq<string> {
    match item
    case Invoke(assignments, name, parts) => assignments + [name] + SpellParts(parts)
    case Cd(dir) => if dir.Some? then ["cd", dir.value] else ["cd"]
  }

  function SpellOp(op: Node): string {
    if op == Pipe then "|" else if op == And then "&&" else "||"
  }

  function SpellDone(done: seq<(Item, Node)>): seq<string> {
    if done == [] then []
    else
      var (item, op) := done[|done| - 1];
      SpellDone(done[..|done| - 1]) + SpellItem(item) + [SpellOp(op)]
  }

  function Spell(line: Line): seq<string> {
    SpellDone(line.done) + SpellItem(line.last) + line.dangling
  }

  // ---------- which of them are allowed ----------

  /** key=value, with one newline at the end of the value ignored. */
  ghost predicate Assigns(token: string, key: string, value: string) {
    KeyText(key) && ValueText(value) && (token == key + "=" + value || token == key + "=" + value + "\n")
  }

  ghost predicate IsAssignment(token: string) {
    exists key, value :: Assigns(token, key, value)
  }

  ghost function InputsIn(parts: seq<Part>): nat {
    Count(parts, (part: Part) => part.ReadFrom?)
  }

  ghost function OutputsIn(parts: seq<Part>): nat {
    Count(parts, (part: Part) => part.WriteTo?)
  }

  ghost function ErrorsIn(parts: seq<Part>): nat {
    Count(parts, (part: Part) => part.ErrorsTo? || part.ErrorsToOutput?)
  }

  /** Words are not operators, and nothing is redirected twice. */
  ghost predicate AllowedParts(parts: seq<Part>) {
    && (forall k :: 0 <= k < |parts| && parts[k].Word? ==> parts[k].word !in OPERATORS)
    && InputsIn(parts) <= 1 && OutputsIn(parts) <= 1 && ErrorsIn(parts) <= 1
  }

  ghost predicate AllAssign(assignments: seq<string>) {
    forall k :: 0 <= k < |assignments| ==> IsAssignment(assignments[k])
  }

  /** An item before the operator op, or at the end. */
  ghost predicate AllowedItem(item: Item, op: Option<Node>) {
    match item
    case Invoke(assignments, name, parts) =>
      && AllAssign(assignments) && !IsAssignment(name) && name != "cd" && AllowedParts(parts)
      && (op == Some(Pipe) ==> OutputsIn(parts) == 0)
      && (op.None? || op.value in [Pipe, And, Or])
    case Cd(dir) => dir != Some("&&") && op in [None, Some(And)]
  }

  ghost predicate AllowedDone(done: seq<(Item, Node)>) {
    forall k :: 0 <= k < |done| ==> AllowedItem(done[k].0, Some(done[k].1))
  }

  ghost predicate Allowed(line: Line) {
    && AllowedDone(line.done) && AllowedItem(line.last, None)
    && (line.dangling == [] || (line.last.Invoke? && line.dangling in [["<"], [">"], ["2>"]]))
  }

  // ---------- what they mean ----------

  function Words(parts: seq<Part>): seq<string> {
    if parts == [] then []
    else if parts[|parts| - 1].Word? then Words(parts[..|parts| - 1]) + [parts[|parts| - 1].word]
    else Words(parts[..|parts| - 1])
  }

  /** Of the assignments to key, the last one gives value. */
  ghost predicate LastAssigned(assignments: seq<string>, key: string, value: string) {
    exists i: nat :: LastAt(assignments, i, key, value)
  }

  /** The i-th token assigns value to key, and no later one assigns anything to it. */
  ghost predicate LastAt(assignments: seq<string>, i: nat, key: string, value: string) {
    && i < |assignments| && Assigns(assignments[i], key, value)
    && forall j, v :: i < j < |assignments| ==> !Assigns(assignments[j], key, v)
  }

  /** The node that stands for the item before the operator op. */
  ghost predicate Means(item: Item, op: Option<Node>, node: Node) {
    match item
    case Cd(dir) => node == Chdir(dir)
    case Invoke(assignments, name, parts) =>
      && node.Command? && node.name == name && node.argv == [name] + Words(parts)
      && (forall f :: node.stdin == Some(f) <==> ReadFrom(f) in parts)
      && (forall f :: node.stdout == File(f) <==> WriteTo(f) in parts)
      && (node.stdout == PIPE <==> op == Some(Pipe))
      && (forall f :: node.stderr == ErrFile(f) <==> ErrorsTo(f) in parts)
      && (node.stderr == STDOUT <==> ErrorsToOutput in parts)
      && (forall key, value :: (key, value) in node.envVars <==> LastAssigned(assignments, key, value))
      && (forall i, j :: 0 <= i < j < |node.envVars| ==> node.envVars[i].0 != node.envVars[j].0)
  }

  /** Items and operators alternate as in the line. */
  ghost predicate LineMeans(line: Line, nodes: seq<Node>) {
    && |nodes| == 2 * |line.done| + 1
    && (forall k :: 0 <= k < |line.done| ==>
          Means(line.done[k].0, Some(line.done[k].1), nodes[2 * k]) && nodes[2 * k + 1] == line.done[k].1)
    && Means(line.last, None, nodes[2 * |line.done|])
  }

  // ---------- assignments ----------

  lemma {:induction false} WordPrefixStops(s: string)
    ensures WordPrefix(s) == |s| || !WordChar(s[WordPrefix(s)])
  {
    if s == "" || !WordChar(s[0]) {
    } else {
      WordPrefixStops(s[1..]);
    }
  }

  lemma MatchAssigns(token: string)
    requires EnvMatch(token).Some?
    ensures Assigns(token, EnvMatch(token).value.0, EnvMatch(token).value.1)
  {
    var n := WordPrefix(token);
    var rest := token[n + 1..];
    WordPrefixChars(token);
    assert token == token[..n] + "=" + rest;
    if rest != "" && rest[|rest| - 1] == '\n' {
      assert rest == Chomp(rest) + "\n";
      assert token == token[..n] + "=" + Chomp(rest) + "\n";
    }
  }

  lemma MatchParts(token: string, key: string, rest: string)
    requires KeyText(key) && token == key + ("=" + rest)
    ensures EnvMatch(token) == if ValueText(Chomp(rest)) then Some((key, Chomp(rest))) else None
  {
    WordPrefixOf(key, "=" + rest);
    assert token[..|key|] == key && token[|key| + 1..] == rest;
  }

  lemma ChompText(value: string)
    requires ValueText(value)
    ensures Chomp(value) == value && Chomp(value + "\n") == value
  {
    assert !Space(value[|value| - 1]);
    assert (value + "\n")[..|value|] == value;
  }

  lemma AssignsMatch(token: string, key: string, value: string)
    requires Assigns(token, key, value)
    ensures EnvMatch(token) == Some((key, value))
  {
    ChompText(value);
    if token == key + "=" + value {
      assert token == key + ("=" + value);
      MatchParts(token, key, value);
    } else {
      assert token == key + ("=" + (value + "\n"));
      MatchParts(token, key, value + "\n");
    }
  }

  /** The pattern of the source, as a property of the token. */
  lemma EnvMatchIff(token: string, key: string, value: string)
    ensures EnvMatch(token) == Some((key, value)) <==> Assigns(token, key, value)
  {
    if EnvMatch(token) == Some((key, value)) { MatchAssigns(token); }
    if Assigns(token, key, value) { AssignsMatch(token, key, value); }
  }

  lemma IsAssignmentIff(token: string)
    ensures IsAssignment(token) <==> EnvMatch(token).Some?
  {
    if EnvMatch(token).Some? { MatchAssigns(token); }
    if key, value :| Assigns(token, key, value) { AssignsMatch(token, key, value); }
  }

  /** What the parser has in env_vars after these tokens. */
  ghost function EnvOf(assignments: seq<string>): EnvVars {
    if assignments == [] then []
    else
      match EnvMatch(assignments[|assignments| - 1])
      case None => EnvOf(assignments[..|assignments| - 1])
      case Some(kv) => Assign(EnvOf(assignments[..|assignments| - 1]), kv.0, kv.1)
  }

  lemma {:induction false} EnvIsGood(assignments: seq<string>)
    requires AllAssign(assignments)
    ensures GoodEnv(EnvOf(assignments)) && (EnvOf(assignments) == [] <==> assignments == [])
  {
    if assignments == [] {
    } else {
      var token := assignments[|assignments| - 1];
      EnvIsGood(assignments[..|assignments| - 1]);
      IsAssignmentIff(token);
      MatchAssigns(token);
      AssignKeepsGood(EnvOf(assignments[..|assignments| - 1]), EnvMatch(token).value.0, EnvMatch(token).value.1);
    }
  }

  /** dict assignment replaces the value of its key and nothing else. */
  lemma {:induction false} AssignHolds(envVars: EnvVars, key: string, value: string, k: string, v: string)
    requires GoodEnv(envVars)
    ensures (k, v) in Assign(envVars, key, value) <==> if k == key then v == value else (k, v) in envVars
  {
    if envVars == [] {
    } else {
      var rest := envVars[1..];
      GoodEnvTail(envVars, k);
      assert envVars == [envVars[0]] + rest;
      if envVars[0].0 == key {
        InEnv(rest, k, v);
      } else {
        AssignHolds(rest, key, value, k, v);
      }
    }
  }

  lemma InEnv(envVars: EnvVars, k: string, v: string)
    ensures (k, v) in envVars ==> HasKey(envVars, k)
  {}

  lemma LastAtSnoc(assignments: seq<string>, token: string, i: nat, key: string, value: string)
    requires i < |assignments|
    ensures LastAt(assignments + [token], i, key, value) <==>
      LastAt(assignments, i, key, value) && forall v :: !Assigns(token, key, v)
  {
    var all := assignments + [token];
    assert all[|assignments|] == token;
    if LastAt(all, i, key, value) {
      forall j, v | i < j < |assignments| ensures !Assigns(assignments[j], key, v) {
        assert !Assigns(all[j], key, v);
      }
    }
  }

  lemma OneValue(token: string, k: string, v: string, key: string, value: string)
    requires Assigns(token, k, v)
    ensures Assigns(token, key, value) <==> key == k && value == v
  {
    AssignsMatch(token, k, v);
    if Assigns(token, key, value) { AssignsMatch(token, key, value); }
  }

  lemma LastAssignedSnoc(assignments: seq<string>, token: string, k: string, v: string, key: string, value: string)
    requires Assigns(token, k, v)
    ensures LastAssigned(assignments + [token], key, value) <==>
      if key == k then value == v else LastAssigned(assignments, key, value)
  {
    var n := |assignments|;
    forall w ensures Assigns(token, key, w) <==> key == k && w == v { OneValue(token, k, v, key, w); }
    assert LastAt(assignments + [token], n, key, value) <==> key == k && value == v;
    if i: nat :| LastAt(assignments + [token], i, key, value) {
      if i < n { LastAtSnoc(assignments, token, i, key, value); }
    }
    if i: nat :| LastAt(assignments, i, key, value) { LastAtSnoc(assignments, token, i, key, value); }
  }

  /** The last assignment to a variable is the one that counts. */
  lemma {:induction false} EnvHoldsLast(assignments: seq<string>, key: string, value: string)
    requires AllAssign(assignments)
    ensures (key, value) in EnvOf(assignments) <==> LastAssigned(assignments, key, value)
  {
    if assignments == [] {
    } else {
      var front, token := assignments[..|assignments| - 1], assignments[|assignments| - 1];
      EnvHoldsLast(front, key, value);
      EnvIsGood(front);
      IsAssignmentIff(token);
      MatchAssigns(token);
      var (k, v) := EnvMatch(token).value;
      AssignHolds(EnvOf(front), k, v, key, value);
      LastAssignedSnoc(front, token, k, v, key, value);
      FrontLast(assignments);
    }
  }

  // ---------- the parts of a command ----------

  ghost function InputOf(parts: seq<Part>): Option<string> {
    if parts == [] then None
    else match parts[|parts| - 1]
      case ReadFrom(f) => Some(f)
      case _ => InputOf(parts[..|parts| - 1])
  }

  ghost function OutputOf(parts: seq<Part>): Output {
    if parts == [] then Inherit
    else match parts[|parts| - 1]
      case WriteTo(f) => File(f)
      case _ => OutputOf(parts[..|parts| - 1])
  }

  ghost function ErrorsOf(parts: seq<Part>): Errput {
    if parts == [] then SameAsParent
    else match parts[|parts| - 1]
      case ErrorsTo(f) => ErrFile(f)
      case ErrorsToOutput => STDOUT
      case _ => ErrorsOf(parts[..|parts| - 1])
  }

  /** The node under construction after these parts. */
  ghost function Built(assignments: seq<string>, name: string, parts: seq<Part>): Node {
    Command(name, [name] + Words(parts), InputOf(parts), OutputOf(parts), ErrorsOf(parts), EnvOf(assignments))
  }

  lemma CountsSnoc(parts: seq<Part>, part: Part)
    ensures InputsIn(parts + [part]) == InputsIn(parts) + OneIf(part.ReadFrom?)
    ensures OutputsIn(parts + [part]) == OutputsIn(parts) + OneIf(part.WriteTo?)
    ensures ErrorsIn(parts + [part]) == ErrorsIn(parts) + OneIf(part.ErrorsTo? || part.ErrorsToOutput?)
  {
    CountSnoc(parts, part, (part: Part) => part.ReadFrom?);
    CountSnoc(parts, part, (part: Part) => part.WriteTo?);
    CountSnoc(parts, part, (part: Part) => part.ErrorsTo? || part.ErrorsToOutput?);
  }

  lemma PartsSnoc(parts: seq<Part>, part: Part)
    ensures AllowedParts(parts + [part]) ==> AllowedParts(parts)
    ensures AllowedParts(parts + [part]) <==>
      && AllowedParts(parts) && (part.Word? ==> part.word !in OPERATORS)
      && (part.ReadFrom? ==> InputsIn(parts) == 0) && (part.WriteTo? ==> OutputsIn(parts) == 0)
      && (part.ErrorsTo? || part.ErrorsToOutput? ==> ErrorsIn(parts) == 0)
  {
    var all := parts + [part];
    CountsSnoc(parts, part);
    if AllowedParts(all) {
      assert all[|parts|] == part;
      assert forall k :: 0 <= k < |parts| ==> parts[k] == all[k];
    }
  }

  lemma BuiltSnoc(assignments: seq<string>, name: string, parts: seq<Part>, part: Part)
    ensures SpellParts(parts + [part]) == SpellParts(parts) + SpellPart(part)
    ensures var c := Built(assignments, name, parts);
      Built(assignments, name, parts + [part]) ==
        match part
        case Word(w) => c.(argv := c.argv + [w])
        case ReadFrom(f) => c.(stdin := Some(f))
        case WriteTo(f) => c.(stdout := File(f))
        case ErrorsTo(f) => c.(stderr := ErrFile(f))
        case ErrorsToOutput => c.(stderr := STDOUT)
  {
    assert (parts + [part])[..|parts|] == parts;
  }

  /** With at most one redirection of each kind the fields say which there are. */
  lemma {:induction false} FieldsOf(parts: seq<Part>, f: string)
    requires AllowedParts(parts)
    ensures InputOf(parts) == Some(f) <==> ReadFrom(f) in parts
    ensures OutputOf(parts) == File(f) <==> WriteTo(f) in parts
    ensures ErrorsOf(parts) == ErrFile(f) <==> ErrorsTo(f) in parts
    ensures ErrorsOf(parts) == STDOUT <==> ErrorsToOutput in parts
    ensures InputOf(parts) == None <==> InputsIn(parts) == 0
    ensures OutputOf(parts) == Inherit <==> OutputsIn(parts) == 0
    ensures ErrorsOf(parts) == SameAsParent <==> ErrorsIn(parts) == 0
    ensures OutputOf(parts) != PIPE
  {
    if parts == [] {
    } else {
      var front, part := parts[..|parts| - 1], parts[|parts| - 1];
      FrontLast(parts);
      PartsSnoc(front, part);
      CountsSnoc(front, part);
      FieldsOf(front, f);
    }
  }

  // ---------- lines in the making ----------

  ghost function NodeOf(item: Item, op: Option<Node>): Node {
    match item
    case Cd(dir) => Chdir(dir)
    case Invoke(assignments, name, parts) =>
      if op == Some(Pipe) then Built(assignments, name, parts).(stdout := PIPE) else Built(assignments, name, parts)
  }

  ghost function NodesOf(done: seq<(Item, Node)>): seq<Node> {
    if done == [] then []
    else
      var (item, op) := done[|done| - 1];
      NodesOf(done[..|done| - 1]) + [NodeOf(item, Some(op)), op]
  }

  lemma DoneSnoc(done: seq<(Item, Node)>, item: Item, op: Node)
    ensures NodesOf(done + [(item, op)]) == NodesOf(done) + [NodeOf(item, Some(op)), op]
    ensures SpellDone(done + [(item, op)]) == SpellDone(done) + SpellItem(item) + [SpellOp(op)]
    ensures AllowedDone(done) && AllowedItem(item, Some(op)) ==> AllowedDone(done + [(item, op)])
  {
    assert (done + [(item, op)])[..|done|] == done;
  }

  /** A line that has been read up to some token: before an item, or within one. */
  datatype Partial = Before(done: seq<(Item, Node)>, assignments: seq<string>) | Within(line: Line)

  ghost predicate AllowedPartial(p: Partial) {
    match p
    case Before(done, assignments) => AllowedDone(done) && AllAssign(assignments)
    case Within(line) => Allowed(line)
  }

  ghost function SpellPartial(p: Partial): seq<string> {
    match p
    case Before(done, assignments) => SpellDone(done) + assignments
    case Within(line) => Spell(line)
  }

  ghost function ModeOf(item: Item, dangling: seq<string>): Mode {
    if item.Cd? then CHDIR
    else if dangling == [">"] then STDOUT_FILE
    else if dangling == ["2>"] then STDERR
    else if dangling == ["<"] then STDIN
    else COMMAND
  }

  ghost function StateOf(p: Partial): ParseState {
    match p
    case Before(done, assignments) => ParseState(BEGIN, None, NodesOf(done), EnvOf(assignments))
    case Within(line) =>
      ParseState(ModeOf(line.last, line.dangling), Some(NodeOf(line.last, None)), NodesOf(line.done), [])
  }

  // ---------- one token more ----------

  /** After p and the token the parser is where q is, if it goes on at all. */
  ghost predicate Reads(p: Partial, token: string, q: Partial) {
    && AllowedPartial(q) && SpellPartial(q) == SpellPartial(p) + [token]
    && Step(StateOf(p), token) == Some(StateOf(q))
  }

  lemma ReadsName(done: seq<(Item, Node)>, assignments: seq<string>, name: string)
    requires AllowedPartial(Before(done, assignments)) && !IsAssignment(name) && name != "cd"
    ensures Reads(Before(done, assignments), name, Within(Line(done, Invoke(assignments, name, []), [])))
  {
    IsAssignmentIff(name);
    assert AllowedParts([]);
    assert SpellItem(Invoke(assignments, name, [])) == assignments + [name];
    assert [name] + Words([]) == [name];
    assert SpellDone(done) + (assignments + [name]) + [] == SpellDone(done) + assignments + [name];
  }

  lemma ReadsAssignment(done: seq<(Item, Node)>, assignments: seq<string>, token: string)
    requires AllowedPartial(Before(done, assignments)) && IsAssignment(token)
    ensures Reads(Before(done, assignments), token, Before(done, assignments + [token]))
  {
    IsAssignmentIff(token);
    assert (assignments + [token])[..|assignments|] == assignments;
    assert SpellDone(done) + (assignments + [token]) == SpellDone(done) + assignments + [token];
  }

  lemma NotAnAssignment()
    ensures !IsAssignment("cd")
  {
    IsAssignmentIff("cd");
    assert WordPrefix("cd") == 2 by {
      assert WordPrefix("d") == 1 by { assert WordPrefix("") == 0; }
      assert "cd"[1..] == "d";
    }
  }

  lemma ReadsCd(done: seq<(Item, Node)>)
    requires AllowedDone(done)
    ensures Reads(Before(done, []), "cd", Within(Line(done, Cd(None), [])))
  {
    NotAnAssignment();
    IsAssignmentIff("cd");
    assert SpellDone(done) + [] + ["cd"] == SpellDone(done) + ["cd"] + [];
  }

  lemma ReadsDir(done: seq<(Item, Node)>, dir: string)
    requires AllowedDone(done) && dir != "&&"
    ensures Reads(Within(Line(done, Cd(None), [])), dir, Within(Line(done, Cd(Some(dir)), [])))
  {
    assert SpellDone(done) + ["cd"] + [] + [dir] == SpellDone(done) + ["cd", dir] + [];
  }

  lemma StepsOperator(s: ParseState, op: Node)
    requires s.current.Some? && op in [Pipe, And, Or]
    requires if s.current.value.Chdir? then s.mode == CHDIR && op == And
             else s.mode == COMMAND && s.current.value.Command? && (op == Pipe ==> s.current.value.stdout.Inherit?)
    ensures var c := s.current.value;
      Step(s, SpellOp(op)) == Some(Commit(s, if op == Pipe then c.(stdout := PIPE) else c, op))
  {}

  lemma ReadsOperator(done: seq<(Item, Node)>, item: Item, op: Node)
    requires AllowedDone(done) && AllowedItem(item, Some(op))
    ensures Reads(Within(Line(done, item, [])), SpellOp(op), Before(done + [(item, op)], []))
  {
    DoneSnoc(done, item, op);
    if item.Invoke? { FieldsOf(item.parts, ""); }
    StepsOperator(StateOf(Within(Line(done, item, []))), op);
    SpellAfter(SpellDone(done) + SpellItem(item), SpellOp(op));
  }

  lemma SpellAfter(s: seq<string>, token: string)
    ensures s + [] + [token] == s + [token] + []
  {}

  lemma SpellMore(done: seq<(Item, Node)>, assignments: seq<string>, name: string, parts: seq<Part>, part: Part)
    ensures Spell(Line(done, Invoke(assignments, name, parts + [part]), []))
      == Spell(Line(done, Invoke(assignments, name, parts), [])) + SpellPart(part)
  {
    BuiltSnoc(assignments, name, parts, part);
    Regroup(SpellDone(done), assignments + [name], SpellParts(parts), SpellPart(part));
  }

  lemma Regroup(a: seq<string>, b: seq<string>, c: seq<string>, d: seq<string>)
    ensures a + (b + (c + d)) + [] == a + (b + c) + [] + d
  {}

  lemma ReadsWord(done: seq<(Item, Node)>, assignments: seq<string>, name: string, parts: seq<Part>, part: Part)
    requires Allowed(Line(done, Invoke(assignments, name, parts), []))
    requires AllowedParts(parts + [part]) && (part.Word? || part.ErrorsToOutput?)
    ensures Reads(Within(Line(done, Invoke(assignments, name, parts), [])), SpellPart(part)[0],
                  Within(Line(done, Invoke(assignments, name, parts + [part]), [])))
  {
    PartsSnoc(parts, part);
    FieldsOf(parts, "");
    BuiltSnoc(assignments, name, parts, part);
    SpellMore(done, assignments, name, parts, part);
    if part.Word? { PlainWord(StateOf(Within(Line(done, Invoke(assignments, name, parts), []))), part.word); }
  }

  lemma ReadsRedirection(done: seq<(Item, Node)>, item: Item, token: string)
    requires Allowed(Line(done, item, [])) && item.Invoke? && token in ["<", ">", "2>"]
    ensures Reads(Within(Line(done, item, [])), token, Within(Line(done, item, [token])))
  {
    var s := SpellDone(done) + SpellItem(item);
    assert s + [] + [token] == s + [token];
  }

  lemma StepsFile(s: ParseState, c: Node, part: Part)
    requires s.current == Some(c) && c.Command?
    requires match part
      case ReadFrom(_) => s.mode == STDIN && c.stdin == None
      case WriteTo(_) => s.mode == STDOUT_FILE && c.stdout == Inherit
      case ErrorsTo(_) => s.mode == STDERR && c.stderr == SameAsParent
      case _ => false
    ensures Step(s, part.file) == Some(s.(mode := COMMAND, current := Some(
      match part
      case ReadFrom(f) => c.(stdin := Some(f))
      case WriteTo(f) => c.(stdout := File(f))
      case ErrorsTo(f) => c.(stderr := ErrFile(f)))))
  {}

  lemma SpellFile(done: seq<(Item, Node)>, assignments: seq<string>, name: string, parts: seq<Part>, part: Part)
    requires part.ReadFrom? || part.WriteTo? || part.ErrorsTo?
    ensures Spell(Line(done, Invoke(assignments, name, parts + [part]), []))
      == Spell(Line(done, Invoke(assignments, name, parts), [SpellPart(part)[0]])) + [part.file]
  {
    SpellMore(done, assignments, name, parts, part);
    var s := SpellDone(done) + SpellItem(Invoke(assignments, name, parts));
    assert s + [] + SpellPart(part) == s + [SpellPart(part)[0]] + [part.file];
  }

  lemma FitsPart(parts: seq<Part>, part: Part)
    requires AllowedParts(parts + [part])
    ensures AllowedParts(parts)
    ensures part.ReadFrom? ==> InputOf(parts) == None
    ensures part.WriteTo? ==> OutputOf(parts) == Inherit
    ensures part.ErrorsTo? || part.ErrorsToOutput? ==> ErrorsOf(parts) == SameAsParent
  {
    PartsSnoc(parts, part);
    FieldsOf(parts, "");
  }

  lemma ReadsFile(done: seq<(Item, Node)>, assignments: seq<string>, name: string, parts: seq<Part>, part: Part)
    requires Allowed(Line(done, Invoke(assignments, name, parts), []))
    requires AllowedParts(parts + [part]) && (part.ReadFrom? || part.WriteTo? || part.ErrorsTo?)
    ensures Reads(Within(Line(done, Invoke(assignments, name, parts), [SpellPart(part)[0]])), part.file,
                  Within(Line(done, Invoke(assignments, name, parts + [part]), [])))
  {
    FitsPart(parts, part);
    BuiltSnoc(assignments, name, parts, part);
    SpellFile(done, assignments, name, parts, part);
    StepsFile(StateOf(Within(Line(done, Invoke(assignments, name, parts), [SpellPart(part)[0]]))),
              Built(assignments, name, parts), part);
  }

  // ---------- what is accepted is a line ----------

  lemma TokenBefore(done: seq<(Item, Node)>, assignments: seq<string>, token: string) returns (q: Partial)
    requires AllowedPartial(Before(done, assignments)) && Step(StateOf(Before(done, assignments)), token).Some?
    ensures Reads(Before(done, assignments), token, q)
  {
    IsAssignmentIff(token);
    EnvIsGood(assignments);
    if IsAssignment(token) {
      q := Before(done, assignments + [token]);
      ReadsAssignment(done, assignments, token);
    } else if token == "cd" {
      q := Within(Line(done, Cd(None), []));
      ReadsCd(done);
    } else {
      q := Within(Line(done, Invoke(assignments, token, []), []));
      ReadsName(done, assignments, token);
    }
  }

  lemma TokenInCd(done: seq<(Item, Node)>, dir: Option<string>, token: string) returns (q: Partial)
    requires Allowed(Line(done, Cd(dir), [])) && Step(StateOf(Within(Line(done, Cd(dir), []))), token).Some?
    ensures Reads(Within(Line(done, Cd(dir), [])), token, q)
  {
    if token == "&&" {
      q := Before(done + [(Cd(dir), And)], []);
      ReadsOperator(done, Cd(dir), And);
    } else {
      q := Within(Line(done, Cd(Some(token)), []));
      ReadsDir(done, token);
    }
  }

  lemma CommandGoesOn(s: ParseState, c: Node, token: string)
    requires s.mode == COMMAND && s.current == Some(c) && c.Command? && Step(s, token).Some?
    ensures token == "2>&1" ==> c.stderr == SameAsParent
    ensures token == "|" ==> c.stdout == Inherit
  {}

  lemma PartFits(parts: seq<Part>, part: Part)
    requires AllowedParts(parts) && (part.Word? ==> part.word !in OPERATORS)
    requires part.ReadFrom? ==> InputOf(parts) == None
    requires part.WriteTo? ==> OutputOf(parts) == Inherit
    requires part.ErrorsTo? || part.ErrorsToOutput? ==> ErrorsOf(parts) == SameAsParent
    ensures AllowedParts(parts + [part])
  {
    FieldsOf(parts, "");
    PartsSnoc(parts, part);
  }

  lemma TokenInCommand(done: seq<(Item, Node)>, assignments: seq<string>, name: string, parts: seq<Part>,
                       token: string) returns (q: Partial)
    requires Allowed(Line(done, Invoke(assignments, name, parts), []))
    requires Step(StateOf(Within(Line(done, Invoke(assignments, name, parts), []))), token).Some?
    ensures Reads(Within(Line(done, Invoke(assignments, name, parts), [])), token, q)
  {
    var item := Invoke(assignments, name, parts);
    CommandGoesOn(StateOf(Within(Line(done, item, []))), Built(assignments, name, parts), token);
    if token in ["<", ">", "2>"] {
      q := Within(Line(done, item, [token]));
      ReadsRedirection(done, item, token);
    } else if token in ["|", "&&", "||"] {
      q := TokenIsOperator(done, assignments, name, parts, token);
    } else {
      var part := if token == "2>&1" then ErrorsToOutput else Word(token);
      q := Within(Line(done, Invoke(assignments, name, parts + [part]), []));
      PartFits(parts, part);
      ReadsWord(done, assignments, name, parts, part);
    }
  }

  lemma TokenIsOperator(done: seq<(Item, Node)>, assignments: seq<string>, name: string, parts: seq<Part>,
                        token: string) returns (q: Partial)
    requires Allowed(Line(done, Invoke(assignments, name, parts), [])) && token in ["|", "&&", "||"]
    requires token == "|" ==> OutputOf(parts) == Inherit
    ensures Reads(Within(Line(done, Invoke(assignments, name, parts), [])), token, q)
  {
    var op := if token == "|" then Pipe else if token == "&&" then And else Or;
    q := Before(done + [(Invoke(assignments, name, parts), op)], []);
    FieldsOf(parts, "");
    ReadsOperator(done, Invoke(assignments, name, parts), op);
  }

  lemma FileGoesOn(s: ParseState, c: Node, token: string)
    requires s.current == Some(c) && c.Command? && Step(s, token).Some?
    ensures s.mode == STDIN ==> c.stdin == None
    ensures s.mode == STDOUT_FILE ==> c.stdout == Inherit
    ensures s.mode == STDERR ==> c.stderr == SameAsParent
  {}

  lemma TokenNamesFile(done: seq<(Item, Node)>, assignments: seq<string>, name: string, parts: seq<Part>,
                       dangling: seq<string>, token: string) returns (q: Partial)
    requires dangling != [] && Allowed(Line(done, Invoke(assignments, name, parts), dangling))
    requires Step(StateOf(Within(Line(done, Invoke(assignments, name, parts), dangling))), token).Some?
    ensures Reads(Within(Line(done, Invoke(assignments, name, parts), dangling)), token, q)
  {
    var part :=
      if dangling == ["<"] then ReadFrom(token) else if dangling == [">"] then WriteTo(token) else ErrorsTo(token);
    q := Within(Line(done, Invoke(assignments, name, parts + [part]), []));
    FileGoesOn(StateOf(Within(Line(done, Invoke(assignments, name, parts), dangling))),
               Built(assignments, name, parts), token);
    PartFits(parts, part);
    ReadsFile(done, assignments, name, parts, part);
  }

  lemma OneToken(p: Partial, token: string) returns (q: Partial)
    requires AllowedPartial(p) && Step(StateOf(p), token).Some?
    ensures Reads(p, token, q)
  {
    match p {
      case Before(done, assignments) => q := TokenBefore(done, assignments, token);
      case Within(Line(done, last, dangling)) =>
        match last {
          case Cd(dir) => q := TokenInCd(done, dir, token);
          case Invoke(assignments, name, parts) =>
            if dangling == [] {
              q := TokenInCommand(done, assignments, name, parts, token);
            } else {
              q := TokenNamesFile(done, assignments, name, parts, dangling, token);
            }
        }
    }
  }

  const Nowhere := Before([], [])

  lemma {:induction false} Derive(tokens: seq<string>) returns (p: Partial)
    requires ReadAll(Start, tokens).Some?
    ensures AllowedPartial(p) && SpellPartial(p) == tokens && ReadAll(Start, tokens) == Some(StateOf(p))
  {
    if tokens == [] {
      p := Nowhere;
    } else {
      var n := |tokens| - 1;
      FrontLast(tokens);
      ReadAppend(Start, tokens[..n], [tokens[n]]);
      var before := Derive(tokens[..n]);
      ReadOne(StateOf(before), tokens[n]);
      p := OneToken(before, tokens[n]);
    }
  }

  // ---------- every line is accepted ----------

  ghost predicate Reached(p: Partial) {
    AllowedPartial(p) && ReadAll(Start, SpellPartial(p)) == Some(StateOf(p))
  }

  lemma ReachNext(p: Partial, token: string, q: Partial)
    requires Reached(p) && Reads(p, token, q)
    ensures Reached(q)
  {
    ReadThen(Start, SpellPartial(p), StateOf(p), [token]);
    ReadOne(StateOf(p), token);
  }

  lemma {:induction false} ReachAssignments(done: seq<(Item, Node)>, assignments: seq<string>)
    requires Reached(Before(done, [])) && AllAssign(assignments)
    ensures Reached(Before(done, assignments))
  {
    if assignments == [] {
    } else {
      var front, token := assignments[..|assignments| - 1], assignments[|assignments| - 1];
      FrontLast(assignments);
      ReachAssignments(done, front);
      ReadsAssignment(done, front, token);
      ReachNext(Before(done, front), token, Before(done, assignments));
    }
  }

  lemma {:induction false} ReachParts(done: seq<(Item, Node)>, assignments: seq<string>, name: string, parts: seq<Part>)
    requires Reached(Within(Line(done, Invoke(assignments, name, []), []))) && AllowedParts(parts)
    ensures Reached(Within(Line(done, Invoke(assignments, name, parts), [])))
  {
    if parts == [] {
    } else {
      var front, part := parts[..|parts| - 1], parts[|parts| - 1];
      FrontLast(parts);
      PartsSnoc(front, part);
      ReachParts(done, assignments, name, front);
      ReachPart(done, assignments, name, front, part);
    }
  }

  lemma ReachPart(done: seq<(Item, Node)>, assignments: seq<string>, name: string, parts: seq<Part>, part: Part)
    requires Reached(Within(Line(done, Invoke(assignments, name, parts), []))) && AllowedParts(parts + [part])
    ensures Reached(Within(Line(done, Invoke(assignments, name, parts + [part]), [])))
  {
    var p := Within(Line(done, Invoke(assignments, name, parts), []));
    var q := Within(Line(done, Invoke(assignments, name, parts + [part]), []));
    var token := SpellPart(part)[0];
    if part.Word? || part.ErrorsToOutput? {
      ReadsWord(done, assignments, name, parts, part);
      ReachNext(p, token, q);
    } else {
      var between := Within(Line(done, Invoke(assignments, name, parts), [token]));
      ReadsRedirection(done, Invoke(assignments, name, parts), token);
      ReachNext(p, token, between);
      ReadsFile(done, assignments, name, parts, part);
      ReachNext(between, part.file, q);
    }
  }

  lemma ReachItem(done: seq<(Item, Node)>, item: Item)
    requires Reached(Before(done, [])) && AllowedItem(item, None)
    ensures Reached(Within(Line(done, item, [])))
  {
    match item
    case Invoke(assignments, name, parts) =>
      ReachAssignments(done, assignments);
      ReadsName(done, assignments, name);
      ReachNext(Before(done, assignments), name, Within(Line(done, Invoke(assignments, name, []), [])));
      ReachParts(done, assignments, name, parts);
    case Cd(dir) =>
      ReadsCd(done);
      ReachNext(Before(done, []), "cd", Within(Line(done, Cd(None), [])));
      if dir.Some? {
        ReadsDir(done, dir.value);
        ReachNext(Within(Line(done, Cd(None), [])), dir.value, Within(Line(done, item, [])));
      }
  }

  lemma {:induction false} ReachDone(done: seq<(Item, Node)>)
    requires AllowedDone(done)
    ensures Reached(Before(done, []))
  {
    if done == [] {
    } else {
      var front := done[..|done| - 1];
      var (item, op) := done[|done| - 1];
      FrontLast(done);
      ReachDone(front);
      ReachItem(front, item);
      ReadsOperator(front, item, op);
      ReachNext(Within(Line(front, item, [])), SpellOp(op), Before(done, []));
    }
  }

  lemma ReachLine(line: Line)
    requires Allowed(line)
    ensures Reached(Within(line))
  {
    ReachDone(line.done);
    ReachItem(line.done, line.last);
    if line.dangling != [] {
      var token := line.dangling[0];
      assert line.dangling == [token];
      ReadsRedirection(line.done, line.last, token);
      ReachNext(Within(Line(line.done, line.last, [])), token, Within(line));
    }
  }

  // ---------- the nodes mean the line ----------

  lemma NodeMeans(item: Item, op: Option<Node>)
    requires AllowedItem(item, op)
    ensures Means(item, op, NodeOf(item, op))
  {
    match item
    case Cd(_) =>
    case Invoke(assignments, name, parts) =>
      var c := Built(assignments, name, parts);
      EnvIsGood(assignments);
      forall key, value ensures (key, value) in c.envVars <==> LastAssigned(assignments, key, value) {
        EnvHoldsLast(assignments, key, value);
      }
      FieldsMean(parts, c, op, NodeOf(item, op));
  }

  lemma FieldsMean(parts: seq<Part>, c: Node, op: Option<Node>, node: Node)
    requires AllowedParts(parts) && (op == Some(Pipe) ==> OutputsIn(parts) == 0) && c.Command?
    requires c.stdin == InputOf(parts) && c.stdout == OutputOf(parts) && c.stderr == ErrorsOf(parts)
    requires node == if op == Some(Pipe) then c.(stdout := PIPE) else c
    ensures forall f :: node.stdin == Some(f) <==> ReadFrom(f) in parts
    ensures forall f :: node.stdout == File(f) <==> WriteTo(f) in parts
    ensures node.stdout == PIPE <==> op == Some(Pipe)
    ensures forall f :: node.stderr == ErrFile(f) <==> ErrorsTo(f) in parts
    ensures node.stderr == STDOUT <==> ErrorsToOutput in parts
  {
    FieldsOf(parts, "");
    forall f
      ensures node.stdin == Some(f) <==> ReadFrom(f) in parts
      ensures node.stdout == File(f) <==> WriteTo(f) in parts
      ensures node.stderr == ErrFile(f) <==> ErrorsTo(f) in parts
    {
      FieldsOf(parts, f);
    }
  }

  lemma {:induction false} NodesAt(done: seq<(Item, Node)>, k: nat)
    requires k < |done|
    ensures |NodesOf(done)| == 2 * |done|
    ensures NodesOf(done)[2 * k] == NodeOf(done[k].0, Some(done[k].1)) && NodesOf(done)[2 * k + 1] == done[k].1
  {
    var n := |done| - 1;
    if n == 0 {
    } else {
      NodesAt(done[..n], if k < n then k else 0);
    }
  }

  lemma MeansAll(line: Line)
    requires Allowed(line)
    ensures LineMeans(line, NodesOf(line.done) + [NodeOf(line.last, None)])
  {
    var nodes := NodesOf(line.done) + [NodeOf(line.last, None)];
    if line.done != [] { NodesAt(line.done, 0); }
    NodeMeans(line.last, None);
    forall k | 0 <= k < |line.done|
      ensures Means(line.done[k].0, Some(line.done[k].1), nodes[2 * k]) && nodes[2 * k + 1] == line.done[k].1
    {
      NodesAt(line.done, k);
      NodeMeans(line.done[k].0, Some(line.done[k].1));
    }
  }

  /** Every allowed line is accepted, and the nodes returned mean it. */
  lemma LinesParse(line: Line)
    requires Allowed(line)
    ensures Parsed(Spell(line)).Some? && LineMeans(line, Parsed(Spell(line)).value)
  {
    ReachLine(line);
    MeansAll(line);
  }

  /** Nothing else is accepted. */
  lemma ParsedLine(tokens: seq<string>) returns (line: Line)
    requires Parsed(tokens).Some?
    ensures Allowed(line) && Spell(line) == tokens
  {
    var p := Derive(tokens);
    line := p.line;
  }

  /** parse accepts exactly the spellings of allowed lines. */
  lemma ParsedIff(tokens: seq<string>)
    ensures Parsed(tokens).Some? <==> exists line :: Allowed(line) && Spell(line) == tokens
  {
    if Parsed(tokens).Some? { var line := ParsedLine(tokens); }
    if line :| Allowed(line) && Spell(line) == tokens { LinesParse(line); }
  }
}
