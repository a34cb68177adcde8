/** The job-description validator (TaskParser in src/task.cpp): it turns a YAML
    document into a Task of named steps, each with ordered shell commands and a
    merged environment. The parser object keeps its Task between calls and only
    resets the error, so this model threads the parser state through
    explicitly. */
module TaskParsing {
  import opened Common
  import opened Document

  datatype Step = Step(name: string, commands: seq<string>, environments: map<string, string>)

  datatype Task = Task(name: string, steps: seq<Step>)

  /** TaskParser's two fields. */
  datatype Parser = Parser(task: Task, error: Option<string>)

  /** Why a parse stopped: one of the four structural defects the parser reports,
      or an exception raised by the YAML library. */
  datatype Failure =
    | MissingName
    | StepsNotSequence
    | StepMissingName
    | CommandsNotSequence
    | Library(fault: Fault)

  const ErrorPrefix: string := "Error parsing YAML file: "
  const UnnamedTask: string := "Unnamed_task"

  function Reason(f: Failure): string {
    match f
    case MissingName => "Missing 'name' field in YAML file."
    case StepsNotSequence => "'steps' field is missing or not a sequence in YAML file."
    case StepMissingName => "A step is missing the 'name' field in YAML file."
    case CommandsNotSequence => "The 'commands' field is missing or not a sequence in a step."
    case Library(fault) => Describe(fault)
  }

  /** TaskParser::TaskParser() */
  function NewParser(): Parser {
    Parser(Task("", []), None)
  }

  /** The commands of a step, one per sequence element, in document order. */
  function ParseCommands(items: seq<Node>): (r: Result<seq<string>, Fault>)
    ensures r.Ok? ==> |r.value| == |items|
    ensures r.Ok? ==> forall i :: 0 <= i < |items| ==> IsText(items[i]) && r.value[i] == TextOf(items[i])
    ensures r.Err? <==> exists i :: 0 <= i < |items| && !IsText(items[i])
  {
    Texts(items)
  }

  /** The pairs of one `environments` element folded into `env`, in order. */
  function MergePairs(env: map<string, string>, pairs: seq<(string, Node)>): Result<map<string, string>, Fault>
    decreases |pairs|
  {
    if pairs == [] then Ok(env)
    else match AsString(Present(pairs[0].1))
      case Err(f) => Err(f)
      case Ok(v) => MergePairs(env[pairs[0].0 := v], pairs[1..])
  }

  /** All `environments` elements folded into `env`; elements that are not maps are skipped. */
  function MergeEnvironments(env: map<string, string>, elems: seq<Node>): Result<map<string, string>, Fault>
    decreases |elems|
  {
    if elems == [] then Ok(env)
    else if !elems[0].Mapping? then MergeEnvironments(env, elems[1..])
    else match MergePairs(env, elems[0].entries)
      case Err(f) => Err(f)
      case Ok(env') => MergeEnvironments(env', elems[1..])
  }

  /** All (key, value) pairs of the map elements, in document order. */
  function Bindings(elems: seq<Node>): seq<(string, Node)> {
    if elems == [] then []
    else if elems[0].Mapping? then elems[0].entries + Bindings(elems[1..])
    else Bindings(elems[1..])
  }

  /** Reference definition of last-write-wins: the value of the last binding of k. */
  function LastBinding(pairs: seq<(string, Node)>, k: string): Option<Node> {
    if pairs == [] then None
    else if pairs[|pairs| - 1].0 == k then Some(pairs[|pairs| - 1].1)
    else LastBinding(pairs[..|pairs| - 1], k)
  }

  predicate AllTextValues(pairs: seq<(string, Node)>) {
    forall i :: 0 <= i < |pairs| ==> IsText(pairs[i].1)
  }

  /** One step element. */
  function ParseStep(item: Node): (r: Result<Step, Failure>)
    ensures r.Ok? ==> HasKey(item, "name") && HasKey(item, "commands")
  {
    match Get(Present(item), "name")
    case Err(f) => Err(Library(f))
    case Ok(nameNode) =>
      if !Defined(nameNode) then Err(StepMissingName)
      else match AsString(nameNode)
        case Err(f) => Err(Library(f))
        case Ok(name) =>
          match Get(Present(item), "commands")
          case Err(f) => Err(Library(f))
          case Ok(cmdNode) =>
            if !Defined(cmdNode) || !IsSeq(cmdNode) then Err(CommandsNotSequence)
            else match ParseCommands(cmdNode.node.items)
              case Err(f) => Err(Library(f))
              case Ok(commands) =>
                match Get(Present(item), "environments")
                case Err(f) => Err(Library(f))
                case Ok(envNode) =>
                  if Defined(envNode) && IsSeq(envNode) then
                    match MergeEnvironments(map[], envNode.node.items)
                    case Err(f) => Err(Library(f))
                    case Ok(env) => Ok(Step(name, commands, env))
                  else Ok(Step(name, commands, map[]))
  }

  /** The outcome of parsing each step element on its own. */
  function StepResults(items: seq<Node>): (r: seq<Result<Step, Failure>>)
    ensures |r| == |items| && forall i :: 0 <= i < |items| ==> r[i] == ParseStep(items[i])
  {
    seq(|items|, i requires 0 <= i < |items| => ParseStep(items[i]))
  }

  /** The loop over `steps`: each parsed step is pushed as soon as it is complete;
      the first failure stops the loop and keeps what was pushed. */
  function PushSteps(t: Task, results: seq<Result<Step, Failure>>): (Task, Option<Failure>)
    decreases |results|
  {
    if results == [] then (t, None)
    else match results[0]
      case Err(f) => (t, Some(f))
      case Ok(step) => PushSteps(t.(steps := t.steps + [step]), results[1..])
  }

  function ParseSteps(t: Task, items: seq<Node>): (Task, Option<Failure>) {
    PushSteps(t, StepResults(items))
  }

  /** The body of the try block, applied to the parser's current Task. */
  function ParseDocument(t: Task, root: Node): (Task, Option<Failure>) {
    match Get(Present(root), "name")
    case Err(f) => (t, Some(Library(f)))
    case Ok(nameNode) =>
      if !Defined(nameNode) then (t.(name := UnnamedTask), Some(MissingName))
      else match AsString(nameNode)
        case Err(f) => (t, Some(Library(f)))
        case Ok(name) =>
          var named := t.(name := name);
          match Get(Present(root), "steps")
          case Err(f) => (named, Some(Library(f)))
          case Ok(stepsNode) =>
            if !Defined(stepsNode) || !IsSeq(stepsNode) then (named, Some(StepsNotSequence))
            else ParseSteps(named, stepsNode.node.items)
  }

  /** TaskParser::parseYaml: the new parser state and the returned flag. */
  function ParseYaml(p: Parser, file: Load): (r: (Parser, bool))
    ensures r.1 <==> r.0.error.None?
    ensures !r.1 ==> exists f :: r.0.error == Some(ErrorPrefix + Reason(f))
    ensures r.1 || IsPrefix(ErrorPrefix, r.0.error.value)
    ensures p.task.steps <= r.0.task.steps
  {
    var (task, failure) :=
      match file
      case LoadFailed(f) => (p.task, Some(Library(f)))
      case Loaded(root) => ParseDocument(p.task, root);
    StepsOnlyGrow(p.task, file);
    match failure
    case None => (Parser(task, None), true)
    case Some(f) => (Parser(task, Some(ErrorPrefix + Reason(f))), false)
  }

  // ---------------------------------------------------------------------------
  // Properties

  lemma {:induction false} PushStepsExtends(t: Task, results: seq<Result<Step, Failure>>)
    ensures t.steps <= PushSteps(t, results).0.steps
    ensures PushSteps(t, results).0.name == t.name
    decreases |results|
  {
    if results != [] && results[0].Ok? {
      PushStepsExtends(t.(steps := t.steps + [results[0].value]), results[1..]);
    }
  }

  lemma StepsOnlyGrow(t: Task, file: Load)
    ensures file.Loaded? ==> t.steps <= ParseDocument(t, file.root).0.steps
  {
    if file.Loaded? {
      var root := file.root;
      var nameNode := Get(Present(root), "name");
      if nameNode.Ok? && Defined(nameNode.value) && AsString(nameNode.value).Ok? {
        var named := t.(name := AsString(nameNode.value).value);
        var stepsNode := Get(Present(root), "steps");
        if stepsNode.Ok? && Defined(stepsNode.value) && IsSeq(stepsNode.value) {
          PushStepsExtends(named, StepResults(stepsNode.value.node.items));
        }
      }
    }
  }

  /** A document without a top-level `name` fails with the "Missing 'name'"
      reason and renames the task "Unnamed_task"; its steps are untouched. */
  lemma MissingNameFails(p: Parser, root: Node)
    requires root.Mapping? && !HasKey(root, "name")
    ensures var (p', ok) := ParseYaml(p, Loaded(root));
      && !ok
      && p'.error == Some(ErrorPrefix + "Missing 'name' field in YAML file.")
      && p'.task == p.task.(name := UnnamedTask)
  {
  }

  /** A named document whose `steps` is missing or not a sequence fails before
      any step is added; the task takes the new name. */
  lemma MissingStepsFails(p: Parser, root: Node, name: string)
    requires Get(Present(root), "name") == Ok(Present(Scalar(name)))
    requires !IsSeq(Get(Present(root), "steps").value)
    ensures var (p', ok) := ParseYaml(p, Loaded(root));
      && !ok
      && p'.error == Some(ErrorPrefix + "'steps' field is missing or not a sequence in YAML file.")
      && p'.task == Task(name, p.task.steps)
  {
    StepsNotSequenceDocument(p.task, root, name);
    ParseYamlFailure(p, root);
  }

  /** ParseYaml on a loaded document whose body fails reports that failure. */
  lemma ParseYamlFailure(p: Parser, root: Node)
    requires ParseDocument(p.task, root).1.Some?
    ensures ParseYaml(p, Loaded(root)) ==
      (Parser(ParseDocument(p.task, root).0, Some(ErrorPrefix + Reason(ParseDocument(p.task, root).1.value))), false)
  {
  }

  lemma StepsNotSequenceDocument(t: Task, root: Node, name: string)
    requires Get(Present(root), "name") == Ok(Present(Scalar(name)))
    requires !IsSeq(Get(Present(root), "steps").value)
    ensures ParseDocument(t, root) == (t.(name := name), Some(StepsNotSequence))
  {
  }

  predicate AllOk(results: seq<Result<Step, Failure>>) {
    forall i :: 0 <= i < |results| ==> results[i].Ok?
  }

  /** The steps carried by results that all succeeded. */
  function Values(results: seq<Result<Step, Failure>>): (r: seq<Step>)
    requires AllOk(results)
    ensures |r| == |results|
    ensures forall i :: 0 <= i < |r| ==> results[i] == Ok(r[i])
    decreases |results|
  {
    if results == [] then [] else [results[0].value] + Values(results[1..])
  }

  /** When step k is the first that fails, exactly the steps before it are
      pushed, after the ones the task already had, and the failure is k's. */
  lemma {:induction false} FailingStepKeepsEarlierSteps(t: Task, results: seq<Result<Step, Failure>>, k: nat)
    requires k < |results|
    requires AllOk(results[..k])
    requires results[k].Err?
    ensures PushSteps(t, results) == (t.(steps := t.steps + Values(results[..k])), Some(results[k].error))
    decreases k
  {
    if k == 0 {
      assert results[..k] == [];
      assert t.steps + Values(results[..k]) == t.steps;
    } else {
      var pre := results[..k];
      assert pre[0] == results[0];
      var t' := t.(steps := t.steps + [results[0].value]);
      var rest := results[1..];
      assert rest[..k - 1] == pre[1..];
      assert AllOk(pre[1..]);
      assert PushSteps(t, results) == PushSteps(t', rest);
      FailingStepKeepsEarlierSteps(t', rest, k - 1);
      assert Values(pre) == [results[0].value] + Values(pre[1..]);
      AppendCons(t.steps, results[0].value, Values(pre[1..]));
    }
  }

  /** When every step parses, all of them are pushed in document order. */
  lemma {:induction false} AllStepsPushed(t: Task, results: seq<Result<Step, Failure>>)
    requires AllOk(results)
    ensures PushSteps(t, results) == (t.(steps := t.steps + Values(results)), None)
    decreases |results|
  {
    if results == [] {
      assert t.steps + Values(results) == t.steps;
    } else {
      var t' := t.(steps := t.steps + [results[0].value]);
      AllStepsPushed(t', results[1..]);
      assert Values(results) == [results[0].value] + Values(results[1..]);
      AppendCons(t.steps, results[0].value, Values(results[1..]));
    }
  }

  lemma {:induction false} MergePairsLastWins(env: map<string, string>, pairs: seq<(string, Node)>)
    requires AllTextValues(pairs)
    ensures MergePairs(env, pairs).Ok?
    ensures forall k :: k in MergePairs(env, pairs).value <==> k in env || LastBinding(pairs, k).Some?
    ensures forall k :: LastBinding(pairs, k).Some? ==>
              AsString(Present(LastBinding(pairs, k).value)) == Ok(MergePairs(env, pairs).value[k])
    ensures forall k :: k in env && LastBinding(pairs, k).None? ==>
              MergePairs(env, pairs).value[k] == env[k]
    decreases |pairs|
  {
    if pairs != [] {
      var last := pairs[|pairs| - 1];
      var init := pairs[..|pairs| - 1];
      assert AllTextValues(init) by {
        forall i | 0 <= i < |init| ensures IsText(init[i].1) { assert init[i] == pairs[i]; }
      }
      MergePairsOkIff(env, init);
      assert pairs == init + [last];
      MergePairsSnoc(env, init, last);
      MergePairsLastWins(env, init);
    }
  }

  lemma {:induction false} MergePairsSnoc(env: map<string, string>, init: seq<(string, Node)>, last: (string, Node))
    requires MergePairs(env, init).Ok? && IsText(last.1)
    ensures MergePairs(env, init + [last]) == Ok(MergePairs(env, init).value[last.0 := TextOf(last.1)])
    decreases |init|
  {
    if init == [] {
      assert init + [last] == [last];
    } else {
      var v := AsString(Present(init[0].1)).value;
      assert (init + [last])[1..] == init[1..] + [last];
      MergePairsSnoc(env[init[0].0 := v], init[1..], last);
    }
  }

  lemma {:induction false} MergePairsOkIff(env: map<string, string>, pairs: seq<(string, Node)>)
    ensures MergePairs(env, pairs).Ok? <==> AllTextValues(pairs)
    decreases |pairs|
  {
    if pairs != [] {
      if IsText(pairs[0].1) {
        MergePairsOkIff(env[pairs[0].0 := TextOf(pairs[0].1)], pairs[1..]);
        assert AllTextValues(pairs) <==> AllTextValues(pairs[1..]) by {
          if AllTextValues(pairs[1..]) {
            forall i | 0 <= i < |pairs| ensures IsText(pairs[i].1) {
              if i > 0 { assert pairs[i] == pairs[1..][i - 1]; }
            }
          }
        }
      }
    }
  }

  /** Merging the `environments` elements equals folding all bindings of the
      map elements (non-map elements contribute nothing) in document order. */
  lemma {:induction false} MergeEnvironmentsIsFold(env: map<string, string>, elems: seq<Node>)
    ensures MergeEnvironments(env, elems) == MergePairs(env, Bindings(elems))
    decreases |elems|
  {
    if elems != [] {
      if !elems[0].Mapping? {
        MergeEnvironmentsIsFold(env, elems[1..]);
      } else {
        MergePairsAppend(env, elems[0].entries, Bindings(elems[1..]));
        var first := MergePairs(env, elems[0].entries);
        if first.Ok? {
          MergeEnvironmentsIsFold(first.value, elems[1..]);
        }
      }
    }
  }

  lemma {:induction false} MergePairsAppend(env: map<string, string>, a: seq<(string, Node)>, b: seq<(string, Node)>)
    ensures MergePairs(env, a + b) ==
      (match MergePairs(env, a)
       case Err(f) => Err(f)
       case Ok(env') => MergePairs(env', b))
    decreases |a|
  {
    if a == [] {
      assert a + b == b;
    } else {
      assert (a + b)[1..] == a[1..] + b;
      assert (a + b)[0] == a[0];
      var v := AsString(Present(a[0].1));
      if v.Ok? {
        MergePairsAppend(env[a[0].0 := v.value], a[1..], b);
      }
    }
  }

  /** Environment merge, whole: when every value is a scalar the merged map has
      exactly the keys bound by some map element, each with the value of its
      LAST binding (a later duplicate overwrites an earlier one); otherwise the
      conversion failure aborts the step. */
  lemma EnvironmentsLastWriteWins(elems: seq<Node>)
    ensures MergeEnvironments(map[], elems).Ok? <==> AllTextValues(Bindings(elems))
    ensures MergeEnvironments(map[], elems).Ok? ==>
      var env := MergeEnvironments(map[], elems).value;
      && (forall k :: k in env <==> LastBinding(Bindings(elems), k).Some?)
      && (forall k :: k in env ==> AsString(Present(LastBinding(Bindings(elems), k).value)) == Ok(env[k]))
  {
    MergeEnvironmentsIsFold(map[], elems);
    MergePairsOkIff(map[], Bindings(elems));
    if AllTextValues(Bindings(elems)) {
      MergePairsLastWins(map[], Bindings(elems));
    }
  }

  /** A step without `environments` (or with a non-sequence one) gets an empty map. */
  lemma NoEnvironmentsGivesEmptyMap(item: Node)
    requires ParseStep(item).Ok?
    requires !IsSeq(Get(Present(item), "environments").value)
    ensures ParseStep(item).value.environments == map[]
  {
  }

  /** A document the parser accepts: a named mapping whose `steps` sequence
      holds only steps that parse. */
  predicate Accepted(root: Node) {
    && Get(Present(root), "name").Ok?
    && Get(Present(root), "name").value.Present?
    && IsText(Get(Present(root), "name").value.node)
    && IsSeq(Get(Present(root), "steps").value)
    && AllOk(StepResults(StepItems(root)))
  }

  function StepItems(root: Node): seq<Node>
    requires Get(Present(root), "name").Ok?
  {
    var h := Get(Present(root), "steps").value;
    if IsSeq(h) then h.node.items else []
  }

  lemma AcceptedParses(p: Parser, root: Node)
    requires Accepted(root)
    ensures ParseYaml(p, Loaded(root)) ==
      (Parser(Task(TextOf(Get(Present(root), "name").value.node),
                   p.task.steps + Values(StepResults(StepItems(root)))), None), true)
  {
    var named := p.task.(name := TextOf(Get(Present(root), "name").value.node));
    AllStepsPushed(named, StepResults(StepItems(root)));
  }

  /** The parser never resets its Task: two accepted files parsed on one parser
      leave the steps it had, then the first file's, then the second file's. */
  lemma SecondParseAppends(p: Parser, d1: Node, d2: Node)
    requires Accepted(d1) && Accepted(d2)
    ensures var p1 := ParseYaml(p, Loaded(d1)).0;
      var p2 := ParseYaml(p1, Loaded(d2)).0;
      p2.task.steps == p.task.steps + Values(StepResults(StepItems(d1))) + Values(StepResults(StepItems(d2)))
  {
    AcceptedParses(p, d1);
    AcceptedParses(ParseYaml(p, Loaded(d1)).0, d2);
  }
}
