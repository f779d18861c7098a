/** What a run receives, and what the prompt before it guarantees. */
module RunTheorems {
  import opened Graph
  import opened Repository
  import opened Contexts
  import opened TimeBuiltins
  import opened Placeholders
  import opened RunValues
  import opened RunResolve

  // Routines and pipeline files of the repository. --------------------------------------

  type Table = map<string, string>

  function WithRoutine(routines: Table, i: Item): Table {
    if i.kind == RoutineItem && i.payload.RoutinePayload? && i.payload.language == "sql" && i.payload.code != "" then
      routines[i.id := i.payload.code][i.name := i.payload.code]
    else routines
  }

  function RoutinesOf(repo: seq<Item>): Table {
    if repo == [] then map[] else WithRoutine(RoutinesOf(repo[..|repo| - 1]), repo[|repo| - 1])
  }

  function DropSlashes(dir: string): string {
    if dir != "" && (dir[|dir| - 1] == '/' || dir[|dir| - 1] == '\\') then DropSlashes(dir[..|dir| - 1]) else dir
  }

  function PipelineFile(workspacePath: string, id: string): string {
    var sep := if '\\' in workspacePath && '/' !in workspacePath then "\\" else "/";
    DropSlashes(workspacePath) + sep + "pipelines" + sep + id + ".json"
  }

  function WithPipeline(paths: Table, i: Item, workspacePath: string): Table {
    if i.kind == PipelineItem && workspacePath != "" then
      paths[i.id := PipelineFile(workspacePath, i.id)][i.name := PipelineFile(workspacePath, i.id)]
    else paths
  }

  function PathsOf(repo: seq<Item>, workspacePath: string): Table {
    if repo == [] then map[] else WithPipeline(PathsOf(repo[..|repo| - 1], workspacePath), repo[|repo| - 1], workspacePath)
  }

  // One node. ------------------------------------------------------------------------------

  /** The properties with a referenced SQL routine in place of missing SQL. */
  function Inlined(node: RunNode, routines: Table): seq<Field> {
    var ref := TextProperty(node.properties, "routineRef");
    if (node.componentId == "code.sql" || node.componentId == "code.sqltemplate")
       && ref != "" && Trim(TextProperty(node.properties, "sql")) == "" && ref in routines
    then SetProperty(node.properties, "sql", Str(routines[ref]))
    else node.properties
  }

  function TwoPasses(fields: seq<Field>, vars: Vars, clock: Clock): seq<Field> {
    SubstituteFields(if vars != map[] then SubstituteFields(fields, vars, clock) else fields, map[], clock)
  }

  const PIPELINE_REF_KEYS: set<string> :=
    {"pipelineRef", "iteratePipelineRef", "foreachPipelineRef", "fallbackPipelineRef"}

  /** A reference to a known pipeline becomes the path of its file. */
  function Located(f: Field, paths: Table): Field {
    if f.name in PIPELINE_REF_KEYS && f.value.Str? && f.value.s in paths then Field(f.name, Str(paths[f.value.s])) else f
  }

  function LocateRefs(fields: seq<Field>, paths: Table): seq<Field> {
    seq(|fields|, i requires 0 <= i < |fields| => Located(fields[i], paths))
  }

  function Resolved(node: RunNode, vars: Vars, routines: Table, paths: Table, clock: Clock): RunNode {
    node.(properties := LocateRefs(TwoPasses(Inlined(node, routines), vars, clock), paths))
  }

  method ResolveForRun(nodes: seq<RunNode>, repo: seq<Item>, workspacePath: string, extraVars: Vars, typed: Vars,
                       leaveForEngine: set<string>, clock: Clock)
    returns (out: seq<RunNode>, ghost used: Vars)
    ensures |out| == |nodes|
    ensures forall key :: Lookup(used, key) == Given(key, nodes, repo, workspacePath, extraVars, typed, leaveForEngine, clock)
    ensures forall i :: 0 <= i < |nodes| ==>
              out[i] == Resolved(nodes[i], used, RoutinesOf(repo), PathsOf(repo, workspacePath), clock)
    ensures used == RunVars(KnownVars(repo, workspacePath, extraVars, clock), typed, SetByRun(nodes), leaveForEngine)
  {
    var contextVars := BuildContextVars(repo);
    var vars := BuiltinVars(workspacePath, clock) + contextVars + extraVars + typed;
    var setByRun := RunVarNames(nodes);
    vars := vars - setByRun - leaveForEngine;
    var routines: Table, paths: Table := map[], map[];
    for i := 0 to |repo|
      invariant routines == RoutinesOf(repo[..i]) && paths == PathsOf(repo[..i], workspacePath)
    {
      assert repo[..i + 1][..i] == repo[..i];
      routines := WithRoutine(routines, repo[i]);
      paths := WithPipeline(paths, repo[i], workspacePath);
    }
    assert repo[..|repo|] == repo;
    out := seq(|nodes|, i requires 0 <= i < |nodes| => Resolved(nodes[i], vars, routines, paths, clock));
    used := vars;
    forall key {
      RunVarsAreGiven(nodes, repo, workspacePath, extraVars, typed, leaveForEngine, clock, key);
    }
  }

  // Names left for the run survive. ----------------------------------------------------------

  /** What the two passes make of a text, around a placeholder they leave. */
  function Around(s: string, i: nat, vars: Vars, clock: Clock): string
    requires i < |Pieces(s)| && Pieces(s)[i].Placeholder?
  {
    SubstituteString(ReplaceAll(Pieces(s)[..i], vars, clock), map[], clock)
    + Token(Pieces(s)[i].expr)
    + SubstituteString(ReplaceAll(Pieces(s)[i + 1..], vars, clock), map[], clock)
  }

  lemma TwoPassesAt(fields: seq<Field>, vars: Vars, clock: Clock, path: seq<nat>, s: string)
    requires RendersPlainly(clock) && At(Obj(fields), path) == Some(Str(s))
    ensures At(Obj(TwoPasses(fields, vars, clock)), path) == Some(Str(Twice(s, vars, clock)))
  {
    SubstituteDeepAt(Obj(fields), vars, clock, path);
    SubstituteDeepAt(Obj(fields), map[], clock, path);
    SubstituteDeepAt(SubstituteDeep(Obj(fields), vars, clock), map[], clock, path);
    SecondPassIsFinal(s, clock);
  }

  lemma FieldLocated(f: Field, paths: Table, rest: seq<nat>, s: string)
    requires At(f.value, rest) == Some(Str(s))
    ensures At(Located(f, paths).value, rest)
            == if rest == [] && f.name in PIPELINE_REF_KEYS && s in paths then Some(Str(paths[s])) else Some(Str(s))
  {
    TextIsLeaf(f.value, rest, s);
    if rest != [] {
      assert Located(f, paths) == f;
    }
  }

  lemma AtField(fields: seq<Field>, path: seq<nat>)
    requires path != [] && path[0] < |fields|
    ensures At(Obj(fields), path) == At(fields[path[0]].value, path[1..])
  {
  }

  lemma TextIsLeaf(v: Json, path: seq<nat>, s: string)
    requires At(v, path) == Some(Str(s))
    ensures path == [] ==> v == Str(s)
    ensures path != [] ==> !v.Str?
  {
  }

  /** A placeholder anywhere in the properties that no variable and no builtin
      fills reaches the run verbatim, whatever is substituted around it. The one
      exception is a pipeline reference whose whole text is the id or the name of
      a pipeline: that becomes the path of the pipeline's file. */
  lemma PlaceholderReachesRun(node: RunNode, vars: Vars, routines: Table, paths: Table, clock: Clock,
                              path: seq<nat>, s: string, i: nat)
    requires RendersPlainly(clock)
    requires At(Obj(Inlined(node, routines)), path) == Some(Str(s))
    requires i < |Pieces(s)| && Pieces(s)[i].Placeholder? && Value(Pieces(s)[i].expr, vars, clock) == None
    ensures path != [] && path[0] < |Inlined(node, routines)|
    ensures var text := Around(s, i, vars, clock);
            At(Obj(Resolved(node, vars, routines, paths, clock).properties), path)
            == if |path| == 1 && Inlined(node, routines)[path[0]].name in PIPELINE_REF_KEYS && text in paths
               then Some(Str(paths[text]))
               else Some(Str(text))
  {
    var fields := Inlined(node, routines);
    TwoPassesAt(fields, vars, clock, path, s);
    LeftInPlaceSurvives(s, i, vars, clock);
    var passed := TwoPasses(fields, vars, clock);
    AtField(passed, path);
    FieldLocated(passed[path[0]], paths, path[1..], Twice(s, vars, clock));
    AtField(LocateRefs(passed, paths), path);
    TwoPassesNames(fields, vars, clock, path[0]);
  }

  lemma TwoPassesNames(fields: seq<Field>, vars: Vars, clock: Clock, k: nat)
    requires k < |TwoPasses(fields, vars, clock)|
    ensures |TwoPasses(fields, vars, clock)| == |fields| && TwoPasses(fields, vars, clock)[k].name == fields[k].name
  {
    var first := if vars != map[] then SubstituteFields(fields, vars, clock) else fields;
    SubstituteFieldsAt(first, map[], clock, k);
    if vars != map[] {
      SubstituteFieldsAt(fields, vars, clock, k);
    }
  }

  /** Names that the run sets or the engine fills in are never replaced ahead of
      the run, unless they are date or time builtins. */
  lemma LeftForRun(expr: string, known: Vars, typed: Vars, setByRun: set<string>, leaveForEngine: set<string>, clock: Clock)
    requires Trim(expr) in setByRun + leaveForEngine
    ensures Value(expr, RunVars(known, typed, setByRun, leaveForEngine), clock) == Builtin(Trim(expr), clock)
  {
  }

  /** Survival through a whole run: a placeholder for a name that a node sets or
      that is left for the engine, no builtin and in no pipeline reference,
      reaches the run verbatim at its place, at any depth. */
  lemma LeftNameReachesRun(node: RunNode, known: Vars, typed: Vars, setByRun: set<string>, leaveForEngine: set<string>,
                           routines: Table, paths: Table, clock: Clock, path: seq<nat>, s: string, i: nat)
    requires RendersPlainly(clock)
    requires At(Obj(Inlined(node, routines)), path) == Some(Str(s))
    requires i < |Pieces(s)| && Pieces(s)[i].Placeholder?
    requires Trim(Pieces(s)[i].expr) in setByRun + leaveForEngine && Builtin(Trim(Pieces(s)[i].expr), clock) == None
    ensures path != [] && path[0] < |Inlined(node, routines)|
    ensures |path| > 1 || Inlined(node, routines)[path[0]].name !in PIPELINE_REF_KEYS ==>
              var vars := RunVars(known, typed, setByRun, leaveForEngine);
              At(Obj(Resolved(node, vars, routines, paths, clock).properties), path) == Some(Str(Around(s, i, vars, clock)))
  {
    var vars := RunVars(known, typed, setByRun, leaveForEngine);
    LeftForRun(Pieces(s)[i].expr, known, typed, setByRun, leaveForEngine, clock);
    PlaceholderReachesRun(node, vars, routines, paths, clock, path, s, i);
  }

  // The prompt is complete, and asks for nothing else. -----------------------------------------

  /** Placeholders that nobody is asked about: the engine or the run fills them. */
  predicate IsExempt(key: string, setByRun: set<string>, declared: set<string>) {
    key == "" || IsSecret(key) || key in setByRun || key in declared
  }

  /** Completeness: with a workspace, once every name asked for has a value, the
      first pass leaves no placeholder of the nodes in place but the exempt ones,
      at any depth of the properties. */
  lemma PromptIsComplete(nodes: seq<RunNode>, repo: seq<Item>, workspacePath: string, extraVars: Vars, typed: Vars,
                         declared: set<string>, clock: Clock, k: nat, path: seq<nat>, i: nat, key: string)
    requires workspacePath != "" && k < |nodes|
    requires MentionedAt(Obj(nodes[k].properties), path, i, key)
    requires var known := KnownVars(repo, workspacePath, extraVars, clock);
             AskedIn(MentionedIn(nodes), known, SetByRun(nodes), declared, clock) <= typed.Keys
    requires var known := KnownVars(repo, workspacePath, extraVars, clock);
             key !in RunVars(known, typed, SetByRun(nodes), declared) && Builtin(key, clock) == None
    ensures IsExempt(key, SetByRun(nodes), declared)
  {
    var known := KnownVars(repo, workspacePath, extraVars, clock);
    MentionsComplete(Obj(nodes[k].properties), path, i, key);
    MentionedInAll(nodes, k);
    if key in PARAM_BUILTINS {
      BuiltinsAreKnown(repo, workspacePath, extraVars, clock, key);
    }
  }

  lemma BuiltinsAreKnown(repo: seq<Item>, workspacePath: string, extraVars: Vars, clock: Clock, key: string)
    requires workspacePath != "" && key in PARAM_BUILTINS
    ensures key in KnownVars(repo, workspacePath, extraVars, clock)
  {
    assert BASES[0] == "timestamp" && BASES[1] == "datetime" && BASES[2] == "date" && BASES[3] == "time" && BASES[4] == "now";
  }

  lemma {:induction false} MentionedInAll(nodes: seq<RunNode>, k: nat)
    requires k < |nodes|
    ensures FieldMentions(nodes[k].properties) <= MentionedIn(nodes)
  {
    if k < |nodes| - 1 {
      MentionedInAll(nodes[..|nodes| - 1], k);
    }
  }

  lemma {:induction false} MentionedInSome(nodes: seq<RunNode>, key: string) returns (k: nat)
    requires key in MentionedIn(nodes)
    ensures k < |nodes| && key in FieldMentions(nodes[k].properties)
  {
    k := |nodes| - 1;
    if key !in FieldMentions(nodes[k].properties) {
      k := MentionedInSome(nodes[..k], key);
    }
  }

  /** Economy: a name that is asked for does stand in a placeholder, which
      without a typed value the first pass would leave in place. */
  lemma PromptIsNeeded(nodes: seq<RunNode>, known: Vars, declared: set<string>, clock: Clock, key: string)
    returns (k: nat, path: seq<nat>, i: nat)
    requires key in AskedIn(MentionedIn(nodes), known, SetByRun(nodes), declared, clock)
    ensures k < |nodes| && MentionedAt(Obj(nodes[k].properties), path, i, key)
    ensures key !in RunVars(known, map[], SetByRun(nodes), declared) && Builtin(key, clock) == None
    ensures !IsExempt(key, SetByRun(nodes), declared)
  {
    k := MentionedInSome(nodes, key);
    assert Mentions(Obj(nodes[k].properties)) == FieldMentions(nodes[k].properties);
    path, i := MentionedSomewhere(Obj(nodes[k].properties), key);
  }
}
