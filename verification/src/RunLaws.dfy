/** What each node of a run is made of: routines, values and paths of pipelines. */
module RunLaws {
  import opened Graph
  import opened Repository
  import opened Contexts
  import opened TimeBuiltins
  import opened Placeholders
  import opened RunValues
  import opened RunResolve
  import opened RunTheorems
  import opened Substitution

  // Routines. ---------------------------------------------------------------------------

  predicate Named(i: Item, ref: string) {
    i.id == ref || i.name == ref
  }

  /** The code of the last SQL routine with a reference as its id or its name. */
  function CodeOf(repo: seq<Item>, ref: string): Option<string> {
    if repo == [] then None
    else
      var i := repo[|repo| - 1];
      if i.kind == RoutineItem && Named(i, ref) && i.payload.RoutinePayload? && i.payload.language == "sql" && i.payload.code != ""
      then Some(i.payload.code)
      else CodeOf(repo[..|repo| - 1], ref)
  }

  lemma {:induction false} RoutinesHold(repo: seq<Item>, ref: string)
    ensures Lookup(RoutinesOf(repo), ref) == CodeOf(repo, ref)
  {
    if repo != [] {
      RoutinesHold(repo[..|repo| - 1], ref);
    }
  }

  lemma {:induction false} SetPropertyLaw(fields: seq<Field>, name: string, value: Json, other: string)
    ensures Property(SetProperty(fields, name, value), other) == if other == name then Some(value) else Property(fields, other)
  {
    if fields != [] && fields[0].name != name {
      SetPropertyLaw(fields[1..], name, value, other);
    }
  }

  function TextOf(v: Option<Json>): string {
    match v case Some(Str(s)) => s case _ => ""
  }

  /** A node for SQL code without SQL of its own gets the code of the routine it
      refers to, and no other property of any node changes. */
  lemma RoutineIsInlined(node: RunNode, repo: seq<Item>, name: string)
    ensures var ref := TextOf(Property(node.properties, "routineRef"));
            Property(Inlined(node, RoutinesOf(repo)), name)
            == if name == "sql" && (node.componentId == "code.sql" || node.componentId == "code.sqltemplate")
                  && ref != "" && Trim(TextOf(Property(node.properties, "sql"))) == "" && CodeOf(repo, ref).Some?
               then Some(Str(CodeOf(repo, ref).value))
               else Property(node.properties, name)
  {
    var ref := TextOf(Property(node.properties, "routineRef"));
    RoutinesHold(repo, ref);
    if ref in RoutinesOf(repo) {
      SetPropertyLaw(node.properties, "sql", Str(RoutinesOf(repo)[ref]), name);
    }
  }

  // Pipelines. --------------------------------------------------------------------------

  /** The id of the last pipeline with a reference as its id or its name. */
  function PipelineOf(repo: seq<Item>, ref: string): Option<string> {
    if repo == [] then None
    else
      var i := repo[|repo| - 1];
      if i.kind == PipelineItem && Named(i, ref) then Some(i.id) else PipelineOf(repo[..|repo| - 1], ref)
  }

  lemma {:induction false} PathsHold(repo: seq<Item>, workspacePath: string, ref: string)
    ensures Lookup(PathsOf(repo, workspacePath), ref)
            == match PipelineOf(repo, ref)
               case Some(id) => if workspacePath == "" then None else Some(PipelineFile(workspacePath, id))
               case None => None
  {
    if repo != [] {
      PathsHold(repo[..|repo| - 1], workspacePath, ref);
    }
  }

  predicate IsSlash(c: char) {
    c == '/' || c == '\\'
  }

  lemma {:induction false} SlashesDropped(dir: string) returns (cut: string)
    ensures dir == DropSlashes(dir) + cut && forall c :: c in cut ==> IsSlash(c)
    ensures DropSlashes(dir) != "" ==> !IsSlash(DropSlashes(dir)[|DropSlashes(dir)| - 1])
  {
    cut := "";
    if dir != "" && IsSlash(dir[|dir| - 1]) {
      cut := SlashesDropped(dir[..|dir| - 1]);
      Assoc(DropSlashes(dir[..|dir| - 1]), cut, [dir[|dir| - 1]]);
      assert dir == dir[..|dir| - 1] + [dir[|dir| - 1]];
      cut := cut + [dir[|dir| - 1]];
    }
  }

  /** The file of a pipeline: under the workspace, its trailing slashes aside, in the
      folder "pipelines"; with backslashes only where the workspace has no others. */
  lemma PipelineFileIs(workspacePath: string, id: string) returns (root: string, cut: string)
    ensures workspacePath == root + cut && (forall c :: c in cut ==> IsSlash(c))
    ensures root != "" ==> !IsSlash(root[|root| - 1])
    ensures '\\' in workspacePath && '/' !in workspacePath ==>
              PipelineFile(workspacePath, id) == root + "\\" + "pipelines" + "\\" + id + ".json"
    ensures '\\' !in workspacePath || '/' in workspacePath ==>
              PipelineFile(workspacePath, id) == root + "/" + "pipelines" + "/" + id + ".json"
  {
    root := DropSlashes(workspacePath);
    cut := SlashesDropped(workspacePath);
  }

  /** A property that refers to a pipeline holds the path of its file; every other
      property holds what the two passes made of it. */
  lemma ReferenceIsLocated(node: RunNode, vars: Vars, repo: seq<Item>, workspacePath: string, clock: Clock, k: nat)
    requires k < |Inlined(node, RoutinesOf(repo))|
    ensures var passed := TwoPasses(Inlined(node, RoutinesOf(repo)), vars, clock);
            var out := Resolved(node, vars, RoutinesOf(repo), PathsOf(repo, workspacePath), clock);
            out.id == node.id && out.componentId == node.componentId
            && |out.properties| == |passed| == |Inlined(node, RoutinesOf(repo))|
            && out.properties[k].name == Inlined(node, RoutinesOf(repo))[k].name
            && out.properties[k].value
               == if (out.properties[k].name == "pipelineRef" || out.properties[k].name == "iteratePipelineRef"
                      || out.properties[k].name == "foreachPipelineRef" || out.properties[k].name == "fallbackPipelineRef")
                     && passed[k].value.Str? && workspacePath != "" && PipelineOf(repo, passed[k].value.s).Some?
                  then Str(PipelineFile(workspacePath, PipelineOf(repo, passed[k].value.s).value))
                  else passed[k].value
  {
    var passed := TwoPasses(Inlined(node, RoutinesOf(repo)), vars, clock);
    TwoPassesNames(Inlined(node, RoutinesOf(repo)), vars, clock, k);
    if passed[k].value.Str? {
      PathsHold(repo, workspacePath, passed[k].value.s);
    }
  }

  // Values. -------------------------------------------------------------------------------

  /** What the two passes put in place of a placeholder with a value: the value, in
      which the second pass fills the builtins, with the text around it. */
  lemma ValueReachesPasses(fields: seq<Field>, vars: Vars, clock: Clock, path: seq<nat>, s: string, i: nat)
    requires RendersPlainly(clock)
    requires At(Obj(fields), path) == Some(Str(s))
    requires i < |Pieces(s)| && Pieces(s)[i].Placeholder? && Trim(Pieces(s)[i].expr) in vars
    ensures At(Obj(TwoPasses(fields, vars, clock)), path)
            == Some(Str(SubstituteString(SubstituteString(LeftText(s, i), vars, clock)
                                         + (vars[Trim(Pieces(s)[i].expr)] + SubstituteString(RightText(s, i), vars, clock)),
                                         map[], clock)))
  {
    TwoPassesAt(fields, vars, clock, path, s);
    PlaceholderBecomes(s, i, vars, clock);
  }

  /** A text that is one placeholder becomes its value as it is, if that holds no
      dollar sign; blanks around the name do not matter. */
  lemma WholeValueReachesPasses(fields: seq<Field>, vars: Vars, clock: Clock, path: seq<nat>, expr: string)
    requires RendersPlainly(clock) && IsExpr(expr)
    requires At(Obj(fields), path) == Some(Str("${" + expr + "}"))
    requires Trim(expr) in vars && '$' !in vars[Trim(expr)]
    ensures At(Obj(TwoPasses(fields, vars, clock)), path) == Some(Str(vars[Trim(expr)]))
  {
    var s, v := Token(expr), vars[Trim(expr)];
    assert s == Token(expr) + "";
    SubstituteToken(expr, "", vars, clock);
    assert SubstituteString(s, vars, clock) == v + "" == v;
    TwoPassesAt(fields, vars, clock, path, s);
    NoOpeningIsVerbatim(v, map[], clock);
  }

  /** So the value that a run is given for a name, typed values first, is what the
      node gets. */
  lemma GivenValueReachesRun(nodes: seq<RunNode>, repo: seq<Item>, workspacePath: string, extraVars: Vars, typed: Vars,
                             leaveForEngine: set<string>, clock: Clock, fields: seq<Field>, path: seq<nat>, expr: string)
    requires RendersPlainly(clock) && IsExpr(expr)
    requires At(Obj(fields), path) == Some(Str("${" + expr + "}"))
    requires var given := Given(Trim(expr), nodes, repo, workspacePath, extraVars, typed, leaveForEngine, clock);
             given.Some? && '$' !in given.value
    ensures var vars := RunVars(KnownVars(repo, workspacePath, extraVars, clock), typed, SetByRun(nodes), leaveForEngine);
            At(Obj(TwoPasses(fields, vars, clock)), path)
            == Some(Str(Given(Trim(expr), nodes, repo, workspacePath, extraVars, typed, leaveForEngine, clock).value))
  {
    var vars := RunVars(KnownVars(repo, workspacePath, extraVars, clock), typed, SetByRun(nodes), leaveForEngine);
    RunVarsAreGiven(nodes, repo, workspacePath, extraVars, typed, leaveForEngine, clock, Trim(expr));
    WholeValueReachesPasses(fields, vars, clock, path, expr);
  }

  // Who is asked. ---------------------------------------------------------------------------

  /** A name is asked for exactly when it is mentioned and nothing provides it. */
  lemma AskedExactly(nodes: seq<RunNode>, known: Vars, declared: set<string>, clock: Clock, key: string)
    ensures key in AskedIn(MentionedIn(nodes), known, SetByRun(nodes), declared, clock)
       <==> key in MentionedIn(nodes) && key != ""
            && !("ENV:" <= key) && !("VAULT:" <= key)
            && key != "workspace" && key != "projectroot" && Builtin(key, clock).None?
            && key !in known && key !in SetByRun(nodes) && key !in declared
  {
    if key in {"date", "time", "datetime", "timestamp", "now"} {
      PlainBuiltin(key, clock);
    }
    StartsIs(key, "ENV:");
    StartsIs(key, "VAULT:");
  }

  lemma StartsIs(s: string, prefix: string)
    ensures StartsWith(s, prefix) <==> prefix <= s
  {
  }

  lemma PlainBuiltin(key: string, clock: Clock)
    requires key in {"date", "time", "datetime", "timestamp", "now"}
    ensures Builtin(key, clock) == Some(clock.format(key, clock.now))
  {
    assert BASES[0] == "timestamp" && BASES[1] == "datetime" && BASES[2] == "date" && BASES[3] == "time" && BASES[4] == "now";
    assert key in BASES && key + "" == key;
    BuiltinMeans(key, "", clock);
  }
}
