/** Resolving the nodes of a pipeline for a run, and asking beforehand for the
    values the run will need. */
module RunResolve {
  import opened Graph
  import opened Sorting
  import opened Repository
  import opened Contexts
  import opened TimeBuiltins
  import opened Placeholders
  import opened RunValues

  /** A node as a run sees it; the field names of its properties differ. */
  datatype RunNode = RunNode(id: string, componentId: string, properties: seq<Field>)

  function Property(fields: seq<Field>, name: string): Option<Json> {
    if fields == [] then None
    else if fields[0].name == name then Some(fields[0].value)
    else Property(fields[1..], name)
  }

  function SetProperty(fields: seq<Field>, name: string, value: Json): seq<Field> {
    if fields == [] then [Field(name, value)]
    else if fields[0].name == name then [Field(name, value)] + fields[1..]
    else [fields[0]] + SetProperty(fields[1..], name, value)
  }

  function TextProperty(fields: seq<Field>, name: string): string {
    match Property(fields, name)
    case Some(Str(s)) => s
    case _ => ""
  }

  // The names the run itself sets. -----------------------------------------------------

  function SetByNode(node: RunNode): set<string> {
    var name := Trim(TextProperty(node.properties, "name"));
    if node.componentId == "ctl.setvar" && name != "" then {name} else {}
  }

  function SetByRun(nodes: seq<RunNode>): set<string> {
    if nodes == [] then {} else SetByRun(nodes[..|nodes| - 1]) + SetByNode(nodes[|nodes| - 1])
  }

  /** A name is set by the run exactly when some setvar node carries it, blanks
      around it aside. */
  lemma {:induction false} SetByRunIff(nodes: seq<RunNode>, name: string)
    ensures name in SetByRun(nodes) <==>
              name != "" && exists n :: n in nodes && n.componentId == "ctl.setvar" && Trim(TextProperty(n.properties, "name")) == name
  {
    if nodes != [] {
      SetByRunIff(nodes[..|nodes| - 1], name);
      assert nodes == nodes[..|nodes| - 1] + [nodes[|nodes| - 1]];
    }
  }

  method RunVarNames(nodes: seq<RunNode>) returns (names: set<string>)
    ensures names == SetByRun(nodes)
    ensures forall name :: name in names <==>
              name != "" && exists n :: n in nodes && n.componentId == "ctl.setvar" && Trim(TextProperty(n.properties, "name")) == name
  {
    names := {};
    for i := 0 to |nodes|
      invariant names == SetByRun(nodes[..i])
    {
      assert nodes[..i + 1][..i] == nodes[..i];
      names := names + SetByNode(nodes[i]);
    }
    assert nodes[..|nodes|] == nodes;
    forall name {
      SetByRunIff(nodes, name);
    }
  }

  // The variables of a run. --------------------------------------------------------------

  function ForwardSlashes(path: string): (r: string)
    ensures |r| == |path| && '\\' !in r
    ensures forall i :: 0 <= i < |path| && path[i] != '\\' ==> r[i] == path[i]
    ensures forall i :: 0 <= i < |path| && path[i] == '\\' ==> r[i] == '/'
  {
    seq(|path|, i requires 0 <= i < |path| => if path[i] == '\\' then '/' else path[i])
  }

  function BuiltinVars(workspacePath: string, clock: Clock): Vars {
    var times: Vars := map b | b in BASES :: clock.format(b, clock.now);
    if workspacePath == "" then times
    else times["workspace" := ForwardSlashes(workspacePath)]["projectroot" := ForwardSlashes(workspacePath)]
  }

  /** Everything known before anyone is asked. */
  function KnownVars(repo: seq<Item>, workspacePath: string, extraVars: Vars, clock: Clock): Vars {
    BuiltinVars(workspacePath, clock) + WriteContexts(ContextsByLayer(repo)) + extraVars
  }

  /** The variables of the first pass: typed values win, and the names that the
      run or the engine fills in are left out. */
  function RunVars(known: Vars, typed: Vars, setByRun: set<string>, leaveForEngine: set<string>): Vars {
    (known + typed) - setByRun - leaveForEngine
  }

  /** What a run has under a name: nothing where the run or the engine fills it in;
      else the typed value; else the run's extra value; else what the contexts say;
      else the root of the workspace, or the builtin. */
  function Given(key: string, nodes: seq<RunNode>, repo: seq<Item>, workspacePath: string, extraVars: Vars, typed: Vars,
                 leaveForEngine: set<string>, clock: Clock): Option<string>
  {
    if key in SetByRun(nodes) || key in leaveForEngine then None
    else if key in typed then Some(typed[key])
    else if key in extraVars then Some(extraVars[key])
    else match Winner(repo, key)
      case Some(c) => ValueIn(c, key)
      case None =>
        if workspacePath != "" && (key == "workspace" || key == "projectroot") then Some(ForwardSlashes(workspacePath))
        else if key in ["timestamp", "datetime", "date", "time", "now"] then Some(clock.format(key, clock.now))
        else None
  }

  lemma ContextLookup(repo: seq<Item>, key: string)
    ensures key in WriteContexts(ContextsByLayer(repo)) <==> Winner(repo, key).Some?
    ensures Winner(repo, key).Some? ==> Some(WriteContexts(ContextsByLayer(repo))[key]) == ValueIn(Winner(repo, key).value, key)
  {
    HighestLayerWins(repo, key);
    WinnerIsOnTop(repo, key);
  }

  lemma BuiltinLookup(workspacePath: string, clock: Clock, key: string)
    ensures Lookup(BuiltinVars(workspacePath, clock), key)
            == if workspacePath != "" && (key == "workspace" || key == "projectroot") then Some(ForwardSlashes(workspacePath))
               else if key in ["timestamp", "datetime", "date", "time", "now"] then Some(clock.format(key, clock.now))
               else None
  {
  }

  /** The variables of a run hold exactly what is given, in that order of precedence. */
  lemma RunVarsAreGiven(nodes: seq<RunNode>, repo: seq<Item>, workspacePath: string, extraVars: Vars, typed: Vars,
                        leaveForEngine: set<string>, clock: Clock, key: string)
    ensures Lookup(RunVars(KnownVars(repo, workspacePath, extraVars, clock), typed, SetByRun(nodes), leaveForEngine), key)
            == Given(key, nodes, repo, workspacePath, extraVars, typed, leaveForEngine, clock)
  {
    ContextLookup(repo, key);
    BuiltinLookup(workspacePath, clock, key);
  }

  // Asking for values. ---------------------------------------------------------------------

  const PARAM_BUILTINS: set<string> := {"date", "time", "datetime", "timestamp", "now", "workspace", "projectroot"}

  predicate IsSecret(key: string) {
    StartsWith(key, "ENV:") || StartsWith(key, "VAULT:")
  }

  predicate IsAskedFor(key: string, known: Vars, setByRun: set<string>, declared: set<string>, clock: Clock) {
    && key != "" && !IsSecret(key)
    && key !in PARAM_BUILTINS && Builtin(key, clock) == None
    && key !in known && key !in setByRun && key !in declared
  }

  predicate Before(a: string, b: string) {
    a == "" || (b != "" && (a[0] < b[0] || (a[0] == b[0] && Before(a[1..], b[1..]))))
  }

  lemma {:induction false} BeforeTotal(a: string, b: string)
    ensures Before(a, b) || Before(b, a)
  {
    if a != "" && b != "" {
      BeforeTotal(a[1..], b[1..]);
    }
  }

  lemma {:induction false} BeforeTransitive(a: string, b: string, c: string)
    requires Before(a, b) && Before(b, c)
    ensures Before(a, c)
  {
    if a != "" && b != "" && c != "" && a[0] == b[0] == c[0] {
      BeforeTransitive(a[1..], b[1..], c[1..]);
    }
  }

  /** Before is the order of dictionaries: a prefix first, else the smaller
      character where the two part. */
  lemma {:induction false} BeforeParts(a: string, b: string)
    ensures Before(a, b) <==>
              a <= b || exists k :: 0 <= k < |a| && k < |b| && a[..k] == b[..k] && a[k] < b[k]
  {
    if a != "" && b != "" {
      BeforeParts(a[1..], b[1..]);
      if a[0] == b[0] {
        assert a <= b <==> a[1..] <= b[1..];
        forall k | 0 <= k < |a| - 1 && k < |b| - 1
          ensures a[1..][..k] == b[1..][..k] <==> a[..k + 1] == b[..k + 1]
        {
          assert a[..k + 1] == [a[0]] + a[1..][..k] && b[..k + 1] == [b[0]] + b[1..][..k];
        }
        if k :| 0 <= k < |a| && k < |b| && a[..k] == b[..k] && a[k] < b[k] {
          assert a[1..][..k - 1] == b[1..][..k - 1] && a[1..][k - 1] < b[1..][k - 1];
        }
        if k :| 0 <= k < |a[1..]| && k < |b[1..]| && a[1..][..k] == b[1..][..k] && a[1..][k] < b[1..][k] {
          assert a[..k + 1] == b[..k + 1] && a[k + 1] < b[k + 1];
        }
      } else {
        if a[0] < b[0] {
          assert a[..0] == b[..0];
        }
        forall k | 0 < k < |a| && k < |b|
          ensures a[..k] != b[..k]
        {
          assert a[..k][0] != b[..k][0];
        }
      }
    }
  }

  lemma BeforeOrders()
    ensures TotalPreorder(Before)
  {
    forall a, b
      ensures Before(a, b) || Before(b, a)
    {
      BeforeTotal(a, b);
    }
    forall a, b, c | Before(a, b) && Before(b, c)
      ensures Before(a, c)
    {
      BeforeTransitive(a, b, c);
    }
  }

  /** A Set in the order of insertion: no element twice. */
  ghost function Members(found: seq<string>): set<string> {
    set k | k in found
  }

  ghost function AskedIn(keys: set<string>, known: Vars, setByRun: set<string>, declared: set<string>, clock: Clock): set<string> {
    set k | k in keys && IsAskedFor(k, known, setByRun, declared, clock)
  }

  method ScanText(s: string, known: Vars, setByRun: set<string>, declared: set<string>, clock: Clock, found0: seq<string>)
    returns (found: seq<string>)
    requires NoneTwice(found0)
    ensures NoneTwice(found)
    ensures Members(found) == Members(found0) + AskedIn(KeysOf(s), known, setByRun, declared, clock)
  {
    found := found0;
    var ps := Pieces(s);
    for i := 0 to |ps|
      invariant NoneTwice(found)
      invariant Members(found) == Members(found0) + AskedIn(PieceKeys(ps[..i]), known, setByRun, declared, clock)
    {
      assert ps[..i + 1][..i] == ps[..i];
      if ps[i].Placeholder? {
        var key := Trim(ps[i].expr);
        if IsAskedFor(key, known, setByRun, declared, clock) {
          found := AddTo(found, key);
        }
      }
    }
    assert ps[..|ps|] == ps;
  }

  /** Set.add */
  function AddTo(found: seq<string>, key: string): (r: seq<string>)
    ensures Members(r) == Members(found) + {key}
    ensures NoneTwice(found) ==> NoneTwice(r)
  {
    if key in found then found else found + [key]
  }

  /** The scan goes through a value to any depth. */
  method Scan(v: Json, known: Vars, setByRun: set<string>, declared: set<string>, clock: Clock, found0: seq<string>)
    returns (found: seq<string>)
    requires NoneTwice(found0)
    ensures NoneTwice(found)
    ensures Members(found) == Members(found0) + AskedIn(Mentions(v), known, setByRun, declared, clock)
    decreases v
  {
    match v {
      case Str(s) => found := ScanText(s, known, setByRun, declared, clock, found0);
      case Arr(items) => found := ScanItems(items, known, setByRun, declared, clock, found0);
      case Obj(fields) => found := ScanFields(fields, known, setByRun, declared, clock, found0);
      case _ => found := found0;
    }
  }

  method ScanItems(items: seq<Json>, known: Vars, setByRun: set<string>, declared: set<string>, clock: Clock, found0: seq<string>)
    returns (found: seq<string>)
    requires NoneTwice(found0)
    ensures NoneTwice(found)
    ensures Members(found) == Members(found0) + AskedIn(ItemMentions(items), known, setByRun, declared, clock)
    decreases items
  {
    if items == [] {
      return found0;
    }
    found := Scan(items[0], known, setByRun, declared, clock, found0);
    found := ScanItems(items[1..], known, setByRun, declared, clock, found);
  }

  method ScanFields(fields: seq<Field>, known: Vars, setByRun: set<string>, declared: set<string>, clock: Clock, found0: seq<string>)
    returns (found: seq<string>)
    requires NoneTwice(found0)
    ensures NoneTwice(found)
    ensures Members(found) == Members(found0) + AskedIn(FieldMentions(fields), known, setByRun, declared, clock)
    decreases fields
  {
    if fields == [] {
      return found0;
    }
    found := Scan(fields[0].value, known, setByRun, declared, clock, found0);
    found := ScanFields(fields[1..], known, setByRun, declared, clock, found);
  }

  function MentionedIn(nodes: seq<RunNode>): set<string> {
    if nodes == [] then {}
    else MentionedIn(nodes[..|nodes| - 1]) + FieldMentions(nodes[|nodes| - 1].properties)
  }

  /** The names to ask for, in order, each once. */
  method DiscoverParams(nodes: seq<RunNode>, known: Vars, declared: set<string>, clock: Clock) returns (names: seq<string>)
    ensures Sorted(names, Before) && NoneTwice(names)
    ensures Members(names) == AskedIn(MentionedIn(nodes), known, SetByRun(nodes), declared, clock)
  {
    var setByRun := RunVarNames(nodes);
    var found: seq<string> := [];
    for i := 0 to |nodes|
      invariant NoneTwice(found)
      invariant Members(found) == AskedIn(MentionedIn(nodes[..i]), known, setByRun, declared, clock)
    {
      assert nodes[..i + 1][..i] == nodes[..i];
      found := ScanFields(nodes[i].properties, known, setByRun, declared, clock, found);
    }
    assert nodes[..|nodes|] == nodes;
    names := Sort(found, Before);
    BeforeOrders();
    SortCorrect(found, Before);
    SamePermuted(found, names);
  }

  lemma SamePermuted(a: seq<string>, b: seq<string>)
    requires multiset(a) == multiset(b) && NoneTwice(a)
    ensures NoneTwice(b) && Members(a) == Members(b)
  {
    forall x
      ensures x in a <==> x in b
    {
      assert x in multiset(a) <==> x in multiset(b);
    }
    forall i, j | 0 <= i < j < |b|
      ensures b[i] != b[j]
    {
      if b[i] == b[j] {
        assert b == b[..i] + [b[i]] + b[i + 1..j] + [b[j]] + b[j + 1..];
        assert multiset(b)[b[i]] >= 2;
        OnceEach(a, b[i]);
      }
    }
  }

  lemma {:induction false} OnceEach(a: seq<string>, x: string)
    requires NoneTwice(a)
    ensures multiset(a)[x] <= 1
  {
    if a != [] {
      var front := a[..|a| - 1];
      OnceEach(front, x);
      assert a == front + [a[|a| - 1]];
      if x in front {
        var i :| 0 <= i < |front| && front[i] == x;
        assert a[i] != a[|a| - 1];
      }
    }
  }
}
