/** Context variables: layers of contexts merged into one map, and the check
    that says when a variable is ambiguous. */
module Contexts {
  import opened Graph
  import opened Sorting
  import opened Repository

  predicate IsContext(i: Item) {
    i.kind == ContextItem && i.payload.ContextPayload? && i.payload.variables.Some?
  }

  function VariablesOf(i: Item): seq<Variable> {
    if IsContext(i) then i.payload.variables.value else []
  }

  function Priority(i: Item): int {
    if i.payload.ContextPayload? && i.payload.priority.Some? then i.payload.priority.value else 0
  }

  predicate ByPriority(a: Item, b: Item) {
    Priority(a) <= Priority(b)
  }

  function ContextsByLayer(repo: seq<Item>): seq<Item> {
    Sort(Filter(repo, IsContext), ByPriority)
  }

  // Merging. ---------------------------------------------------------------------

  function WriteVariables(out: Vars, name: string, variables: seq<Variable>): Vars {
    if variables == [] then out
    else
      var v := variables[|variables| - 1];
      WriteVariables(out, name, variables[..|variables| - 1])[v.key := v.value][name + "." + v.key := v.value]
  }

  function WriteContexts(contexts: seq<Item>): Vars {
    if contexts == [] then map[]
    else
      var c := contexts[|contexts| - 1];
      WriteVariables(WriteContexts(contexts[..|contexts| - 1]), c.name, VariablesOf(c))
  }

  method BuildContextVars(repo: seq<Item>) returns (out: Vars)
    ensures out == WriteContexts(ContextsByLayer(repo))
  {
    var contexts := ContextsByLayer(repo);
    out := map[];
    for i := 0 to |contexts|
      invariant out == WriteContexts(contexts[..i])
    {
      var item, variables := contexts[i], VariablesOf(contexts[i]);
      ghost var before := out;
      for j := 0 to |variables|
        invariant out == WriteVariables(before, item.name, variables[..j])
      {
        var v := variables[j];
        assert variables[..j + 1][..j] == variables[..j];
        out := out[v.key := v.value];
        out := out[item.name + "." + v.key := v.value];
      }
      assert variables[..|variables|] == variables && contexts[..i + 1][..i] == contexts[..i];
    }
    assert contexts[..|contexts|] == contexts;
  }

  // Which definition wins. ------------------------------------------------------------

  function Lookup(vars: Vars, key: string): Option<string> {
    if key in vars then Some(vars[key]) else None
  }

  /** The value that a context called `name` writes last under a key, which is
      one of its variables' keys or such a key behind the context's name. */
  function LastWrite(name: string, variables: seq<Variable>, key: string): Option<string> {
    if variables == [] then None
    else
      var v := variables[|variables| - 1];
      if name + "." + v.key == key || v.key == key then Some(v.value)
      else LastWrite(name, variables[..|variables| - 1], key)
  }

  function ValueIn(i: Item, key: string): Option<string> {
    LastWrite(i.name, VariablesOf(i), key)
  }

  predicate Writes(i: Item, key: string) {
    ValueIn(i, key).Some?
  }

  /** One scan over the repository, without sorting: the writer on the highest
      layer, and among those the one listed last. */
  function Winner(repo: seq<Item>, key: string): Option<Item> {
    if repo == [] then None
    else Outbid(Winner(repo[..|repo| - 1], key), repo[|repo| - 1], key)
  }

  function Outbid(best: Option<Item>, i: Item, key: string): Option<Item> {
    if Writes(i, key) && (best.None? || Priority(best.value) <= Priority(i)) then Some(i) else best
  }

  function LastWriter(contexts: seq<Item>, key: string): Option<Item> {
    if contexts == [] then None
    else if Writes(contexts[|contexts| - 1], key) then Some(contexts[|contexts| - 1])
    else LastWriter(contexts[..|contexts| - 1], key)
  }

  lemma {:induction false} WrittenVariables(out: Vars, name: string, variables: seq<Variable>, key: string)
    ensures Lookup(WriteVariables(out, name, variables), key)
            == if LastWrite(name, variables, key).Some? then LastWrite(name, variables, key) else Lookup(out, key)
  {
    if variables != [] {
      WrittenVariables(out, name, variables[..|variables| - 1], key);
    }
  }

  lemma {:induction false} WrittenContexts(contexts: seq<Item>, key: string)
    ensures Lookup(WriteContexts(contexts), key)
            == match LastWriter(contexts, key)
               case Some(c) => ValueIn(c, key)
               case None => None
  {
    if contexts != [] {
      var front, c := contexts[..|contexts| - 1], contexts[|contexts| - 1];
      WrittenContexts(front, key);
      WrittenVariables(WriteContexts(front), c.name, VariablesOf(c), key);
    }
  }

  lemma {:induction false} LastWriterIn(contexts: seq<Item>, key: string)
    ensures LastWriter(contexts, key).Some? ==> LastWriter(contexts, key).value in contexts
  {
    if contexts != [] {
      LastWriterIn(contexts[..|contexts| - 1], key);
    }
  }

  lemma {:induction false} InsertOutbids(sorted: seq<Item>, i: Item, key: string)
    requires Sorted(sorted, ByPriority)
    ensures LastWriter(Insert(sorted, i, ByPriority), key) == Outbid(LastWriter(sorted, key), i, key)
  {
    if sorted == [] || ByPriority(sorted[|sorted| - 1], i) {
      LastWriterIn(sorted, key);
      assert (sorted + [i])[..|sorted|] == sorted;
    } else {
      var front, last := sorted[..|sorted| - 1], sorted[|sorted| - 1];
      InsertOutbids(front, i, key);
      var r := Insert(front, i, ByPriority);
      assert (r + [last])[..|r|] == r;
    }
  }

  lemma {:induction false} SortingFindsWinner(repo: seq<Item>, key: string)
    ensures LastWriter(ContextsByLayer(repo), key) == Winner(repo, key)
  {
    if repo != [] {
      var front, last := repo[..|repo| - 1], repo[|repo| - 1];
      SortingFindsWinner(front, key);
      var contexts := Filter(front, IsContext);
      SortCorrect(contexts, ByPriority);
      InsertOutbids(Sort(contexts, ByPriority), last, key);
      assert (contexts + [last])[..|contexts|] == contexts;
    }
  }

  /** Every key, bare or behind the name of a context, has the value that the
      winner writes last. */
  lemma HighestLayerWins(repo: seq<Item>, key: string)
    ensures Lookup(WriteContexts(ContextsByLayer(repo)), key)
            == match Winner(repo, key)
               case Some(c) => ValueIn(c, key)
               case None => None
  {
    WrittenContexts(ContextsByLayer(repo), key);
    SortingFindsWinner(repo, key);
  }

  lemma {:induction false} LastWriteIsLast(name: string, variables: seq<Variable>, key: string, k: nat)
    requires k < |variables| && WritesAs(name, variables[k], key)
    requires forall m :: k < m < |variables| ==> !WritesAs(name, variables[m], key)
    ensures LastWrite(name, variables, key) == Some(variables[k].value)
  {
    if k < |variables| - 1 {
      LastWriteIsLast(name, variables[..|variables| - 1], key, k);
    }
  }

  predicate WritesAs(name: string, v: Variable, key: string) {
    v.key == key || name + "." + v.key == key
  }

  /** A context whose priority, 0 where it has none, is above that of every other one
      that writes a key settles the key: its last variable for the key counts. */
  lemma HigherPriorityWins(repo: seq<Item>, c: Item, variables: seq<Variable>, key: string, k: nat)
    requires c in repo && c.kind == ContextItem && c.payload.ContextPayload? && c.payload.variables == Some(variables)
    requires k < |variables| && WritesAs(c.name, variables[k], key)
    requires forall m :: k < m < |variables| ==> !WritesAs(c.name, variables[m], key)
    requires forall d :: d in repo && d != c && Writes(d, key) && d.payload.ContextPayload? ==>
               (if d.payload.priority == None then 0 else d.payload.priority.value)
               < (if c.payload.priority == None then 0 else c.payload.priority.value)
    ensures Lookup(WriteContexts(ContextsByLayer(repo)), key) == Some(variables[k].value)
  {
    LastWriteIsLast(c.name, variables, key, k);
    HighestLayerWins(repo, key);
    WinnerIsOnTop(repo, key);
    assert Writes(c, key);
  }

  /** Only contexts with variables write anything. */
  lemma WritersAreContexts(i: Item, key: string)
    ensures Writes(i, key) ==> i.kind == ContextItem && i.payload.ContextPayload? && i.payload.variables.Some?
  {
  }

  /** Contexts on one layer keep the order in which the repository lists them. */
  lemma LayersKeepOrder(repo: seq<Item>, layer: int)
    ensures Filter(ContextsByLayer(repo), (i: Item) => Priority(i) == layer)
            == Filter(Filter(repo, IsContext), (i: Item) => Priority(i) == layer)
  {
    SortStable(Filter(repo, IsContext), ByPriority, (i: Item) => Priority(i) == layer);
  }

  // Does the order of the repository matter? --------------------------------------------

  /** i writes the key, and nothing on a higher layer does. */
  ghost predicate OnTop(repo: seq<Item>, i: Item, key: string) {
    i in repo && Writes(i, key) && forall d :: d in repo && Writes(d, key) ==> Priority(d) <= Priority(i)
  }

  lemma {:induction false} WinnerIsOnTop(repo: seq<Item>, key: string)
    ensures match Winner(repo, key)
            case Some(w) => OnTop(repo, w, key)
            case None => forall d :: d in repo ==> !Writes(d, key)
  {
    if repo != [] {
      var front, last := repo[..|repo| - 1], repo[|repo| - 1];
      WinnerIsOnTop(front, key);
      assert repo == front + [last];
    }
  }

  lemma SameItems(r1: seq<Item>, r2: seq<Item>)
    requires multiset(r1) == multiset(r2)
    ensures forall i :: i in r1 <==> i in r2
  {
    forall i
      ensures i in r1 <==> i in r2
    {
      assert i in multiset(r1) <==> i in multiset(r2);
    }
  }

  /** All writers on the top layer agree on the value. */
  ghost predicate TopAgrees(repo: seq<Item>, key: string) {
    forall c, d :: OnTop(repo, c, key) && OnTop(repo, d, key) ==> ValueIn(c, key) == ValueIn(d, key)
  }

  ghost predicate OrderIrrelevant(repo: seq<Item>, key: string) {
    forall other: seq<Item> {:trigger multiset(other)} :: multiset(other) == multiset(repo) ==>
      Lookup(WriteContexts(ContextsByLayer(other)), key) == Lookup(WriteContexts(ContextsByLayer(repo)), key)
  }

  lemma AgreementSuffices(repo: seq<Item>, other: seq<Item>, key: string)
    requires TopAgrees(repo, key) && multiset(other) == multiset(repo)
    ensures Lookup(WriteContexts(ContextsByLayer(other)), key) == Lookup(WriteContexts(ContextsByLayer(repo)), key)
  {
    HighestLayerWins(repo, key);
    HighestLayerWins(other, key);
    WinnerIsOnTop(repo, key);
    WinnerIsOnTop(other, key);
    SameItems(repo, other);
    if Winner(other, key).Some? {
      assert OnTop(repo, Winner(other, key).value, key);
    }
  }

  /** Listing a top writer last makes it win. */
  lemma LastOnTopWins(repo: seq<Item>, i: Item, key: string) returns (other: seq<Item>)
    requires OnTop(repo, i, key)
    ensures multiset(other) == multiset(repo) && Winner(other, key) == Some(i)
  {
    var k :| 0 <= k < |repo| && repo[k] == i;
    var rest := repo[..k] + repo[k + 1..];
    other := rest + [i];
    assert repo == repo[..k] + [i] + repo[k + 1..];
    assert other[..|rest|] == rest;
    WinnerIsOnTop(rest, key);
  }

  /** The order of the repository does not matter for a key, bare or not, exactly
      when the contexts on its top layer agree on the value. */
  lemma OrderMattersIff(repo: seq<Item>, key: string)
    ensures OrderIrrelevant(repo, key) <==> TopAgrees(repo, key)
  {
    if TopAgrees(repo, key) {
      forall other: seq<Item> | multiset(other) == multiset(repo)
        ensures Lookup(WriteContexts(ContextsByLayer(other)), key) == Lookup(WriteContexts(ContextsByLayer(repo)), key)
      {
        AgreementSuffices(repo, other, key);
      }
    }
    if OrderIrrelevant(repo, key) {
      forall c, d | OnTop(repo, c, key) && OnTop(repo, d, key)
        ensures ValueIn(c, key) == ValueIn(d, key)
      {
        var rc := LastOnTopWins(repo, c, key);
        var rd := LastOnTopWins(repo, d, key);
        HighestLayerWins(rc, key);
        HighestLayerWins(rd, key);
      }
    }
  }

  // Bare keys and keys behind a name. ------------------------------------------------------

  /** The last value of the variable that is called just `key`. */
  function LastValue(variables: seq<Variable>, key: string): Option<string> {
    if variables == [] then None
    else if variables[|variables| - 1].key == key then Some(variables[|variables| - 1].value)
    else LastValue(variables[..|variables| - 1], key)
  }

  predicate Defines(i: Item, key: string) {
    LastValue(VariablesOf(i), key).Some?
  }

  /** Some variable of i is called `key` once the name of i stands before it. */
  ghost predicate Qualifies(i: Item, key: string) {
    exists v :: v in VariablesOf(i) && i.name + "." + v.key == key
  }

  lemma {:induction false} LastWriteSome(name: string, variables: seq<Variable>, key: string)
    ensures LastWrite(name, variables, key).Some?
       <==> exists v :: v in variables && (name + "." + v.key == key || v.key == key)
  {
    if variables != [] {
      LastWriteSome(name, variables[..|variables| - 1], key);
      assert variables == variables[..|variables| - 1] + [variables[|variables| - 1]];
    }
  }

  /** A context writes a key by defining it, or by qualifying a variable. */
  lemma WritesEitherWay(i: Item, key: string)
    ensures Writes(i, key) <==> Defines(i, key) || Qualifies(i, key)
  {
    LastWriteSome(i.name, VariablesOf(i), key);
    LastValueSome(VariablesOf(i), key);
  }

  lemma DottedIsOther(name: string, k: string, key: string)
    requires '.' !in key
    ensures name + "." + k != key
  {
    assert (name + "." + k)[|name|] == '.';
  }

  lemma {:induction false} BareWrite(name: string, variables: seq<Variable>, key: string)
    requires '.' !in key
    ensures LastWrite(name, variables, key) == LastValue(variables, key)
  {
    if variables != [] {
      BareWrite(name, variables[..|variables| - 1], key);
      DottedIsOther(name, variables[|variables| - 1].key, key);
    }
  }

  /** A bare key has the value of its definition on the highest layer, the last
      one listed, whatever the contexts are called. */
  lemma BareKeyIsDefined(repo: seq<Item>, key: string)
    requires '.' !in key
    ensures Lookup(WriteContexts(ContextsByLayer(repo)), key)
            == match Winner(repo, key)
               case Some(c) => LastValue(VariablesOf(c), key)
               case None => None
    ensures forall i :: Writes(i, key) <==> Defines(i, key)
  {
    HighestLayerWins(repo, key);
    forall i
      ensures Writes(i, key) <==> Defines(i, key)
    {
      BareWrite(i.name, VariablesOf(i), key);
    }
    if Winner(repo, key).Some? {
      BareWrite(Winner(repo, key).value.name, VariablesOf(Winner(repo, key).value), key);
    }
  }

  /** Contexts have names of their own, and neither names nor keys hold a dot. */
  ghost predicate PlainNames(repo: seq<Item>) {
    (forall c, d :: c in repo && d in repo && IsContext(c) && IsContext(d) && c.name == d.name ==> c == d)
    && (forall c :: c in repo && IsContext(c) ==> '.' !in c.name)
    && (forall c, v :: c in repo && v in VariablesOf(c) ==> '.' !in v.key)
  }

  lemma NamesCutApart(a: string, k: string, b: string, l: string)
    requires '.' !in b && |a| < |b|
    ensures a + "." + k != b + "." + l
  {
    assert (a + "." + k)[|a|] == '.' && (b + "." + l)[|a|] == b[|a|];
  }

  lemma SameAroundDot(a: string, k: string, b: string, l: string)
    requires '.' !in a && '.' !in b && a + "." + k == b + "." + l
    ensures a == b && k == l
  {
    if |a| < |b| {
      NamesCutApart(a, k, b, l);
    } else if |b| < |a| {
      NamesCutApart(b, l, a, k);
    } else {
      var s, t := a + "." + k, b + "." + l;
      assert s[..|a|] == a && t[..|b|] == b;
      assert s[|a| + 1..] == k && t[|b| + 1..] == l;
    }
  }

  lemma {:induction false} QualifiedWrite(name: string, variables: seq<Variable>, k: string)
    requires '.' !in name && forall v :: v in variables ==> '.' !in v.key
    ensures LastWrite(name, variables, name + "." + k) == LastValue(variables, k)
  {
    if variables != [] {
      var front, v := variables[..|variables| - 1], variables[|variables| - 1];
      assert v in variables;
      QualifiedWrite(name, front, k);
      assert (name + "." + k)[|name|] == '.';
      if name + "." + v.key == name + "." + k {
        SameAroundDot(name, v.key, name, k);
      }
    }
  }

  lemma OnlyItsOwn(c: Item, d: Item, k: string)
    requires '.' !in c.name && '.' !in d.name && d.name != c.name
    requires forall v :: v in VariablesOf(d) ==> '.' !in v.key
    ensures !Writes(d, c.name + "." + k)
  {
    var key := c.name + "." + k;
    LastWriteSome(d.name, VariablesOf(d), key);
    assert key[|c.name|] == '.';
    forall v | v in VariablesOf(d)
      ensures d.name + "." + v.key != key
    {
      if d.name + "." + v.key == key {
        SameAroundDot(d.name, v.key, c.name, k);
      }
    }
  }

  /** Where names are plain, a key behind the name of a context has the value that
      this context gives it, whatever the layers and the order. */
  lemma QualifiedKeyIsItsOwn(repo: seq<Item>, c: Item, k: string)
    requires PlainNames(repo) && c in repo && IsContext(c)
    ensures Lookup(WriteContexts(ContextsByLayer(repo)), c.name + "." + k) == LastValue(VariablesOf(c), k)
    ensures OrderIrrelevant(repo, c.name + "." + k)
  {
    var key := c.name + "." + k;
    QualifiedWrite(c.name, VariablesOf(c), k);
    forall d | d in repo && Writes(d, key)
      ensures d == c
    {
      if d.name != c.name {
        OnlyItsOwn(c, d, k);
      }
    }
    HighestLayerWins(repo, key);
    WinnerIsOnTop(repo, key);
    OrderMattersIff(repo, key);
  }

  // What the check reports. ----------------------------------------------------------------

  function AtLayer(repo: seq<Item>, key: string, layer: int): seq<Item> {
    Filter(repo, (i: Item) => Defines(i, key) && Priority(i) == layer)
  }

  function NamesOf(items: seq<Item>): seq<string> {
    seq(|items|, i requires 0 <= i < |items| => items[i].name)
  }

  function WithNew<T(==)>(xs: seq<T>, x: T): seq<T> {
    if x in xs then xs else xs + [x]
  }

  /** The keys of the variables, in the order of their first appearance. */
  function KeysAfter(keys: seq<string>, variables: seq<Variable>): seq<string> {
    if variables == [] then keys
    else WithNew(KeysAfter(keys, variables[..|variables| - 1]), variables[|variables| - 1].key)
  }

  function DefinedKeys(repo: seq<Item>): seq<string> {
    if repo == [] then [] else KeysAfter(DefinedKeys(repo[..|repo| - 1]), VariablesOf(repo[|repo| - 1]))
  }

  /** The layers on which a key is defined, in the order of their first appearance. */
  function LayersOf(repo: seq<Item>, key: string): seq<int> {
    if repo == [] then []
    else
      var front, i := LayersOf(repo[..|repo| - 1], key), repo[|repo| - 1];
      if Defines(i, key) then WithNew(front, Priority(i)) else front
  }

  type Entry = (string, seq<string>)

  function EntriesOf(repo: seq<Item>, key: string, layers: seq<int>): seq<Entry> {
    if layers == [] then []
    else
      var front, names := EntriesOf(repo, key, layers[..|layers| - 1]), NamesOf(AtLayer(repo, key, layers[|layers| - 1]));
      if |names| > 1 then front + [(key, names)] else front
  }

  function ReportOf(repo: seq<Item>, keys: seq<string>): seq<Entry> {
    if keys == [] then []
    else
      var key := keys[|keys| - 1];
      ReportOf(repo, keys[..|keys| - 1]) + EntriesOf(repo, key, LayersOf(repo, key))
  }

  // The nested maps that the check fills: in the order of insertion, the layers of
  // a key, and the names collected under a key and a layer.
  type Layers = map<string, seq<int>>
  type Names = map<(string, int), seq<string>>

  function LayersAt(layers: Layers, key: string): seq<int> {
    if key in layers then layers[key] else []
  }

  function NamesAt(names: Names, key: string, layer: int): seq<string> {
    if (key, layer) in names then names[(key, layer)] else []
  }

  /** The maps hold, for the items read, the layers and names of all definers, and
      for the item being read those of the keys seen so far. */
  ghost predicate CollectedFor(layers: Layers, names: Names, read: seq<Item>, current: Option<Item>, seen: set<string>, key: string) {
    && LayersAt(layers, key)
       == (if current.Some? && key in seen then WithNew(LayersOf(read, key), Priority(current.value)) else LayersOf(read, key))
    && forall layer ::
         NamesAt(names, key, layer)
         == NamesOf(AtLayer(read, key, layer))
            + (if current.Some? && key in seen && layer == Priority(current.value) then [current.value.name] else [])
  }

  ghost predicate CollectedFrom(layers: Layers, names: Names, read: seq<Item>, current: Option<Item>, seen: set<string>) {
    forall key {:trigger CollectedFor(layers, names, read, current, seen, key)} ::
      CollectedFor(layers, names, read, current, seen, key)
  }

  lemma SeenAll(layers: Layers, names: Names, read: seq<Item>, i: Item, seen: set<string>)
    requires CollectedFrom(layers, names, read, Some(i), seen)
    requires forall key :: key in seen <==> Defines(i, key)
    ensures CollectedFrom(layers, names, read + [i], None, {})
  {
    forall key
      ensures CollectedFor(layers, names, read + [i], None, {}, key)
    {
      assert CollectedFor(layers, names, read, Some(i), seen, key);
      assert (read + [i])[..|read|] == read;
      forall layer
        ensures NamesAt(names, key, layer) == NamesOf(AtLayer(read + [i], key, layer))
      {
        NamesNext(read, i, key, layer);
      }
    }
  }

  lemma NamesNext(read: seq<Item>, i: Item, key: string, layer: int)
    ensures NamesOf(AtLayer(read + [i], key, layer))
            == NamesOf(AtLayer(read, key, layer)) + if Defines(i, key) && Priority(i) == layer then [i.name] else []
  {
    assert (read + [i])[..|read|] == read;
  }

  lemma SeenOne(layers: Layers, names: Names, read: seq<Item>, i: Item, seen: set<string>, key: string)
    requires CollectedFrom(layers, names, read, Some(i), seen) && key !in seen
    ensures CollectedFrom(layers[key := WithNew(LayersAt(layers, key), Priority(i))],
                          names[(key, Priority(i)) := NamesAt(names, key, Priority(i)) + [i.name]],
                          read, Some(i), seen + {key})
  {
    var layers' := layers[key := WithNew(LayersAt(layers, key), Priority(i))];
    var names' := names[(key, Priority(i)) := NamesAt(names, key, Priority(i)) + [i.name]];
    forall k
      ensures CollectedFor(layers', names', read, Some(i), seen + {key}, k)
    {
      assert CollectedFor(layers, names, read, Some(i), seen, k);
    }
  }

  lemma {:induction false} LastValueSome(variables: seq<Variable>, key: string)
    ensures LastValue(variables, key).Some? <==> exists v :: v in variables && v.key == key
  {
    if variables != [] {
      LastValueSome(variables[..|variables| - 1], key);
      assert variables == variables[..|variables| - 1] + [variables[|variables| - 1]];
    }
  }

  /** One entry for each key and layer where several contexts compete, with the
      names of all that do, keys and layers in the order of their first definition. */
  method ContextKeyCollisions(repo: seq<Item>) returns (out: seq<Entry>)
    ensures out == ReportOf(repo, DefinedKeys(repo))
  {
    var keys, layers, names := CollectAll(repo);
    out := [];
    for i := 0 to |keys|
      invariant out == ReportOf(repo, keys[..i])
    {
      assert keys[..i + 1][..i] == keys[..i];
      assert CollectedFor(layers, names, repo, None, {}, keys[i]);
      var entries := ReportKey(repo, keys[i], LayersAt(layers, keys[i]), names);
      out := out + entries;
    }
    assert keys[..|keys|] == keys;
  }

  method CollectAll(repo: seq<Item>) returns (keys: seq<string>, layers: Layers, names: Names)
    ensures keys == DefinedKeys(repo)
    ensures CollectedFrom(layers, names, repo, None, {})
  {
    keys, layers, names := [], map[], map[];
    for i := 0 to |repo|
      invariant keys == DefinedKeys(repo[..i])
      invariant CollectedFrom(layers, names, repo[..i], None, {})
    {
      keys, layers, names := CollectFrom(keys, layers, names, repo[..i], repo[i]);
      assert repo[..i + 1] == repo[..i] + [repo[i]];
      assert repo[..i + 1][..i] == repo[..i];
    }
    assert repo[..|repo|] == repo;
  }

  method ReportKey(ghost repo: seq<Item>, key: string, layers: seq<int>, names: Names) returns (entries: seq<Entry>)
    requires forall layer :: NamesAt(names, key, layer) == NamesOf(AtLayer(repo, key, layer))
    ensures entries == EntriesOf(repo, key, layers)
  {
    entries := [];
    for j := 0 to |layers|
      invariant entries == EntriesOf(repo, key, layers[..j])
    {
      assert layers[..j + 1][..j] == layers[..j];
      var contexts := NamesAt(names, key, layers[j]);
      if |contexts| > 1 {
        entries := entries + [(key, contexts)];
      }
    }
    assert layers[..|layers|] == layers;
  }

  method CollectFrom(keys0: seq<string>, layers0: Layers, names0: Names, ghost read: seq<Item>, item: Item)
    returns (keys: seq<string>, layers: Layers, names: Names)
    requires CollectedFrom(layers0, names0, read, None, {})
    ensures keys == KeysAfter(keys0, VariablesOf(item))
    ensures CollectedFrom(layers, names, read + [item], None, {})
  {
    keys, layers, names := keys0, layers0, names0;
    var variables := VariablesOf(item);
    var seen: set<string> := {};
    NothingSeen(layers, names, read, item);
    for j := 0 to |variables|
      invariant keys == KeysAfter(keys0, variables[..j])
      invariant CollectedFrom(layers, names, read, Some(item), seen)
      invariant forall k :: k in seen <==> exists v :: v in variables[..j] && v.key == k
      invariant forall k :: k in seen ==> k in keys
    {
      var v := variables[j];
      assert variables[..j + 1] == variables[..j] + [v];
      assert variables[..j + 1][..j] == variables[..j];
      if v.key !in seen {
        SeenOne(layers, names, read, item, seen, v.key);
        seen := seen + {v.key};
        keys := WithNew(keys, v.key);
        layers := layers[v.key := WithNew(LayersAt(layers, v.key), Priority(item))];
        names := names[(v.key, Priority(item)) := NamesAt(names, v.key, Priority(item)) + [item.name]];
      }
    }
    assert variables[..|variables|] == variables;
    forall k
      ensures k in seen <==> Defines(item, k)
    {
      LastValueSome(variables, k);
    }
    SeenAll(layers, names, read, item, seen);
  }

  lemma NothingSeen(layers: Layers, names: Names, read: seq<Item>, item: Item)
    requires CollectedFrom(layers, names, read, None, {})
    ensures CollectedFrom(layers, names, read, Some(item), {})
  {
    forall key
      ensures CollectedFor(layers, names, read, Some(item), {}, key)
    {
      assert CollectedFor(layers, names, read, None, {}, key);
    }
  }

  lemma {:induction false} KeysAfterMembers(keys: seq<string>, variables: seq<Variable>, key: string)
    requires NoneTwice(keys)
    ensures key in KeysAfter(keys, variables) <==> key in keys || exists v :: v in variables && v.key == key
    ensures NoneTwice(KeysAfter(keys, variables))
  {
    if variables != [] {
      KeysAfterMembers(keys, variables[..|variables| - 1], key);
      assert variables == variables[..|variables| - 1] + [variables[|variables| - 1]];
    }
  }

  lemma {:induction false} DefinedKeysMembers(repo: seq<Item>, key: string)
    ensures key in DefinedKeys(repo) <==> exists i :: i in repo && Defines(i, key)
    ensures NoneTwice(DefinedKeys(repo))
  {
    if repo != [] {
      var front, last := repo[..|repo| - 1], repo[|repo| - 1];
      DefinedKeysMembers(front, key);
      KeysAfterMembers(DefinedKeys(front), VariablesOf(last), key);
      LastValueSome(VariablesOf(last), key);
      assert forall i :: i in repo <==> i in front || i == last;
      assert key in DefinedKeys(repo) <==> key in DefinedKeys(front) || Defines(last, key);
    }
  }

  lemma {:induction false} LayersOfMembers(repo: seq<Item>, key: string, layer: int)
    ensures layer in LayersOf(repo, key) <==> exists i :: i in repo && Defines(i, key) && Priority(i) == layer
    ensures NoneTwice(LayersOf(repo, key))
  {
    if repo != [] {
      var front, last := repo[..|repo| - 1], repo[|repo| - 1];
      LayersOfMembers(front, key, layer);
      assert repo == front + [last];
    }
  }

  lemma {:induction false} EntriesMembers(repo: seq<Item>, key: string, layers: seq<int>, k: string, names: seq<string>)
    ensures (k, names) in EntriesOf(repo, key, layers)
       <==> k == key && |names| > 1 && exists layer :: layer in layers && names == NamesOf(AtLayer(repo, key, layer))
  {
    if layers != [] {
      EntriesMembers(repo, key, layers[..|layers| - 1], k, names);
      assert layers == layers[..|layers| - 1] + [layers[|layers| - 1]];
    }
  }

  lemma {:induction false} ReportMembers(repo: seq<Item>, keys: seq<string>, key: string, names: seq<string>)
    ensures (key, names) in ReportOf(repo, keys)
       <==> key in keys && |names| > 1
            && exists layer :: layer in LayersOf(repo, key) && names == NamesOf(AtLayer(repo, key, layer))
  {
    if keys != [] {
      var last := keys[|keys| - 1];
      ReportMembers(repo, keys[..|keys| - 1], key, names);
      EntriesMembers(repo, last, LayersOf(repo, last), key, names);
      assert keys == keys[..|keys| - 1] + [last];
    }
  }

  /** What is reported is exactly where several definers share a layer, each such
      key and layer once. */
  lemma ReportIsExact(repo: seq<Item>, key: string, names: seq<string>)
    ensures (key, names) in ReportOf(repo, DefinedKeys(repo))
       <==> exists layer :: names == NamesOf(AtLayer(repo, key, layer)) && |AtLayer(repo, key, layer)| > 1
    ensures NoneTwice(DefinedKeys(repo)) && NoneTwice(LayersOf(repo, key))
  {
    ReportMembers(repo, DefinedKeys(repo), key, names);
    DefinedKeysMembers(repo, key);
    LayersOfMembers(repo, key, 0);
    forall layer | |AtLayer(repo, key, layer)| > 1
      ensures key in DefinedKeys(repo) && layer in LayersOf(repo, key)
    {
      var level := AtLayer(repo, key, layer);
      FilterMembers(repo, (i: Item) => Defines(i, key) && Priority(i) == layer);
      assert level[0] in repo && Defines(level[0], key) && Priority(level[0]) == layer;
      LayersOfMembers(repo, key, layer);
    }
  }

  ghost predicate Reported(repo: seq<Item>, key: string) {
    exists layer :: |AtLayer(repo, key, layer)| > 1
  }

  /** Two contexts on the top layer of a key disagree, and the second writes it
      only behind its own name. */
  ghost predicate ClashesByName(repo: seq<Item>, key: string) {
    exists c, d :: OnTop(repo, c, key) && OnTop(repo, d, key) && ValueIn(c, key) != ValueIn(d, key)
                   && !Defines(d, key) && Qualifies(d, key)
  }

  lemma OneDefinerALayer(repo: seq<Item>, key: string, c: Item, d: Item)
    requires !Reported(repo, key) && c in repo && d in repo && Priority(c) == Priority(d)
    requires Defines(c, key) && Defines(d, key)
    ensures c == d
  {
    var level := AtLayer(repo, key, Priority(c));
    FilterMembers(repo, (i: Item) => Defines(i, key) && Priority(i) == Priority(c));
    assert c in level && d in level && |level| <= 1;
  }

  /** A key that is not reported is ambiguous all the same exactly when a context
      on its top layer writes it behind its own name, and another on that layer
      gives it another value. */
  lemma UnreportedAmbiguousIff(repo: seq<Item>, key: string)
    requires !Reported(repo, key)
    ensures !OrderIrrelevant(repo, key) <==> ClashesByName(repo, key)
  {
    OrderMattersIff(repo, key);
    forall c, d | OnTop(repo, c, key) && OnTop(repo, d, key) && ValueIn(c, key) != ValueIn(d, key)
      ensures ClashesByName(repo, key)
    {
      WritesEitherWay(c, key);
      WritesEitherWay(d, key);
      if Defines(c, key) && Defines(d, key) {
        OneDefinerALayer(repo, key, c, d);
      } else if Defines(d, key) {
        assert OnTop(repo, d, key) && !Defines(c, key) && Qualifies(c, key);
      }
    }
  }

  /** A bare key that is not reported means the same in every order. */
  lemma UnreportedIsUnambiguous(repo: seq<Item>, key: string)
    requires '.' !in key && !Reported(repo, key)
    ensures OrderIrrelevant(repo, key)
  {
    UnreportedAmbiguousIff(repo, key);
    forall d
      ensures !Qualifies(d, key)
    {
      forall v | v in VariablesOf(d)
        ensures d.name + "." + v.key != key
      {
        DottedIsOther(d.name, v.key, key);
      }
    }
  }

  /** A key with a dot can be ambiguous without being reported: it may name a
      variable of its own, or a variable of a named context. */
  lemma DottedKeyIsNotCovered(a: Item, b: Item)
    requires a == Item("c1", "a", ContextItem, ContextPayload(Some([Variable("b", "1")]), None))
    requires b == Item("c2", "x", ContextItem, ContextPayload(Some([Variable("a.b", "2")]), None))
    ensures !Reported([a, b], "a.b") && !OrderIrrelevant([a, b], "a.b")
  {
    var va, vb := [Variable("b", "1")], [Variable("a.b", "2")];
    assert va[..0] == [] && vb[..0] == [];
    assert LastValue(va, "a.b") == None && VariablesOf(a) == va;
    assert "a" + "." + "b" == "a.b" && va[0] in VariablesOf(a);
    assert Qualifies(a, "a.b") && !Defines(a, "a.b");
    forall layer
      ensures |AtLayer([a, b], "a.b", layer)| <= 1
    {
      AtLayerOfTwo(a, b, "a.b", layer);
    }
    assert ValueIn(a, "a.b") == Some("1") && ValueIn(b, "a.b") == Some("2");
    assert OnTop([a, b], b, "a.b") && OnTop([a, b], a, "a.b");
    UnreportedAmbiguousIff([a, b], "a.b");
  }

  lemma AtLayerOfTwo(a: Item, b: Item, key: string, layer: int)
    requires !Defines(a, key)
    ensures |AtLayer([a, b], key, layer)| <= 1
  {
    var keep := (i: Item) => Defines(i, key) && Priority(i) == layer;
    assert [a, b][..1] == [a] && [a][..0] == [];
    assert Filter([a], keep) == [];
  }
}
