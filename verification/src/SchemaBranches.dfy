/** What each component makes of its inputs, branch by branch. */
module SchemaBranches {
  import opened Graph
  import opened Pipeline
  import opened Sorting
  import opened SchemaRules
  import opened SchemaResolve
  import opened SchemaColumns

  // Parts of the input. ---------------------------------------------------------------

  /** r holds, in their order, exactly the columns of up whose name is listed, or
      exactly those whose name is not; `at` has their places. */
  ghost predicate Sifts(up: seq<Column>, r: seq<Column>, at: seq<nat>, names: seq<string>, listed: bool) {
    |at| == |r|
    && (forall k :: 0 <= k < |at| ==> at[k] < |up| && r[k] == up[at[k]])
    && (forall j, k :: 0 <= j < k < |at| ==> at[j] < at[k])
    && (forall i :: 0 <= i < |up| ==> (i in at <==> (up[i].name in names) == listed))
  }

  lemma ListedSift(up: seq<Column>, names: seq<string>) returns (at: seq<nat>)
    ensures Sifts(up, Filter(up, NamedIn(names)), at, names, true)
  {
    at := FilterOrder(up, NamedIn(names));
  }

  lemma UnlistedSift(up: seq<Column>, names: seq<string>) returns (at: seq<nat>)
    ensures Sifts(up, Filter(up, NotNamedIn(names)), at, names, false)
  {
    at := FilterOrder(up, NotNamedIn(names));
  }

  ghost predicate HasColumn(cols: seq<Column>, name: string) {
    exists i :: 0 <= i < |cols| && cols[i].name == name
  }

  /** A new column goes to the end, unless its name is taken. */
  ghost predicate Appended(cols: seq<Column>, c: Column, r: seq<Column>) {
    if HasColumn(cols, c.name) then r == cols else r == cols + [c]
  }

  lemma Appends(cols: seq<Column>, c: Column)
    ensures Appended(cols, c, AppendUnlessNamed(cols, c))
    ensures HasColumn(AppendUnlessNamed(cols, c), c.name)
  {
    if c.name in Names(cols) {
      var x :| x in cols && x.name == c.name;
      var i :| 0 <= i < |cols| && cols[i] == x;
      assert HasColumn(cols, c.name);
    } else {
      assert !HasColumn(cols, c.name);
      assert (cols + [c])[|cols|].name == c.name;
    }
  }

  // Nodes with a schema of their own. ----------------------------------------------------

  lemma OwnSchemaWins(node: Node, up: seq<Column>, main: seq<Column>)
    ensures node.schemaSource == Declared && node.schema.Some? ==> Compute(node, up, main) == node.schema.value
    ensures node.schemaSource == Autodetect ==>
              Compute(node, up, main) == match node.schema case Some(s) => s case None => []
  {
  }

  // Dropping, selecting, reordering. --------------------------------------------------------

  lemma DropLaw(node: Node, names: seq<string>, up: seq<Column>, main: seq<Column>) returns (at: seq<nat>)
    requires !OwnSchema(node) && node.component == DropColumns(names)
    ensures Sifts(up, Compute(node, up, main), at, names, false)
  {
    at := UnlistedSift(up, names);
  }

  /** The place of a selected name is the last one where it is listed. */
  lemma {:induction false} PlaceIsLast(selected: seq<string>, name: string)
    requires name in selected
    ensures Place(selected, name) < |selected| && selected[Place(selected, name)] == name
    ensures forall k :: Place(selected, name) < k < |selected| ==> selected[k] != name
  {
    var front, last := selected[..|selected| - 1], selected[|selected| - 1];
    if last != name {
      assert selected == front + [last];
      PlaceIsLast(front, name);
    }
  }

  /** Reordering: first the columns asked for, in the order of asking, the last of
      a name; then the others in their order. */
  lemma ReorderLaw(node: Node, ordered: seq<string>, up: seq<Column>, main: seq<Column>)
    returns (asked: seq<nat>, at: seq<nat>)
    requires !OwnSchema(node) && node.component == Reorder(ordered) && ordered != []
    ensures |asked| <= |Compute(node, up, main)| && AsksFrom(up, ordered, 0, Compute(node, up, main)[..|asked|], asked)
    ensures Sifts(up, Compute(node, up, main)[|asked|..], at, ordered, false)
  {
    asked := PickOrder(up, ordered);
    at := UnlistedSift(up, ordered);
    var picked, others := PickNamed(up, ordered), Filter(up, NotNamedIn(ordered));
    assert Compute(node, up, main) == picked + others;
    assert (picked + others)[..|picked|] == picked && (picked + others)[|picked|..] == others;
  }

  /** picked holds, for the names from a place on that are there, the last column of
      the name; `asked` has their places in the list of names. */
  ghost predicate AsksFrom(up: seq<Column>, ordered: seq<string>, from: nat, picked: seq<Column>, asked: seq<nat>) {
    |asked| == |picked|
    && (forall k :: 0 <= k < |asked| ==> AskedAt(up, ordered, from, picked[k], asked[k]))
    && (forall j, k :: 0 <= j < k < |asked| ==> asked[j] < asked[k])
    && (forall i :: from <= i < |ordered| ==> (i in asked <==> LastNamed(up, ordered[i]).Some?))
  }

  ghost predicate AskedAt(up: seq<Column>, ordered: seq<string>, from: nat, c: Column, i: nat) {
    from <= i < |ordered| && LastNamed(up, ordered[i]) == Some(c)
  }

  lemma {:induction false} PickOrder(up: seq<Column>, ordered: seq<string>) returns (asked: seq<nat>)
    ensures AsksFrom(up, ordered, 0, PickNamed(up, ordered), asked)
  {
    asked := [];
    if ordered != [] {
      var rest := PickOrder(up, ordered[1..]);
      var moved := OneBehind(rest);
      AskedBehind(up, ordered, PickNamed(up, ordered[1..]), rest, moved);
      if LastNamed(up, ordered[0]).Some? {
        AskedInFront(up, ordered, PickNamed(up, ordered[1..]), moved);
        asked := [0] + moved;
      } else {
        NotAskedInFront(up, ordered, PickNamed(up, ordered[1..]), moved);
        asked := moved;
      }
    }
  }

  lemma AskedBehind(up: seq<Column>, ordered: seq<string>, picked: seq<Column>, rest: seq<nat>, moved: seq<nat>)
    requires ordered != [] && AsksFrom(up, ordered[1..], 0, picked, rest)
    requires |moved| == |rest| && forall k :: 0 <= k < |rest| ==> moved[k] == rest[k] + 1
    requires forall i: nat :: i in moved <==> i > 0 && i - 1 in rest
    ensures AsksFrom(up, ordered, 1, picked, moved)
  {
    forall k | 0 <= k < |moved|
      ensures AskedAt(up, ordered, 1, picked[k], moved[k])
    {
      assert AskedAt(up, ordered[1..], 0, picked[k], rest[k]);
    }
    forall i | 1 <= i < |ordered|
      ensures i in moved <==> LastNamed(up, ordered[i]).Some?
    {
      assert ordered[i] == ordered[1..][i - 1];
    }
  }

  lemma AskedInFront(up: seq<Column>, ordered: seq<string>, picked: seq<Column>, moved: seq<nat>)
    requires ordered != [] && LastNamed(up, ordered[0]).Some? && AsksFrom(up, ordered, 1, picked, moved)
    ensures AsksFrom(up, ordered, 0, [LastNamed(up, ordered[0]).value] + picked, [0] + moved)
  {
    var cols, all := [LastNamed(up, ordered[0]).value] + picked, [0] + moved;
    forall k | 0 <= k < |all|
      ensures AskedAt(up, ordered, 0, cols[k], all[k])
    {
      if k > 0 {
        assert AskedAt(up, ordered, 1, picked[k - 1], moved[k - 1]);
      }
    }
    forall j, k | 0 <= j < k < |all|
      ensures all[j] < all[k]
    {
      assert AskedAt(up, ordered, 1, picked[k - 1], moved[k - 1]);
    }
    assert all[0] == 0;
  }

  lemma NotAskedInFront(up: seq<Column>, ordered: seq<string>, picked: seq<Column>, moved: seq<nat>)
    requires ordered != [] && LastNamed(up, ordered[0]).None? && AsksFrom(up, ordered, 1, picked, moved)
    ensures AsksFrom(up, ordered, 0, picked, moved)
  {
    forall k | 0 <= k < |moved|
      ensures AskedAt(up, ordered, 0, picked[k], moved[k])
    {
      assert AskedAt(up, ordered, 1, picked[k], moved[k]);
    }
  }

  /** The same places, counted from one item further in front. */
  lemma OneBehind(at: seq<nat>) returns (moved: seq<nat>)
    ensures |moved| == |at| && forall k :: 0 <= k < |at| ==> moved[k] == at[k] + 1
    ensures forall i: nat :: i in moved <==> i > 0 && i - 1 in at
  {
    moved := seq(|at|, k requires 0 <= k < |at| => at[k] + 1);
    forall i: nat
      ensures i in moved <==> i > 0 && i - 1 in at
    {
      if i > 0 && i - 1 in at {
        var k :| 0 <= k < |at| && at[k] == i - 1;
        assert moved[k] == i;
      }
    }
  }

  lemma {:induction false} LastNamedIsLast(up: seq<Column>, name: string) returns (i: nat)
    requires LastNamed(up, name).Some?
    ensures i < |up| && up[i] == LastNamed(up, name).value && up[i].name == name
    ensures forall k :: i < k < |up| ==> up[k].name != name
  {
    if up[|up| - 1].name == name {
      i := |up| - 1;
    } else {
      i := LastNamedIsLast(up[..|up| - 1], name);
    }
  }

  // Renaming and casting. --------------------------------------------------------------------

  lemma {:induction false} LastEntryAt<T>(pairs: seq<(string, T)>, key: string, k: nat)
    requires k < |pairs| && pairs[k].0 == key && forall m :: k < m < |pairs| ==> pairs[m].0 != key
    ensures LastEntry(pairs, key) == Some(pairs[k].1)
  {
    if k < |pairs| - 1 {
      LastEntryAt(pairs[..|pairs| - 1], key, k);
    }
  }

  lemma {:induction false} NoEntry<T>(pairs: seq<(string, T)>, key: string)
    requires forall m :: 0 <= m < |pairs| ==> pairs[m].0 != key
    ensures LastEntry(pairs, key) == None
  {
    if pairs != [] {
      NoEntry(pairs[..|pairs| - 1], key);
    }
  }

  /** A pair renames only if it has a key and a value. */
  predicate Renames(pair: (string, string), name: string) {
    pair.0 == name && pair.0 != "" && pair.1 != ""
  }

  lemma {:induction false} NamedEntry(mapping: seq<(string, string)>, name: string)
    ensures LastEntry(Named(mapping), name).Some? <==> exists k :: 0 <= k < |mapping| && Renames(mapping[k], name)
    ensures forall k :: 0 <= k < |mapping| && Renames(mapping[k], name) && (forall m :: k < m < |mapping| ==> !Renames(mapping[m], name))
              ==> LastEntry(Named(mapping), name) == Some(mapping[k].1)
  {
    if mapping != [] {
      var head, rest := mapping[0], mapping[1..];
      NamedEntry(rest, name);
      if head.0 != "" && head.1 != "" {
        EntryOfCons(head, Named(rest), name);
      }
      forall k | 0 <= k < |mapping| && Renames(mapping[k], name) && (forall m :: k < m < |mapping| ==> !Renames(mapping[m], name))
        ensures LastEntry(Named(mapping), name) == Some(mapping[k].1)
      {
        if k > 0 {
          assert rest[k - 1] == mapping[k];
        }
      }
      assert forall k :: 0 <= k < |rest| ==> rest[k] == mapping[k + 1];
    }
  }

  lemma {:induction false} EntryOfCons<T>(head: (string, T), rest: seq<(string, T)>, key: string)
    ensures LastEntry([head] + rest, key)
            == if LastEntry(rest, key).Some? then LastEntry(rest, key) else if head.0 == key then Some(head.1) else None
  {
    if rest != [] {
      var all := [head] + rest;
      assert all[..|all| - 1] == [head] + rest[..|rest| - 1];
      EntryOfCons(head, rest[..|rest| - 1], key);
    }
  }

  /** Renaming keeps every column in its place, with its type; the name is that of
      the last pair that renames it. */
  lemma RenameLaw(node: Node, mapping: seq<(string, string)>, up: seq<Column>, main: seq<Column>, i: nat)
    requires !OwnSchema(node) && node.component == Rename(mapping) && i < |up|
    ensures var r := Compute(node, up, main);
            |r| == |up| && r[i].dataType == up[i].dataType && r[i].nullable == up[i].nullable
            && ((forall k :: 0 <= k < |mapping| ==> !Renames(mapping[k], up[i].name)) ==> r[i].name == up[i].name)
            && forall k :: 0 <= k < |mapping| && Renames(mapping[k], up[i].name)
                           && (forall m :: k < m < |mapping| ==> !Renames(mapping[m], up[i].name))
                           ==> r[i].name == mapping[k].1
  {
    NamedEntry(mapping, up[i].name);
  }

  /** Casting changes the types of exactly the columns listed, the last entry winning. */
  lemma CastLaw(node: Node, casts: seq<(string, DataType)>, up: seq<Column>, main: seq<Column>, i: nat)
    requires !OwnSchema(node) && node.component == Cast(casts) && i < |up|
    ensures var r := Compute(node, up, main);
            |r| == |up| && r[i].name == up[i].name && r[i].nullable == up[i].nullable
            && (up[i].name == "" || (forall k :: 0 <= k < |casts| ==> casts[k].0 != up[i].name) ==> r[i] == up[i])
            && forall k :: up[i].name != "" && 0 <= k < |casts| && casts[k].0 == up[i].name
                           && (forall m :: k < m < |casts| ==> casts[m].0 != up[i].name)
                           ==> r[i].dataType == casts[k].1
  {
    if forall k :: 0 <= k < |casts| ==> casts[k].0 != up[i].name {
      NoEntry(casts, up[i].name);
    }
    forall k | 0 <= k < |casts| && casts[k].0 == up[i].name && (forall m :: k < m < |casts| ==> casts[m].0 != up[i].name)
      ensures LastEntry(casts, up[i].name) == Some(casts[k].1)
    {
      LastEntryAt(casts, up[i].name, k);
    }
  }

  // Adding columns. ----------------------------------------------------------------------------

  /** Components that add one column: the input stays as a prefix. */
  lemma AddedColumn(node: Node, up: seq<Column>, main: seq<Column>)
    requires !OwnSchema(node)
    ensures var r := Compute(node, up, main);
            match node.component
            case AddColumn(name, dataType) =>
              if name == "" then r == up else Appended(up, Column(name, dataType, true), r) && HasColumn(r, name)
            case Window(output) => Appended(up, Column(output, Int64, true), r) && HasColumn(r, output)
            case Function(output, derived) =>
              if up in derived then r == derived[up]
              else if output == "" then r == up
              else Appended(up, Column(output, StringType, true), r) && HasColumn(r, output)
            case AiColumn(embeds, output) =>
              if output == "" then r == up
              else Appended(up, Column(output, if embeds then JsonType else StringType, true), r) && HasColumn(r, output)
            case _ => true
  {
    match node.component
    case AddColumn(name, dataType) => Appends(up, Column(name, dataType, true));
    case Window(output) => Appends(up, Column(output, Int64, true));
    case Function(output, _) => Appends(up, Column(output, StringType, true));
    case AiColumn(embeds, output) => Appends(up, Column(output, if embeds then JsonType else StringType, true));
    case _ =>
  }

  lemma ChunkLaw(node: Node, output: string, up: seq<Column>, main: seq<Column>) returns (a: seq<Column>, b: seq<Column>)
    requires !OwnSchema(node) && node.component == AiChunk(output)
    ensures Appended(up, Column(output, StringType, true), a) && Appended(a, Column("chunk_index", Int64, true), b)
    ensures Appended(b, Column("chunk_count", Int64, true), Compute(node, up, main))
  {
    a := AppendUnlessNamed(up, Column(output, StringType, true));
    b := AppendUnlessNamed(a, Column("chunk_index", Int64, true));
    Appends(up, Column(output, StringType, true));
    Appends(a, Column("chunk_index", Int64, true));
    Appends(b, Column("chunk_count", Int64, true));
  }

  lemma GeometryLaw(node: Node, sources: seq<string>, output: string, remove: bool, up: seq<Column>, main: seq<Column>)
    returns (kept: seq<Column>, at: seq<nat>)
    requires !OwnSchema(node) && node.component == CreateGeometry(sources, output, remove)
    ensures if remove then Sifts(up, kept, at, sources, false) else kept == up
    ensures Appended(kept, Column(output, Geometry, true), Compute(node, up, main))
  {
    at := UnlistedSift(up, sources);
    kept := if remove then Filter(up, NotNamedIn(sources)) else up;
    Appends(kept, Column(output, Geometry, true));
  }

  lemma {:induction false} NewTextOrder(names: seq<string>, have: set<string>) returns (at: seq<nat>)
    ensures |at| == |NewTextColumns(names, have)|
    ensures forall k :: 0 <= k < |at| ==> at[k] < |names| && NewTextColumns(names, have)[k] == Column(names[at[k]], StringType, true)
    ensures forall j, k :: 0 <= j < k < |at| ==> at[j] < at[k]
    ensures forall i :: 0 <= i < |names| ==> (i in at <==> names[i] !in have)
  {
    at := [];
    if names != [] {
      var rest := NewTextOrder(names[1..], have);
      var moved := OneBehind(rest);
      if names[0] in have {
        at := moved;
      } else {
        at := [0] + moved;
      }
    }
  }

  /** Splitting a text: the columns kept, then a text column for every listed name
      that none of them has. */
  lemma TextSplitLaw(node: Node, column: string, names: seq<string>, drop: bool, up: seq<Column>, main: seq<Column>)
    returns (kept: seq<Column>, at: seq<nat>, added: seq<nat>)
    requires !OwnSchema(node) && node.component == TextToColumns(column, names, drop) && column != "" && names != []
    ensures if drop then Sifts(up, kept, at, [column], false) else kept == up
    ensures var r := Compute(node, up, main);
            |r| == |kept| + |added| && kept <= r
            && (forall k :: 0 <= k < |added| ==> added[k] < |names| && r[|kept| + k] == Column(names[added[k]], StringType, true))
    ensures forall j, k :: 0 <= j < k < |added| ==> added[j] < added[k]
    ensures forall i :: 0 <= i < |names| ==> (i in added <==> !HasColumn(kept, names[i]))
  {
    at := UnlistedSift(up, [column]);
    kept := if drop then Filter(up, NotNamedIn([column])) else up;
    added := NewTextOrder(names, Names(kept));
    var more := NewTextColumns(names, Names(kept));
    assert Compute(node, up, main) == kept + more;
    forall i | 0 <= i < |names|
      ensures names[i] in Names(kept) <==> HasColumn(kept, names[i])
    {
      NamesAreHeld(kept, names[i]);
    }
    Behind(kept, more);
  }

  lemma Behind(kept: seq<Column>, more: seq<Column>)
    ensures kept <= kept + more && |kept + more| == |kept| + |more|
    ensures forall k :: 0 <= k < |more| ==> (kept + more)[|kept| + k] == more[k]
  {
  }

  lemma NamesAreHeld(cols: seq<Column>, name: string)
    ensures name in Names(cols) <==> HasColumn(cols, name)
  {
    if c :| c in cols && c.name == name {
      var i :| 0 <= i < |cols| && cols[i] == c;
      assert HasColumn(cols, name);
    }
    if HasColumn(cols, name) {
      var i :| 0 <= i < |cols| && cols[i].name == name;
      assert cols[i] in cols;
    }
  }

  // Group by. -----------------------------------------------------------------------------------

  ghost predicate FirstAt(up: seq<Column>, name: string, i: nat) {
    i < |up| && up[i].name == name && forall j :: 0 <= j < i ==> up[j].name != name
  }

  lemma {:induction false} FirstNamedAt(up: seq<Column>, name: string)
    ensures FirstNamed(up, name).None? ==> !HasColumn(up, name)
    ensures forall i: nat :: FirstAt(up, name, i) ==> FirstNamed(up, name) == Some(up[i])
  {
    if up != [] {
      FirstNamedAt(up[1..], name);
      forall i: nat | FirstAt(up, name, i)
        ensures FirstNamed(up, name) == Some(up[i])
      {
        if i > 0 {
          assert up[0].name != name;
          assert forall j :: 0 <= j < i - 1 ==> up[1..][j] == up[j + 1];
          assert FirstAt(up[1..], name, i - 1);
        }
      }
      if FirstNamed(up, name).None? {
        assert forall i :: 1 <= i < |up| ==> up[i] == up[1..][i - 1];
      }
    }
  }

  /** The name and type of the column of an aggregation, given its source column. */
  ghost predicate Aggregates(a: Aggregation, source: Option<Column>, c: Column) {
    c.name == (if a.output == "" then a.func + "_" + a.column else a.output)
    && c.nullable
    && (a.func in ["count", "count_distinct"] ==> c.dataType == Int64)
    && (a.func == "avg" ==> c.dataType == Float64)
    && (a.func == "array_agg" ==> c.dataType == JsonType)
    && (a.func == "sum" ==>
          if source.Some? && source.value.dataType in {Int32, Int64, Float32, Float64, Decimal}
          then c.dataType == source.value.dataType else c.dataType == Float64)
    && (a.func !in ["count", "count_distinct", "avg", "array_agg", "sum"] ==>
          c.dataType == if source.Some? then source.value.dataType else StringType)
  }

  lemma AggregateLaw(up: seq<Column>, aggregations: seq<Aggregation>, j: nat)
    requires j < |aggregations|
    ensures var a, c := aggregations[j], AggregateColumns(up, aggregations)[j];
            (!HasColumn(up, a.column) ==> Aggregates(a, None, c))
            && forall i: nat :: FirstAt(up, a.column, i) ==> Aggregates(a, Some(up[i]), c)
  {
    var a, c := aggregations[j], AggregateColumns(up, aggregations)[j];
    FirstNamedAt(up, a.column);
    if !HasColumn(up, a.column) {
      NotNamedFirst(up, a.column);
    }
    AggregateIs(a, FirstNamed(up, a.column), c);
  }

  lemma {:induction false} NotNamedFirst(up: seq<Column>, name: string)
    requires !HasColumn(up, name)
    ensures FirstNamed(up, name).None?
  {
    if up != [] {
      assert up[0].name != name;
      assert forall i :: 0 <= i < |up[1..]| ==> up[1..][i] == up[i + 1];
      NotNamedFirst(up[1..], name);
    }
  }

  lemma AggregateIs(a: Aggregation, source: Option<Column>, c: Column)
    requires c == Column(if a.output != "" then a.output else a.func + "_" + a.column, AggregateType(a.func, source), true)
    ensures Aggregates(a, source, c)
  {
  }

  /** Grouping: the key columns in the order of the input, and one column for each
      aggregation in turn; the input where there is nothing of either. */
  lemma GroupByLaw(node: Node, keys: seq<string>, aggregations: seq<Aggregation>, up: seq<Column>, main: seq<Column>)
    returns (at: seq<nat>)
    requires !OwnSchema(node) && node.component == GroupBy(keys, aggregations)
    ensures if (forall i :: 0 <= i < |up| ==> up[i].name !in keys) && aggregations == [] then Compute(node, up, main) == up
            else |Compute(node, up, main)| == |at| + |aggregations|
                 && Sifts(up, Compute(node, up, main)[..|at|], at, keys, true)
                 && forall j :: 0 <= j < |aggregations| ==>
                      var a, c := aggregations[j], Compute(node, up, main)[|at| + j];
                      (!HasColumn(up, a.column) ==> Aggregates(a, None, c))
                      && forall i: nat :: FirstAt(up, a.column, i) ==> Aggregates(a, Some(up[i]), c)
  {
    at := ListedSift(up, keys);
    var kept := Filter(up, NamedIn(keys));
    if kept == [] && aggregations == [] {
      forall i | 0 <= i < |up|
        ensures up[i].name !in keys
      {
        assert i !in at;
      }
    } else {
      GroupByKeysSeen(up, keys, aggregations, kept, at);
      assert Compute(node, up, main) == kept + AggregateColumns(up, aggregations);
      assert (kept + AggregateColumns(up, aggregations))[..|at|] == kept;
      forall j | 0 <= j < |aggregations|
        ensures var a, c := aggregations[j], Compute(node, up, main)[|at| + j];
                (!HasColumn(up, a.column) ==> Aggregates(a, None, c))
                && forall i: nat :: FirstAt(up, a.column, i) ==> Aggregates(a, Some(up[i]), c)
      {
        AggregateLaw(up, aggregations, j);
      }
    }
  }

  lemma GroupByKeysSeen(up: seq<Column>, keys: seq<string>, aggregations: seq<Aggregation>, kept: seq<Column>, at: seq<nat>)
    requires Sifts(up, kept, at, keys, true) && !(kept == [] && aggregations == [])
    ensures aggregations == [] ==> exists i :: 0 <= i < |up| && up[i].name in keys
  {
    if aggregations == [] {
      assert at[0] in at && up[at[0]].name in keys;
    }
  }

  // Schemas from properties. ----------------------------------------------------------------------

  lemma MapLaw(node: Node, outputs: seq<Column>, up: seq<Column>, main: seq<Column>)
    requires !OwnSchema(node) && node.component == MapTo(outputs)
    ensures var r := Compute(node, up, main);
            if outputs == [] then r == (if node.schema.Some? then node.schema.value else up)
            else |r| == |outputs|
                 && forall i :: 0 <= i < |r| ==>
                      r[i].name == (if outputs[i].name == "" then "col" else outputs[i].name)
                      && r[i].dataType == outputs[i].dataType && r[i].nullable
  {
  }

  lemma CodeAndPassing(node: Node, up: seq<Column>, main: seq<Column>)
    requires !OwnSchema(node)
    ensures node.component.CustomCode? ==>
              Compute(node, up, main) == if node.schema.Some? then node.schema.value else up
    ensures node.component.PassThrough? ==> Compute(node, up, main) == up
    ensures node.component.SemiOrAntiJoin? ==> Compute(node, up, main) == main
  {
  }

  /** Generated columns: those with a name, in order, typed by their generator. */
  lemma GenerateLaw(node: Node, columns: seq<Generator>, up: seq<Column>, main: seq<Column>) returns (at: seq<nat>)
    requires !OwnSchema(node) && node.component == Generate(columns)
    ensures |at| == |Compute(node, up, main)|
    ensures forall k :: 0 <= k < |at| ==> at[k] < |columns| && Generated(columns[at[k]], Compute(node, up, main)[k])
    ensures forall j, k :: 0 <= j < k < |at| ==> at[j] < at[k]
    ensures forall i :: 0 <= i < |columns| ==> (i in at <==> columns[i].name != "")
  {
    at := FilterOrder(columns, (g: Generator) => g.name != "");
    forall k | 0 <= k < |at|
      ensures Generated(columns[at[k]], Compute(node, up, main)[k])
    {
      GeneratedIs(columns[at[k]]);
    }
  }

  ghost predicate Generated(g: Generator, c: Column) {
    c.name == g.name && c.nullable == g.nullable
    && (g.generator in ["sequence", "integer"] ==> c.dataType == Int64)
    && (g.generator == "decimal" ==> c.dataType == Decimal)
    && (g.generator == "boolean" ==> c.dataType == Bool)
    && (g.generator == "date" ==> c.dataType == Date)
    && (g.generator == "timestamp" ==> c.dataType == Timestamp)
    && (g.generator in ["address.latitude", "address.longitude"] ==> c.dataType == Float64)
    && (g.generator in ["sequence", "integer", "decimal", "boolean", "date", "timestamp", "address.latitude", "address.longitude"]
        || c.dataType == StringType)
  }

  lemma GeneratedIs(g: Generator)
    ensures Generated(g, Column(g.name, GeneratedType(g.generator), g.nullable))
  {
  }

  // Edges and inputs. --------------------------------------------------------------------------------

  /** An edge carries the schema of its source; from the reject port of a source or a
      quality check, with the three columns of an error behind it. */
  lemma EdgeCarries(e: Edge, nodes: seq<Node>, cols: seq<Column>)
    ensures var r := Carried(e, nodes, cols);
            if e.sourceHandle == Some("reject") && Find(nodes, e.source).Some? && Find(nodes, e.source).value.errorRejects
            then |r| == |cols| + 3 && cols <= r
                 && r[|cols|] == Column("__node_id", StringType, false)
                 && r[|cols| + 1] == Column("__error_code", StringType, false)
                 && r[|cols| + 2] == Column("__rejected_at", Timestamp, false)
            else r == cols
  {
  }

  /** The main schema is that of the first edge into the port "main", or into none. */
  lemma {:induction false} MainIsFirst(incoming: seq<Edge>, schemas: seq<seq<Column>>)
    requires |incoming| == |schemas|
    ensures forall i :: 0 <= i < |incoming| && ToMain(incoming[i]) && (forall j :: 0 <= j < i ==> !ToMain(incoming[j]))
              ==> MainSchema(incoming, schemas) == schemas[i]
    ensures (forall i :: 0 <= i < |incoming| ==> !ToMain(incoming[i])) ==> MainSchema(incoming, schemas) == []
  {
    if incoming != [] {
      var rest := incoming[1..];
      assert forall j :: 0 <= j < |rest| ==> rest[j] == incoming[j + 1];
      MainIsFirst(rest, schemas[1..]);
      forall i | 0 <= i < |incoming| && ToMain(incoming[i]) && (forall j :: 0 <= j < i ==> !ToMain(incoming[j]))
        ensures MainSchema(incoming, schemas) == schemas[i]
      {
        if i > 0 {
          assert !ToMain(incoming[0]);
          assert rest[i - 1] == incoming[i] && schemas[1..][i - 1] == schemas[i];
        }
      }
    }
  }

  predicate ToMain(e: Edge) {
    match e.targetHandle case None => true case Some(port) => port == "main"
  }

  /** Of a list of columns, those with no column of their name before them. */
  function Firsts(cols: seq<Column>): seq<Column> {
    if cols == [] then []
    else
      var front, last := cols[..|cols| - 1], cols[|cols| - 1];
      if exists i :: 0 <= i < |front| && front[i].name == last.name then Firsts(front) else Firsts(front) + [last]
  }

  lemma {:induction false} FirstsHold(cols: seq<Column>, name: string)
    ensures HasColumn(Firsts(cols), name) <==> HasColumn(cols, name)
  {
    if cols != [] {
      var front, last := cols[..|cols| - 1], cols[|cols| - 1];
      FirstsHold(front, name);
      HeldByOneMore(front, last, name);
      assert cols == front + [last];
      HeldByOneMore(Firsts(front), last, name);
    }
  }

  lemma HeldByOneMore(front: seq<Column>, last: Column, name: string)
    ensures HasColumn(front + [last], name) <==> HasColumn(front, name) || last.name == name
  {
    var all := front + [last];
    if HasColumn(front, name) {
      var i :| 0 <= i < |front| && front[i].name == name;
      assert all[i].name == name;
    }
    assert all[|front|] == last;
  }

  lemma AppendToFirsts(cols: seq<Column>, c: Column)
    ensures AppendUnlessNamed(Firsts(cols), c) == Firsts(cols + [c])
  {
    assert (cols + [c])[..|cols|] == cols;
    NamesAreHeld(Firsts(cols), c.name);
    FirstsHold(cols, c.name);
  }

  lemma {:induction false} MergeIntoFirsts(cols: seq<Column>, more: seq<Column>)
    ensures MergeInto(Firsts(cols), more) == Firsts(cols + more)
    decreases |more|
  {
    if more == [] {
      assert cols + more == cols;
    } else {
      AppendToFirsts(cols, more[0]);
      MergeIntoFirsts(cols + [more[0]], more[1..]);
      Regroup(cols, more);
    }
  }

  lemma Regroup(cols: seq<Column>, more: seq<Column>)
    requires more != []
    ensures cols + [more[0]] + more[1..] == cols + more
  {
  }

  /** Merging lists the columns in the order in which their names first arrive. */
  lemma {:induction false} MergeKeepsOrder(schemas: seq<seq<Column>>)
    ensures Merge(schemas) == Firsts(Flatten(schemas))
  {
    if schemas != [] {
      MergeKeepsOrder(schemas[..|schemas| - 1]);
      MergeIntoFirsts(Flatten(schemas[..|schemas| - 1]), schemas[|schemas| - 1]);
    }
  }
}
