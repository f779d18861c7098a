/** What one node makes of the schemas that arrive at it. */
module SchemaRules {
  import opened Graph
  import opened Pipeline
  import opened Sorting

  function Names(cols: seq<Column>): set<string> {
    set c | c in cols :: c.name
  }

  function Each(cols: seq<Column>, f: Column -> Column): seq<Column> {
    seq(|cols|, i requires 0 <= i < |cols| => f(cols[i]))
  }

  /** The last entry for a key, as a Map built from the pairs holds it. */
  function LastEntry<T>(pairs: seq<(string, T)>, key: string): Option<T> {
    if pairs == [] then None
    else if pairs[|pairs| - 1].0 == key then Some(pairs[|pairs| - 1].1)
    else LastEntry(pairs[..|pairs| - 1], key)
  }

  function FirstNamed(cols: seq<Column>, name: string): Option<Column> {
    if cols == [] then None
    else if cols[0].name == name then Some(cols[0])
    else FirstNamed(cols[1..], name)
  }

  function LastNamed(cols: seq<Column>, name: string): Option<Column> {
    if cols == [] then None
    else if cols[|cols| - 1].name == name then Some(cols[|cols| - 1])
    else LastNamed(cols[..|cols| - 1], name)
  }

  function AppendUnlessNamed(cols: seq<Column>, c: Column): seq<Column> {
    if c.name in Names(cols) then cols else cols + [c]
  }

  function Numeric(t: DataType): bool {
    t in {Int32, Int64, Float32, Float64, Decimal}
  }

  function GeneratedType(generator: string): DataType {
    if generator == "sequence" || generator == "integer" then Int64
    else if generator == "decimal" then Decimal
    else if generator == "boolean" then Bool
    else if generator == "date" then Date
    else if generator == "timestamp" then Timestamp
    else if generator == "address.latitude" || generator == "address.longitude" then Float64
    else StringType
  }

  function AggregateType(func: string, source: Option<Column>): DataType {
    if func == "count" || func == "count_distinct" then Int64
    else if func == "avg" then Float64
    else if func == "array_agg" then JsonType
    else if func == "sum" then
      if source.Some? && Numeric(source.value.dataType) then source.value.dataType else Float64
    else if source.Some? then source.value.dataType
    else StringType
  }

  /** The columns of a selection that are present, each taken from up. */
  function PickNamed(up: seq<Column>, names: seq<string>): seq<Column> {
    if names == [] then []
    else match LastNamed(up, names[0])
      case Some(c) => [c] + PickNamed(up, names[1..])
      case None => PickNamed(up, names[1..])
  }

  /** The place of a name in a selection, the last one where it is repeated. */
  function Place(selected: seq<string>, name: string): nat {
    if selected == [] then 0
    else if selected[|selected| - 1] == name then |selected| - 1
    else Place(selected[..|selected| - 1], name)
  }

  function ByPlace(selected: seq<string>): (Column, Column) -> bool {
    (a: Column, b: Column) => Place(selected, a.name) <= Place(selected, b.name)
  }

  function NamedIn(names: seq<string>): Column -> bool {
    (c: Column) => c.name in names
  }

  function NotNamedIn(names: seq<string>): Column -> bool {
    (c: Column) => c.name !in names
  }

  function AggregateColumns(up: seq<Column>, aggregations: seq<Aggregation>): seq<Column> {
    seq(|aggregations|, i requires 0 <= i < |aggregations| =>
      var a := aggregations[i];
      Column(if a.output != "" then a.output else a.func + "_" + a.column,
             AggregateType(a.func, FirstNamed(up, a.column)), true))
  }

  function NewTextColumns(names: seq<string>, have: set<string>): seq<Column> {
    if names == [] then []
    else if names[0] in have then NewTextColumns(names[1..], have)
    else [Column(names[0], StringType, true)] + NewTextColumns(names[1..], have)
  }

  /** computeNodeSchema, given the merged schema of all inputs and the schema
      of the main input. */
  function Compute(node: Node, up: seq<Column>, main: seq<Column>): seq<Column> {
    if node.schemaSource == Declared && node.schema.Some? then node.schema.value
    else if node.schemaSource == Autodetect then
      if node.schema.Some? then node.schema.value else []
    else match node.component
      case Generate(columns) =>
        var named := Filter(columns, (g: Generator) => g.name != "");
        seq(|named|, i requires 0 <= i < |named| =>
          Column(named[i].name, GeneratedType(named[i].generator), named[i].nullable))
      case Project(selected) =>
        if selected == [] then up
        else
          Sort(Filter(up, NamedIn(selected)), ByPlace(selected))
      case DropColumns(dropped) => Filter(up, NotNamedIn(dropped))
      case Rename(mapping) =>
        Each(up, (c: Column) =>
          match LastEntry(Named(mapping), c.name) case Some(n) => c.(name := n) case None => c)
      case Cast(casts) =>
        Each(up, (c: Column) =>
          if c.name == "" then c
          else match LastEntry(casts, c.name) case Some(t) => c.(dataType := t) case None => c)
      case AddColumn(name, dataType) =>
        if name == "" then up else AppendUnlessNamed(up, Column(name, dataType, true))
      case TextToColumns(column, names, dropSource) =>
        if column == "" || names == [] then up
        else
          var kept := if dropSource then Filter(up, NotNamedIn([column])) else up;
          kept + NewTextColumns(names, Names(kept))
      case Reorder(ordered) =>
        if ordered == [] then up
        else PickNamed(up, ordered) + Filter(up, NotNamedIn(ordered))
      case MapTo(outputs) =>
        if outputs != [] then Each(outputs, (c: Column) => Column(if c.name == "" then "col" else c.name, c.dataType, true))
        else if node.schema.Some? then node.schema.value
        else up
      case GroupBy(keys, aggregations) =>
        var keyColumns := Filter(up, NamedIn(keys));
        if keyColumns == [] && aggregations == [] then up
        else keyColumns + AggregateColumns(up, aggregations)
      case Window(output) => AppendUnlessNamed(up, Column(output, Int64, true))
      case SemiOrAntiJoin => main
      case Function(output, derived) =>
        if up in derived then derived[up]
        else if output == "" then up
        else AppendUnlessNamed(up, Column(output, StringType, true))
      case CustomCode => if node.schema.Some? then node.schema.value else up
      case CreateGeometry(sources, output, removeSource) =>
        AppendUnlessNamed(if removeSource then Filter(up, NotNamedIn(sources)) else up, Column(output, Geometry, true))
      case AiChunk(output) =>
        AppendUnlessNamed(
          AppendUnlessNamed(AppendUnlessNamed(up, Column(output, StringType, true)), Column("chunk_index", Int64, true)),
          Column("chunk_count", Int64, true))
      case AiColumn(embeds, output) =>
        if output == "" then up
        else AppendUnlessNamed(up, Column(output, if embeds then JsonType else StringType, true))
      case PassThrough => up
  }

  /** Only pairs with a key and a value rename anything. */
  function Named(mapping: seq<(string, string)>): seq<(string, string)> {
    if mapping == [] then []
    else if mapping[0].0 != "" && mapping[0].1 != "" then [mapping[0]] + Named(mapping[1..])
    else Named(mapping[1..])
  }

  const REJECT_ENVELOPE: seq<Column> := [
    Column("__node_id", StringType, false),
    Column("__error_code", StringType, false),
    Column("__rejected_at", Timestamp, false)
  ]

  /** What an edge carries when its source has the schema `cols`. */
  function Carried(e: Edge, nodes: seq<Node>, cols: seq<Column>): seq<Column> {
    if e.sourceHandle != Some("reject") then cols
    else match Find(nodes, e.source)
      case Some(n) => if n.errorRejects then cols + REJECT_ENVELOPE else cols
      case None => cols
  }

  // Merging: the first column of a name wins. -----------------------------------

  function MergeInto(cols: seq<Column>, more: seq<Column>): seq<Column>
    decreases |more|
  {
    if more == [] then cols else MergeInto(AppendUnlessNamed(cols, more[0]), more[1..])
  }

  function Merge(schemas: seq<seq<Column>>): seq<Column> {
    if schemas == [] then [] else MergeInto(Merge(schemas[..|schemas| - 1]), schemas[|schemas| - 1])
  }

  function Flatten(schemas: seq<seq<Column>>): seq<Column> {
    if schemas == [] then [] else Flatten(schemas[..|schemas| - 1]) + schemas[|schemas| - 1]
  }

  ghost predicate NamesDiffer(cols: seq<Column>) {
    forall i, j :: 0 <= i < j < |cols| ==> cols[i].name != cols[j].name
  }

  lemma {:induction false} FirstNamedConcat(a: seq<Column>, b: seq<Column>, name: string)
    ensures FirstNamed(a + b, name) == if FirstNamed(a, name).Some? then FirstNamed(a, name) else FirstNamed(b, name)
    ensures FirstNamed(a, name).Some? <==> name in Names(a)
  {
    if a == [] {
      assert a + b == b;
    } else {
      assert (a + b)[1..] == a[1..] + b;
      FirstNamedConcat(a[1..], b, name);
      assert a == [a[0]] + a[1..];
    }
  }

  lemma {:induction false} MergeIntoFirst(cols: seq<Column>, more: seq<Column>, name: string)
    requires NamesDiffer(cols)
    ensures NamesDiffer(MergeInto(cols, more))
    ensures FirstNamed(MergeInto(cols, more), name) == FirstNamed(cols + more, name)
    decreases |more|
  {
    if more == [] {
      assert cols + more == cols;
    } else {
      var next := AppendUnlessNamed(cols, more[0]);
      MergeIntoFirst(next, more[1..], name);
      assert more == [more[0]] + more[1..];
      FirstNamedConcat(cols, more, name);
      FirstNamedConcat(next, more[1..], name);
      FirstNamedConcat(cols, [more[0]], name);
      FirstNamedConcat(cols, more, more[0].name);
    }
  }

  /** Merging keeps, of every name that arrives, the column that arrives first,
      and no name twice. */
  lemma {:induction false} MergeKeepsFirst(schemas: seq<seq<Column>>, name: string)
    ensures NamesDiffer(Merge(schemas))
    ensures FirstNamed(Merge(schemas), name) == FirstNamed(Flatten(schemas), name)
  {
    if schemas != [] {
      var front, last := schemas[..|schemas| - 1], schemas[|schemas| - 1];
      MergeKeepsFirst(front, name);
      MergeIntoFirst(Merge(front), last, name);
      FirstNamedConcat(Merge(front), last, name);
      FirstNamedConcat(Flatten(front), last, name);
    }
  }

  lemma {:induction false} MergeIntoNames(cols: seq<Column>, more: seq<Column>)
    ensures Names(MergeInto(cols, more)) == Names(cols) + Names(more)
    decreases |more|
  {
    if more != [] {
      MergeIntoNames(AppendUnlessNamed(cols, more[0]), more[1..]);
      assert more == [more[0]] + more[1..];
    }
  }
}
