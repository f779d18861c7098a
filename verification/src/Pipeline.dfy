/** Nodes of a pipeline, as far as schemas are worked out from them. */
module Pipeline {
  import opened Graph

  datatype DataType = StringType | Int32 | Int64 | Float32 | Float64 | Bool | Date | Timestamp | Time | Decimal
                    | JsonType | Binary | Geometry

  datatype Column = Column(name: string, dataType: DataType, nullable: bool)

  datatype Aggregation = Aggregation(func: string, column: string, output: string)

  /** A column of the data generator. */
  datatype Generator = Generator(name: string, generator: string, nullable: bool)

  /** What the component's manifest says about where its schema comes from. */
  datatype SchemaSource = Declared | Autodetect | Computed

  /** The component of a node, with the properties its schema depends on.
      Absent lists are empty and absent names are "". */
  datatype Component =
    | Generate(columns: seq<Generator>)
    | Project(selected: seq<string>)
    | DropColumns(dropped: seq<string>)
    | Rename(mapping: seq<(string, string)>)
    | Cast(casts: seq<(string, DataType)>)
    | AddColumn(name: string, dataType: DataType)
    | TextToColumns(column: string, names: seq<string>, dropSource: bool)
    | Reorder(ordered: seq<string>)
    | MapTo(outputs: seq<Column>)
    | GroupBy(keys: seq<string>, aggregations: seq<Aggregation>)
    | Window(output: string)
    | SemiOrAntiJoin
    | Function(output: string, derived: map<seq<Column>, seq<Column>>)
    | CustomCode
    | CreateGeometry(sources: seq<string>, output: string, removeSource: bool)
    | AiChunk(output: string)
    | AiColumn(embeds: bool, output: string)
    | PassThrough

  /** `errorRejects`: a source or a quality check, whose reject port carries
      the error columns. A sample row is only ever passed on. */
  datatype Node = Node(id: Id, component: Component, errorRejects: bool, schemaSource: SchemaSource,
                       schema: Option<seq<Column>>, sampleRows: seq<int>)

  /** nodes.find(n => n.id === id) */
  function Find(nodes: seq<Node>, id: Id): (r: Option<Node>)
    ensures r.Some? ==> r.value in nodes && r.value.id == id
    ensures r.None? <==> forall n :: n in nodes ==> n.id != id
  {
    if nodes == [] then None
    else if nodes[0].id == id then Some(nodes[0])
    else Find(nodes[1..], id)
  }

  /** The first node of an id is found. */
  lemma {:induction false} FindIsFirst(nodes: seq<Node>, i: nat)
    requires i < |nodes| && forall j :: 0 <= j < i ==> nodes[j].id != nodes[i].id
    ensures Find(nodes, nodes[i].id) == Some(nodes[i])
  {
    if i > 0 {
      FindIsFirst(nodes[1..], i - 1);
    }
  }

  ghost function IdSet(nodes: seq<Node>): set<Id> {
    set n | n in nodes :: n.id
  }

  /** edges.filter(e => e.target === id) */
  function Incoming(edges: seq<Edge>, id: Id): seq<Edge> {
    if edges == [] then []
    else
      var front := Incoming(edges[..|edges| - 1], id);
      if edges[|edges| - 1].target == id then front + [edges[|edges| - 1]] else front
  }

  /** The incoming edges are the edges with the target, each as often and in the
      order in which they are listed. */
  lemma {:induction false} IncomingOrder(edges: seq<Edge>, id: Id) returns (at: seq<nat>)
    ensures |at| == |Incoming(edges, id)|
    ensures forall k :: 0 <= k < |at| ==> at[k] < |edges| && Incoming(edges, id)[k] == edges[at[k]]
    ensures forall j, k :: 0 <= j < k < |at| ==> at[j] < at[k]
    ensures forall i :: 0 <= i < |edges| ==> (i in at <==> edges[i].target == id)
  {
    at := [];
    if edges != [] {
      at := IncomingOrder(edges[..|edges| - 1], id);
      if edges[|edges| - 1].target == id {
        at := at + [|edges| - 1];
      }
    }
  }

  lemma {:induction false} IncomingMembers(edges: seq<Edge>, id: Id)
    ensures forall e :: e in Incoming(edges, id) <==> e in edges && e.target == id
  {
    if edges != [] {
      IncomingMembers(edges[..|edges| - 1], id);
      assert edges == edges[..|edges| - 1] + [edges[|edges| - 1]];
    }
  }
}
