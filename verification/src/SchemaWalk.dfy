/** The walk as the editor runs it: mutually recursive procedures that share
    one mutable set of the nodes being visited. */
module SchemaWalk {
  import opened Graph
  import opened Pipeline
  import opened SchemaRules
  import opened SchemaResolve

  /** The set that all calls of one walk share. */
  class Visiting {
    var ids: set<Id>

    constructor ()
      ensures ids == {}
    {
      ids := {};
    }
  }

  /** Terminates on every graph, returns what the guarded walk defines, and
      leaves the shared set as it found it. */
  method ResolveOutputSchema(nodeId: Id, nodes: seq<Node>, edges: seq<Edge>, visiting: Visiting) returns (cols: seq<Column>)
    modifies visiting
    ensures cols == Guarded(nodeId, nodes, edges, old(visiting.ids))
    ensures visiting.ids == old(visiting.ids)
    decreases IdSet(nodes) - visiting.ids, 0
  {
    if nodeId in visiting.ids {
      return [];
    }
    visiting.ids := visiting.ids + {nodeId};
    FindKnown(nodes, nodeId);
    match Find(nodes, nodeId) {
      case None => cols := [];
      case Some(node) => cols := ComputeNodeSchema(node, nodes, edges, visiting);
    }
    visiting.ids := visiting.ids - {nodeId};
  }

  /** Some components never look at their inputs. */
  predicate OwnsSchema(node: Node) {
    || (node.schemaSource == Declared && node.schema.Some?)
    || node.schemaSource == Autodetect
    || node.component.Generate?
    || (node.component.MapTo? && (node.component.outputs != [] || node.schema.Some?))
    || (node.component.CustomCode? && node.schema.Some?)
  }

  lemma InputsUsed(node: Node, up: seq<Column>, main: seq<Column>)
    ensures OwnsSchema(node) ==> Compute(node, up, main) == Compute(node, [], [])
    ensures !OwnsSchema(node) && node.component.SemiOrAntiJoin? ==> Compute(node, up, main) == main
    ensures !node.component.SemiOrAntiJoin? ==> Compute(node, up, main) == Compute(node, up, [])
  {
  }

  method ComputeNodeSchema(node: Node, nodes: seq<Node>, edges: seq<Edge>, visiting: Visiting) returns (cols: seq<Column>)
    modifies visiting
    ensures cols == FromInputs(node, Incoming(edges, node.id),
                               GuardedEdges(Incoming(edges, node.id), nodes, edges, old(visiting.ids)))
    ensures visiting.ids == old(visiting.ids)
    decreases IdSet(nodes) - visiting.ids, 3
  {
    ghost var schemas := GuardedEdges(Incoming(edges, node.id), nodes, edges, visiting.ids);
    InputsUsed(node, Merge(schemas), MainSchema(Incoming(edges, node.id), schemas));
    if OwnsSchema(node) {
      cols := Compute(node, [], []);
    } else if node.component.SemiOrAntiJoin? {
      cols := MainUpstream(node.id, nodes, edges, visiting);
    } else {
      var up := MergedUpstream(node.id, nodes, edges, visiting);
      cols := Compute(node, up, []);
    }
  }

  method EdgeSchema(e: Edge, nodes: seq<Node>, edges: seq<Edge>, visiting: Visiting) returns (cols: seq<Column>)
    modifies visiting
    ensures cols == GuardedEdge(e, nodes, edges, old(visiting.ids))
    ensures visiting.ids == old(visiting.ids)
    decreases IdSet(nodes) - visiting.ids, 1
  {
    cols := ResolveOutputSchema(e.source, nodes, edges, visiting);
    cols := Carried(e, nodes, cols);
  }

  method MergedUpstream(nodeId: Id, nodes: seq<Node>, edges: seq<Edge>, visiting: Visiting) returns (cols: seq<Column>)
    modifies visiting
    ensures cols == Merge(GuardedEdges(Incoming(edges, nodeId), nodes, edges, old(visiting.ids)))
    ensures visiting.ids == old(visiting.ids)
    decreases IdSet(nodes) - visiting.ids, 2
  {
    var incoming := Incoming(edges, nodeId);
    cols := [];
    var seen: set<string> := {};
    for i := 0 to |incoming|
      invariant visiting.ids == old(visiting.ids)
      invariant cols == Merge(GuardedEdges(incoming[..i], nodes, edges, old(visiting.ids)))
      invariant seen == Names(cols)
    {
      var upSchema := EdgeSchema(incoming[i], nodes, edges, visiting);
      cols, seen := TakeUnseen(cols, seen, upSchema);
      assert incoming[..i + 1][..i] == incoming[..i];
      ghost var schemas := GuardedEdges(incoming[..i + 1], nodes, edges, old(visiting.ids));
      assert schemas[..i] == GuardedEdges(incoming[..i], nodes, edges, old(visiting.ids));
    }
    assert incoming[..|incoming|] == incoming;
  }

  /** One turn of the merge: the columns whose names have not been seen. */
  method TakeUnseen(cols0: seq<Column>, seen0: set<string>, upSchema: seq<Column>) returns (cols: seq<Column>, seen: set<string>)
    requires seen0 == Names(cols0)
    ensures cols == MergeInto(cols0, upSchema) && seen == Names(cols)
  {
    cols, seen := cols0, seen0;
    for j := 0 to |upSchema|
      invariant MergeInto(cols, upSchema[j..]) == MergeInto(cols0, upSchema)
      invariant seen == Names(cols)
    {
      var c := upSchema[j];
      if c.name !in seen {
        seen := seen + {c.name};
        cols := cols + [c];
      }
    }
  }

  method MainUpstream(nodeId: Id, nodes: seq<Node>, edges: seq<Edge>, visiting: Visiting) returns (cols: seq<Column>)
    modifies visiting
    ensures cols == MainSchema(Incoming(edges, nodeId),
                               GuardedEdges(Incoming(edges, nodeId), nodes, edges, old(visiting.ids)))
    ensures visiting.ids == old(visiting.ids)
    decreases IdSet(nodes) - visiting.ids, 2
  {
    var incoming := Incoming(edges, nodeId);
    ghost var schemas := GuardedEdges(incoming, nodes, edges, visiting.ids);
    for i := 0 to |incoming|
      invariant visiting.ids == old(visiting.ids)
      invariant MainSchema(incoming[i..], schemas[i..]) == MainSchema(incoming, schemas)
    {
      if IsMain(incoming[i]) {
        GuardedEdgesAt(incoming, nodes, edges, visiting.ids, i);
        cols := EdgeSchema(incoming[i], nodes, edges, visiting);
        return;
      }
    }
    cols := [];
  }

  lemma {:induction false} GuardedEdgesAt(es: seq<Edge>, nodes: seq<Node>, edges: seq<Edge>, visiting: set<Id>, i: nat)
    requires i < |es|
    ensures GuardedEdges(es, nodes, edges, visiting)[i] == GuardedEdge(es[i], nodes, edges, visiting)
    decreases |es|
  {
    if i < |es| - 1 {
      GuardedEdgesAt(es[..|es| - 1], nodes, edges, visiting, i);
    }
  }

  /** Called from outside on a node that no cycle leads to, the walk returns the
      plain recursion over the incoming edges. */
  method ResolveFresh(nodeId: Id, nodes: seq<Node>, edges: seq<Edge>) returns (cols: seq<Column>)
    ensures cols == Guarded(nodeId, nodes, edges, {})
    ensures CycleFree(Followed(nodes, edges), nodeId) ==> cols == Plain(nodeId, nodes, edges)
  {
    var visiting := new Visiting();
    cols := ResolveOutputSchema(nodeId, nodes, edges, visiting);
    if CycleFree(Followed(nodes, edges), nodeId) {
      GuardedIsPlain(nodeId, nodes, edges, {});
    }
  }

  // Schemas per input port. -----------------------------------------------------------

  function PortOf(e: Edge): string {
    if e.targetHandle.Some? then e.targetHandle.value else "main"
  }

  function AtPort(incoming: seq<Edge>, port: string): seq<Edge> {
    if incoming == [] then []
    else
      var front := AtPort(incoming[..|incoming| - 1], port);
      if PortOf(incoming[|incoming| - 1]) == port then front + [incoming[|incoming| - 1]] else front
  }

  ghost function PortSchema(incoming: seq<Edge>, port: string, nodes: seq<Node>, edges: seq<Edge>): seq<Column> {
    Merge(GuardedEdges(AtPort(incoming, port), nodes, edges, {}))
  }

  function Get(byPort: map<string, seq<Column>>, port: string): seq<Column> {
    if port in byPort then byPort[port] else []
  }

  /** A port has an entry when one of the edges seen arrives there; the entry
      is the merged schema of its edges. */
  ghost predicate PortEntry(seen: seq<Edge>, byPort: map<string, seq<Column>>, nodes: seq<Node>, edges: seq<Edge>, p: string) {
    && (p in byPort <==> AtPort(seen, p) != [])
    && Get(byPort, p) == PortSchema(seen, p, nodes, edges)
  }

  /** The entries for all ports, listed in the order they are met. */
  ghost predicate PortsOf(seen: seq<Edge>, byPort: map<string, seq<Column>>, ports: seq<string>, nodes: seq<Node>, edges: seq<Edge>) {
    && (forall p {:trigger PortEntry(seen, byPort, nodes, edges, p)} :: PortEntry(seen, byPort, nodes, edges, p))
    && Lists(ports, byPort.Keys)
    && ports == PortOrder(seen)
  }

  /** The ports of the edges, each where it first appears. */
  function PortOrder(seen: seq<Edge>): seq<string> {
    if seen == [] then []
    else
      var front, port := PortOrder(seen[..|seen| - 1]), PortOf(seen[|seen| - 1]);
      if exists i :: 0 <= i < |seen| - 1 && PortOf(seen[i]) == port then front else front + [port]
  }

  /** An edge arrives at the port it names, or at "main". */
  lemma {:induction false} EdgesOfPort(seen: seq<Edge>, port: string) returns (at: seq<nat>)
    ensures |at| == |AtPort(seen, port)|
    ensures forall k :: 0 <= k < |at| ==> at[k] < |seen| && AtPort(seen, port)[k] == seen[at[k]]
    ensures forall j, k :: 0 <= j < k < |at| ==> at[j] < at[k]
    ensures forall i :: 0 <= i < |seen| ==>
              (i in at <==> match seen[i].targetHandle case Some(p) => p == port case None => port == "main")
  {
    at := [];
    if seen != [] {
      at := EdgesOfPort(seen[..|seen| - 1], port);
      if PortOf(seen[|seen| - 1]) == port {
        at := at + [|seen| - 1];
      }
    }
  }

  lemma SeenPort(seen: seq<Edge>, e: Edge)
    ensures PortOrder(seen + [e]) == if AtPort(seen, PortOf(e)) != [] then PortOrder(seen) else PortOrder(seen) + [PortOf(e)]
  {
    assert (seen + [e])[..|seen|] == seen;
    var at := EdgesOfPort(seen, PortOf(e));
    if AtPort(seen, PortOf(e)) != [] {
      assert at[0] in at;
      assert PortOf((seen + [e])[at[0]]) == PortOf(e);
    } else {
      forall i | 0 <= i < |seen|
        ensures PortOf((seen + [e])[i]) != PortOf(e)
      {
        assert i !in at;
      }
    }
  }

  ghost predicate Lists(ports: seq<string>, keys: set<string>) {
    && (forall p :: p in keys <==> p in ports)
    && (forall i, j :: 0 <= i < j < |ports| ==> ports[i] != ports[j])
  }

  lemma PortEntryNext(seen: seq<Edge>, e: Edge, byPort: map<string, seq<Column>>, nodes: seq<Node>, edges: seq<Edge>, p: string)
    requires PortEntry(seen, byPort, nodes, edges, p)
    requires PortEntry(seen, byPort, nodes, edges, PortOf(e))
    ensures PortEntry(seen + [e], byPort[PortOf(e) := MergeInto(Get(byPort, PortOf(e)), GuardedEdge(e, nodes, edges, {}))],
                      nodes, edges, p)
  {
    assert (seen + [e])[..|seen|] == seen;
    if p == PortOf(e) {
      AtPortNext(seen, e, nodes, edges);
    }
  }

  lemma PortsNext(seen: seq<Edge>, e: Edge, byPort: map<string, seq<Column>>, ports: seq<string>, nodes: seq<Node>, edges: seq<Edge>)
    requires PortsOf(seen, byPort, ports, nodes, edges)
    ensures var port := PortOf(e);
            var merged := MergeInto(Get(byPort, port), GuardedEdge(e, nodes, edges, {}));
            PortsOf(seen + [e], byPort[port := merged], if port in byPort then ports else ports + [port], nodes, edges)
  {
    var port := PortOf(e);
    var byPort' := byPort[port := MergeInto(Get(byPort, port), GuardedEdge(e, nodes, edges, {}))];
    assert PortEntry(seen, byPort, nodes, edges, port);
    forall p
      ensures PortEntry(seen + [e], byPort', nodes, edges, p)
    {
      assert PortEntry(seen, byPort, nodes, edges, p);
      PortEntryNext(seen, e, byPort, nodes, edges, p);
    }
    assert byPort'.Keys == byPort.Keys + {port};
    SeenPort(seen, e);
  }

  method ResolveInputPortSchemas(nodeId: Id, nodes: seq<Node>, edges: seq<Edge>)
    returns (byPort: map<string, seq<Column>>, ports: seq<string>)
    ensures PortsOf(Incoming(edges, nodeId), byPort, ports, nodes, edges)
  {
    var incoming := Incoming(edges, nodeId);
    byPort, ports := map[], [];
    for i := 0 to |incoming|
      invariant PortsOf(incoming[..i], byPort, ports, nodes, edges)
    {
      assert incoming[..i + 1] == incoming[..i] + [incoming[i]];
      PortsNext(incoming[..i], incoming[i], byPort, ports, nodes, edges);
      byPort, ports := AddEdge(incoming[i], byPort, ports, nodes, edges);
    }
    assert incoming[..|incoming|] == incoming;
  }

  method AddEdge(e: Edge, byPort0: map<string, seq<Column>>, ports0: seq<string>, nodes: seq<Node>, edges: seq<Edge>)
    returns (byPort: map<string, seq<Column>>, ports: seq<string>)
    ensures byPort == byPort0[PortOf(e) := MergeInto(Get(byPort0, PortOf(e)), GuardedEdge(e, nodes, edges, {}))]
    ensures ports == if PortOf(e) in byPort0 then ports0 else ports0 + [PortOf(e)]
  {
    var port := PortOf(e);
    var visiting := new Visiting();
    var sourceSchema := EdgeSchema(e, nodes, edges, visiting);
    var arr := PushNew(Get(byPort0, port), sourceSchema);
    ports := if port in byPort0 then ports0 else ports0 + [port];
    byPort := byPort0[port := arr];
  }

  method PushNew(arr0: seq<Column>, sourceSchema: seq<Column>) returns (arr: seq<Column>)
    ensures arr == MergeInto(arr0, sourceSchema)
  {
    arr := arr0;
    for j := 0 to |sourceSchema|
      invariant MergeInto(arr, sourceSchema[j..]) == MergeInto(arr0, sourceSchema)
    {
      arr := AppendUnlessNamed(arr, sourceSchema[j]);
    }
  }

  lemma AtPortNext(front: seq<Edge>, last: Edge, nodes: seq<Node>, edges: seq<Edge>)
    ensures PortSchema(front + [last], PortOf(last), nodes, edges)
            == MergeInto(PortSchema(front, PortOf(last), nodes, edges), GuardedEdge(last, nodes, edges, {}))
  {
    assert (front + [last])[..|front|] == front;
    var before := AtPort(front, PortOf(last));
    var after := before + [last];
    assert after[..|before|] == before;
    assert GuardedEdges(after, nodes, edges, {})[..|before|] == GuardedEdges(before, nodes, edges, {});
  }

  ghost function UpstreamNames(incoming: seq<Edge>, nodes: seq<Node>, edges: seq<Edge>): set<string> {
    Names(Merge(GuardedEdges(incoming, nodes, edges, {})))
  }

  ghost function PortNames(incoming: seq<Edge>, p: string, nodes: seq<Node>, edges: seq<Edge>): set<string> {
    Names(PortSchema(incoming, p, nodes, edges))
  }

  lemma UpstreamNext(front: seq<Edge>, last: Edge, nodes: seq<Node>, edges: seq<Edge>)
    ensures UpstreamNames(front + [last], nodes, edges)
            == UpstreamNames(front, nodes, edges) + Names(GuardedEdge(last, nodes, edges, {}))
  {
    assert (front + [last])[..|front|] == front;
    var schemas, carried := GuardedEdges(front, nodes, edges, {}), GuardedEdge(last, nodes, edges, {});
    assert GuardedEdges(front + [last], nodes, edges, {}) == schemas + [carried];
    assert (schemas + [carried])[..|schemas|] == schemas;
    MergeIntoNames(Merge(schemas), carried);
  }

  lemma PortNext(front: seq<Edge>, last: Edge, p: string, nodes: seq<Node>, edges: seq<Edge>)
    ensures PortNames(front + [last], p, nodes, edges)
            == if p == PortOf(last) then PortNames(front, p, nodes, edges) + Names(GuardedEdge(last, nodes, edges, {}))
               else PortNames(front, p, nodes, edges)
  {
    assert (front + [last])[..|front|] == front;
    if p == PortOf(last) {
      AtPortNext(front, last, nodes, edges);
      MergeIntoNames(PortSchema(front, p, nodes, edges), GuardedEdge(last, nodes, edges, {}));
    }
  }

  /** The ports together offer the names that the merged upstream schema has. */
  lemma {:induction false} PortsCoverUpstream(incoming: seq<Edge>, name: string, nodes: seq<Node>, edges: seq<Edge>)
    ensures name in UpstreamNames(incoming, nodes, edges) <==> exists p :: name in PortNames(incoming, p, nodes, edges)
  {
    if incoming != [] {
      var front, last := incoming[..|incoming| - 1], incoming[|incoming| - 1];
      assert incoming == front + [last];
      PortsCoverUpstream(front, name, nodes, edges);
      forall p
        ensures PortNames(incoming, p, nodes, edges)
                == if p == PortOf(last) then PortNames(front, p, nodes, edges) + Names(GuardedEdge(last, nodes, edges, {}))
                   else PortNames(front, p, nodes, edges)
      {
        PortNext(front, last, p, nodes, edges);
      }
      UpstreamNext(front, last, nodes, edges);
      assert name in Names(GuardedEdge(last, nodes, edges, {})) ==> name in PortNames(incoming, PortOf(last), nodes, edges);
    }
  }
}
