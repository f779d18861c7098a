/** The output schema of a node, worked out by walking the pipeline towards its
    sources, with a guard against cycles. */
module SchemaResolve {
  import opened Graph
  import opened Peeling
  import opened Pipeline
  import opened SchemaRules

  // What the walk returns, as functions: with the guard, and without. -------------

  predicate IsMain(e: Edge) {
    e.targetHandle == None || e.targetHandle == Some("main")
  }

  /** The schema on the first main input, [] if there is none. */
  function MainSchema(incoming: seq<Edge>, schemas: seq<seq<Column>>): seq<Column>
    requires |incoming| == |schemas|
  {
    if incoming == [] then []
    else if IsMain(incoming[0]) then schemas[0]
    else MainSchema(incoming[1..], schemas[1..])
  }

  /** The schema of a node from those its incoming edges carry. */
  function FromInputs(node: Node, incoming: seq<Edge>, schemas: seq<seq<Column>>): seq<Column>
    requires |incoming| == |schemas|
  {
    Compute(node, Merge(schemas), MainSchema(incoming, schemas))
  }

  /** The guarded walk: a node that is being visited yields no columns. */
  ghost function Guarded(id: Id, nodes: seq<Node>, edges: seq<Edge>, visiting: set<Id>): seq<Column>
    decreases IdSet(nodes) - visiting, 0, 0
  {
    if id in visiting then []
    else match Find(nodes, id)
      case None => []
      case Some(node) =>
        var incoming := Incoming(edges, id);
        FromInputs(node, incoming, GuardedEdges(incoming, nodes, edges, visiting + {id}))
  }

  ghost function GuardedEdge(e: Edge, nodes: seq<Node>, edges: seq<Edge>, visiting: set<Id>): seq<Column>
    decreases IdSet(nodes) - visiting, 1, 0
  {
    Carried(e, nodes, Guarded(e.source, nodes, edges, visiting))
  }

  ghost function GuardedEdges(es: seq<Edge>, nodes: seq<Node>, edges: seq<Edge>, visiting: set<Id>): (r: seq<seq<Column>>)
    ensures |r| == |es|
    decreases IdSet(nodes) - visiting, 2, |es|
  {
    if es == [] then []
    else
      var last := |es| - 1;
      GuardedEdges(es[..last], nodes, edges, visiting) + [GuardedEdge(es[last], nodes, edges, visiting)]
  }

  /** The edges the walk follows: those into a node. */
  ghost function Followed(nodes: seq<Node>, edges: seq<Edge>): seq<Edge> {
    if edges == [] then []
    else
      var front := Followed(nodes, edges[..|edges| - 1]);
      if edges[|edges| - 1].target in IdSet(nodes) then front + [edges[|edges| - 1]] else front
  }

  lemma {:induction false} FollowedMembers(nodes: seq<Node>, edges: seq<Edge>)
    ensures forall e :: e in Followed(nodes, edges) <==> e in edges && e.target in IdSet(nodes)
  {
    if edges != [] {
      FollowedMembers(nodes, edges[..|edges| - 1]);
      assert edges == edges[..|edges| - 1] + [edges[|edges| - 1]];
    }
  }

  lemma {:induction false} FollowedWalk(nodes: seq<Node>, edges: seq<Edge>, a: Id, b: Id, n: nat)
    requires a in IdSet(nodes) && Steps(Followed(nodes, edges), a, b, n)
    ensures Steps(KnownEdges(IdSet(nodes), edges), a, b, n)
    decreases n
  {
    if n > 0 {
      var m :| Arc(Followed(nodes, edges), a, m) && Steps(Followed(nodes, edges), m, b, n - 1);
      FollowedMembers(nodes, edges);
      KnownEdgesMembers(IdSet(nodes), edges);
      assert Arc(KnownEdges(IdSet(nodes), edges), a, m);
      FollowedWalk(nodes, edges, m, b, n - 1);
    }
  }

  /** Edges from ids that name no node lie on no cycle of the walk, so a node is
      behind a cycle of the walk exactly when it is behind one of known edges. */
  lemma FollowedCycleFree(nodes: seq<Node>, edges: seq<Edge>, id: Id)
    ensures CycleFree(Followed(nodes, edges), id) <==> CycleFree(KnownEdges(IdSet(nodes), edges), id)
  {
    var followed, known := Followed(nodes, edges), KnownEdges(IdSet(nodes), edges);
    FollowedMembers(nodes, edges);
    KnownEdgesMembers(IdSet(nodes), edges);
    forall c
      ensures OnCycle(known, c) <==> OnCycle(followed, c)
      ensures OnCycle(known, c) ==> (Reaches(known, c, id) <==> Reaches(followed, c, id))
    {
      SameCycles(nodes, edges, c, id);
    }
  }

  lemma SameCycles(nodes: seq<Node>, edges: seq<Edge>, c: Id, id: Id)
    ensures var followed, known := Followed(nodes, edges), KnownEdges(IdSet(nodes), edges);
            (OnCycle(known, c) <==> OnCycle(followed, c))
            && (OnCycle(known, c) ==> (Reaches(known, c, id) <==> Reaches(followed, c, id)))
  {
    var followed, known := Followed(nodes, edges), KnownEdges(IdSet(nodes), edges);
    FollowedMembers(nodes, edges);
    KnownEdgesMembers(IdSet(nodes), edges);
    forall u, v, n: nat | Steps(known, u, v, n)
      ensures Steps(followed, u, v, n)
    {
      KnownWalk(nodes, edges, u, v, n);
    }
    if OnCycle(followed, c) || OnCycle(known, c) {
      if OnCycle(followed, c) {
        AncestorEnds(followed, c, c);
      } else {
        AncestorEnds(known, c, c);
      }
      assert c in IdSet(nodes);
      forall v, n: nat | Steps(followed, c, v, n)
        ensures Steps(known, c, v, n)
      {
        FollowedWalk(nodes, edges, c, v, n);
      }
    }
  }

  lemma {:induction false} KnownWalk(nodes: seq<Node>, edges: seq<Edge>, a: Id, b: Id, n: nat)
    requires Steps(KnownEdges(IdSet(nodes), edges), a, b, n)
    ensures Steps(Followed(nodes, edges), a, b, n)
    decreases n
  {
    if n > 0 {
      var m :| Arc(KnownEdges(IdSet(nodes), edges), a, m) && Steps(KnownEdges(IdSet(nodes), edges), m, b, n - 1);
      FollowedMembers(nodes, edges);
      KnownEdgesMembers(IdSet(nodes), edges);
      assert Arc(Followed(nodes, edges), a, m);
      KnownWalk(nodes, edges, m, b, n - 1);
    }
  }

  /** No cycle leads to what leads to a node that no cycle leads to. */
  lemma CycleFreeBefore(edges: seq<Edge>, u: Id, v: Id)
    requires CycleFree(edges, v) && Arc(edges, u, v)
    ensures CycleFree(edges, u) && !OnCycle(edges, u) && !OnCycle(edges, v)
  {
    forall c | Reaches(edges, c, u)
      ensures Reaches(edges, c, v)
    {
      ReachesThenArc(edges, c, u, v);
      AncestorReaches(edges, c, v);
    }
    assert Steps(edges, u, u, 0) && Steps(edges, v, v, 0);
    assert Reaches(edges, u, u) && Reaches(edges, v, v);
  }

  lemma FindKnown(nodes: seq<Node>, id: Id)
    ensures Find(nodes, id).Some? <==> id in IdSet(nodes)
  {
  }

  lemma IncomingArc(nodes: seq<Node>, edges: seq<Edge>, id: Id, e: Edge)
    requires id in IdSet(nodes) && e in Incoming(edges, id)
    ensures Arc(Followed(nodes, edges), e.source, id)
  {
    IncomingMembers(edges, id);
    FollowedMembers(nodes, edges);
  }

  /** The plain recursion over incoming edges, defined where no cycle leads. */
  ghost function Plain(id: Id, nodes: seq<Node>, edges: seq<Edge>): seq<Column>
    requires CycleFree(Followed(nodes, edges), id)
    decreases Ancestors(Followed(nodes, edges), id), |edges| + 1
  {
    match Find(nodes, id)
    case None => []
    case Some(node) =>
      var incoming := Incoming(edges, id);
      IncomingLength(edges, id);
      FromInputs(node, incoming, PlainEdges(incoming, id, nodes, edges))
  }

  ghost function PlainEdges(es: seq<Edge>, id: Id, nodes: seq<Node>, edges: seq<Edge>): (r: seq<seq<Column>>)
    requires CycleFree(Followed(nodes, edges), id) && id in IdSet(nodes)
    requires forall e :: e in es ==> e in Incoming(edges, id)
    ensures |r| == |es|
    decreases Ancestors(Followed(nodes, edges), id), |es|
  {
    if es == [] then []
    else
      var last := es[|es| - 1];
      IncomingArc(nodes, edges, id, last);
      CycleFreeBefore(Followed(nodes, edges), last.source, id);
      AncestorsShrink(Followed(nodes, edges), last.source, id);
      PlainEdges(es[..|es| - 1], id, nodes, edges) + [Carried(last, nodes, Plain(last.source, nodes, edges))]
  }

  lemma {:induction false} IncomingLength(edges: seq<Edge>, id: Id)
    ensures |Incoming(edges, id)| <= |edges|
  {
    if edges != [] {
      IncomingLength(edges[..|edges| - 1], id);
    }
  }

  // The guard changes nothing where no cycle leads. ---------------------------------

  /** On any graph, the guarded walk from a node that no cycle leads to is the
      plain recursion, unless the guard holds the node or an ancestor. */
  lemma {:induction false} GuardedIsPlain(id: Id, nodes: seq<Node>, edges: seq<Edge>, visiting: set<Id>)
    requires CycleFree(Followed(nodes, edges), id)
    requires id !in visiting && visiting !! Ancestors(Followed(nodes, edges), id)
    ensures Guarded(id, nodes, edges, visiting) == Plain(id, nodes, edges)
    decreases Ancestors(Followed(nodes, edges), id), |edges| + 1
  {
    FindKnown(nodes, id);
    if id in IdSet(nodes) {
      IncomingLength(edges, id);
      GuardedEdgesArePlain(Incoming(edges, id), id, nodes, edges, visiting);
    }
  }

  lemma {:induction false} GuardedEdgesArePlain(es: seq<Edge>, id: Id, nodes: seq<Node>, edges: seq<Edge>, visiting: set<Id>)
    requires CycleFree(Followed(nodes, edges), id) && id in IdSet(nodes)
    requires forall e :: e in es ==> e in Incoming(edges, id)
    requires id !in visiting && visiting !! Ancestors(Followed(nodes, edges), id)
    ensures GuardedEdges(es, nodes, edges, visiting + {id}) == PlainEdges(es, id, nodes, edges)
    decreases Ancestors(Followed(nodes, edges), id), |es|
  {
    if es != [] {
      var followed := Followed(nodes, edges);
      var last := es[|es| - 1];
      GuardedEdgesArePlain(es[..|es| - 1], id, nodes, edges, visiting);
      IncomingArc(nodes, edges, id, last);
      CycleFreeBefore(followed, last.source, id);
      AncestorsShrink(followed, last.source, id);
      StepsOne(followed, last.source, id);
      AncestorsComplete(followed, last.source, id);
      AncestorsComplete(followed, id, id);
      AncestorsComplete(followed, id, last.source);
      if Ancestor(followed, id, last.source) {
        AncestorTransitive(followed, id, last.source, id);
      }
      GuardedIsPlain(last.source, nodes, edges, visiting + {id});
    }
  }

  /** The nodes that a peeling places get their plain schemas. */
  lemma PlacedIsPlain(id: Id, nodes: seq<Node>, edges: seq<Edge>)
    requires id in CycleFreeIds(IdSet(nodes), edges)
    ensures CycleFree(Followed(nodes, edges), id)
    ensures Guarded(id, nodes, edges, {}) == Plain(id, nodes, edges)
  {
    FollowedCycleFree(nodes, edges, id);
    GuardedIsPlain(id, nodes, edges, {});
  }

  // On any graph, a schema depends on nothing but what is upstream. -----------------

  /** Two pipelines look the same from a node: the same node under its id, the
      same incoming edges, and the same guard. */
  ghost predicate SameAt(a: Id, n1: seq<Node>, e1: seq<Edge>, v1: set<Id>, n2: seq<Node>, e2: seq<Edge>, v2: set<Id>) {
    && Find(n1, a) == Find(n2, a)
    && Incoming(e1, a) == Incoming(e2, a)
    && (a in v1 <==> a in v2)
  }

  lemma {:induction false} SchemaIsLocal(id: Id, n1: seq<Node>, e1: seq<Edge>, v1: set<Id>,
                                         n2: seq<Node>, e2: seq<Edge>, v2: set<Id>)
    requires SameAt(id, n1, e1, v1, n2, e2, v2)
    requires forall a :: Ancestor(e1, a, id) ==> SameAt(a, n1, e1, v1, n2, e2, v2)
    ensures Guarded(id, n1, e1, v1) == Guarded(id, n2, e2, v2)
    decreases IdSet(n1) - v1, |e1| + 1
  {
    FindKnown(n1, id);
    if id !in v1 && id in IdSet(n1) {
      IncomingLength(e1, id);
      EdgesAreLocal(Incoming(e1, id), id, n1, e1, v1, n2, e2, v2);
    }
  }

  lemma {:induction false} EdgesAreLocal(es: seq<Edge>, id: Id, n1: seq<Node>, e1: seq<Edge>, v1: set<Id>,
                                         n2: seq<Node>, e2: seq<Edge>, v2: set<Id>)
    requires id !in v1 && id in IdSet(n1)
    requires forall e :: e in es ==> e in Incoming(e1, id)
    requires SameAt(id, n1, e1, v1, n2, e2, v2)
    requires forall a :: Ancestor(e1, a, id) ==> SameAt(a, n1, e1, v1, n2, e2, v2)
    ensures GuardedEdges(es, n1, e1, v1 + {id}) == GuardedEdges(es, n2, e2, v2 + {id})
    decreases IdSet(n1) - v1, |es|
  {
    if es != [] {
      var last := es[|es| - 1];
      EdgesAreLocal(es[..|es| - 1], id, n1, e1, v1, n2, e2, v2);
      IncomingMembers(e1, id);
      assert Arc(e1, last.source, id);
      StepsOne(e1, last.source, id);
      forall a | Ancestor(e1, a, last.source)
        ensures SameAt(a, n1, e1, v1 + {id}, n2, e2, v2 + {id})
      {
        AncestorTransitive(e1, a, last.source, id);
      }
      SchemaIsLocal(last.source, n1, e1, v1 + {id}, n2, e2, v2 + {id});
    }
  }
}
