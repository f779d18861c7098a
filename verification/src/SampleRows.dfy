/** The nearest upstream sample: a breadth-first walk against the edges, whose
    queue may hold a node several times and may hold ids that name no node. */
module SampleRows {
  import opened Graph
  import opened Pipeline

  function SampleOf(nodes: seq<Node>, id: Id): seq<int> {
    match Find(nodes, id)
    case Some(n) => n.sampleRows
    case None => []
  }

  /** The sample of an id is that of the first node with the id; ids without a node
      have none. */
  lemma SampleIsOfFirst(nodes: seq<Node>, i: nat, id: Id)
    ensures i < |nodes| && nodes[i].id == id && (forall j :: 0 <= j < i ==> nodes[j].id != id)
            ==> SampleOf(nodes, id) == nodes[i].sampleRows
    ensures (forall j :: 0 <= j < |nodes| ==> nodes[j].id != id) ==> SampleOf(nodes, id) == []
  {
    if i < |nodes| && nodes[i].id == id && forall j :: 0 <= j < i ==> nodes[j].id != id {
      FindIsFirst(nodes, i);
    }
  }

  function SourcesOf(incoming: seq<Edge>): seq<Id> {
    seq(|incoming|, i requires 0 <= i < |incoming| => incoming[i].source)
  }

  lemma ParentsListed(edges: seq<Edge>, u: Id, v: Id)
    ensures u in SourcesOf(Incoming(edges, v)) <==> Arc(edges, u, v)
  {
    IncomingMembers(edges, v);
    var inc := Incoming(edges, v);
    if u in SourcesOf(inc) {
      var i :| 0 <= i < |inc| && SourcesOf(inc)[i] == u;
      assert inc[i] in inc;
    }
    if Arc(edges, u, v) {
      var e :| e in edges && e.source == u && e.target == v;
      var i :| 0 <= i < |inc| && inc[i] == e;
      assert SourcesOf(inc)[i] == u;
    }
  }

  /** The walk has reached depth d: the queue holds the nodes of depth d that
      are still to be seen, `level` of them, and behind them nodes of depth
      d + 1; everything nearer is visited, and nothing visited has a sample. */
  ghost predicate AtDepth(start: Id, nodes: seq<Node>, edges: seq<Edge>, d: nat, level: nat, queue: seq<Id>, visited: set<Id>) {
    && d >= 1 && level <= |queue|
    && (forall i :: 0 <= i < level ==> Steps(edges, queue[i], start, d))
    && (forall i :: level <= i < |queue| ==> Steps(edges, queue[i], start, d + 1))
    && (forall v :: v in visited ==> v in Sources(edges) && SampleOf(nodes, v) == [])
    && (forall v, m: nat {:trigger Steps(edges, v, start, m)} :: 1 <= m < d && Steps(edges, v, start, m) ==> v in visited)
    && (forall v {:trigger Steps(edges, v, start, d)} :: Steps(edges, v, start, d) ==> v in visited || v in queue[..level])
    && (forall u, v {:trigger Arc(edges, u, v)} :: v in visited && Arc(edges, u, v) ==> u in visited || u in queue)
  }

  lemma FirstDepth(start: Id, nodes: seq<Node>, edges: seq<Edge>)
    ensures var queue := SourcesOf(Incoming(edges, start)); AtDepth(start, nodes, edges, 1, |queue|, queue, {})
  {
    var queue := SourcesOf(Incoming(edges, start));
    assert queue[..|queue|] == queue;
    forall v
      ensures Steps(edges, v, start, 1) <==> v in queue
    {
      ParentsListed(edges, v, start);
      if Steps(edges, v, start, 1) {
        var m := LastStep(edges, v, start, 1);
      } else if Arc(edges, v, start) {
        StepsOne(edges, v, start);
      }
    }
  }

  /** When a level is used up, the rest of the queue is the next level. */
  lemma NextDepth(start: Id, nodes: seq<Node>, edges: seq<Edge>, d: nat, queue: seq<Id>, visited: set<Id>)
    requires AtDepth(start, nodes, edges, d, 0, queue, visited)
    ensures AtDepth(start, nodes, edges, d + 1, |queue|, queue, visited)
  {
    assert queue[..|queue|] == queue && queue[..0] == [];
    forall v | Steps(edges, v, start, d + 1)
      ensures v in visited || v in queue
    {
      var m :| Arc(edges, v, m) && Steps(edges, m, start, d);
      assert m in visited;
    }
  }

  /** Taking a node without a sample off the queue. */
  lemma VisitNext(start: Id, nodes: seq<Node>, edges: seq<Edge>, d: nat, level: nat, queue: seq<Id>, visited: set<Id>)
    requires AtDepth(start, nodes, edges, d, level, queue, visited) && level > 0
    requires SampleOf(nodes, queue[0]) == []
    ensures AtDepth(start, nodes, edges, d, level - 1, queue[1..] + SourcesOf(Incoming(edges, queue[0])), visited + {queue[0]})
    ensures queue[0] in Sources(edges)
  {
    var id := queue[0];
    var parents := SourcesOf(Incoming(edges, id));
    var queue' := queue[1..] + parents;
    assert queue == [id] + queue[1..];
    assert queue[..level] == [id] + queue'[..level - 1];
    assert Ancestor(edges, id, start);
    AncestorEnds(edges, id, start);
    forall u | u in parents
      ensures Steps(edges, u, start, d + 1)
    {
      ParentsListed(edges, u, id);
    }
    forall i | level - 1 <= i < |queue'|
      ensures Steps(edges, queue'[i], start, d + 1)
    {
      if i < |queue| - 1 {
        assert queue'[i] == queue[i + 1];
      } else {
        assert queue'[i] == parents[i - (|queue| - 1)] && queue'[i] in parents;
      }
    }
    forall u, v | v in visited + {id} && Arc(edges, u, v)
      ensures u in visited + {id} || u in queue'
    {
      ParentsListed(edges, u, id);
    }
  }

  lemma SkipNext(start: Id, nodes: seq<Node>, edges: seq<Edge>, d: nat, level: nat, queue: seq<Id>, visited: set<Id>)
    requires AtDepth(start, nodes, edges, d, level, queue, visited) && level > 0
    requires queue[0] in visited
    ensures AtDepth(start, nodes, edges, d, level - 1, queue[1..], visited)
  {
    assert queue == [queue[0]] + queue[1..];
    assert queue[..level] == [queue[0]] + queue[1..][..level - 1];
  }

  lemma {:induction false} AllVisited(start: Id, nodes: seq<Node>, edges: seq<Edge>, d: nat, visited: set<Id>, v: Id, m: nat)
    requires AtDepth(start, nodes, edges, d, 0, [], visited)
    requires m >= 1 && Steps(edges, v, start, m)
    ensures v in visited
    decreases m
  {
    if m > d {
      var u :| Arc(edges, v, u) && Steps(edges, u, start, m - 1);
      AllVisited(start, nodes, edges, d, visited, u, m - 1);
    }
  }

  /** What the walk returns: nothing when no ancestor has a sample, and
      otherwise the sample of an ancestor with none nearer. */
  ghost predicate NearestSample(start: Id, nodes: seq<Node>, edges: seq<Edge>, rows: seq<int>) {
    if rows == [] then forall a :: Ancestor(edges, a, start) ==> SampleOf(nodes, a) == []
    else exists a, n: nat :: IsNearest(start, nodes, edges, a, n) && SampleOf(nodes, a) == rows
  }

  /** a is n edges away, has a sample, and nothing closer has one. */
  ghost predicate IsNearest(start: Id, nodes: seq<Node>, edges: seq<Edge>, a: Id, n: nat) {
    && n >= 1 && Steps(edges, a, start, n)
    && SampleOf(nodes, a) != []
    && forall b, m: nat {:trigger Steps(edges, b, start, m)} :: 1 <= m < n && Steps(edges, b, start, m) ==> SampleOf(nodes, b) == []
  }

  method ResolveUpstreamSampleRows(nodeId: Option<Id>, nodes: seq<Node>, edges: seq<Edge>) returns (rows: seq<int>)
    ensures nodeId == None ==> rows == []
    ensures nodeId.Some? ==> NearestSample(nodeId.value, nodes, edges, rows)
  {
    if nodeId == None {
      return [];
    }
    ghost var start := nodeId.value;
    var queue := SourcesOf(Incoming(edges, nodeId.value));
    var visited: set<Id> := {};
    ghost var d: nat, level: nat := 1, |queue|;
    FirstDepth(start, nodes, edges);
    while queue != []
      invariant AtDepth(start, nodes, edges, d, level, queue, visited)
      decreases Sources(edges) - visited, |queue|
    {
      if level == 0 {
        NextDepth(start, nodes, edges, d, queue, visited);
        d, level := d + 1, |queue|;
      }
      var id := queue[0];
      if id in visited {
        SkipNext(start, nodes, edges, d, level, queue, visited);
        queue, level := queue[1..], level - 1;
        continue;
      }
      if SampleOf(nodes, id) != [] {
        assert IsNearest(start, nodes, edges, id, d);
        return SampleOf(nodes, id);
      }
      VisitNext(start, nodes, edges, d, level, queue, visited);
      visited := visited + {id};
      queue, level := queue[1..] + SourcesOf(Incoming(edges, id)), level - 1;
    }
    forall a | Ancestor(edges, a, start)
      ensures SampleOf(nodes, a) == []
    {
      var m: nat :| m >= 1 && Steps(edges, a, start, m);
      AllVisited(start, nodes, edges, d, visited, a, m);
    }
    return [];
  }
}
