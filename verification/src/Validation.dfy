/** The cycle check of pipeline validation: Kahn's algorithm with a queue. */
module Validation {
  import opened Graph
  import opened Peeling

  /** The two entries of a node, for the known edges read so far. */
  ghost predicate DegreeOf(known: seq<Edge>, adj: map<Id, seq<Id>>, inDegree: map<Id, int>, v: Id) {
    && v in adj && adj[v] == Targets(known, v)
    && v in inDegree && inDegree[v] == Waiting(known, v, [])
  }

  ghost predicate Degrees(ids: set<Id>, known: seq<Edge>, adj: map<Id, seq<Id>>, inDegree: map<Id, int>) {
    && adj.Keys == inDegree.Keys == ids
    && (forall v {:trigger DegreeOf(known, adj, inDegree, v)} :: v in ids ==> DegreeOf(known, adj, inDegree, v))
  }

  lemma DegreesNext(ids: set<Id>, known: seq<Edge>, adj: map<Id, seq<Id>>, inDegree: map<Id, int>, e: Edge)
    requires Degrees(ids, known, adj, inDegree) && e.source in ids && e.target in ids
    ensures Degrees(ids, known + [e], adj[e.source := adj[e.source] + [e.target]], inDegree[e.target := inDegree[e.target] + 1])
  {
    var adj', inDegree' := adj[e.source := adj[e.source] + [e.target]], inDegree[e.target := inDegree[e.target] + 1];
    forall v | v in ids
      ensures DegreeOf(known + [e], adj', inDegree', v)
    {
      assert DegreeOf(known, adj, inDegree, v);
      CountsSnoc(known, e, v, []);
    }
    assert adj'.Keys == inDegree'.Keys == ids;
  }

  /** True exactly when the edges between existing nodes contain a cycle, or
      when some id is carried by two nodes (the count then cannot come out). */
  method HasCycle(nodeIds: seq<Id>, edges: seq<Edge>) returns (cyclic: bool)
    ensures cyclic <==> Cyclic(KnownEdges(Elements(nodeIds), edges)) || !Distinct(nodeIds)
  {
    var adj: map<Id, seq<Id>> := map[];
    var inDegree: map<Id, int> := map[];
    var order: seq<Id> := [];  // the keys of both maps, in the order of insertion
    for i := 0 to |nodeIds|
      invariant adj.Keys == inDegree.Keys == Elements(order) == Elements(nodeIds[..i])
      invariant Distinct(order)
      invariant forall v :: v in adj ==> adj[v] == [] && inDegree[v] == 0
    {
      var id := nodeIds[i];
      if id !in adj {
        order := order + [id];
      }
      adj := adj[id := []];
      inDegree := inDegree[id := 0];
    }
    assert nodeIds[..|nodeIds|] == nodeIds;

    ghost var ids := Elements(nodeIds);
    for i := 0 to |edges|
      invariant Degrees(ids, KnownEdges(ids, edges[..i]), adj, inDegree)
    {
      KnownEdgesNext(ids, edges, i);
      var e := edges[i];
      if e.source !in adj || e.target !in adj {
        continue;
      }
      assert DegreeOf(KnownEdges(ids, edges[..i]), adj, inDegree, e.source);
      DegreesNext(ids, KnownEdges(ids, edges[..i]), adj, inDegree, e);
      adj := adj[e.source := adj[e.source] + [e.target]];
      inDegree := inDegree[e.target := inDegree[e.target] + 1];
    }
    assert edges[..|edges|] == edges;

    var processed, _ := ProcessAll(ids, edges, adj, inDegree, order);
    CountDecides(nodeIds, edges);
    cyclic := processed != |nodeIds|;
  }

  /** Between two rounds of the queue loop: `placed` holds the processed nodes,
      and the queue exactly the others that no longer wait for anything. */
  ghost predicate QueueState(ids: set<Id>, known: seq<Edge>, inDegree: map<Id, int>, placed: seq<Id>, queue: seq<Id>) {
    && IsPeel(known, placed)
    && Distinct(queue)
    && (forall v :: v in queue ==> v !in placed)
    && Counts(ids, known, inDegree, placed, [], Elements(placed) + Elements(queue))
  }

  lemma QueueStart(ids: set<Id>, known: seq<Edge>, adj: map<Id, seq<Id>>, inDegree: map<Id, int>, queue: seq<Id>)
    requires Degrees(ids, known, adj, inDegree) && Distinct(queue)
    requires forall v :: v in queue <==> v in ids && inDegree[v] == 0
    ensures QueueState(ids, known, inDegree, [], queue)
  {
    forall v | v in ids
      ensures inDegree[v] == Waiting(known, v, []) - Occurrences([], v)
    {
      assert DegreeOf(known, adj, inDegree, v);
    }
  }

  /** Inside a round: the children in `done` of the node `id` are counted down. */
  ghost predicate Counting(ids: set<Id>, known: seq<Edge>, inDegree: map<Id, int>, placed: seq<Id>, id: Id,
                           done: seq<Id>, queue: seq<Id>)
  {
    && id !in placed
    && Distinct(queue)
    && (forall v :: v in queue ==> v !in placed + [id])
    && Counts(ids, known, inDegree, placed, done, Elements(placed + [id]) + Elements(queue))
  }

  lemma QueueTake(ids: set<Id>, known: seq<Edge>, inDegree: map<Id, int>, placed: seq<Id>, id: Id, queue: seq<Id>)
    requires QueueState(ids, known, inDegree, placed, [id] + queue)
    ensures IsPeel(known, placed + [id]) && |placed| < |ids|
    ensures Counting(ids, known, inDegree, placed, id, [], queue)
  {
    var all := [id] + queue;
    assert all[0] == id && all[1..] == queue;
    TakeNext(placed, all);
    WaitingZero(known, id, placed);
    PeelSnoc(known, placed, id);
    PlacedWithin(ids, placed + [id]);
  }

  lemma CountChild(ids: set<Id>, known: seq<Edge>, inDegree: map<Id, int>, placed: seq<Id>, id: Id, j: nat, queue: seq<Id>)
    requires j < |Targets(known, id)| && Targets(known, id)[j] in ids
    requires Counting(ids, known, inDegree, placed, id, Targets(known, id)[..j], queue)
    ensures var child := Targets(known, id)[j];
            && child in inDegree
            && var d := inDegree[child] - 1;
            Counting(ids, known, inDegree[child := d], placed, id, Targets(known, id)[..j + 1],
                     if d == 0 then queue + [child] else queue)
  {
    var child := Targets(known, id)[j];
    var listed := Elements(placed + [id]) + Elements(queue);
    CountOne(ids, known, inDegree, placed, id, j, listed);
    assert listed + {child} == Elements(placed + [id]) + Elements(queue + [child]);
  }

  lemma QueueEnd(ids: set<Id>, edges: seq<Edge>, inDegree: map<Id, int>, placed: seq<Id>)
    requires QueueState(ids, KnownEdges(ids, edges), inDegree, placed, [])
    ensures |placed| == |CycleFreeIds(ids, edges)|
    ensures Elements(placed) == CycleFreeIds(ids, edges)
  {
    assert Elements(placed) + Elements([]) == Elements(placed);
    NothingQueued(ids, KnownEdges(ids, edges), inDegree, placed);
    PeelingPlaces(ids, edges, placed);
  }

  /** The nodes with nothing to wait for, in the order the map lists them. */
  method FirstReady(inDegree: map<Id, int>, order: seq<Id>) returns (queue: seq<Id>)
    requires Distinct(order) && Elements(order) == inDegree.Keys
    ensures Distinct(queue)
    ensures forall v :: v in queue <==> v in inDegree && inDegree[v] == 0
  {
    queue := [];
    for i := 0 to |order|
      invariant Distinct(queue)
      invariant forall v :: v in queue <==> v in order[..i] && inDegree[v] == 0
    {
      if inDegree[order[i]] == 0 {
        queue := queue + [order[i]];
      }
    }
  }

  /** The queue loop: it processes the nodes that no cycle leads to, the same
      ones that the run order lists before its fallback. */
  method ProcessAll(ghost ids: set<Id>, ghost edges: seq<Edge>, adj: map<Id, seq<Id>>, inDegree0: map<Id, int>, order: seq<Id>)
    returns (processed: nat, ghost placed: seq<Id>)
    requires Distinct(order) && Elements(order) == ids
    requires Degrees(ids, KnownEdges(ids, edges), adj, inDegree0)
    ensures processed == |CycleFreeIds(ids, edges)|
    ensures Elements(placed) == CycleFreeIds(ids, edges)
  {
    var inDegree := inDegree0;
    var queue := FirstReady(inDegree, order);
    ghost var known := KnownEdges(ids, edges);
    QueueStart(ids, known, adj, inDegree, queue);

    processed := 0;
    placed := [];
    while queue != []
      invariant processed == |placed| <= |ids|
      invariant QueueState(ids, known, inDegree, placed, queue)
      decreases |ids| - |placed|
    {
      var id := queue[0];
      assert DegreeOf(known, adj, inDegree0, id);
      TargetsKnown(ids, edges, id);
      assert queue == [id] + queue[1..];
      queue := queue[1..];
      processed := processed + 1;
      inDegree, queue := CountDown(ids, known, placed, id, adj[id], inDegree, queue);
      placed := placed + [id];
    }
    QueueEnd(ids, edges, inDegree, placed);
  }

  /** Count down the children of a node that is being processed, queueing those
      that reach zero. */
  method CountDown(ghost ids: set<Id>, ghost known: seq<Edge>, ghost placed: seq<Id>, id: Id, children: seq<Id>,
                   inDegree0: map<Id, int>, queue0: seq<Id>)
    returns (inDegree: map<Id, int>, queue: seq<Id>)
    requires children == Targets(known, id)
    requires forall c :: c in children ==> c in ids
    requires QueueState(ids, known, inDegree0, placed, [id] + queue0)
    ensures QueueState(ids, known, inDegree, placed + [id], queue)
    ensures |placed| < |ids|
  {
    inDegree, queue := inDegree0, queue0;
    QueueTake(ids, known, inDegree, placed, id, queue);
    assert children[..0] == [];
    for j := 0 to |children|
      invariant Counting(ids, known, inDegree, placed, id, children[..j], queue)
    {
      CountChild(ids, known, inDegree, placed, id, j, queue);
      var d := inDegree[children[j]] - 1;
      inDegree := inDegree[children[j] := d];
      if d == 0 {
        queue := queue + [children[j]];
      }
    }
    assert children[..|children|] == children;
    CountedAll(ids, known, inDegree, placed, id, Elements(placed + [id]) + Elements(queue));
  }
}
