/** Peeling a graph: placing nodes one at a time, each after everything it
    waits for. The cycle check and the run order both peel, with different
    choices of the next node; here is what does not depend on the choice. */
module Peeling {
  import opened Graph

  ghost predicate Distinct(p: seq<Id>) {
    forall i, j :: 0 <= i < j < |p| ==> p[i] != p[j]
  }

  /** Every edge into v comes from a placed node. */
  ghost predicate Ready(edges: seq<Edge>, v: Id, placed: seq<Id>) {
    forall e :: e in edges && e.target == v ==> e.source in placed
  }

  ghost predicate IsPeel(edges: seq<Edge>, p: seq<Id>) {
    && Distinct(p)
    && forall i :: 0 <= i < |p| ==> Ready(edges, p[i], p[..i])
  }

  /** Nothing that is left could be placed. */
  ghost predicate Maximal(ids: set<Id>, edges: seq<Edge>, p: seq<Id>) {
    forall v {:trigger Ready(edges, v, p)} :: v in ids && v !in p ==> !Ready(edges, v, p)
  }

  ghost function Elements(p: seq<Id>): set<Id> {
    set v | v in p
  }

  ghost function CycleFreeIds(ids: set<Id>, edges: seq<Edge>): set<Id> {
    set v | v in ids && CycleFree(KnownEdges(ids, edges), v)
  }

  /** Every walk of n edges into a placed node started n places earlier. */
  lemma {:induction false} WalkGoesBack(edges: seq<Edge>, p: seq<Id>, a: Id, i: nat, n: nat) returns (j: nat)
    requires IsPeel(edges, p) && i < |p| && Steps(edges, a, p[i], n)
    ensures j + n <= i && p[j] == a
    decreases n
  {
    if n == 0 {
      j := i;
    } else {
      var m := LastStep(edges, a, p[i], n);
      assert Ready(edges, p[i], p[..i]);
      var k :| 0 <= k < i && p[k] == m;
      j := WalkGoesBack(edges, p, a, k, n - 1);
    }
  }

  lemma PlacedIsCycleFree(edges: seq<Edge>, p: seq<Id>, i: nat)
    requires IsPeel(edges, p) && i < |p|
    ensures CycleFree(edges, p[i])
  {
    forall c | OnCycle(edges, c)
      ensures !Reaches(edges, c, p[i])
    {
      if Reaches(edges, c, p[i]) {
        var n: nat :| Steps(edges, c, p[i], n);
        var j := WalkGoesBack(edges, p, c, i, n);
        var m: nat :| m >= 1 && Steps(edges, c, c, m);
        var j' := WalkGoesBack(edges, p, c, j, m);
        assert false;
      }
    }
  }

  lemma LeftOverIsBehindCycle(ids: set<Id>, edges: seq<Edge>, p: seq<Id>, v: Id)
    requires forall e :: e in edges ==> e.source in ids
    requires Maximal(ids, edges, p) && v in ids && v !in p
    ensures !CycleFree(edges, v)
  {
    var stuck := set u | u in ids && u !in p;
    forall u | u in stuck
      ensures HasPredecessorIn(edges, stuck, u)
    {
      assert !Ready(edges, u, p);
      var e :| e in edges && e.target == u && e.source !in p;
      assert Arc(edges, e.source, u);
    }
    var c := BackIntoCycle(edges, stuck, v, {});
  }

  /** Confluence: whatever ready node is picked at each step, peeling places
      exactly the nodes that no cycle leads to. */
  lemma PeelingPlaces(ids: set<Id>, edges: seq<Edge>, p: seq<Id>)
    requires Elements(p) <= ids
    requires IsPeel(KnownEdges(ids, edges), p) && Maximal(ids, KnownEdges(ids, edges), p)
    ensures Elements(p) == CycleFreeIds(ids, edges)
    ensures |p| == |CycleFreeIds(ids, edges)|
  {
    var known := KnownEdges(ids, edges);
    KnownEdgesMembers(ids, edges);
    forall v | v in ids
      ensures v in p <==> CycleFree(known, v)
    {
      if v in p {
        var i :| 0 <= i < |p| && p[i] == v;
        PlacedIsCycleFree(known, p, i);
      } else {
        LeftOverIsBehindCycle(ids, known, p, v);
      }
    }
    DistinctCount(p);
  }

  lemma {:induction false} DistinctCount(p: seq<Id>)
    requires Distinct(p)
    ensures |Elements(p)| == |p|
  {
    if p != [] {
      var last := |p| - 1;
      DistinctCount(p[..last]);
      assert Elements(p) == Elements(p[..last]) + {p[last]};
    }
  }

  lemma {:induction false} RepeatedCount(p: seq<Id>)
    ensures |Elements(p)| <= |p|
    ensures !Distinct(p) ==> |Elements(p)| < |p|
  {
    if p != [] {
      var last := |p| - 1;
      RepeatedCount(p[..last]);
      assert Elements(p) == Elements(p[..last]) + {p[last]};
      if !Distinct(p) && Distinct(p[..last]) {
        var i, j :| 0 <= i < j < |p| && p[i] == p[j];
        assert j == last && p[last] in Elements(p[..last]);
      }
    }
  }

  /** Taking the next node off the queue and placing it lists nothing new. */
  lemma TakeNext(placed: seq<Id>, queue: seq<Id>)
    requires queue != []
    ensures Elements(placed + [queue[0]]) + Elements(queue[1..]) == Elements(placed) + Elements(queue)
  {
    assert queue == [queue[0]] + queue[1..];
  }

  /** All nodes are free of cycles exactly when the known edges are acyclic. */
  lemma AllCycleFree(ids: set<Id>, edges: seq<Edge>)
    ensures CycleFreeIds(ids, edges) == ids <==> !Cyclic(KnownEdges(ids, edges))
    ensures |CycleFreeIds(ids, edges)| == |ids| <==> !Cyclic(KnownEdges(ids, edges))
    ensures CycleFreeIds(ids, edges) <= ids
  {
    var known := KnownEdges(ids, edges);
    if Cyclic(known) {
      var v :| OnCycle(known, v);
      AncestorEnds(known, v, v);
      KnownEdgesMembers(ids, edges);
      assert Steps(known, v, v, 0);
      assert Reaches(known, v, v);
      assert v in ids - CycleFreeIds(ids, edges);
    }
    assert |ids| == |CycleFreeIds(ids, edges)| + |ids - CycleFreeIds(ids, edges)| by {
      assert ids == CycleFreeIds(ids, edges) + (ids - CycleFreeIds(ids, edges));
    }
  }

  /** Comparing the number of nodes placed with the number of nodes listed. */
  lemma CountDecides(nodeIds: seq<Id>, edges: seq<Edge>)
    ensures |CycleFreeIds(Elements(nodeIds), edges)| != |nodeIds|
       <==> Cyclic(KnownEdges(Elements(nodeIds), edges)) || !Distinct(nodeIds)
  {
    var ids := Elements(nodeIds);
    AllCycleFree(ids, edges);
    RepeatedCount(nodeIds);
    if Distinct(nodeIds) {
      DistinctCount(nodeIds);
    }
    assert |ids| == |CycleFreeIds(ids, edges)| + |ids - CycleFreeIds(ids, edges)| by {
      assert ids == CycleFreeIds(ids, edges) + (ids - CycleFreeIds(ids, edges));
    }
  }

  // What the two algorithms count: edges into a node from unplaced nodes.

  function Waiting(edges: seq<Edge>, v: Id, placed: seq<Id>): nat {
    if edges == [] then 0
    else
      var e := edges[|edges| - 1];
      Waiting(edges[..|edges| - 1], v, placed) + (if e.target == v && e.source !in placed then 1 else 0)
  }

  /** The targets of the edges out of a node, one for each edge. */
  function Targets(edges: seq<Edge>, id: Id): seq<Id> {
    if edges == [] then []
    else
      var e := edges[|edges| - 1];
      var front := Targets(edges[..|edges| - 1], id);
      if e.source == id then front + [e.target] else front
  }

  function Occurrences(s: seq<Id>, v: Id): nat {
    if s == [] then 0 else Occurrences(s[..|s| - 1], v) + (if s[|s| - 1] == v then 1 else 0)
  }

  lemma OccurrencesSnoc(s: seq<Id>, x: Id, v: Id)
    ensures Occurrences(s + [x], v) == Occurrences(s, v) + (if x == v then 1 else 0)
  {
    assert (s + [x])[..|s|] == s;
  }

  lemma {:induction false} OccurrencesNext(s: seq<Id>, j: nat, v: Id)
    requires j < |s|
    ensures Occurrences(s[..j + 1], v) == Occurrences(s[..j], v) + (if s[j] == v then 1 else 0)
    ensures Occurrences(s[..j + 1], v) <= Occurrences(s, v)
    decreases |s|
  {
    assert s[..j + 1][..j] == s[..j];
    if j + 1 == |s| {
      assert s[..j + 1] == s;
    } else {
      var front := s[..|s| - 1];
      OccurrencesNext(front, j, v);
      assert front[..j + 1] == s[..j + 1];
    }
  }

  lemma CountsSnoc(edges: seq<Edge>, e: Edge, v: Id, placed: seq<Id>)
    ensures Waiting(edges + [e], v, placed)
            == Waiting(edges, v, placed) + (if e.target == v && e.source !in placed then 1 else 0)
    ensures Targets(edges + [e], v) == if e.source == v then Targets(edges, v) + [e.target] else Targets(edges, v)
  {
    assert (edges + [e])[..|edges|] == edges;
  }

  lemma {:induction false} WaitingZero(edges: seq<Edge>, v: Id, placed: seq<Id>)
    ensures Waiting(edges, v, placed) == 0 <==> Ready(edges, v, placed)
  {
    if edges != [] {
      var last := |edges| - 1;
      WaitingZero(edges[..last], v, placed);
      assert edges == edges[..last] + [edges[last]];
    }
  }

  /** Placing a node takes one off each count for each of its edges. */
  lemma {:induction false} WaitingAfterPlacing(edges: seq<Edge>, v: Id, placed: seq<Id>, id: Id)
    requires id !in placed
    ensures Waiting(edges, v, placed + [id]) + Occurrences(Targets(edges, id), v) == Waiting(edges, v, placed)
  {
    if edges != [] {
      var front := edges[..|edges| - 1];
      WaitingAfterPlacing(front, v, placed, id);
      OccurrencesSnoc(Targets(front, id), edges[|edges| - 1].target, v);
    }
  }

  lemma {:induction false} TargetsKnown(ids: set<Id>, edges: seq<Edge>, id: Id)
    ensures forall v :: v in Targets(KnownEdges(ids, edges), id) ==> v in ids
  {
    if edges != [] {
      var front := edges[..|edges| - 1];
      TargetsKnown(ids, front, id);
      var e := edges[|edges| - 1];
      CountsSnoc(KnownEdges(ids, front), e, id, []);
      assert e.source in ids && e.target in ids ==> KnownEdges(ids, edges) == KnownEdges(ids, front) + [e];
    }
  }

  lemma PeelSnoc(edges: seq<Edge>, p: seq<Id>, v: Id)
    requires IsPeel(edges, p) && v !in p && Ready(edges, v, p)
    ensures IsPeel(edges, p + [v])
  {
    var q := p + [v];
    forall i | 0 <= i < |q|
      ensures Ready(edges, q[i], q[..i])
    {
      if i < |p| {
        assert q[..i] == p[..i] && q[i] == p[i];
      } else {
        assert q[..i] == p;
      }
    }
  }

  /** What both algorithms know while the edges of one placed node are counted
      down: the edges in `done` already are, and the nodes whose count has
      reached zero are exactly the ones listed (placed, or queued to be). */
  ghost predicate Counts(ids: set<Id>, known: seq<Edge>, count: map<Id, int>, placed: seq<Id>, done: seq<Id>, listed: set<Id>) {
    && count.Keys == ids
    && listed <= ids
    && (forall v :: v in ids ==> count[v] == Waiting(known, v, placed) - Occurrences(done, v))
    && (forall v :: v in ids ==> (v in listed <==> count[v] == 0))
  }

  lemma CountOne(ids: set<Id>, known: seq<Edge>, count: map<Id, int>, placed: seq<Id>, id: Id, j: nat, listed: set<Id>)
    requires id !in placed && j < |Targets(known, id)| && Targets(known, id)[j] in ids
    requires Counts(ids, known, count, placed, Targets(known, id)[..j], listed)
    ensures var child := Targets(known, id)[j];
            && child !in listed
            && var d := count[child] - 1;
            Counts(ids, known, count[child := d], placed, Targets(known, id)[..j + 1], if d == 0 then listed + {child} else listed)
  {
    var all := Targets(known, id);
    var child := all[j];
    WaitingAfterPlacing(known, child, placed, id);
    OccurrencesNext(all, j, child);
    var d := count[child] - 1;
    forall v | v in ids
      ensures count[child := d][v] == Waiting(known, v, placed) - Occurrences(all[..j + 1], v)
    {
      OccurrencesNext(all, j, v);
    }
  }

  lemma CountedAll(ids: set<Id>, known: seq<Edge>, count: map<Id, int>, placed: seq<Id>, id: Id, listed: set<Id>)
    requires id !in placed
    requires Counts(ids, known, count, placed, Targets(known, id), listed)
    ensures Counts(ids, known, count, placed + [id], [], listed)
  {
    forall v | v in ids
      ensures count[v] == Waiting(known, v, placed + [id]) - Occurrences([], v)
    {
      WaitingAfterPlacing(known, v, placed, id);
    }
  }

  lemma NothingQueued(ids: set<Id>, known: seq<Edge>, count: map<Id, int>, placed: seq<Id>)
    requires Counts(ids, known, count, placed, [], Elements(placed))
    ensures Maximal(ids, known, placed)
  {
    forall v | v in ids && v !in placed
      ensures !Ready(known, v, placed)
    {
      WaitingZero(known, v, placed);
    }
  }

  lemma PlacedWithin(ids: set<Id>, placed: seq<Id>)
    requires Distinct(placed) && Elements(placed) <= ids
    ensures |placed| <= |ids|
  {
    DistinctCount(placed);
    assert |ids| == |Elements(placed)| + |ids - Elements(placed)| by {
      assert ids == Elements(placed) + (ids - Elements(placed));
    }
  }
}
