/** Directed graphs as the pipeline editor holds them: a list of edges between
    string ids. Parallel edges, self-loops and edges to ids that name no node
    are all allowed. */
module Graph {
  /** Node ids are only ever compared for equality. */
  type Id(==, !new)

  datatype Option<+T> = None | Some(value: T)

  datatype Edge = Edge(source: Id, target: Id, sourceHandle: Option<string>, targetHandle: Option<string>)

  ghost predicate Arc(edges: seq<Edge>, a: Id, b: Id) {
    exists e :: e in edges && e.source == a && e.target == b
  }

  /** b is reached from a along exactly n edges. */
  ghost predicate Steps(edges: seq<Edge>, a: Id, b: Id, n: nat)
    decreases n
  {
    if n == 0 then a == b
    else exists m :: Arc(edges, a, m) && Steps(edges, m, b, n - 1)
  }

  ghost predicate Reaches(edges: seq<Edge>, a: Id, b: Id) {
    exists n: nat :: Steps(edges, a, b, n)
  }

  /** a is an ancestor of b: at least one edge leads from a to b. */
  ghost predicate Ancestor(edges: seq<Edge>, a: Id, b: Id) {
    exists n: nat :: n >= 1 && Steps(edges, a, b, n)
  }

  ghost predicate OnCycle(edges: seq<Edge>, v: Id) {
    Ancestor(edges, v, v)
  }

  ghost predicate Cyclic(edges: seq<Edge>) {
    exists v :: OnCycle(edges, v)
  }

  /** No cycle leads to v. */
  ghost predicate CycleFree(edges: seq<Edge>, v: Id) {
    forall c :: OnCycle(edges, c) ==> !Reaches(edges, c, v)
  }

  /** The edges whose two ends both name a node, in order. */
  function KnownEdges(ids: set<Id>, edges: seq<Edge>): seq<Edge> {
    if edges == [] then []
    else
      var e := edges[|edges| - 1];
      var front := KnownEdges(ids, edges[..|edges| - 1]);
      if e.source in ids && e.target in ids then front + [e] else front
  }

  lemma {:induction false} KnownEdgesMembers(ids: set<Id>, edges: seq<Edge>)
    ensures forall e :: e in KnownEdges(ids, edges) <==> e in edges && e.source in ids && e.target in ids
  {
    if edges != [] {
      KnownEdgesMembers(ids, edges[..|edges| - 1]);
      assert edges == edges[..|edges| - 1] + [edges[|edges| - 1]];
    }
  }

  lemma KnownEdgesNext(ids: set<Id>, edges: seq<Edge>, i: nat)
    requires i < |edges|
    ensures KnownEdges(ids, edges[..i + 1])
            == if edges[i].source in ids && edges[i].target in ids
               then KnownEdges(ids, edges[..i]) + [edges[i]]
               else KnownEdges(ids, edges[..i])
  {
    assert edges[..i + 1][..i] == edges[..i];
  }

  lemma {:induction false} StepsCompose(edges: seq<Edge>, a: Id, b: Id, c: Id, m: nat, n: nat)
    requires Steps(edges, a, b, m) && Steps(edges, b, c, n)
    ensures Steps(edges, a, c, m + n)
    decreases m
  {
    if m > 0 {
      var x :| Arc(edges, a, x) && Steps(edges, x, b, m - 1);
      StepsCompose(edges, x, b, c, m - 1, n);
    }
  }

  lemma StepsOne(edges: seq<Edge>, a: Id, b: Id)
    requires Arc(edges, a, b)
    ensures Steps(edges, a, b, 1)
    ensures Ancestor(edges, a, b)
  {
    assert Steps(edges, b, b, 0);
  }

  lemma ArcThenReaches(edges: seq<Edge>, a: Id, b: Id, c: Id)
    requires Arc(edges, a, b) && Reaches(edges, b, c)
    ensures Ancestor(edges, a, c)
  {
    var n: nat :| Steps(edges, b, c, n);
    assert Steps(edges, a, c, n + 1);
  }

  lemma ReachesThenArc(edges: seq<Edge>, a: Id, b: Id, c: Id)
    requires Reaches(edges, a, b) && Arc(edges, b, c)
    ensures Ancestor(edges, a, c)
  {
    var n: nat :| Steps(edges, a, b, n);
    StepsOne(edges, b, c);
    StepsCompose(edges, a, b, c, n, 1);
  }

  lemma AncestorReaches(edges: seq<Edge>, a: Id, b: Id)
    requires Ancestor(edges, a, b)
    ensures Reaches(edges, a, b)
  {
    var n: nat :| n >= 1 && Steps(edges, a, b, n);
  }

  lemma AncestorTransitive(edges: seq<Edge>, a: Id, b: Id, c: Id)
    requires Ancestor(edges, a, b) && Ancestor(edges, b, c)
    ensures Ancestor(edges, a, c)
  {
    var m: nat :| m >= 1 && Steps(edges, a, b, m);
    var n: nat :| n >= 1 && Steps(edges, b, c, n);
    StepsCompose(edges, a, b, c, m, n);
  }

  /** An ancestor is a source of some edge, and a descendant a target. */
  lemma {:induction false} AncestorEnds(edges: seq<Edge>, a: Id, b: Id)
    requires Ancestor(edges, a, b)
    ensures exists e :: e in edges && e.source == a
    ensures exists e :: e in edges && e.target == b
  {
    var n: nat :| n >= 1 && Steps(edges, a, b, n);
    var m :| Arc(edges, a, m) && Steps(edges, m, b, n - 1);
    if n > 1 {
      assert Ancestor(edges, m, b);
      AncestorEnds'(edges, m, b, n - 1);
    }
  }

  lemma {:induction false} AncestorEnds'(edges: seq<Edge>, a: Id, b: Id, n: nat)
    requires n >= 1 && Steps(edges, a, b, n)
    ensures exists e :: e in edges && e.target == b
    decreases n
  {
    var m :| Arc(edges, a, m) && Steps(edges, m, b, n - 1);
    if n > 1 {
      AncestorEnds'(edges, m, b, n - 1);
    }
  }

  /** The last edge of a walk. */
  lemma {:induction false} LastStep(edges: seq<Edge>, a: Id, b: Id, n: nat) returns (m: Id)
    requires n >= 1 && Steps(edges, a, b, n)
    ensures Steps(edges, a, m, n - 1) && Arc(edges, m, b)
    decreases n
  {
    var x :| Arc(edges, a, x) && Steps(edges, x, b, n - 1);
    if n == 1 {
      m := a;
    } else {
      m := LastStep(edges, x, b, n - 1);
    }
  }

  ghost predicate HasPredecessorIn(edges: seq<Edge>, stuck: set<Id>, u: Id) {
    exists p :: p in stuck && Arc(edges, p, u)
  }

  /** If every member of a finite set has a predecessor in the set, following
      predecessors from any member runs into a cycle that leads back to it. */
  lemma {:induction false} BackIntoCycle(edges: seq<Edge>, stuck: set<Id>, v: Id, seen: set<Id>) returns (c: Id)
    requires v in stuck && v !in seen && seen <= stuck
    requires forall s :: s in seen ==> Ancestor(edges, v, s)
    requires forall u {:trigger HasPredecessorIn(edges, stuck, u)} :: u in stuck ==> HasPredecessorIn(edges, stuck, u)
    ensures OnCycle(edges, c) && Reaches(edges, c, v)
    decreases stuck - seen
  {
    assert HasPredecessorIn(edges, stuck, v);
    var p :| p in stuck && Arc(edges, p, v);
    StepsOne(edges, p, v);
    AncestorReaches(edges, p, v);
    if p == v || p in seen {
      c := p;
      if p in seen {
        AncestorTransitive(edges, p, v, p);
      }
    } else {
      forall s | s in seen + {v}
        ensures Ancestor(edges, p, s)
      {
        if s != v {
          AncestorTransitive(edges, p, v, s);
        }
      }
      c := BackIntoCycle(edges, stuck, p, seen + {v});
      ReachesThenArc(edges, c, p, v);
      AncestorReaches(edges, c, v);
    }
  }

  /** Everything with an edge out of it; every ancestor is one. */
  ghost function Sources(edges: seq<Edge>): set<Id> {
    set e | e in edges :: e.source
  }

  ghost function Ancestors(edges: seq<Edge>, v: Id): set<Id> {
    set a | a in Sources(edges) && Ancestor(edges, a, v)
  }

  lemma AncestorsComplete(edges: seq<Edge>, a: Id, v: Id)
    ensures a in Ancestors(edges, v) <==> Ancestor(edges, a, v)
  {
    if Ancestor(edges, a, v) {
      AncestorEnds(edges, a, v);
    }
  }

  /** Along an edge from a node on no cycle the set of ancestors grows strictly:
      the measure on which every walk towards the sources terminates. */
  lemma AncestorsShrink(edges: seq<Edge>, u: Id, v: Id)
    requires !OnCycle(edges, u) && Arc(edges, u, v)
    ensures Ancestors(edges, u) < Ancestors(edges, v)
  {
    StepsOne(edges, u, v);
    AncestorsComplete(edges, u, v);
    AncestorsComplete(edges, u, u);
    forall a | a in Ancestors(edges, u)
      ensures a in Ancestors(edges, v)
    {
      AncestorTransitive(edges, a, u, v);
    }
  }
}
