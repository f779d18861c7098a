/** The listing of a pipeline is a function of what the canvas shows: which
    steps there are, where they stand and which are linked. */
module Layout {
  import opened Graph
  import opened Peeling
  import opened Sorting
  import opened PipelineDoc

  ghost predicate SameArcs(e1: seq<Edge>, e2: seq<Edge>) {
    forall u, v :: Arc(e1, u, v) <==> Arc(e2, u, v)
  }

  lemma {:induction false} SameSteps(e1: seq<Edge>, e2: seq<Edge>, u: Id, v: Id, n: nat)
    requires SameArcs(e1, e2) && Steps(e1, u, v, n)
    ensures Steps(e2, u, v, n)
    decreases n
  {
    if n > 0 {
      var m :| Arc(e1, u, m) && Steps(e1, m, v, n - 1);
      SameSteps(e1, e2, m, v, n - 1);
    }
  }

  lemma SameReach(e1: seq<Edge>, e2: seq<Edge>, u: Id, v: Id)
    requires SameArcs(e1, e2)
    ensures Reaches(e1, u, v) ==> Reaches(e2, u, v)
    ensures Ancestor(e1, u, v) ==> Ancestor(e2, u, v)
  {
    forall n: nat | Steps(e1, u, v, n)
      ensures Steps(e2, u, v, n)
    {
      SameSteps(e1, e2, u, v, n);
    }
  }

  lemma SameCycleFree(ids: set<Id>, e1: seq<Edge>, e2: seq<Edge>)
    requires SameArcs(e1, e2)
    ensures SameArcs(KnownEdges(ids, e1), KnownEdges(ids, e2))
    ensures CycleFreeIds(ids, e1) == CycleFreeIds(ids, e2)
  {
    KnownEdgesMembers(ids, e1);
    KnownEdgesMembers(ids, e2);
    var k1, k2 := KnownEdges(ids, e1), KnownEdges(ids, e2);
    forall u, v
      ensures Arc(k1, u, v) <==> Arc(k2, u, v)
    {
      assert Arc(k1, u, v) <==> Arc(e1, u, v) && u in ids && v in ids;
      assert Arc(k2, u, v) <==> Arc(e2, u, v) && u in ids && v in ids;
    }
    forall u, v
      ensures Reaches(k1, u, v) <==> Reaches(k2, u, v)
      ensures Ancestor(k1, u, v) <==> Ancestor(k2, u, v)
    {
      SameReach(k1, k2, u, v);
      SameReach(k2, k1, u, v);
    }
  }

  lemma SameReady(e1: seq<Edge>, e2: seq<Edge>, v: Id, placed: seq<Id>)
    requires SameArcs(e1, e2) && Ready(e1, v, placed)
    ensures Ready(e2, v, placed)
  {
    forall e | e in e2 && e.target == v
      ensures e.source in placed
    {
      assert Arc(e2, e.source, v);
      assert Arc(e1, e.source, v);
    }
  }

  ghost predicate PlacesDiffer(steps: seq<Step>) {
    forall s, t :: s in steps && t in steps && ByPlace(s, t) && ByPlace(t, s) ==> s == t
  }

  /** The greedy peel of a layout is unique. */
  lemma {:induction false} GreedyUnique(steps: seq<Step>, known: seq<Edge>, a: seq<Step>, b: seq<Step>, k: nat)
    requires PlacesDiffer(steps) && k <= |a| && k <= |b|
    requires forall s :: s in a || s in b ==> s in steps
    requires IsPeel(known, IdsOf(a)) && IsPeel(known, IdsOf(b))
    requires Greedy(steps, known, a) && Greedy(steps, known, b)
    ensures a[..k] == b[..k]
  {
    if k > 0 {
      var i := k - 1;
      GreedyUnique(steps, known, a, b, i);
      SamePick(steps, known, a, b, i);
      OneMore(a, b, i);
    }
  }

  lemma OneMore(a: seq<Step>, b: seq<Step>, i: nat)
    requires i < |a| && i < |b| && a[..i] == b[..i] && a[i] == b[i]
    ensures a[..i + 1] == b[..i + 1]
  {
    assert a[..i + 1] == a[..i] + [a[i]] && b[..i + 1] == b[..i] + [b[i]];
  }

  lemma SamePick(steps: seq<Step>, known: seq<Edge>, a: seq<Step>, b: seq<Step>, i: nat)
    requires PlacesDiffer(steps) && i < |a| && i < |b| && a[..i] == b[..i] && a[i] in steps && b[i] in steps
    requires IsPeel(known, IdsOf(a)) && IsPeel(known, IdsOf(b))
    requires Greedy(steps, known, a) && Greedy(steps, known, b)
    ensures a[i] == b[i]
  {
    NextIsReady(known, a, i);
    NextIsReady(known, b, i);
    PickedFirst(steps, known, a, i, b[i]);
    PickedFirst(steps, known, b, i, a[i]);
  }

  lemma PickedFirst(steps: seq<Step>, known: seq<Edge>, a: seq<Step>, i: nat, s: Step)
    requires Greedy(steps, known, a) && i < |a| && s in steps
    requires s.id !in IdsOf(a[..i]) && Ready(known, s.id, IdsOf(a[..i]))
    ensures ByPlace(a[i], s)
  {
  }

  lemma NextIsReady(known: seq<Edge>, a: seq<Step>, i: nat)
    requires IsPeel(known, IdsOf(a)) && i < |a|
    ensures a[i].id !in IdsOf(a[..i]) && Ready(known, a[i].id, IdsOf(a[..i]))
  {
    assert IdsOf(a)[..i] == IdsOf(a[..i]);
    assert IdsOf(a)[i] == a[i].id;
  }

  lemma SameRest(s1: seq<Step>, s2: seq<Step>, placed: seq<Step>)
    requires multiset(s1) == multiset(s2) && PlacesDiffer(s1)
    ensures Rest(s1, placed) == Rest(s2, placed)
  {
    RestUnique(s1, s2, (s: Step) => s.id !in IdsOf(placed));
  }

  lemma SamePlaced(s1: seq<Step>, s2: seq<Step>, k1: seq<Edge>, k2: seq<Edge>, a: seq<Step>, b: seq<Step>)
    requires PlacesDiffer(s1) && SameArcs(k1, k2) && |a| == |b|
    requires (forall s :: s in s1 <==> s in s2) && forall s :: s in a || s in b ==> s in s1
    requires IsPeel(k1, IdsOf(a)) && Greedy(s1, k1, a)
    requires IsPeel(k2, IdsOf(b)) && Greedy(s2, k2, b)
    ensures a == b
  {
    PeelTransfers(s1, s2, k2, k1, b);
    GreedyUnique(s1, k1, a, b, |a|);
    assert a[..|a|] == a && b[..|b|] == b;
  }

  /** Storing the same steps and links in another order changes nothing. */
  lemma ListingFollowsLayout(s1: seq<Step>, s2: seq<Step>, e1: seq<Edge>, e2: seq<Edge>, a: seq<Step>, b: seq<Step>)
    requires multiset(s1) == multiset(s2) && SameArcs(e1, e2) && PlacesDiffer(s1)
    ensures IsRunOrder(s1, e1, a) && IsRunOrder(s2, e2, b) ==> a == b
  {
    if IsRunOrder(s1, e1, a) && IsRunOrder(s2, e2, b) {
      SameMembersSameIds(s1, s2);
      var ids := Elements(IdsOf(s1));
      SameCycleFree(ids, e1, e2);
      var k := |CycleFreeIds(ids, e1)|;
      SameMembers(s1, s2);
      SameMembers(a, s1);
      SameMembers(b, s2);
      SamePlaced(s1, s2, KnownEdges(ids, e1), KnownEdges(ids, e2), a[..k], b[..k]);
      SameRest(s1, s2, a[..k]);
      TwoParts(a, b, k);
    }
  }

  lemma TwoParts(a: seq<Step>, b: seq<Step>, k: nat)
    requires k <= |a| && k <= |b| && a[..k] == b[..k] && a[k..] == b[k..]
    ensures a == b
  {
    assert a == a[..k] + a[k..] && b == b[..k] + b[k..];
  }

  lemma SameMembers(s: seq<Step>, t: seq<Step>)
    requires multiset(s) == multiset(t)
    ensures forall x :: x in s <==> x in t
  {
    forall x
      ensures x in s <==> x in t
    {
      assert x in multiset(s) <==> x in multiset(t);
    }
  }

  lemma PeelTransfers(s1: seq<Step>, s2: seq<Step>, k2: seq<Edge>, k1: seq<Edge>, b: seq<Step>)
    requires SameArcs(k1, k2) && forall x :: x in s1 <==> x in s2
    requires IsPeel(k2, IdsOf(b)) && Greedy(s2, k2, b)
    ensures IsPeel(k1, IdsOf(b)) && Greedy(s1, k1, b)
  {
    forall i | 0 <= i < |b|
      ensures Ready(k1, IdsOf(b)[i], IdsOf(b)[..i])
    {
      SameReady(k2, k1, IdsOf(b)[i], IdsOf(b)[..i]);
    }
    forall i, s | 0 <= i < |b| && s in s1 && s.id !in IdsOf(b[..i]) && Ready(k1, s.id, IdsOf(b[..i]))
      ensures ByPlace(b[i], s)
    {
      SameReady(k1, k2, s.id, IdsOf(b[..i]));
    }
  }

  lemma RestUnique(s1: seq<Step>, s2: seq<Step>, keep: Step -> bool)
    requires multiset(s1) == multiset(s2) && PlacesDiffer(s1)
    ensures Sort(Filter(s1, keep), ByPlace) == Sort(Filter(s2, keep), ByPlace)
  {
    var f1, f2 := Filter(s1, keep), Filter(s2, keep);
    ByPlaceOrders();
    SortCorrect(f1, ByPlace);
    SortCorrect(f2, ByPlace);
    FilterPermutes(s1, keep);
    FilterPermutes(s2, keep);
    FilterMembers(s1, keep);
    assert multiset(f1) == multiset(f2);
    SortedUnique(Sort(f1, ByPlace), Sort(f2, ByPlace), (set s | s in s1), ByPlace);
  }

  lemma {:induction false} FilterPermutes(s: seq<Step>, keep: Step -> bool)
    ensures forall x :: multiset(Filter(s, keep))[x] == if keep(x) then multiset(s)[x] else 0
  {
    if s != [] {
      FilterPermutes(s[..|s| - 1], keep);
      assert s == s[..|s| - 1] + [s[|s| - 1]];
    }
  }
}
