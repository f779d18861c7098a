/** The order in which the documentation of a pipeline lists its steps. */
module PipelineDoc {
  import opened Graph
  import opened Peeling
  import opened Sorting

  /** A step, as far as its place in the order depends on it. */
  datatype Step = Step(id: Id, x: real, y: real)

  /** a may be listed before b: further left, or as far left and not lower. */
  predicate ByPlace(a: Step, b: Step) {
    a.x < b.x || (a.x == b.x && a.y <= b.y)
  }

  lemma ByPlaceOrders()
    ensures TotalPreorder(ByPlace)
  {
  }

  function IdsOf(steps: seq<Step>): seq<Id> {
    seq(|steps|, i requires 0 <= i < |steps| => steps[i].id)
  }

  /** Each step listed stands first, by place, among all that were ready then. */
  ghost predicate Greedy(steps: seq<Step>, known: seq<Edge>, order: seq<Step>) {
    forall i, s :: 0 <= i < |order| && s in steps && s.id !in IdsOf(order[..i]) && Ready(known, s.id, IdsOf(order[..i]))
      ==> ByPlace(order[i], s)
  }

  /** The steps that are not placed, sorted by place. */
  function Rest(steps: seq<Step>, placed: seq<Step>): seq<Step> {
    Sort(Filter(steps, (s: Step) => s.id !in IdsOf(placed)), ByPlace)
  }

  /** The steps no cycle leads to are listed first, each after its predecessors
      and always the first by place; the others follow, sorted by place. */
  ghost predicate IsRunOrder(steps: seq<Step>, edges: seq<Edge>, order: seq<Step>) {
    var ids := Elements(IdsOf(steps));
    var known := KnownEdges(ids, edges);
    var free := CycleFreeIds(ids, edges);
    && multiset(order) == multiset(steps)
    && |free| <= |order|
    && var placed := order[..|free|];
    && Elements(IdsOf(placed)) == free
    && IsPeel(known, IdsOf(placed))
    && Greedy(steps, known, placed)
    && order[|free|..] == Rest(steps, placed)
  }

  /** The fallback for cycles is empty exactly when there is no cycle, that is
      exactly when validation finds none. */
  lemma FallbackIffCyclic(steps: seq<Step>, edges: seq<Edge>, order: seq<Step>)
    requires Distinct(IdsOf(steps))
    ensures var ids := Elements(IdsOf(steps));
            IsRunOrder(steps, edges, order) ==>
              (order[|CycleFreeIds(ids, edges)|..] == [] <==> !Cyclic(KnownEdges(ids, edges)))
  {
    CountDecides(IdsOf(steps), edges);
    if IsRunOrder(steps, edges, order) {
      assert |order| == |multiset(order)| == |multiset(steps)| == |steps|;
    }
  }

  /** Every link into a step that no cycle leads to points forward; without
      cycles, every link does. */
  lemma LinksPointForward(steps: seq<Step>, edges: seq<Edge>, order: seq<Step>, e: Edge, i: nat)
    requires Distinct(IdsOf(steps))
    ensures var ids := Elements(IdsOf(steps));
            var known := KnownEdges(ids, edges);
            IsRunOrder(steps, edges, order)
            && e in known && i < |order| && order[i].id == e.target && (i < |CycleFreeIds(ids, edges)| || !Cyclic(known))
            ==> exists j :: 0 <= j < i && order[j].id == e.source
  {
    var ids := Elements(IdsOf(steps));
    var known, free := KnownEdges(ids, edges), |CycleFreeIds(ids, edges)|;
    FallbackIffCyclic(steps, edges, order);
    if IsRunOrder(steps, edges, order) && e in known && i < |order| && order[i].id == e.target && (i < free || !Cyclic(known)) {
      var placed := order[..free];
      assert Ready(known, IdsOf(placed)[i], IdsOf(placed)[..i]);
      var j :| 0 <= j < i && IdsOf(placed)[..i][j] == e.source;
      assert order[j].id == e.source;
    }
  }

  /** Place by place: of the steps whose known predecessors are all listed, the one
      furthest left comes next, and of those the one furthest up. */
  lemma OrderIsByPosition(steps: seq<Step>, edges: seq<Edge>, order: seq<Step>, i: nat, s: Step)
    requires Distinct(IdsOf(steps))
    ensures var ids := Elements(IdsOf(steps));
            IsRunOrder(steps, edges, order) && i < |CycleFreeIds(ids, edges)| && s in steps
            && s.id !in IdsOf(order[..i]) && Ready(KnownEdges(ids, edges), s.id, IdsOf(order[..i]))
            ==> order[i].x < s.x || (order[i].x == s.x && order[i].y <= s.y)
  {
    var free := |CycleFreeIds(Elements(IdsOf(steps)), edges)|;
    if IsRunOrder(steps, edges, order) && i < free {
      assert order[..free][..i] == order[..i] && order[..free][i] == order[i];
    }
  }

  /** The steps behind cycles follow from left to right, and from top to bottom. */
  lemma RestIsByPosition(steps: seq<Step>, edges: seq<Edge>, order: seq<Step>, i: nat, j: nat)
    requires Distinct(IdsOf(steps))
    ensures IsRunOrder(steps, edges, order) && |CycleFreeIds(Elements(IdsOf(steps)), edges)| <= i < j < |order|
            ==> order[i].x < order[j].x || (order[i].x == order[j].x && order[i].y <= order[j].y)
  {
    var free := |CycleFreeIds(Elements(IdsOf(steps)), edges)|;
    if IsRunOrder(steps, edges, order) && free <= i < j < |order| {
      RestIsSorted(steps, order[..free]);
      assert order[free..][i - free] == order[i] && order[free..][j - free] == order[j];
    }
  }

  lemma RestIsSorted(steps: seq<Step>, placed: seq<Step>)
    ensures Sorted(Rest(steps, placed), ByPlace)
  {
    ByPlaceOrders();
    SortCorrect(Filter(steps, (s: Step) => s.id !in IdsOf(placed)), ByPlace);
  }

  // The loop: ----------------------------------------------------------------

  lemma MemberTwice(s: seq<Step>, i: nat, j: nat)
    requires i < j < |s| && s[i] == s[j]
    ensures multiset(s)[s[i]] >= 2
  {
    assert s == s[..j] + [s[j]] + s[j + 1..];
    assert s[i] in s[..j];
  }

  lemma {:induction false} DistinctSingle(s: seq<Step>, x: Step)
    requires Distinct(IdsOf(s))
    ensures multiset(s)[x] <= 1
  {
    if s != [] {
      var front := s[..|s| - 1];
      assert IdsOf(front) == IdsOf(s)[..|s| - 1];
      DistinctSingle(front, x);
      assert s == front + [s[|s| - 1]];
      if x in front {
        var i :| 0 <= i < |front| && front[i] == x;
        assert IdsOf(s)[i] == x.id && IdsOf(s)[i] != IdsOf(s)[|s| - 1];
      }
    }
  }

  /** Steps picked from a list with distinct ids have distinct ids. */
  lemma PickedAreDistinct(steps: seq<Step>, picked: seq<Step>)
    requires Distinct(IdsOf(steps)) && multiset(picked) <= multiset(steps)
    ensures Distinct(IdsOf(picked))
    ensures forall s :: s in picked ==> s in steps
  {
    forall s | s in picked
      ensures s in steps
    {
      assert s in multiset(picked);
    }
    forall i, j | 0 <= i < j < |picked|
      ensures picked[i].id != picked[j].id
    {
      if picked[i].id == picked[j].id {
        SameIdSameStep(steps, picked[i], picked[j]);
        MemberTwice(picked, i, j);
        DistinctSingle(steps, picked[i]);
      }
    }
  }

  lemma SameIdSameStep(steps: seq<Step>, a: Step, b: Step)
    requires Distinct(IdsOf(steps)) && a in steps && b in steps && a.id == b.id
    ensures a == b
  {
    var i :| 0 <= i < |steps| && steps[i] == a;
    var j :| 0 <= j < |steps| && steps[j] == b;
    assert IdsOf(steps)[i] == IdsOf(steps)[j];
  }

  /** The listed steps come from `steps`, none twice. */
  ghost predicate Picked(steps: seq<Step>, order: seq<Step>, ready: seq<Step>) {
    multiset(order) + multiset(ready) <= multiset(steps)
  }

  ghost function Listed(order: seq<Step>, ready: seq<Step>): set<Id> {
    Elements(IdsOf(order)) + Elements(IdsOf(ready))
  }

  ghost predicate ReadyState(steps: seq<Step>, known: seq<Edge>, waiting: map<Id, int>, order: seq<Step>, ready: seq<Step>) {
    && Picked(steps, order, ready)
    && Sorted(ready, ByPlace)
    && IsPeel(known, IdsOf(order))
    && Greedy(steps, known, order)
    && Counts(Elements(IdsOf(steps)), known, waiting, IdsOf(order), [], Listed(order, ready))
  }

  lemma PickedApart(steps: seq<Step>, order: seq<Step>, ready: seq<Step>)
    requires Distinct(IdsOf(steps)) && Picked(steps, order, ready)
    ensures forall r :: r in ready ==> r in steps && r.id !in IdsOf(order)
    ensures Distinct(IdsOf(ready))
    ensures |order| + |ready| <= |steps|
  {
    assert multiset(order + ready) == multiset(order) + multiset(ready);
    PickedAreDistinct(steps, order + ready);
    PickedAreDistinct(steps, ready);
    forall r | r in ready
      ensures r.id !in IdsOf(order)
    {
      var j :| 0 <= j < |ready| && ready[j] == r;
      assert IdsOf(order + ready)[|order| + j] == r.id;
      forall i | 0 <= i < |order|
        ensures IdsOf(order)[i] != r.id
      {
        assert IdsOf(order + ready)[i] == IdsOf(order)[i];
      }
    }
    assert multiset(steps) == multiset(order + ready) + (multiset(steps) - multiset(order + ready));
    assert |multiset(steps)| == |steps| && |multiset(order + ready)| == |order + ready|;
  }

  /** Everything that is ready and not yet listed waits in `ready`. */
  lemma ReadyComplete(steps: seq<Step>, known: seq<Edge>, waiting: map<Id, int>, order: seq<Step>, ready: seq<Step>, s: Step)
    requires Distinct(IdsOf(steps)) && Picked(steps, order, ready)
    requires Counts(Elements(IdsOf(steps)), known, waiting, IdsOf(order), [], Listed(order, ready))
    requires s in steps && s.id !in IdsOf(order) && Ready(known, s.id, IdsOf(order))
    ensures s in ready
  {
    var k :| 0 <= k < |steps| && steps[k] == s;
    assert IdsOf(steps)[k] == s.id;
    WaitingZero(known, s.id, IdsOf(order));
    assert waiting[s.id] == 0;
    var j :| 0 <= j < |ready| && IdsOf(ready)[j] == s.id;
    PickedApart(steps, order, ready);
    SameIdSameStep(steps, ready[j], s);
  }

  lemma IdsSnoc(steps: seq<Step>, s: Step)
    ensures IdsOf(steps + [s]) == IdsOf(steps) + [s.id]
  {
  }

  lemma GreedySnoc(steps: seq<Step>, known: seq<Edge>, order: seq<Step>, s: Step)
    requires Greedy(steps, known, order)
    requires forall t :: t in steps && t.id !in IdsOf(order) && Ready(known, t.id, IdsOf(order)) ==> ByPlace(s, t)
    ensures Greedy(steps, known, order + [s])
  {
    forall i, t | 0 <= i < |order + [s]| && t in steps && t.id !in IdsOf((order + [s])[..i])
                  && Ready(known, t.id, IdsOf((order + [s])[..i]))
      ensures ByPlace((order + [s])[i], t)
    {
      assert (order + [s])[..i] == order[..i];
      if i == |order| {
        assert order[..i] == order;
      }
    }
  }

  /** Inside a round: the step just listed is the last of `order`, and the
      edges in `done` out of it are counted down. */
  ghost predicate Counting(steps: seq<Step>, known: seq<Edge>, waiting: map<Id, int>, order: seq<Step>, s: Step,
                           done: seq<Id>, ready: seq<Step>)
  {
    && s.id !in IdsOf(order)
    && Picked(steps, order + [s], ready)
    && Sorted(ready, ByPlace)
    && Counts(Elements(IdsOf(steps)), known, waiting, IdsOf(order), done, Listed(order + [s], ready))
  }

  lemma TakeReady(steps: seq<Step>, known: seq<Edge>, waiting: map<Id, int>, order: seq<Step>, s: Step, ready: seq<Step>)
    requires Distinct(IdsOf(steps))
    requires ReadyState(steps, known, waiting, order, [s] + ready)
    ensures Counting(steps, known, waiting, order, s, [], ready)
    ensures IsPeel(known, IdsOf(order + [s])) && Greedy(steps, known, order + [s])
    ensures |order| < |steps| && s.id in IdsOf(steps)
  {
    var all := [s] + ready;
    assert all[0] == s && all[1..] == ready;
    PickedApart(steps, order, all);
    forall t | t in steps && t.id !in IdsOf(order) && Ready(known, t.id, IdsOf(order))
      ensures ByPlace(s, t)
    {
      ReadyComplete(steps, known, waiting, order, all, t);
    }
    GreedySnoc(steps, known, order, s);
    IdsSnoc(order, s);
    assert IdsOf(all) == [s.id] + IdsOf(ready);
    TakeNext(IdsOf(order), IdsOf(all));
    WaitingZero(known, s.id, IdsOf(order));
    assert waiting[s.id] == 0 by {
      assert s.id in Listed(order, all);
    }
    PeelSnoc(known, IdsOf(order), s.id);
    IdListed(steps, s);
    MoveOver(order, s, ready);
  }

  lemma MoveOver(order: seq<Step>, s: Step, ready: seq<Step>)
    ensures multiset(order + [s]) + multiset(ready) == multiset(order) + multiset([s] + ready)
  {
  }

  lemma CountTarget(steps: seq<Step>, known: seq<Edge>, waiting: map<Id, int>, order: seq<Step>, s: Step, j: nat,
                    ready: seq<Step>)
    requires Distinct(IdsOf(steps))
    requires j < |Targets(known, s.id)| && Targets(known, s.id)[j] in Elements(IdsOf(steps))
    requires Counting(steps, known, waiting, order, s, Targets(known, s.id)[..j], ready)
    ensures var id := Targets(known, s.id)[j];
            && id in waiting
            && (waiting[id] != 1 ==>
                 Counting(steps, known, waiting[id := waiting[id] - 1], order, s, Targets(known, s.id)[..j + 1], ready))
            && (waiting[id] == 1 ==> forall t :: t in steps && t.id == id ==>
                 Counting(steps, known, waiting[id := 0], order, s, Targets(known, s.id)[..j + 1],
                          Sort(ready + [t], ByPlace)))
  {
    var id := Targets(known, s.id)[j];
    var listed := Listed(order + [s], ready);
    CountOne(Elements(IdsOf(steps)), known, waiting, IdsOf(order), s.id, j, listed);
    if waiting[id] == 1 {
      forall t | t in steps && t.id == id
        ensures Counting(steps, known, waiting[id := 0], order, s, Targets(known, s.id)[..j + 1], Sort(ready + [t], ByPlace))
      {
        PushReady(steps, order + [s], ready, t);
      }
    }
  }

  /** A step that is not listed yet joins the ready list. */
  lemma PushReady(steps: seq<Step>, order: seq<Step>, ready: seq<Step>, t: Step)
    requires Distinct(IdsOf(steps)) && Picked(steps, order, ready)
    requires t in steps && t.id !in Listed(order, ready)
    ensures var ready' := Sort(ready + [t], ByPlace);
            && Picked(steps, order, ready')
            && Sorted(ready', ByPlace)
            && Listed(order, ready') == Listed(order, ready) + {t.id}
  {
    var ready' := Sort(ready + [t], ByPlace);
    ByPlaceOrders();
    SortCorrect(ready + [t], ByPlace);
    if t in order {
      IdListed(order, t);
    }
    if t in ready {
      IdListed(ready, t);
    }
    assert t !in order && t !in ready;
    assert multiset(ready') == multiset(ready) + multiset{t};
    SameMembersSameIds(ready', ready + [t]);
    IdsSnoc(ready, t);
  }

  lemma IdListed(order: seq<Step>, t: Step)
    requires t in order
    ensures t.id in IdsOf(order)
  {
    var i :| 0 <= i < |order| && order[i] == t;
    assert IdsOf(order)[i] == t.id;
  }

  lemma SameMembersSameIds(a: seq<Step>, b: seq<Step>)
    requires multiset(a) == multiset(b)
    ensures Elements(IdsOf(a)) == Elements(IdsOf(b))
  {
    forall v
      ensures v in IdsOf(a) <==> v in IdsOf(b)
    {
      if v in IdsOf(a) {
        var i :| 0 <= i < |a| && IdsOf(a)[i] == v;
        assert a[i] in multiset(b);
        var j :| 0 <= j < |b| && b[j] == a[i];
        assert IdsOf(b)[j] == v;
      }
      if v in IdsOf(b) {
        var i :| 0 <= i < |b| && IdsOf(b)[i] == v;
        assert b[i] in multiset(a);
        var j :| 0 <= j < |a| && a[j] == b[i];
        assert IdsOf(a)[j] == v;
      }
    }
  }

  /** After the loop: what is listed is everything no cycle leads to. */
  lemma LoopDone(steps: seq<Step>, edges: seq<Edge>, waiting: map<Id, int>, order: seq<Step>)
    requires Distinct(IdsOf(steps))
    requires ReadyState(steps, KnownEdges(Elements(IdsOf(steps)), edges), waiting, order, [])
    ensures IsRunOrder(steps, edges, order + Rest(steps, order))
  {
    var ids := Elements(IdsOf(steps));
    var known := KnownEdges(ids, edges);
    var free := CycleFreeIds(ids, edges);
    assert Listed(order, []) == Elements(IdsOf(order));
    NothingQueued(ids, known, waiting, IdsOf(order));
    PeelingPlaces(ids, edges, IdsOf(order));
    var rest := Filter(steps, (s: Step) => s.id !in IdsOf(order));
    var result := order + Rest(steps, order);
    assert result[..|free|] == order;
    ByPlaceOrders();
    SortCorrect(rest, ByPlace);
    PickedAreDistinct(steps, order);
    RestCompletes(steps, order);
  }

  lemma RestCompletes(steps: seq<Step>, order: seq<Step>)
    requires Distinct(IdsOf(steps)) && multiset(order) <= multiset(steps)
    ensures multiset(order) + multiset(Filter(steps, (s: Step) => s.id !in IdsOf(order))) == multiset(steps)
  {
    var unplaced := (s: Step) => s.id !in IdsOf(order);
    var rest := Filter(steps, unplaced);
    FilterMembers(steps, unplaced);
    FilterSplits(steps, unplaced);
    PickedAreDistinct(steps, order);
    forall x
      ensures multiset(order)[x] + multiset(rest)[x] == multiset(steps)[x]
    {
      DistinctSingle(steps, x);
      DistinctSingle(order, x);
      if x in order {
        IdListed(order, x);
        assert x in multiset(steps);
        assert x !in rest;
      } else if x in steps && x.id in IdsOf(order) {
        var i :| 0 <= i < |order| && IdsOf(order)[i] == x.id;
        SameIdSameStep(steps, order[i], x);
      } else if x in steps {
        assert x in rest;
        assert x in multiset(rest) && x in multiset(steps);
      } else {
        assert x !in multiset(steps);
      }
    }
  }

  /** The first step with an id. */
  function Find(steps: seq<Step>, id: Id): (s: Step)
    requires id in IdsOf(steps)
    ensures s in steps && s.id == id
  {
    if steps[0].id == id then steps[0]
    else
      assert IdsOf(steps) == [steps[0].id] + IdsOf(steps[1..]);
      Find(steps[1..], id)
  }

  /** The two entries of a step, for the known edges read so far. */
  ghost predicate EntriesOf(known: seq<Edge>, waiting: map<Id, int>, next: map<Id, seq<Id>>, v: Id) {
    && v in waiting && waiting[v] == Waiting(known, v, [])
    && NextOf(next, v) == Targets(known, v)
  }

  function NextOf(next: map<Id, seq<Id>>, v: Id): seq<Id> {
    if v in next then next[v] else []
  }

  ghost predicate Entries(ids: set<Id>, known: seq<Edge>, waiting: map<Id, int>, next: map<Id, seq<Id>>) {
    && waiting.Keys == ids
    && (forall v {:trigger EntriesOf(known, waiting, next, v)} :: v in ids ==> EntriesOf(known, waiting, next, v))
  }

  lemma EntriesNext(ids: set<Id>, known: seq<Edge>, waiting: map<Id, int>, next: map<Id, seq<Id>>, e: Edge)
    requires Entries(ids, known, waiting, next) && e.source in ids && e.target in ids
    ensures Entries(ids, known + [e], waiting[e.target := waiting[e.target] + 1],
                    next[e.source := NextOf(next, e.source) + [e.target]])
  {
    var waiting' := waiting[e.target := waiting[e.target] + 1];
    var next' := next[e.source := NextOf(next, e.source) + [e.target]];
    forall v | v in ids
      ensures EntriesOf(known + [e], waiting', next', v)
    {
      assert EntriesOf(known, waiting, next, v);
      CountsSnoc(known, e, v, []);
    }
    assert waiting'.Keys == ids;
  }

  lemma FilteredIds(steps: seq<Step>, keep: Step -> bool, v: Id)
    requires Distinct(IdsOf(steps))
    ensures v in IdsOf(Filter(steps, keep)) <==> v in IdsOf(steps) && keep(Find(steps, v))
  {
    var kept := Filter(steps, keep);
    FilterMembers(steps, keep);
    if v in IdsOf(kept) {
      var j :| 0 <= j < |kept| && IdsOf(kept)[j] == v;
      assert kept[j] in steps;
      IdListed(steps, kept[j]);
      SameIdSameStep(steps, kept[j], Find(steps, v));
    }
    if v in IdsOf(steps) && keep(Find(steps, v)) {
      IdListed(kept, Find(steps, v));
    }
  }

  lemma LoopStart(steps: seq<Step>, known: seq<Edge>, waiting: map<Id, int>, next: map<Id, seq<Id>>)
    requires Distinct(IdsOf(steps)) && Entries(Elements(IdsOf(steps)), known, waiting, next)
    ensures ReadyState(steps, known, waiting, [],
                       Sort(Filter(steps, (s: Step) => s.id in waiting && waiting[s.id] == 0), ByPlace))
  {
    var idle := (s: Step) => s.id in waiting && waiting[s.id] == 0;
    var unsorted := Filter(steps, idle);
    var ready := Sort(unsorted, ByPlace);
    ByPlaceOrders();
    SortCorrect(unsorted, ByPlace);
    assert Picked(steps, [], ready) by {
      FilterSplits(steps, idle);
    }
    SameMembersSameIds(ready, unsorted);
    forall v
      ensures v in Listed([], ready) <==> v in waiting && waiting[v] == 0
    {
      FilteredIds(steps, idle, v);
    }
    forall v | v in waiting
      ensures waiting[v] == Waiting(known, v, []) - Occurrences([], v)
    {
      assert EntriesOf(known, waiting, next, v);
    }
    assert IdsOf([]) == [];
  }

  method RunOrder(steps: seq<Step>, edges: seq<Edge>) returns (order: seq<Step>)
    requires Distinct(IdsOf(steps))
    ensures IsRunOrder(steps, edges, order)
  {
    var waiting, next := CountEdges(steps, edges);
    order := ListReady(steps, edges, waiting, next);
    order := order + Rest(steps, order);
  }

  /** The two maps the order is made from. */
  method CountEdges(steps: seq<Step>, edges: seq<Edge>) returns (waiting: map<Id, int>, next: map<Id, seq<Id>>)
    ensures var ids := Elements(IdsOf(steps)); Entries(ids, KnownEdges(ids, edges), waiting, next)
  {
    waiting, next := map[], map[];
    for i := 0 to |steps|
      invariant waiting.Keys == Elements(IdsOf(steps)[..i])
      invariant forall v :: v in waiting ==> waiting[v] == 0
    {
      waiting := waiting[steps[i].id := 0];
      assert IdsOf(steps)[i] == steps[i].id;
    }
    ghost var ids := Elements(IdsOf(steps));
    assert IdsOf(steps)[..|steps|] == IdsOf(steps);
    for i := 0 to |edges|
      invariant Entries(ids, KnownEdges(ids, edges[..i]), waiting, next)
    {
      KnownEdgesNext(ids, edges, i);
      var e := edges[i];
      if e.source !in waiting || e.target !in waiting {
        continue;
      }
      EntriesNext(ids, KnownEdges(ids, edges[..i]), waiting, next, e);
      next := next[e.source := NextOf(next, e.source) + [e.target]];
      waiting := waiting[e.target := waiting[e.target] + 1];
    }
    assert edges[..|edges|] == edges;
  }

  /** The loop over the ready list. */
  method ListReady(steps: seq<Step>, ghost edges: seq<Edge>, waiting0: map<Id, int>, next: map<Id, seq<Id>>)
    returns (order: seq<Step>)
    requires Distinct(IdsOf(steps))
    requires Entries(Elements(IdsOf(steps)), KnownEdges(Elements(IdsOf(steps)), edges), waiting0, next)
    ensures IsRunOrder(steps, edges, order + Rest(steps, order))
  {
    ghost var ids := Elements(IdsOf(steps));
    ghost var known := KnownEdges(ids, edges);
    LoopStart(steps, known, waiting0, next);
    var waiting := waiting0;
    order := [];
    var ready := Sort(Filter(steps, (s: Step) => s.id in waiting0 && waiting0[s.id] == 0), ByPlace);
    while ready != []
      invariant ReadyState(steps, known, waiting, order, ready)
      decreases |steps| - |order|
    {
      var step := ready[0];
      assert ready == [step] + ready[1..];
      ready := ready[1..];
      TakeReady(steps, known, waiting, order, step, ready);
      TargetsKnown(ids, edges, step.id);
      assert EntriesOf(known, waiting0, next, step.id);
      waiting, ready := CountDown(steps, known, order, step, NextOf(next, step.id), waiting, ready);
      order := order + [step];
    }
    LoopDone(steps, edges, waiting, order);
  }

  /** Count down the steps after the one just listed, and keep the ready list sorted. */
  method CountDown(steps: seq<Step>, ghost known: seq<Edge>, ghost order: seq<Step>, step: Step, after: seq<Id>,
                   waiting0: map<Id, int>, ready0: seq<Step>)
    returns (waiting: map<Id, int>, ready: seq<Step>)
    requires Distinct(IdsOf(steps))
    requires after == Targets(known, step.id) && forall c :: c in after ==> c in IdsOf(steps)
    requires Counting(steps, known, waiting0, order, step, [], ready0)
    requires IsPeel(known, IdsOf(order + [step])) && Greedy(steps, known, order + [step])
    ensures ReadyState(steps, known, waiting, order + [step], ready)
  {
    waiting, ready := waiting0, ready0;
    assert after[..0] == [];
    for j := 0 to |after|
      invariant Counting(steps, known, waiting, order, step, after[..j], ready)
    {
      CountTarget(steps, known, waiting, order, step, j, ready);
      var id := after[j];
      waiting := waiting[id := waiting[id] - 1];
      if waiting[id] == 0 {
        ready := Sort(ready + [Find(steps, id)], ByPlace);
      }
    }
    assert after[..|after|] == after;
    IdsSnoc(order, step);
    CountedAll(Elements(IdsOf(steps)), known, waiting, IdsOf(order), step.id, Listed(order + [step], ready));
  }
}
