/** The project tree: items with parent links, and the commands that change it. */
module RepoTree {
  import opened Graph
  import opened Sorting

  datatype Kind = Project | Folder | Pipeline | Other

  datatype RepoItem = RepoItem(id: Id, name: string, kind: Kind, parentId: Option<Id>)

  function Find(repo: seq<RepoItem>, id: Id): (r: Option<RepoItem>)
    ensures r.Some? ==> r.value in repo && r.value.id == id
    ensures r.None? <==> forall i :: i in repo ==> i.id != id
  {
    if repo == [] then None
    else if repo[0].id == id then Some(repo[0])
    else Find(repo[1..], id)
  }

  predicate IsContainer(repo: seq<RepoItem>, id: Id) {
    exists i :: i in repo && i.id == id && (i.kind == Folder || i.kind == Project)
  }

  /** The parent links as edges, from parent to child. */
  function Links(repo: seq<RepoItem>): seq<Edge> {
    if repo == [] then []
    else
      var front := Links(repo[..|repo| - 1]);
      match repo[|repo| - 1].parentId
      case Some(p) => front + [Edge(p, repo[|repo| - 1].id, None, None)]
      case None => front
  }

  lemma {:induction false} LinksMembers(repo: seq<RepoItem>)
    ensures forall p, c :: Arc(Links(repo), p, c) <==> exists i :: i in repo && i.id == c && i.parentId == Some(p)
  {
    if repo != [] {
      var front, last := repo[..|repo| - 1], repo[|repo| - 1];
      LinksMembers(front);
      assert repo == front + [last];
      forall p, c
        ensures Arc(Links(repo), p, c) <==> Arc(Links(front), p, c) || (last.id == c && last.parentId == Some(p))
      {
        if last.id == c && last.parentId == Some(p) {
          assert Edge(p, c, None, None) in Links(repo);
        }
      }
    }
  }

  ghost predicate UniqueIds(repo: seq<RepoItem>) {
    forall i, j :: 0 <= i < j < |repo| ==> repo[i].id != repo[j].id
  }

  lemma SameIdSameItem(repo: seq<RepoItem>, a: RepoItem, b: RepoItem)
    requires UniqueIds(repo) && a in repo && b in repo && a.id == b.id
    ensures a == b
  {
    var i :| 0 <= i < |repo| && repo[i] == a;
    var j :| 0 <= j < |repo| && repo[j] == b;
  }

  /** Ids tell items apart and no item is inside itself. */
  ghost predicate IsForest(repo: seq<RepoItem>) {
    UniqueIds(repo) && !Cyclic(Links(repo))
  }

  // Adding one link, or removing links, cannot close a cycle unless ... ------------------

  lemma {:induction false} WalkUsesNewArc(old_: seq<Edge>, new_: seq<Edge>, p: Id, c: Id, a: Id, b: Id, n: nat)
    requires forall u, v :: Arc(new_, u, v) ==> Arc(old_, u, v) || (u == p && v == c)
    requires n >= 1 && Steps(new_, a, b, n)
    ensures Ancestor(old_, a, b) || (Reaches(old_, a, p) && Reaches(old_, c, b))
    decreases n
  {
    var m :| Arc(new_, a, m) && Steps(new_, m, b, n - 1);
    assert Steps(old_, p, p, 0) && Steps(old_, b, b, 0);
    if n == 1 {
      if Arc(old_, a, b) {
        StepsOne(old_, a, b);
      }
    } else {
      WalkUsesNewArc(old_, new_, p, c, m, b, n - 1);
      if Arc(old_, a, m) {
        StepsOne(old_, a, m);
        if Ancestor(old_, m, b) {
          AncestorTransitive(old_, a, m, b);
        } else {
          ArcThenReaches(old_, a, m, p);
          AncestorReaches(old_, a, p);
        }
      } else if Ancestor(old_, m, b) {
        AncestorReaches(old_, m, b);
      }
    }
  }

  lemma OneNewArc(old_: seq<Edge>, new_: seq<Edge>, p: Id, c: Id)
    requires forall u, v :: Arc(new_, u, v) ==> Arc(old_, u, v) || (u == p && v == c)
    requires !Cyclic(old_) && !Reaches(old_, c, p)
    ensures !Cyclic(new_)
  {
    forall v | OnCycle(new_, v)
      ensures false
    {
      var n: nat :| n >= 1 && Steps(new_, v, v, n);
      WalkUsesNewArc(old_, new_, p, c, v, v, n);
      if Ancestor(old_, v, v) {
        assert OnCycle(old_, v);
      } else {
        var k: nat :| Steps(old_, c, v, k);
        var l: nat :| Steps(old_, v, p, l);
        StepsCompose(old_, c, v, p, k, l);
        assert Reaches(old_, c, p);
      }
    }
  }

  lemma {:induction false} FewerArcs(old_: seq<Edge>, new_: seq<Edge>, a: Id, b: Id, n: nat)
    requires forall u, v :: Arc(new_, u, v) ==> Arc(old_, u, v)
    requires Steps(new_, a, b, n)
    ensures Steps(old_, a, b, n)
    decreases n
  {
    if n > 0 {
      var m :| Arc(new_, a, m) && Steps(new_, m, b, n - 1);
      FewerArcs(old_, new_, m, b, n - 1);
    }
  }

  lemma StillAcyclic(old_: seq<Edge>, new_: seq<Edge>)
    requires forall u, v :: Arc(new_, u, v) ==> Arc(old_, u, v)
    requires !Cyclic(old_)
    ensures !Cyclic(new_)
  {
    forall v, n: nat | n >= 1 && Steps(new_, v, v, n)
      ensures OnCycle(old_, v)
    {
      FewerArcs(old_, new_, v, v, n);
    }
  }

  // Adding an item. -----------------------------------------------------------------------

  /** What a fresh id has to be: the id of no item, and the parent of none. */
  ghost predicate IsFresh(repo: seq<RepoItem>, id: Id) {
    forall i :: i in repo ==> i.id != id && i.parentId != Some(id)
  }

  lemma AddedItem(repo: seq<RepoItem>, i: RepoItem)
    requires IsForest(repo) && IsFresh(repo, i.id) && i.parentId != Some(i.id)
    ensures IsForest(repo + [i])
  {
    LinksMembers(repo);
    LinksMembers(repo + [i]);
    if i.parentId.Some? {
      NoWayDown(repo, i.id, i.parentId.value);
      OneNewArc(Links(repo), Links(repo + [i]), i.parentId.value, i.id);
    } else {
      StillAcyclic(Links(repo), Links(repo + [i]));
    }
  }

  lemma NoWayDown(repo: seq<RepoItem>, id: Id, p: Id)
    requires IsFresh(repo, id) && p != id
    ensures !Reaches(Links(repo), id, p)
  {
    LinksMembers(repo);
    assert forall m :: !Arc(Links(repo), id, m);
    forall n: nat
      ensures !Steps(Links(repo), id, p, n)
    {
    }
  }

  /** A new folder goes under the container asked for, or under the root. */
  function NewFolder(repo: seq<RepoItem>, id: Id, name: string, parentId: Id, root: Id): seq<RepoItem> {
    repo + [RepoItem(id, name, Folder, Some(if IsContainer(repo, parentId) then parentId else root))]
  }

  /** A new pipeline goes under the container asked for, or under "pipelines",
      whether or not there still is such a folder. */
  function CreatePipeline(repo: seq<RepoItem>, id: Id, name: string, parentId: Id, pipelines: Id): seq<RepoItem> {
    repo + [RepoItem(id, name, Pipeline, Some(if IsContainer(repo, parentId) then parentId else pipelines))]
  }

  function Duplicate(repo: seq<RepoItem>, newId: Id, id: Id): seq<RepoItem> {
    match Find(repo, id)
    case None => repo
    case Some(i) => repo + [i.(id := newId, name := i.name + "_copy")]
  }

  // Moving. ----------------------------------------------------------------------------------

  function SetParent(repo: seq<RepoItem>, id: Id, parentId: Id): seq<RepoItem> {
    seq(|repo|, k requires 0 <= k < |repo| => if repo[k].id == id then repo[k].(parentId := Some(parentId)) else repo[k])
  }

  /** Whether a move is carried out. */
  ghost predicate MayMove(repo: seq<RepoItem>, id: Id, newParentId: Id) {
    && Find(repo, id).Some? && Find(repo, newParentId).Some? && id != newParentId
    && Find(repo, id).value.kind != Project
    && Find(repo, newParentId).value.kind in {Folder, Project}
    && Find(repo, id).value.parentId != Some(newParentId)
    && !Reaches(Links(repo), id, newParentId)
  }

  ghost function Moved(repo: seq<RepoItem>, id: Id, newParentId: Id): seq<RepoItem> {
    if MayMove(repo, id, newParentId) then SetParent(repo, id, newParentId) else repo
  }

  /** r is repo, but for the item with the id, which is inside the new parent. */
  ghost predicate OnlyParentSet(repo: seq<RepoItem>, r: seq<RepoItem>, id: Id, parentId: Id) {
    |r| == |repo|
    && (forall k :: 0 <= k < |repo| && repo[k].id != id ==> r[k] == repo[k])
    && (forall k :: 0 <= k < |repo| && repo[k].id == id ==> r[k] == RepoItem(id, repo[k].name, repo[k].kind, Some(parentId)))
  }

  /** The only way to an item leads through its parent. */
  lemma OnlyThroughParent(repo: seq<RepoItem>, id: Id, cur: RepoItem)
    requires UniqueIds(repo) && cur in repo && Find(repo, id).Some?
    ensures Reaches(Links(repo), id, cur.id)
       <==> id == cur.id || (cur.parentId.Some? && Find(repo, cur.parentId.value).Some?
                             && Reaches(Links(repo), id, cur.parentId.value))
  {
    var links := Links(repo);
    if id == cur.id {
      assert Steps(links, id, id, 0);
    } else if Reaches(links, id, cur.id) {
      LastParent(repo, id, cur);
    }
    if cur.parentId.Some? && Reaches(links, id, cur.parentId.value) {
      LinksMembers(repo);
      ReachesThenArc(links, id, cur.parentId.value, cur.id);
      AncestorReaches(links, id, cur.id);
    }
  }

  lemma LastParent(repo: seq<RepoItem>, id: Id, cur: RepoItem)
    requires UniqueIds(repo) && cur in repo && Find(repo, id).Some?
    requires Reaches(Links(repo), id, cur.id) && id != cur.id
    ensures cur.parentId.Some? && Find(repo, cur.parentId.value).Some? && Reaches(Links(repo), id, cur.parentId.value)
  {
    var links := Links(repo);
    var n: nat :| Steps(links, id, cur.id, n);
    var p := LastStep(links, id, cur.id, n);
    var i := Child(repo, p, cur.id);
    SameIdSameItem(repo, i, cur);
    if n > 1 {
      var q := LastStep(links, id, p, n - 1);
      var j := Child(repo, q, p);
    }
  }

  lemma Child(repo: seq<RepoItem>, p: Id, c: Id) returns (i: RepoItem)
    requires Arc(Links(repo), p, c)
    ensures i in repo && i.id == c && i.parentId == Some(p)
  {
    LinksMembers(repo);
    i :| i in repo && i.id == c && i.parentId == Some(p);
  }

  method HandleMoveRepoItem(repo: seq<RepoItem>, id: Id, newParentId: Id) returns (r: seq<RepoItem>)
    requires IsForest(repo)
    ensures r == Moved(repo, id, newParentId)
    ensures if MayMove(repo, id, newParentId) then OnlyParentSet(repo, r, id, newParentId) else r == repo
  {
    var item, target := Find(repo, id), Find(repo, newParentId);
    if item.None? || target.None? || id == newParentId {
      return repo;
    }
    if item.value.kind == Project {
      return repo;
    }
    if target.value.kind != Folder && target.value.kind != Project {
      return repo;
    }
    if item.value.parentId == Some(newParentId) {
      return repo;
    }
    var cur := target;
    ghost var links := Links(repo);
    LinksMembers(repo);
    while cur.Some?
      invariant cur.Some? ==> cur.value in repo
      invariant Reaches(links, id, newParentId) <==> cur.Some? && Reaches(links, id, cur.value.id)
      decreases cur.Some?, if cur.Some? then Ancestors(links, cur.value.id) else {}
    {
      OnlyThroughParent(repo, id, cur.value);
      if cur.value.id == id {
        return repo;
      }
      if cur.value.parentId.Some? {
        AncestorsShrink(links, cur.value.parentId.value, cur.value.id);
        cur := Find(repo, cur.value.parentId.value);
      } else {
        cur := None;
      }
    }
    r := SetParent(repo, id, newParentId);
  }

  lemma MoveKeepsForest(repo: seq<RepoItem>, id: Id, newParentId: Id)
    requires IsForest(repo)
    ensures IsForest(Moved(repo, id, newParentId))
  {
    if MayMove(repo, id, newParentId) {
      var moved := SetParent(repo, id, newParentId);
      forall i | i in moved
        ensures exists o :: o in repo && o.id == i.id && i == (if o.id == id then o.(parentId := Some(newParentId)) else o)
      {
        var k :| 0 <= k < |moved| && moved[k] == i;
        assert repo[k] in repo;
      }
      LinksMembers(repo);
      LinksMembers(moved);
      OneNewArc(Links(repo), Links(moved), newParentId, id);
    }
  }

  /** A move that is carried out puts the item inside its new parent and inside
      nothing else, moves no other item, and takes everything below it along. */
  lemma MoveTakesSubtree(repo: seq<RepoItem>, id: Id, newParentId: Id)
    requires IsForest(repo) && MayMove(repo, id, newParentId)
    ensures var r := Moved(repo, id, newParentId);
            && OnlyParentSet(repo, r, id, newParentId)
            && (forall p :: Arc(Links(r), p, id) <==> p == newParentId)
            && (forall p, c :: c != id ==> (Arc(Links(r), p, c) <==> Arc(Links(repo), p, c)))
            && (forall v :: Ancestor(Links(r), id, v) <==> Ancestor(Links(repo), id, v))
  {
    var r := Moved(repo, id, newParentId);
    MovedLinks(repo, r, id, newParentId);
    MoveKeepsForest(repo, id, newParentId);
    DescendantsStay(Links(repo), Links(r), id);
    DescendantsStay(Links(r), Links(repo), id);
  }

  lemma DescendantsStay(e1: seq<Edge>, e2: seq<Edge>, id: Id)
    requires !Cyclic(e1) && forall p, c :: c != id ==> (Arc(e1, p, c) <==> Arc(e2, p, c))
    ensures forall v :: Ancestor(e1, id, v) ==> Ancestor(e2, id, v)
  {
    forall v, n: nat | Steps(e1, id, v, n)
      ensures Steps(e2, id, v, n)
    {
      SameBelow(e1, e2, id, v, n);
    }
  }

  lemma MovedLinks(repo: seq<RepoItem>, r: seq<RepoItem>, id: Id, newParentId: Id)
    requires UniqueIds(repo) && Find(repo, id).Some? && OnlyParentSet(repo, r, id, newParentId)
    ensures forall p :: Arc(Links(r), p, id) <==> p == newParentId
    ensures forall p, c :: c != id ==> (Arc(Links(r), p, c) <==> Arc(Links(repo), p, c))
  {
    LinksMembers(repo);
    LinksMembers(r);
    var item := Find(repo, id).value;
    var k :| 0 <= k < |repo| && repo[k] == item;
    assert r[k] in r && r[k].id == id;
    forall i | i in r
      ensures i.id == id ==> i.parentId == Some(newParentId)
      ensures i.id != id ==> i in repo
    {
      var m :| 0 <= m < |r| && r[m] == i;
      assert repo[m] in repo;
    }
    forall i | i in repo && i.id != id
      ensures i in r
    {
      var m :| 0 <= m < |repo| && repo[m] == i;
      assert r[m] in r;
    }
  }

  lemma {:induction false} SameBelow(e1: seq<Edge>, e2: seq<Edge>, id: Id, v: Id, n: nat)
    requires !Cyclic(e1) && forall p, c :: c != id ==> (Arc(e1, p, c) <==> Arc(e2, p, c))
    requires Steps(e1, id, v, n)
    ensures Steps(e2, id, v, n)
    decreases n
  {
    if n > 0 {
      var m := LastStep(e1, id, v, n);
      SameBelow(e1, e2, id, m, n - 1);
      assert v != id by {
        assert !OnCycle(e1, id);
      }
      StepsOne(e2, m, v);
      StepsCompose(e2, id, m, v, n - 1, 1);
    }
  }

  // Deleting. -------------------------------------------------------------------------------

  ghost function Descendants(repo: seq<RepoItem>, id: Id): set<Id> {
    set i | i in repo && Ancestor(Links(repo), id, i.id) :: i.id
  }

  lemma DescendantsComplete(repo: seq<RepoItem>, id: Id, v: Id)
    ensures v in Descendants(repo, id) <==> Ancestor(Links(repo), id, v)
  {
    LinksMembers(repo);
    if Ancestor(Links(repo), id, v) {
      AncestorEnds(Links(repo), id, v);
      var e :| e in Links(repo) && e.target == v;
      assert Arc(Links(repo), e.source, v);
    }
  }

  /** The set that the nested calls of the delete handler share. */
  class IdSet {
    var ids: set<Id>

    constructor (id: Id)
      ensures ids == {id}
    {
      ids := {id};
    }
  }

  lemma ChildDescends(repo: seq<RepoItem>, c: RepoItem)
    requires IsForest(repo) && c in repo && c.parentId.Some?
    ensures c.id in Descendants(repo, c.parentId.value)
    ensures Descendants(repo, c.id) < Descendants(repo, c.parentId.value)
  {
    var links, p := Links(repo), c.parentId.value;
    LinksMembers(repo);
    assert Arc(links, p, c.id);
    StepsOne(links, p, c.id);
    assert !OnCycle(links, c.id);
    forall v | v in Descendants(repo, c.id)
      ensures v in Descendants(repo, p)
    {
      AncestorTransitive(links, p, c.id, v);
    }
    DescendantsComplete(repo, c.id, c.id);
  }

  /** Every descendant is a child or descends from one. */
  lemma ThroughAChild(repo: seq<RepoItem>, id: Id, v: Id) returns (c: RepoItem)
    requires v in Descendants(repo, id)
    ensures c in repo && c.parentId == Some(id) && (v == c.id || v in Descendants(repo, c.id))
  {
    var links := Links(repo);
    LinksMembers(repo);
    var n: nat :| n >= 1 && Steps(links, id, v, n);
    var m :| Arc(links, id, m) && Steps(links, m, v, n - 1);
    c :| c in repo && c.id == m && c.parentId == Some(id);
    if n > 1 {
      assert Ancestor(links, m, v);
      DescendantsComplete(repo, m, v);
    }
  }

  method AddDescendants(repo: seq<RepoItem>, parentId: Id, toDelete: IdSet)
    requires IsForest(repo)
    modifies toDelete
    ensures toDelete.ids == old(toDelete.ids) + Descendants(repo, parentId)
    decreases Descendants(repo, parentId)
  {
    for k := 0 to |repo|
      invariant old(toDelete.ids) <= toDelete.ids <= old(toDelete.ids) + Descendants(repo, parentId)
      invariant forall c :: c in repo[..k] && c.parentId == Some(parentId) ==>
                  c.id in toDelete.ids && Descendants(repo, c.id) <= toDelete.ids
    {
      var c := repo[k];
      if c.parentId == Some(parentId) {
        ChildDescends(repo, c);
        toDelete.ids := toDelete.ids + {c.id};
        AddDescendants(repo, c.id, toDelete);
      }
    }
    forall v | v in Descendants(repo, parentId)
      ensures v in toDelete.ids
    {
      var c := ThroughAChild(repo, parentId, v);
      assert c in repo[..|repo|];
    }
  }

  ghost predicate MayDelete(repo: seq<RepoItem>, id: Id) {
    Find(repo, id).Some? && Find(repo, id).value.kind != Project
  }

  ghost function Deleted(repo: seq<RepoItem>, id: Id): seq<RepoItem> {
    if MayDelete(repo, id) then Filter(repo, (i: RepoItem) => i.id !in {id} + Descendants(repo, id)) else repo
  }

  method HandleDeleteRepoItem(repo: seq<RepoItem>, id: Id) returns (r: seq<RepoItem>, removed: set<Id>)
    requires IsForest(repo)
    ensures r == Deleted(repo, id)
    ensures removed == if MayDelete(repo, id) then {id} + Descendants(repo, id) else {}
  {
    var item := Find(repo, id);
    if item.None? || item.value.kind == Project {
      return repo, {};
    }
    var toDelete := new IdSet(id);
    AddDescendants(repo, id, toDelete);
    removed := toDelete.ids;
    r := Filter(repo, (i: RepoItem) => i.id !in removed);
    FilterSame(repo, (i: RepoItem) => i.id !in removed, (i: RepoItem) => i.id !in {id} + Descendants(repo, id));
  }

  lemma {:induction false} FilterKeepsUnique(repo: seq<RepoItem>, f: RepoItem -> bool)
    requires UniqueIds(repo)
    ensures UniqueIds(Filter(repo, f))
  {
    if repo != [] {
      var front, last := repo[..|repo| - 1], repo[|repo| - 1];
      FilterKeepsUnique(front, f);
      FilterMembers(front, f);
      var r := Filter(front, f);
      forall k | 0 <= k < |r|
        ensures r[k].id != last.id
      {
        assert r[k] in front;
      }
    }
  }

  lemma {:induction false} FilterSame(repo: seq<RepoItem>, f: RepoItem -> bool, g: RepoItem -> bool)
    requires forall i :: f(i) == g(i)
    ensures Filter(repo, f) == Filter(repo, g)
  {
    if repo != [] {
      FilterSame(repo[..|repo| - 1], f, g);
    }
  }

  /** Delete takes exactly the item and its descendants; nobody who stays has
      lost a parent, and the tree stays a forest. */
  lemma DeleteTakesSubtree(repo: seq<RepoItem>, id: Id)
    requires IsForest(repo) && MayDelete(repo, id)
    ensures var r := Deleted(repo, id);
            && IsForest(r)
            && (forall i :: i in r <==> i in repo && i.id != id && !Ancestor(Links(repo), id, i.id))
            && (forall i, p :: i in r && i.parentId == Some(p) ==> p != id && !Ancestor(Links(repo), id, p))
  {
    var gone := {id} + Descendants(repo, id);
    var r := Deleted(repo, id);
    FilterMembers(repo, (i: RepoItem) => i.id !in gone);
    FilterKeepsUnique(repo, (i: RepoItem) => i.id !in gone);
    LinksMembers(repo);
    LinksMembers(r);
    var links := Links(repo);
    forall i, p | i in r && i.parentId == Some(p)
      ensures p != id && !Ancestor(links, id, p)
    {
      StepsOne(links, p, i.id);
      if Ancestor(links, id, p) {
        AncestorTransitive(links, id, p, i.id);
      }
    }
    StillAcyclic(links, Links(r));
  }

  /** Those who stay keep their order. */
  lemma DeleteKeepsOrder(repo: seq<RepoItem>, id: Id) returns (at: seq<nat>)
    ensures |at| == |Deleted(repo, id)|
    ensures forall k :: 0 <= k < |at| ==> at[k] < |repo| && Deleted(repo, id)[k] == repo[at[k]]
    ensures forall j, k :: 0 <= j < k < |at| ==> at[j] < at[k]
  {
    if MayDelete(repo, id) {
      at := FilterOrder(repo, (i: RepoItem) => i.id !in {id} + Descendants(repo, id));
    } else {
      at := seq(|repo|, k => k);
    }
  }

  // New items. ----------------------------------------------------------------------------

  /** The items that the commands make, field by field; nothing else changes. */
  lemma NewItems(repo: seq<RepoItem>, id: Id, name: string, parentId: Id, root: Id, pipelines: Id)
    ensures var inside := exists i :: i in repo && i.id == parentId && (i.kind == Folder || i.kind == Project);
            && NewFolder(repo, id, name, parentId, root)
               == repo + [RepoItem(id, name, Folder, Some(if inside then parentId else root))]
            && CreatePipeline(repo, id, name, parentId, pipelines)
               == repo + [RepoItem(id, name, Pipeline, Some(if inside then parentId else pipelines))]
  {
  }

  /** A copy stands beside its original, under a name of its own. */
  lemma CopyStandsBeside(repo: seq<RepoItem>, newId: Id, i: RepoItem)
    requires UniqueIds(repo)
    ensures i in repo ==>
              Duplicate(repo, newId, i.id) == repo + [RepoItem(newId, i.name + "_copy", i.kind, i.parentId)]
    ensures (forall o :: o in repo ==> o.id != i.id) ==> Duplicate(repo, newId, i.id) == repo
  {
    if i in repo {
      SameIdSameItem(repo, Find(repo, i.id).value, i);
    }
  }

  // Runs of commands. ---------------------------------------------------------------------

  datatype Command =
    | AddFolder(id: Id, name: string, parentId: Id, root: Id)
    | AddPipeline(id: Id, name: string, parentId: Id, pipelines: Id)
    | Copy(newId: Id, id: Id)
    | Move(id: Id, newParentId: Id)
    | Delete(id: Id)

  /** Where a command makes an id, the id is fresh, and not the name of a fixed folder. */
  ghost predicate MakesFreshId(repo: seq<RepoItem>, c: Command) {
    match c
    case AddFolder(id, _, _, root) => IsFresh(repo, id) && id != root
    case AddPipeline(id, _, _, pipelines) => IsFresh(repo, id) && id != pipelines
    case Copy(newId, _) => IsFresh(repo, newId)
    case _ => true
  }

  ghost function Execute(repo: seq<RepoItem>, c: Command): seq<RepoItem> {
    match c
    case AddFolder(id, name, parentId, root) => NewFolder(repo, id, name, parentId, root)
    case AddPipeline(id, name, parentId, pipelines) => CreatePipeline(repo, id, name, parentId, pipelines)
    case Copy(newId, id) => Duplicate(repo, newId, id)
    case Move(id, newParentId) => Moved(repo, id, newParentId)
    case Delete(id) => Deleted(repo, id)
  }

  lemma CommandKeepsForest(repo: seq<RepoItem>, c: Command)
    requires IsForest(repo) && MakesFreshId(repo, c)
    ensures IsForest(Execute(repo, c))
  {
    match c
    case AddFolder(id, name, parentId, root) =>
      AddedItem(repo, RepoItem(id, name, Folder, Some(if IsContainer(repo, parentId) then parentId else root)));
    case AddPipeline(id, name, parentId, pipelines) =>
      AddedItem(repo, RepoItem(id, name, Pipeline, Some(if IsContainer(repo, parentId) then parentId else pipelines)));
    case Copy(newId, id) =>
      if Find(repo, id).Some? {
        var i := Find(repo, id).value;
        AddedItem(repo, i.(id := newId, name := i.name + "_copy"));
      }
    case Move(id, newParentId) => MoveKeepsForest(repo, id, newParentId);
    case Delete(id) =>
      if MayDelete(repo, id) {
        DeleteTakesSubtree(repo, id);
      }
  }

  ghost function ExecuteAll(repo: seq<RepoItem>, commands: seq<Command>): seq<RepoItem> {
    if commands == [] then repo else Execute(ExecuteAll(repo, commands[..|commands| - 1]), commands[|commands| - 1])
  }

  ghost predicate MakeFreshIds(repo: seq<RepoItem>, commands: seq<Command>) {
    commands != [] ==>
      && MakeFreshIds(repo, commands[..|commands| - 1])
      && MakesFreshId(ExecuteAll(repo, commands[..|commands| - 1]), commands[|commands| - 1])
  }

  /** Every run of commands keeps the tree a forest, which is what the walk to
      the root and the recursion over descendants need to end. */
  lemma {:induction false} RunKeepsForest(repo: seq<RepoItem>, commands: seq<Command>)
    requires IsForest(repo) && MakeFreshIds(repo, commands)
    ensures IsForest(ExecuteAll(repo, commands))
  {
    if commands != [] {
      RunKeepsForest(repo, commands[..|commands| - 1]);
      CommandKeepsForest(ExecuteAll(repo, commands[..|commands| - 1]), commands[|commands| - 1]);
    }
  }

  // Dangling parents. -----------------------------------------------------------------------

  ghost predicate Names(repo: seq<RepoItem>, id: Id) {
    exists i :: i in repo && i.id == id
  }

  ghost predicate ParentsExist(repo: seq<RepoItem>) {
    forall i :: i in repo && i.parentId.Some? ==> Names(repo, i.parentId.value)
  }

  /** Moving, copying and deleting never leave an item without its parent. */
  lemma ParentsStay(repo: seq<RepoItem>, c: Command)
    requires IsForest(repo) && ParentsExist(repo) && (c.Copy? || c.Move? || c.Delete?)
    ensures ParentsExist(Execute(repo, c))
  {
    match c
    case Copy(newId, id) =>
      assert forall p :: Names(repo, p) ==> Names(Execute(repo, c), p);
    case Move(id, newParentId) =>
      if MayMove(repo, id, newParentId) {
        MovedItems(repo, id, newParentId);
      }
    case Delete(id) =>
      if MayDelete(repo, id) {
        DeleteTakesSubtree(repo, id);
      }
  }

  lemma MovedItems(repo: seq<RepoItem>, id: Id, newParentId: Id)
    requires ParentsExist(repo) && Names(repo, newParentId)
    ensures ParentsExist(SetParent(repo, id, newParentId))
  {
    var moved := SetParent(repo, id, newParentId);
    forall p | Names(repo, p)
      ensures Names(moved, p)
    {
      var k :| 0 <= k < |repo| && repo[k].id == p;
      assert moved[k] in moved && moved[k].id == p;
    }
    forall i | i in moved && i.parentId.Some?
      ensures Names(moved, i.parentId.value)
    {
      var k :| 0 <= k < |moved| && moved[k] == i;
      assert repo[k] in repo;
    }
  }

  /** A new pipeline has a parent exactly when the container asked for exists or
      the "pipelines" folder has not been deleted: the code does not look. */
  lemma NewPipelineHasParentIff(repo: seq<RepoItem>, id: Id, name: string, parentId: Id, pipelines: Id)
    requires ParentsExist(repo) && id != pipelines
    ensures ParentsExist(CreatePipeline(repo, id, name, parentId, pipelines))
       <==> IsContainer(repo, parentId) || Names(repo, pipelines)
  {
    var r := CreatePipeline(repo, id, name, parentId, pipelines);
    var new_ := r[|repo|];
    assert new_ in r;
    assert forall p :: Names(repo, p) ==> Names(r, p);
    if ParentsExist(r) && !IsContainer(repo, parentId) {
      assert Names(r, pipelines);
      var i :| i in r && i.id == pipelines;
      assert i in repo;
    }
  }

  // The root project. --------------------------------------------------------------------------

  /** The root of the tree: a project with no parent, under a fixed id. */
  ghost predicate HasRoot(repo: seq<RepoItem>, root: Id) {
    exists i :: i in repo && i.id == root && i.kind == Project && i.parentId == None
  }

  lemma RootStays(repo: seq<RepoItem>, root: Id, c: Command)
    requires IsForest(repo) && HasRoot(repo, root)
    ensures HasRoot(Execute(repo, c), root)
  {
    var r :| r in repo && r.id == root && r.kind == Project && r.parentId == None;
    match c
    case Move(id, newParentId) =>
      if MayMove(repo, id, newParentId) {
        var k :| 0 <= k < |repo| && repo[k] == r;
        var item := Find(repo, id).value;
        if id == root {
          SameIdSameItem(repo, item, r);
        }
        assert SetParent(repo, id, newParentId)[k] == r;
      }
    case Delete(id) =>
      if MayDelete(repo, id) {
        var item := Find(repo, id).value;
        if id == root {
          SameIdSameItem(repo, item, r);
        }
        RootHasNoAncestor(repo, r, id);
        DeleteTakesSubtree(repo, id);
        assert r in Deleted(repo, id);
      }
    case _ => assert r in Execute(repo, c);
  }

  lemma RootHasNoAncestor(repo: seq<RepoItem>, r: RepoItem, id: Id)
    requires UniqueIds(repo) && r in repo && r.parentId == None
    ensures !Ancestor(Links(repo), id, r.id)
  {
    forall n: nat | n >= 1 && Steps(Links(repo), id, r.id, n)
      ensures false
    {
      var m := LastStep(Links(repo), id, r.id, n);
      var i := Child(repo, m, r.id);
      SameIdSameItem(repo, i, r);
    }
  }

  /** New folders go under the root where the container asked for is gone. */
  ghost predicate UsesRoot(c: Command, root: Id) {
    c.AddFolder? ==> c.root == root
  }

  ghost predicate FindsAPlace(repo: seq<RepoItem>, c: Command) {
    c.AddPipeline? ==> IsContainer(repo, c.parentId) || Names(repo, c.pipelines)
  }

  /** With the root in place, a command leaves some item without its parent exactly
      when it makes a pipeline with neither the container nor "pipelines" there. */
  lemma CommandKeepsParentsIff(repo: seq<RepoItem>, root: Id, c: Command)
    requires IsForest(repo) && ParentsExist(repo) && HasRoot(repo, root) && UsesRoot(c, root) && MakesFreshId(repo, c)
    ensures ParentsExist(Execute(repo, c)) <==> FindsAPlace(repo, c)
  {
    match c
    case AddFolder(id, name, parentId, _) =>
      var r := Execute(repo, c);
      assert forall p :: Names(repo, p) ==> Names(r, p);
      assert Names(repo, root);
    case AddPipeline(id, name, parentId, pipelines) => NewPipelineHasParentIff(repo, id, name, parentId, pipelines);
    case _ => ParentsStay(repo, c);
  }

  ghost predicate AllFindAPlace(repo: seq<RepoItem>, root: Id, commands: seq<Command>) {
    commands != [] ==>
      var front, last := commands[..|commands| - 1], commands[|commands| - 1];
      AllFindAPlace(repo, root, front) && UsesRoot(last, root) && FindsAPlace(ExecuteAll(repo, front), last)
  }

  /** Over every run the root project stays; and where no pipeline is made without
      a place for it, every item keeps a parent that is there. */
  lemma {:induction false} RunKeepsRootAndParents(repo: seq<RepoItem>, root: Id, commands: seq<Command>)
    requires IsForest(repo) && HasRoot(repo, root) && MakeFreshIds(repo, commands)
    ensures HasRoot(ExecuteAll(repo, commands), root)
    ensures ParentsExist(repo) && AllFindAPlace(repo, root, commands) ==> ParentsExist(ExecuteAll(repo, commands))
  {
    if commands != [] {
      var front, last := commands[..|commands| - 1], commands[|commands| - 1];
      RunKeepsRootAndParents(repo, root, front);
      RunKeepsForest(repo, front);
      RootStays(ExecuteAll(repo, front), root, last);
      if ParentsExist(repo) && AllFindAPlace(repo, root, commands) {
        CommandKeepsParentsIff(ExecuteAll(repo, front), root, last);
      }
    }
  }
}
