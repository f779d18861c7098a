/** What the column lists that a node passes on have to do with those it gets. */
module SchemaColumns {
  import opened Graph
  import opened Pipeline
  import opened Sorting
  import opened SchemaRules

  lemma {:induction false} NamedSplits(up: seq<Column>, names: seq<string>)
    ensures multiset(Filter(up, NamedIn(names))) + multiset(Filter(up, NotNamedIn(names))) == multiset(up)
  {
    if up != [] {
      NamedSplits(up[..|up| - 1], names);
      assert up == up[..|up| - 1] + [up[|up| - 1]];
    }
  }

  predicate OwnSchema(node: Node) {
    (node.schemaSource == Declared && node.schema.Some?) || node.schemaSource == Autodetect
  }

  lemma ByPlaceOrders(names: seq<string>)
    ensures TotalPreorder(ByPlace(names))
  {
  }

  lemma SelectedColumns(up: seq<Column>, names: seq<string>, r: seq<Column>)
    requires r == Sort(Filter(up, NamedIn(names)), ByPlace(names))
    ensures multiset(r) == multiset(Filter(up, NamedIn(names)))
    ensures forall i :: 0 <= i < |r| ==> r[i].name in names
    ensures forall i, j :: 0 <= i < j < |r| ==> Place(names, r[i].name) <= Place(names, r[j].name)
  {
    ByPlaceOrders(names);
    SortCorrect(Filter(up, NamedIn(names)), ByPlace(names));
    forall i | 0 <= i < |r|
      ensures r[i].name in names
    {
      FilterMembers(up, NamedIn(names));
      assert r[i] in multiset(r);
      assert NamedIn(names)(r[i]);
    }
    forall i, j | 0 <= i < j < |r|
      ensures Place(names, r[i].name) <= Place(names, r[j].name)
    {
      assert ByPlace(names)(r[i], r[j]);
    }
  }

  /** Selecting columns and dropping the same columns share out what arrives,
      and the selection stands in the order it was asked for. */
  lemma SelectionSharesOut(select: Node, drop: Node, names: seq<string>, up: seq<Column>, main: seq<Column>)
    requires !OwnSchema(select) && select.component == Project(names) && names != []
    requires !OwnSchema(drop) && drop.component == DropColumns(names)
    ensures var r := Compute(select, up, main);
            multiset(r) + multiset(Compute(drop, up, main)) == multiset(up)
            && (forall i :: 0 <= i < |r| ==> r[i].name in names)
            && forall i, j :: 0 <= i < j < |r| ==> Place(names, r[i].name) <= Place(names, r[j].name)
  {
    NamedSplits(up, names);
    SelectedColumns(up, names, Compute(select, up, main));
  }

  // Reordering. ----------------------------------------------------------------------

  /** No column of `up` is asked for twice. */
  ghost predicate AskedOnce(up: seq<Column>, ordered: seq<string>) {
    forall i, j :: 0 <= i < j < |ordered| && ordered[i] == ordered[j] ==> ordered[i] !in Names(up)
  }

  lemma {:induction false} LastNamedFinds(up: seq<Column>, name: string)
    ensures LastNamed(up, name).Some? <==> name in Names(up)
    ensures LastNamed(up, name).Some? ==> LastNamed(up, name).value in up && LastNamed(up, name).value.name == name
  {
    if up != [] {
      LastNamedFinds(up[..|up| - 1], name);
      assert up == up[..|up| - 1] + [up[|up| - 1]];
    }
  }

  lemma {:induction false} PickedAreNamed(up: seq<Column>, ordered: seq<string>)
    ensures forall c :: c in PickNamed(up, ordered) ==> c in up && c.name in ordered
    ensures forall c :: c in up && c.name in ordered ==> c.name in Names(PickNamed(up, ordered))
  {
    if ordered != [] {
      PickedAreNamed(up, ordered[1..]);
      LastNamedFinds(up, ordered[0]);
      assert ordered == [ordered[0]] + ordered[1..];
      forall c | c in up && c.name in ordered
        ensures c.name in Names(PickNamed(up, ordered))
      {
        assert c.name in Names(up);
      }
    }
  }

  lemma {:induction false} PickedDiffer(up: seq<Column>, ordered: seq<string>)
    requires AskedOnce(up, ordered)
    ensures NamesDiffer(PickNamed(up, ordered))
  {
    if ordered != [] {
      var rest := ordered[1..];
      forall i, j | 0 <= i < j < |rest| && rest[i] == rest[j]
        ensures rest[i] !in Names(up)
      {
        assert ordered[i + 1] == ordered[j + 1];
      }
      PickedDiffer(up, rest);
      LastNamedFinds(up, ordered[0]);
      PickedAreNamed(up, rest);
      if ordered[0] in Names(up) {
        forall k | 0 <= k < |rest|
          ensures rest[k] != ordered[0]
        {
          assert ordered[k + 1] == rest[k];
        }
      }
    }
  }

  lemma OneOfAName(cols: seq<Column>, i: nat, j: nat)
    requires NamesDiffer(cols) && i < |cols| && j < |cols|
    ensures cols[i].name == cols[j].name ==> i == j
  {
  }

  lemma LastIsNew(cols: seq<Column>)
    requires NamesDiffer(cols) && cols != []
    ensures cols[|cols| - 1] !in cols[..|cols| - 1]
  {
    var front := cols[..|cols| - 1];
    forall i | 0 <= i < |front|
      ensures front[i] != cols[|cols| - 1]
    {
      OneOfAName(cols, i, |cols| - 1);
    }
  }

  lemma SameNameSameColumn(up: seq<Column>, a: Column, b: Column)
    requires NamesDiffer(up) && a in up && b in up && a.name == b.name
    ensures a == b
  {
    var i :| 0 <= i < |up| && up[i] == a;
    var j :| 0 <= j < |up| && up[j] == b;
    OneOfAName(up, i, j);
  }

  lemma {:induction false} DifferCountsOne(cols: seq<Column>, c: Column)
    requires NamesDiffer(cols)
    ensures multiset(cols)[c] == if c in cols then 1 else 0
  {
    if cols != [] {
      var front, last := cols[..|cols| - 1], cols[|cols| - 1];
      DifferCountsOne(front, c);
      assert cols == front + [last];
      LastIsNew(cols);
    }
  }

  lemma {:induction false} PickedCount(up: seq<Column>, ordered: seq<string>, i: nat, j: nat)
    requires i <= j < |ordered| && ordered[i] == ordered[j] && ordered[i] in Names(up)
    ensures LastNamed(up, ordered[i]).Some?
    ensures multiset(PickNamed(up, ordered))[LastNamed(up, ordered[i]).value] >= if i < j then 2 else 1
    decreases |ordered|
  {
    LastNamedFinds(up, ordered[0]);
    var c, rest := LastNamed(up, ordered[i]), PickNamed(up, ordered[1..]);
    if i > 0 {
      PickedCount(up, ordered[1..], i - 1, j - 1);
    } else if j > 0 {
      PickedCount(up, ordered[1..], j - 1, j - 1);
    }
  }

  lemma PickIsFilter(up: seq<Column>, ordered: seq<string>)
    requires NamesDiffer(up) && AskedOnce(up, ordered)
    ensures multiset(PickNamed(up, ordered)) == multiset(Filter(up, NamedIn(ordered)))
  {
    var a, b := PickNamed(up, ordered), Filter(up, NamedIn(ordered));
    PickedDiffer(up, ordered);
    PickedAreNamed(up, ordered);
    FilterMembers(up, NamedIn(ordered));
    NamedSplits(up, ordered);
    forall c
      ensures multiset(a)[c] == multiset(b)[c]
    {
      DifferCountsOne(a, c);
      DifferCountsOne(up, c);
      assert multiset(b)[c] <= multiset(up)[c];
      assert c in b <==> multiset(b)[c] > 0;
      if c in b {
        var d :| d in a && d.name == c.name;
        SameNameSameColumn(up, c, d);
      }
    }
  }

  /** Reordering loses and doubles no column exactly when none is asked for twice. */
  lemma ReorderPermutesIff(node: Node, ordered: seq<string>, up: seq<Column>, main: seq<Column>)
    requires !OwnSchema(node) && node.component == Reorder(ordered) && NamesDiffer(up)
    ensures multiset(Compute(node, up, main)) == multiset(up) <==> AskedOnce(up, ordered)
  {
    if ordered != [] {
      var a, b := PickNamed(up, ordered), Filter(up, NotNamedIn(ordered));
      assert Compute(node, up, main) == a + b;
      NamedSplits(up, ordered);
      if AskedOnce(up, ordered) {
        PickIsFilter(up, ordered);
      }
      if multiset(a) + multiset(b) == multiset(up) {
        forall i, j | 0 <= i < j < |ordered| && ordered[i] == ordered[j]
          ensures ordered[i] !in Names(up)
        {
          PickedOnce(up, ordered, i, j);
        }
      }
    }
  }

  lemma PickedOnce(up: seq<Column>, ordered: seq<string>, i: nat, j: nat)
    requires NamesDiffer(up) && multiset(PickNamed(up, ordered)) <= multiset(up)
    requires i < j < |ordered| && ordered[i] == ordered[j]
    ensures ordered[i] !in Names(up)
  {
    LastNamedFinds(up, ordered[i]);
    if c :| c in up && c.name == ordered[i] {
      DifferCountsOne(up, LastNamed(up, ordered[i]).value);
      PickedCount(up, ordered, i, j);
    }
  }

  // Names that stay distinct. -------------------------------------------------------------

  lemma {:induction false} FilterDiffer(cols: seq<Column>, keep: Column -> bool)
    requires NamesDiffer(cols)
    ensures NamesDiffer(Filter(cols, keep))
  {
    if cols != [] {
      var front := cols[..|cols| - 1];
      FilterDiffer(front, keep);
      FilterMembers(front, keep);
      forall c | c in Filter(front, keep)
        ensures c.name != cols[|cols| - 1].name
      {
        var k :| 0 <= k < |front| && front[k] == c;
        OneOfAName(cols, k, |cols| - 1);
      }
    }
  }

  lemma {:induction false} NewTextNames(names: seq<string>, have: set<string>)
    ensures forall c :: c in NewTextColumns(names, have) ==> c.name in names && c.name !in have
    ensures forall n :: n in names && n !in have ==> n in Names(NewTextColumns(names, have))
  {
    if names != [] {
      NewTextNames(names[1..], have);
      assert names == [names[0]] + names[1..];
      forall n | n in names && n !in have
        ensures n in Names(NewTextColumns(names, have))
      {
        if n == names[0] {
          assert NewTextColumns(names, have)[0].name == n;
        } else {
          assert n in Names(NewTextColumns(names[1..], have));
        }
      }
    }
  }

  predicate NewNamesOnce(names: seq<string>, have: set<string>) {
    forall i, j :: 0 <= i < j < |names| && names[i] == names[j] ==> names[i] in have
  }

  lemma {:induction false} NewTextDifferIff(names: seq<string>, have: set<string>)
    ensures NamesDiffer(NewTextColumns(names, have)) <==> NewNamesOnce(names, have)
  {
    if names != [] {
      var head, rest := names[0], names[1..];
      NewTextDifferIff(rest, have);
      NewTextNames(rest, have);
      var more := NewTextColumns(rest, have);
      HeadOnce(head, rest, have);
      if head !in have {
        var all := [Column(head, StringType, true)] + more;
        assert NewTextColumns(names, have) == all;
        assert names == [head] + rest;
        HeadDiffers(Column(head, StringType, true), more);
      }
    }
  }

  lemma HeadOnce(head: string, rest: seq<string>, have: set<string>)
    ensures NewNamesOnce([head] + rest, have) <==> NewNamesOnce(rest, have) && (head in rest ==> head in have)
  {
    var all := [head] + rest;
    if NewNamesOnce(all, have) {
      forall i, j | 0 <= i < j < |rest| && rest[i] == rest[j]
        ensures rest[i] in have
      {
        assert all[i + 1] == all[j + 1];
      }
      if head in rest {
        var j :| 0 <= j < |rest| && rest[j] == head;
        assert all[0] == all[j + 1];
      }
    }
  }

  lemma HeadDiffers(c: Column, more: seq<Column>)
    ensures NamesDiffer([c] + more) <==> NamesDiffer(more) && c.name !in Names(more)
  {
    var all := [c] + more;
    if NamesDiffer(all) {
      forall i, j | 0 <= i < j < |more|
        ensures more[i].name != more[j].name
      {
        assert all[i + 1] == more[i] && all[j + 1] == more[j];
      }
      forall j | 0 <= j < |more|
        ensures more[j].name != c.name
      {
        OneOfAName(all, 0, j + 1);
      }
    }
  }

  lemma DifferConcat(a: seq<Column>, b: seq<Column>)
    requires NamesDiffer(a) && forall c :: c in b ==> c.name !in Names(a)
    ensures NamesDiffer(a + b) <==> NamesDiffer(b)
  {
    var all := a + b;
    forall i, j | 0 <= i < j < |b|
      ensures b[i] == all[|a| + i] && b[j] == all[|a| + j]
    {
    }
    if NamesDiffer(b) {
      forall i, j | 0 <= i < j < |all|
        ensures all[i].name != all[j].name
      {
        if i < |a| <= j {
          assert a[i].name in Names(a) && all[j] in b;
        }
      }
    }
    if NamesDiffer(all) {
      forall i, j | 0 <= i < j < |b|
        ensures b[i].name != b[j].name
      {
        OneOfAName(all, |a| + i, |a| + j);
      }
    }
  }

  /** Splitting a text leaves distinct names exactly when no name that is new is
      listed twice: new names are only held against the columns kept. */
  lemma TextSplitDiffersIff(node: Node, column: string, names: seq<string>, dropSource: bool, up: seq<Column>, main: seq<Column>)
    requires !OwnSchema(node) && node.component == TextToColumns(column, names, dropSource) && column != ""
    requires NamesDiffer(up)
    ensures NamesDiffer(Compute(node, up, main))
            <==> NewNamesOnce(names, Names(if dropSource then Filter(up, NotNamedIn([column])) else up))
  {
    var kept := if dropSource then Filter(up, NotNamedIn([column])) else up;
    FilterDiffer(up, NotNamedIn([column]));
    NewTextNames(names, Names(kept));
    NewTextDifferIff(names, Names(kept));
    DifferConcat(kept, NewTextColumns(names, Names(kept)));
  }

  lemma TwiceCounts(s: seq<Column>, i: nat, j: nat)
    requires i < j < |s| && s[i] == s[j]
    ensures multiset(s)[s[i]] >= 2
  {
    var a, b := s[..j], s[j..];
    assert s == a + b && a[i] == s[i] && b[0] == s[j];
    assert multiset(s) == multiset(a) + multiset(b) && s[i] in multiset(a) && s[i] in multiset(b);
  }

  lemma PermutedDiffer(a: seq<Column>, b: seq<Column>)
    requires NamesDiffer(a) && multiset(a) == multiset(b)
    ensures NamesDiffer(b)
  {
    forall i, j | 0 <= i < j < |b|
      ensures b[i].name != b[j].name
    {
      assert b[i] in multiset(b) && b[j] in multiset(b);
      if b[i].name == b[j].name {
        SameNameSameColumn(a, b[i], b[j]);
        DifferCountsOne(a, b[i]);
        TwiceCounts(b, i, j);
      }
    }
  }

  predicate MakesNoSecondName(c: Component) {
    c.Project? || c.DropColumns? || c.Cast? || c.AddColumn? || c.Window? || c.SemiOrAntiJoin?
    || c.CreateGeometry? || c.AiChunk? || c.AiColumn? || c.PassThrough?
  }

  /** These components give distinct names to columns of distinct names. */
  lemma NamesStayDistinct(node: Node, up: seq<Column>, main: seq<Column>)
    requires !OwnSchema(node) && MakesNoSecondName(node.component)
    requires NamesDiffer(up) && NamesDiffer(main)
    ensures NamesDiffer(Compute(node, up, main))
  {
    match node.component
    case Project(names) => ProjectDiffers(node, names, up, main);
    case DropColumns(names) => FilterDiffer(up, NotNamedIn(names));
    case CreateGeometry(_, _, _) => GeometryDiffers(node, up, main);
    case AiChunk(_) => ChunkDiffers(node, up, main);
    case _ =>
  }

  lemma GeometryDiffers(node: Node, up: seq<Column>, main: seq<Column>)
    requires !OwnSchema(node) && node.component.CreateGeometry? && NamesDiffer(up)
    ensures NamesDiffer(Compute(node, up, main))
  {
    var g := node.component;
    FilterDiffer(up, NotNamedIn(g.sources));
    AppendDiffer(if g.removeSource then Filter(up, NotNamedIn(g.sources)) else up, Column(g.output, Geometry, true));
  }

  lemma ChunkDiffers(node: Node, up: seq<Column>, main: seq<Column>)
    requires !OwnSchema(node) && node.component.AiChunk? && NamesDiffer(up)
    ensures NamesDiffer(Compute(node, up, main))
  {
    var text, index := Column(node.component.output, StringType, true), Column("chunk_index", Int64, true);
    AppendDiffer(up, text);
    AppendDiffer(AppendUnlessNamed(up, text), index);
    AppendDiffer(AppendUnlessNamed(AppendUnlessNamed(up, text), index), Column("chunk_count", Int64, true));
  }

  lemma AppendDiffer(cols: seq<Column>, c: Column)
    requires NamesDiffer(cols)
    ensures NamesDiffer(AppendUnlessNamed(cols, c))
  {
  }

  lemma ProjectDiffers(node: Node, names: seq<string>, up: seq<Column>, main: seq<Column>)
    requires !OwnSchema(node) && node.component == Project(names) && NamesDiffer(up)
    ensures NamesDiffer(Compute(node, up, main))
  {
    if names != [] {
      FilterDiffer(up, NamedIn(names));
      SelectedColumns(up, names, Compute(node, up, main));
      PermutedDiffer(Filter(up, NamedIn(names)), Compute(node, up, main));
    }
  }
}
