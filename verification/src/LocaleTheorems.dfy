/** When the nested and the flat form of a locale undo each other. */
module LocaleTheorems {
  import opened Graph
  import opened Locale

  // What a dictionary says at a path. ------------------------------------------------

  function LeafAt(d: seq<Entry>, path: seq<string>): Option<string>
    decreases |path|
  {
    if path == [] then None
    else match Get(d, path[0])
      case None => None
      case Some(Text(text)) => if |path| == 1 then Some(text) else None
      case Some(Dict(sub)) => LeafAt(sub, path[1..])
  }

  lemma {:induction false} GetPut(d: seq<Entry>, key: string, value: Value, other: string)
    ensures Get(Put(d, key, value), other) == if other == key then Some(value) else Get(d, other)
  {
    if d != [] {
      var front, last := d[..|d| - 1], d[|d| - 1];
      if last.key != key && Get(d, key).Some? {
        GetPut(front, key, value, other);
      }
    }
  }

  lemma SinglePathLaw(d: seq<Entry>, key: string, text: string, other: seq<string>)
    requires other != []
    ensures LeafAt(Put(d, key, Text(text)), other)
            == if other == [key] then Some(text) else if [key] < other then None else LeafAt(d, other)
  {
    GetPut(d, key, Text(text), other[0]);
  }

  lemma ConsCompare(key: string, a: seq<string>, b: seq<string>)
    ensures [key] + a == [key] + b <==> a == b
    ensures [key] + a <= [key] + b <==> a <= b
  {
    assert ([key] + a)[1..] == a && ([key] + b)[1..] == b;
    if a <= b {
      assert b == a + b[|a|..];
      assert [key] + b == ([key] + a) + b[|a|..];
    }
    if [key] + a <= [key] + b {
      assert [key] + b == ([key] + a) + b[|a|..];
      assert b == a + b[|a|..];
    }
  }

  /** The law of a path assignment: it changes the text at the path, takes away
      whatever lay below the path, and nothing else. */
  lemma {:induction false} WithPathLaw(d: seq<Entry>, path: seq<string>, text: string, other: seq<string>)
    requires path != [] && other != [] && WithPath(d, path, text).Some?
    ensures LeafAt(WithPath(d, path, text).value, other)
            == if other == path then Some(text)
               else if path < other then None
               else LeafAt(d, other)
    decreases |path|
  {
    if |path| == 1 {
      assert path == [path[0]];
      SinglePathLaw(d, path[0], text, other);
    } else {
      var sub := if Get(d, path[0]).Some? then Get(d, path[0]).value.entries else [];
      var sub' := WithPath(sub, path[1..], text).value;
      GetPut(d, path[0], Dict(sub'), other[0]);
      if other[0] == path[0] {
        assert path == [path[0]] + path[1..] && other == [path[0]] + other[1..];
        ConsCompare(path[0], path[1..], other[1..]);
        if |other| > 1 {
          WithPathLaw(sub, path[1..], text, other[1..]);
        }
      }
    }
  }

  /** Python raises exactly when the way leads through a text. */
  lemma {:induction false} WithPathFails(d: seq<Entry>, path: seq<string>, text: string)
    requires path != []
    ensures WithPath(d, path, text).None? <==> exists n :: 1 <= n < |path| && LeafAt(d, path[..n]).Some?
    decreases |path|
  {
    if |path| > 1 {
      var sub := match Get(d, path[0]) case Some(Dict(sub)) => sub case _ => [];
      WithPathFails(sub, path[1..], text);
      forall n | 1 <= n < |path|
        ensures LeafAt(d, path[..n]) == match Get(d, path[0])
                                         case None => None
                                         case Some(Text(t)) => if n == 1 then Some(t) else None
                                         case Some(Dict(sub)) => LeafAt(sub, path[1..][..n - 1])
      {
        assert path[..n][1..] == path[1..][..n - 1];
      }
      match Get(d, path[0])
      case Some(Text(t)) => assert LeafAt(d, path[..1]).Some?;
      case Some(Dict(_)) =>
        if n :| 1 <= n < |path[1..]| && LeafAt(sub, path[1..][..n]).Some? {
          assert LeafAt(d, path[..n + 1]).Some?;
        }
        if n :| 1 <= n < |path| && LeafAt(d, path[..n]).Some? {
          assert LeafAt(sub, path[1..][..n - 1]).Some?;
        }
      case None =>
        if n :| 1 <= n < |path[1..]| && LeafAt([], path[1..][..n]).Some? {
        }
    }
  }

  // Shapes of dictionaries. -------------------------------------------------------------

  predicate UniqueKeys(d: seq<Entry>) {
    d == [] ||
    var e := d[|d| - 1];
    UniqueKeys(d[..|d| - 1]) && Get(d[..|d| - 1], e.key).None? && (e.value.Dict? ==> UniqueKeys(e.value.entries))
  }

  predicate DotFree(d: seq<Entry>) {
    d == [] ||
    var e := d[|d| - 1];
    DotFree(d[..|d| - 1]) && '.' !in e.key && (e.value.Dict? ==> DotFree(e.value.entries))
  }

  predicate NoEmptyDict(d: seq<Entry>) {
    d == [] ||
    var e := d[|d| - 1];
    NoEmptyDict(d[..|d| - 1]) && (e.value.Dict? ==> e.value.entries != [] && NoEmptyDict(e.value.entries))
  }

  /** No dictionary under the empty key: there the prefix would be lost. */
  predicate RootPlain(d: seq<Entry>) {
    d == [] || (RootPlain(d[..|d| - 1]) && !(d[|d| - 1].key == "" && d[|d| - 1].value.Dict?))
  }

  // The flat form by paths. -----------------------------------------------------------------

  datatype PathText = PathText(path: seq<string>, text: string)

  function Under(key: string, ps: seq<PathText>): seq<PathText> {
    seq(|ps|, i requires 0 <= i < |ps| => PathText([key] + ps[i].path, ps[i].text))
  }

  function FlatPaths(d: seq<Entry>): seq<PathText> {
    if d == [] then []
    else
      var e := d[|d| - 1];
      FlatPaths(d[..|d| - 1])
      + match e.value
        case Text(text) => [PathText([e.key], text)]
        case Dict(sub) => Under(e.key, FlatPaths(sub))
  }

  predicate RealPath(path: seq<string>) {
    path != [] && PartsDotFree(path)
  }

  lemma {:induction false} FlatPathsReal(d: seq<Entry>, i: nat)
    requires DotFree(d) && i < |FlatPaths(d)|
    ensures RealPath(FlatPaths(d)[i].path)
    ensures Get(d, FlatPaths(d)[i].path[0]).Some?
  {
    var front, e := d[..|d| - 1], d[|d| - 1];
    var k := |FlatPaths(front)|;
    if i < k {
      FlatPathsReal(front, i);
    } else if e.value.Dict? {
      FlatPathsReal(e.value.entries, i - k);
    }
  }

  lemma {:induction false} FlatPathsDiffer(d: seq<Entry>, i: nat, j: nat)
    requires DotFree(d) && UniqueKeys(d) && i < j < |FlatPaths(d)|
    ensures FlatPaths(d)[i].path != FlatPaths(d)[j].path
  {
    var front, e := d[..|d| - 1], d[|d| - 1];
    var k := |FlatPaths(front)|;
    if j < k {
      FlatPathsDiffer(front, i, j);
    } else if i < k {
      FlatPathsReal(front, i);
    } else if e.value.Dict? {
      FlatPathsDiffer(e.value.entries, i - k, j - k);
      var p, q := FlatPaths(e.value.entries)[i - k].path, FlatPaths(e.value.entries)[j - k].path;
      assert ([e.key] + p)[1..] == p && ([e.key] + q)[1..] == q;
    }
  }

  /** The entries of a path list under a prefix. */
  function Dotted(prefix: string, ps: seq<PathText>): (flat: seq<FlatEntry>)
    ensures |flat| == |ps|
  {
    seq(|ps|, i requires 0 <= i < |ps| => FlatEntry(Prefixed(prefix, Join(ps[i].path)), ps[i].text))
  }

  lemma PrefixedInjective(prefix: string, a: seq<string>, b: seq<string>)
    requires RealPath(a) && RealPath(b) && Prefixed(prefix, Join(a)) == Prefixed(prefix, Join(b))
    ensures a == b
  {
    if prefix != "" {
      var n := |prefix| + 1;
      assert (prefix + "." + Join(a))[n..] == Join(a);
      assert (prefix + "." + Join(b))[n..] == Join(b);
    }
    SplitJoin(a);
    SplitJoin(b);
  }

  lemma PrefixedUnder(prefix: string, key: string, path: seq<string>)
    requires path != [] && Prefixed(prefix, key) != ""
    ensures Prefixed(Prefixed(prefix, key), Join(path)) == Prefixed(prefix, Join([key] + path))
  {
    assert ([key] + path)[1..] == path;
    if prefix != "" {
      assert (prefix + "." + key) + "." + Join(path) == prefix + "." + (key + "." + Join(path));
    }
  }

  /** out[key] = text in a flat form: the other keys keep their texts, and a key that
      is there keeps its place. */
  lemma {:induction false} FlatPutLaw(flat: seq<FlatEntry>, key: string, text: string, other: string)
    ensures FlatGet(FlatPut(flat, key, text), other) == if other == key then Some(text) else FlatGet(flat, other)
    ensures FlatGet(flat, key).Some? ==> |FlatPut(flat, key, text)| == |flat|
    ensures forall k :: 0 <= k < |flat| ==> k < |FlatPut(flat, key, text)| && FlatPut(flat, key, text)[k].key == flat[k].key
  {
    if flat != [] {
      var front, last := flat[..|flat| - 1], flat[|flat| - 1];
      if last.key != key && FlatGet(flat, key).Some? {
        FlatPutLaw(front, key, text, other);
        var rest := FlatPut(front, key, text);
        assert (rest + [last])[..|rest|] == rest;
      } else {
        assert (flat + [FlatEntry(key, text)])[..|flat|] == flat;
      }
    }
  }

  ghost predicate KeysDiffer(flat: seq<FlatEntry>) {
    forall i, j :: 0 <= i < j < |flat| ==> flat[i].key != flat[j].key
  }

  lemma {:induction false} FlatGetNone(flat: seq<FlatEntry>, key: string)
    requires forall i :: 0 <= i < |flat| ==> flat[i].key != key
    ensures FlatGet(flat, key).None?
  {
    if flat != [] {
      FlatGetNone(flat[..|flat| - 1], key);
    }
  }

  lemma FlatPutNew(flat: seq<FlatEntry>, key: string, text: string)
    requires forall i :: 0 <= i < |flat| ==> flat[i].key != key
    ensures FlatPut(flat, key, text) == flat + [FlatEntry(key, text)]
  {
    FlatGetNone(flat, key);
  }

  lemma {:induction false} FlatUpdateAppends(out: seq<FlatEntry>, more: seq<FlatEntry>)
    requires KeysDiffer(out + more)
    ensures FlatUpdate(out, more) == out + more
  {
    if more == [] {
      assert out + more == out;
    } else {
      var front, last := more[..|more| - 1], more[|more| - 1];
      var all := out + more;
      assert all == (out + front) + [last];
      forall i, j | 0 <= i < j < |out + front|
        ensures (out + front)[i].key != (out + front)[j].key
      {
        assert all[i] == (out + front)[i] && all[j] == (out + front)[j];
      }
      FlatUpdateAppends(out, front);
      forall i | 0 <= i < |out + front|
        ensures (out + front)[i].key != last.key
      {
        assert all[i] == (out + front)[i] && all[|all| - 1] == last;
      }
      FlatPutNew(out + front, last.key, last.text);
    }
  }

  lemma AllReal(d: seq<Entry>)
    requires DotFree(d)
    ensures forall p :: p in FlatPaths(d) ==> RealPath(p.path)
  {
    forall p | p in FlatPaths(d)
      ensures RealPath(p.path)
    {
      var i :| 0 <= i < |FlatPaths(d)| && FlatPaths(d)[i] == p;
      FlatPathsReal(d, i);
    }
  }

  lemma DottedDiffer(d: seq<Entry>, prefix: string)
    requires DotFree(d) && UniqueKeys(d)
    ensures KeysDiffer(Dotted(prefix, FlatPaths(d)))
  {
    var ps := FlatPaths(d);
    AllReal(d);
    forall i, j | 0 <= i < j < |ps|
      ensures Dotted(prefix, ps)[i].key != Dotted(prefix, ps)[j].key
    {
      FlatPathsDiffer(d, i, j);
      if Prefixed(prefix, Join(ps[i].path)) == Prefixed(prefix, Join(ps[j].path)) {
        PrefixedInjective(prefix, ps[i].path, ps[j].path);
      }
    }
  }

  lemma FlattenedText(d: seq<Entry>, prefix: string, front: seq<Entry>, key: string, text: string)
    requires DotFree(d) && UniqueKeys(d) && d == front + [Entry(key, Text(text))]
    requires Flattened(front, prefix) == Dotted(prefix, FlatPaths(front))
    ensures Flattened(d, prefix) == Dotted(prefix, FlatPaths(d))
  {
    var head, here := Dotted(prefix, FlatPaths(front)), FlatEntry(Prefixed(prefix, key), text);
    assert d[..|d| - 1] == front;
    DottedConcat(prefix, FlatPaths(front), [PathText([key], text)]);
    assert Dotted(prefix, [PathText([key], text)]) == [here];
    DottedDiffer(d, prefix);
    assert KeysDiffer(head + [here]);
    FlatUpdateAppends(head, [here]);
    OneUpdate(head, here);
  }

  lemma FlattenedDict(d: seq<Entry>, prefix: string, front: seq<Entry>, key: string, sub: seq<Entry>)
    requires DotFree(d) && UniqueKeys(d) && d == front + [Entry(key, Dict(sub))] && Prefixed(prefix, key) != ""
    requires Flattened(front, prefix) == Dotted(prefix, FlatPaths(front))
    requires Flattened(sub, Prefixed(prefix, key)) == Dotted(Prefixed(prefix, key), FlatPaths(sub))
    ensures Flattened(d, prefix) == Dotted(prefix, FlatPaths(d))
  {
    assert d[..|d| - 1] == front;
    AllReal(sub);
    DottedUnder(prefix, key, FlatPaths(sub));
    DottedConcat(prefix, FlatPaths(front), Under(key, FlatPaths(sub)));
    DottedDiffer(d, prefix);
    FlatUpdateAppends(Dotted(prefix, FlatPaths(front)), Dotted(prefix, Under(key, FlatPaths(sub))));
  }

  /** Flattening lists the paths of a dictionary, joined with dots. */
  lemma {:induction false} FlattenedIsDotted(d: seq<Entry>, prefix: string)
    requires DotFree(d) && UniqueKeys(d) && (prefix != "" || RootPlain(d))
    ensures Flattened(d, prefix) == Dotted(prefix, FlatPaths(d))
  {
    if d != [] {
      var front, e := d[..|d| - 1], d[|d| - 1];
      assert d == front + [Entry(e.key, e.value)];
      FlattenedIsDotted(front, prefix);
      match e.value
      case Text(text) => FlattenedText(d, prefix, front, e.key, text);
      case Dict(sub) =>
        FlattenedIsDotted(sub, Prefixed(prefix, e.key));
        FlattenedDict(d, prefix, front, e.key, sub);
    }
  }

  lemma DottedConcat(prefix: string, a: seq<PathText>, b: seq<PathText>)
    ensures Dotted(prefix, a + b) == Dotted(prefix, a) + Dotted(prefix, b)
  {
  }

  lemma OneUpdate(out: seq<FlatEntry>, e: FlatEntry)
    ensures FlatUpdate(out, [e]) == FlatPut(out, e.key, e.text)
  {
    assert [e][..0] == [];
  }

  lemma DottedUnder(prefix: string, key: string, ps: seq<PathText>)
    requires Prefixed(prefix, key) != "" && forall p :: p in ps ==> p.path != []
    ensures Dotted(Prefixed(prefix, key), ps) == Dotted(prefix, Under(key, ps))
  {
    forall i | 0 <= i < |ps|
      ensures Prefixed(Prefixed(prefix, key), Join(ps[i].path)) == Prefixed(prefix, Join([key] + ps[i].path))
    {
      assert ps[i] in ps;
      PrefixedUnder(prefix, key, ps[i].path);
    }
  }

  // Building a dictionary from paths. ------------------------------------------------------------

  function Build(d: seq<Entry>, ps: seq<PathText>): Option<seq<Entry>> {
    if ps == [] then Some(d)
    else match Build(d, ps[..|ps| - 1])
      case None => None
      case Some(x) => WithPath(x, ps[|ps| - 1].path, ps[|ps| - 1].text)
  }

  lemma {:induction false} UnflattenedIsBuild(ps: seq<PathText>)
    requires forall p :: p in ps ==> RealPath(p.path)
    ensures Unflattened(Dotted("", ps)) == Build([], ps)
  {
    if ps != [] {
      var front, last := ps[..|ps| - 1], ps[|ps| - 1];
      assert last in ps;
      UnflattenedIsBuild(front);
      SplitJoin(last.path);
      assert Dotted("", ps)[..|ps| - 1] == Dotted("", front);
    }
  }

  lemma {:induction false} BuildConcat(d: seq<Entry>, a: seq<PathText>, b: seq<PathText>)
    ensures Build(d, a + b) == match Build(d, a) case Some(x) => Build(x, b) case None => None
  {
    if b == [] {
      assert a + b == a;
    } else {
      var front, last := b[..|b| - 1], b[|b| - 1];
      BuildConcat(d, a, front);
      assert (a + b)[..|a + b| - 1] == a + front;
    }
  }

  lemma PutNew(d: seq<Entry>, key: string, value: Value)
    requires Get(d, key).None?
    ensures Put(d, key, value) == d + [Entry(key, value)]
  {
  }

  lemma GetLast(d: seq<Entry>, e: Entry)
    ensures Get(d + [e], e.key) == Some(e.value)
    ensures forall v :: Put(d + [e], e.key, v) == d + [Entry(e.key, v)]
  {
    assert (d + [e])[..|d|] == d;
  }

  lemma {:induction false} BuildUnder(d: seq<Entry>, key: string, ps: seq<PathText>)
    requires Get(d, key).None? && ps != [] && forall p :: p in ps ==> p.path != []
    ensures Build(d, Under(key, ps)) == match Build([], ps)
                                        case Some(sub) => Some(d + [Entry(key, Dict(sub))])
                                        case None => None
  {
    var front, last := ps[..|ps| - 1], ps[|ps| - 1];
    assert last in ps;
    assert Under(key, ps)[..|ps| - 1] == Under(key, front);
    var path := [key] + last.path;
    assert path[1..] == last.path;
    if front == [] {
      assert Build(d, Under(key, front)) == Some(d) && Build([], front) == Some([]);
      if WithPath([], last.path, last.text).Some? {
        PutNew(d, key, Dict(WithPath([], last.path, last.text).value));
      }
    } else {
      BuildUnder(d, key, front);
      if Build([], front).Some? {
        var sub := Build([], front).value;
        GetLast(d, Entry(key, Dict(sub)));
      }
    }
  }

  lemma {:induction false} SomePath(d: seq<Entry>)
    requires d != [] && NoEmptyDict(d)
    ensures FlatPaths(d) != []
  {
    var e := d[|d| - 1];
    if e.value.Dict? {
      SomePath(e.value.entries);
    }
  }

  predicate BuildsBack(d: seq<Entry>) {
    Build([], FlatPaths(d)) == Some(d)
  }

  lemma {:induction false} BuildRestores(d: seq<Entry>)
    requires UniqueKeys(d) && NoEmptyDict(d) && DotFree(d)
    ensures BuildsBack(d)
  {
    if d != [] {
      var front, e := d[..|d| - 1], d[|d| - 1];
      assert d == front + [e];
      BuildRestores(front);
      match e.value
      case Text(text) =>
        BuildConcat([], FlatPaths(front), [PathText([e.key], text)]);
        assert [PathText([e.key], text)][..0] == [];
        PutNew(front, e.key, Text(text));
      case Dict(sub) =>
        AllReal(sub);
        SomePath(sub);
        BuildRestores(sub);
        BuildConcat([], FlatPaths(front), Under(e.key, FlatPaths(sub)));
        BuildUnder(front, e.key, FlatPaths(sub));
    }
  }
}
