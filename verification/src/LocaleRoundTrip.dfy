/** When the nested and the flat form of a locale undo each other, exactly. */
module LocaleRoundTrip {
  import opened Graph
  import opened Locale
  import opened LocaleTheorems

  // Shapes that a path assignment keeps. --------------------------------------------------

  lemma {:induction false} GetShapes(d: seq<Entry>, key: string)
    requires Get(d, key).Some? && Get(d, key).value.Dict?
    ensures UniqueKeys(d) ==> UniqueKeys(Get(d, key).value.entries)
    ensures DotFree(d) ==> DotFree(Get(d, key).value.entries)
    ensures NoEmptyDict(d) ==> NoEmptyDict(Get(d, key).value.entries)
  {
    if d[|d| - 1].key != key {
      GetShapes(d[..|d| - 1], key);
    }
  }

  lemma {:induction false} PutUnique(d: seq<Entry>, key: string, value: Value)
    requires UniqueKeys(d) && (value.Dict? ==> UniqueKeys(value.entries))
    ensures UniqueKeys(Put(d, key, value))
  {
    if d != [] {
      var front, last := d[..|d| - 1], d[|d| - 1];
      if last.key == key {
        assert Put(d, key, value)[..|d| - 1] == front;
      } else if Get(d, key).None? {
        assert Put(d, key, value)[..|d|] == d;
      } else {
        PutUnique(front, key, value);
        GetPut(front, key, value, last.key);
        var rest := Put(front, key, value);
        assert (rest + [last])[..|rest|] == rest;
      }
    }
  }

  lemma {:induction false} PutDotFree(d: seq<Entry>, key: string, value: Value)
    requires DotFree(d) && '.' !in key && (value.Dict? ==> DotFree(value.entries))
    ensures DotFree(Put(d, key, value))
  {
    if d != [] {
      var front, last := d[..|d| - 1], d[|d| - 1];
      if last.key == key {
        assert Put(d, key, value)[..|d| - 1] == front;
      } else if Get(d, key).None? {
        assert Put(d, key, value)[..|d|] == d;
      } else {
        PutDotFree(front, key, value);
        var rest := Put(front, key, value);
        assert (rest + [last])[..|rest|] == rest;
      }
    }
  }

  lemma {:induction false} PutNoEmpty(d: seq<Entry>, key: string, value: Value)
    requires NoEmptyDict(d) && (value.Dict? ==> value.entries != [] && NoEmptyDict(value.entries))
    ensures NoEmptyDict(Put(d, key, value)) && Put(d, key, value) != []
  {
    if d != [] {
      var front, last := d[..|d| - 1], d[|d| - 1];
      if last.key == key {
        assert Put(d, key, value)[..|d| - 1] == front;
      } else if Get(d, key).None? {
        assert Put(d, key, value)[..|d|] == d;
      } else {
        PutNoEmpty(front, key, value);
        var rest := Put(front, key, value);
        assert (rest + [last])[..|rest|] == rest;
      }
    }
  }

  lemma {:induction false} PutRootPlain(d: seq<Entry>, key: string, value: Value)
    requires RootPlain(d) && (key == "" ==> value.Text?)
    ensures RootPlain(Put(d, key, value))
  {
    if d != [] {
      var front, last := d[..|d| - 1], d[|d| - 1];
      if last.key == key {
        assert Put(d, key, value)[..|d| - 1] == front;
      } else if Get(d, key).None? {
        assert Put(d, key, value)[..|d|] == d;
      } else {
        PutRootPlain(front, key, value);
        var rest := Put(front, key, value);
        assert (rest + [last])[..|rest|] == rest;
      }
    }
  }

  /** The dictionary one step down a path, new where there is none. */
  function Below(d: seq<Entry>, key: string): seq<Entry> {
    match Get(d, key) case Some(Dict(sub)) => sub case _ => []
  }

  lemma {:induction false} WithPathUnique(d: seq<Entry>, path: seq<string>, text: string)
    requires UniqueKeys(d) && WithPath(d, path, text).Some?
    ensures UniqueKeys(WithPath(d, path, text).value)
    decreases |path|
  {
    if |path| == 1 {
      PutUnique(d, path[0], Text(text));
    } else if |path| > 1 {
      if Get(d, path[0]).Some? { GetShapes(d, path[0]); }
      WithPathUnique(Below(d, path[0]), path[1..], text);
      PutUnique(d, path[0], Dict(WithPath(Below(d, path[0]), path[1..], text).value));
    }
  }

  lemma {:induction false} WithPathDotFree(d: seq<Entry>, path: seq<string>, text: string)
    requires DotFree(d) && PartsDotFree(path) && WithPath(d, path, text).Some?
    ensures DotFree(WithPath(d, path, text).value)
    decreases |path|
  {
    if path != [] { assert path[0] in path; }
    if |path| == 1 {
      PutDotFree(d, path[0], Text(text));
    } else if |path| > 1 {
      if Get(d, path[0]).Some? { GetShapes(d, path[0]); }
      WithPathDotFree(Below(d, path[0]), path[1..], text);
      PutDotFree(d, path[0], Dict(WithPath(Below(d, path[0]), path[1..], text).value));
    }
  }

  lemma {:induction false} WithPathNoEmpty(d: seq<Entry>, path: seq<string>, text: string)
    requires NoEmptyDict(d) && path != [] && WithPath(d, path, text).Some?
    ensures NoEmptyDict(WithPath(d, path, text).value) && WithPath(d, path, text).value != []
    decreases |path|
  {
    if |path| == 1 {
      PutNoEmpty(d, path[0], Text(text));
    } else {
      if Get(d, path[0]).Some? { GetShapes(d, path[0]); }
      WithPathNoEmpty(Below(d, path[0]), path[1..], text);
      PutNoEmpty(d, path[0], Dict(WithPath(Below(d, path[0]), path[1..], text).value));
    }
  }

  predicate LeadingDot(key: string) {
    key != "" && key[0] == '.'
  }

  lemma WithPathRootPlain(d: seq<Entry>, key: string, text: string)
    requires RootPlain(d) && !LeadingDot(key) && WithPath(d, Split(key), text).Some?
    ensures RootPlain(WithPath(d, Split(key), text).value)
  {
    var path := Split(key);
    if |path| == 1 {
      PutRootPlain(d, path[0], Text(text));
    } else {
      PutRootPlain(d, path[0], Dict(WithPath(Below(d, path[0]), path[1..], text).value));
    }
  }

  /** What unflattening any flat form at all gives back. */
  lemma {:induction false} UnflattenedShape(flat: seq<FlatEntry>)
    requires Unflattened(flat).Some?
    ensures UniqueKeys(Unflattened(flat).value)
    ensures DotFree(Unflattened(flat).value)
    ensures NoEmptyDict(Unflattened(flat).value)
  {
    if flat != [] {
      var front, last := flat[..|flat| - 1], flat[|flat| - 1];
      UnflattenedShape(front);
      var out := Unflattened(front).value;
      WithPathUnique(out, Split(last.key), last.text);
      WithPathDotFree(out, Split(last.key), last.text);
      WithPathNoEmpty(out, Split(last.key), last.text);
    }
  }

  ghost predicate NoLeadingDot(flat: seq<FlatEntry>) {
    forall e :: e in flat ==> !LeadingDot(e.key)
  }

  lemma {:induction false} UnflattenedRootPlain(flat: seq<FlatEntry>)
    requires Unflattened(flat).Some? && NoLeadingDot(flat)
    ensures RootPlain(Unflattened(flat).value)
  {
    if flat != [] {
      var front, last := flat[..|flat| - 1], flat[|flat| - 1];
      UnflattenedRootPlain(front);
      assert last in flat;
      WithPathRootPlain(Unflattened(front).value, last.key, last.text);
    }
  }

  // No flattened key starts with a dot. ------------------------------------------------------

  lemma {:induction false} FlatPutNoLeading(flat: seq<FlatEntry>, key: string, text: string)
    requires NoLeadingDot(flat) && !LeadingDot(key)
    ensures NoLeadingDot(FlatPut(flat, key, text))
  {
    if flat != [] {
      var front, last := flat[..|flat| - 1], flat[|flat| - 1];
      assert last in flat;
      if last.key != key && FlatGet(flat, key).Some? {
        FlatPutNoLeading(front, key, text);
      }
    }
  }

  lemma {:induction false} FlatUpdateNoLeading(out: seq<FlatEntry>, more: seq<FlatEntry>)
    requires NoLeadingDot(out) && NoLeadingDot(more)
    ensures NoLeadingDot(FlatUpdate(out, more))
  {
    if more != [] {
      var front, last := more[..|more| - 1], more[|more| - 1];
      assert last in more;
      FlatUpdateNoLeading(out, front);
      FlatPutNoLeading(FlatUpdate(out, front), last.key, last.text);
    }
  }

  lemma {:induction false} FlattenedNoLeading(d: seq<Entry>, prefix: string)
    requires DotFree(d) && !LeadingDot(prefix)
    ensures NoLeadingDot(Flattened(d, prefix))
  {
    if d != [] {
      var front, e := d[..|d| - 1], d[|d| - 1];
      FlattenedNoLeading(front, prefix);
      var key := Prefixed(prefix, e.key);
      assert e.key != "" ==> e.key[0] in e.key;
      assert !LeadingDot(key);
      match e.value
      case Text(text) => FlatPutNoLeading(Flattened(front, prefix), key, text);
      case Dict(sub) =>
        FlattenedNoLeading(sub, key);
        FlatUpdateNoLeading(Flattened(front, prefix), Flattened(sub, key));
    }
  }

  /** unflatten(flatten(d)) is d exactly when no key holds a dot, no dictionary
      inside d is empty, and the empty key of d holds no dictionary. */
  lemma NestedRoundTripIff(d: seq<Entry>)
    requires UniqueKeys(d)
    ensures Unflattened(Flattened(d, "")) == Some(d) <==> DotFree(d) && NoEmptyDict(d) && RootPlain(d)
  {
    if Unflattened(Flattened(d, "")) == Some(d) {
      UnflattenedShape(Flattened(d, ""));
      FlattenedNoLeading(d, "");
      UnflattenedRootPlain(Flattened(d, ""));
    }
    if DotFree(d) && NoEmptyDict(d) && RootPlain(d) {
      FlattenedIsDotted(d, "");
      AllReal(d);
      UnflattenedIsBuild(FlatPaths(d));
      BuildRestores(d);
    }
  }

  // Reading a flat form. ---------------------------------------------------------------------

  lemma {:induction false} LeafInPaths(d: seq<Entry>, path: seq<string>, text: string)
    requires UniqueKeys(d)
    ensures LeafAt(d, path) == Some(text) <==> PathText(path, text) in FlatPaths(d)
  {
    if path == [] {
      NoEmptyPath(d, text);
    } else if d != [] {
      var front, e := d[..|d| - 1], d[|d| - 1];
      LeafInPaths(front, path, text);
      match e.value
      case Text(t) =>
        assert PathText(path, text) in [PathText([e.key], t)] <==> path == [e.key] && text == t;
      case Dict(sub) =>
        UnderHolds(e.key, FlatPaths(sub), path, text);
        LeafInPaths(sub, path[1..], text);
    }
  }

  lemma UnderHolds(key: string, ps: seq<PathText>, path: seq<string>, text: string)
    requires path != []
    ensures PathText(path, text) in Under(key, ps) <==> path[0] == key && PathText(path[1..], text) in ps
  {
    var under := Under(key, ps);
    if PathText(path, text) in under {
      var i :| 0 <= i < |under| && under[i] == PathText(path, text);
      assert path[1..] == ps[i].path;
      assert ps[i] in ps;
    }
    if path[0] == key && PathText(path[1..], text) in ps {
      var i :| 0 <= i < |ps| && ps[i] == PathText(path[1..], text);
      assert path == [key] + path[1..];
      assert under[i] == PathText(path, text);
    }
  }

  lemma {:induction false} NoEmptyPath(d: seq<Entry>, text: string)
    ensures PathText([], text) !in FlatPaths(d)
  {
    if d != [] {
      NoEmptyPath(d[..|d| - 1], text);
    }
  }

  lemma {:induction false} FlatGetIn(flat: seq<FlatEntry>, key: string, text: string)
    requires KeysDiffer(flat)
    ensures FlatGet(flat, key) == Some(text) <==> FlatEntry(key, text) in flat
  {
    if flat != [] {
      var front, last := flat[..|flat| - 1], flat[|flat| - 1];
      FlatGetIn(front, key, text);
      if FlatEntry(key, text) in front {
        var i :| 0 <= i < |front| && front[i] == FlatEntry(key, text);
        assert flat[i].key != flat[|flat| - 1].key;
      }
      assert flat == front + [last];
    }
  }

  /** A dictionary that flatten can read. */
  predicate Readable(d: seq<Entry>) {
    UniqueKeys(d) && DotFree(d) && RootPlain(d)
  }

  /** The flat form holds, under a dotted key, the text at that path. */
  lemma FlatReads(d: seq<Entry>, key: string)
    requires Readable(d)
    ensures FlatGet(Flattened(d, ""), key) == LeafAt(d, Split(key))
  {
    forall text
      ensures FlatGet(Flattened(d, ""), key) == Some(text) <==> LeafAt(d, Split(key)) == Some(text)
    {
      FlatReadsText(d, key, text);
    }
    var a, b := FlatGet(Flattened(d, ""), key), LeafAt(d, Split(key));
    assert a.Some? ==> b == Some(a.value);
    assert b.Some? ==> a == Some(b.value);
  }

  lemma FlatReadsText(d: seq<Entry>, key: string, text: string)
    requires Readable(d)
    ensures FlatGet(Flattened(d, ""), key) == Some(text) <==> LeafAt(d, Split(key)) == Some(text)
  {
    FlattenedIsDotted(d, "");
    DottedDiffer(d, "");
    FlatGetIn(Dotted("", FlatPaths(d)), key, text);
    LeafInPaths(d, Split(key), text);
    AllReal(d);
    DottedHolds(FlatPaths(d), key, text);
  }

  lemma DottedHolds(ps: seq<PathText>, key: string, text: string)
    requires forall p :: p in ps ==> RealPath(p.path)
    ensures FlatEntry(key, text) in Dotted("", ps) <==> PathText(Split(key), text) in ps
  {
    var flat := Dotted("", ps);
    if FlatEntry(key, text) in flat {
      var i :| 0 <= i < |flat| && flat[i] == FlatEntry(key, text);
      assert ps[i] in ps;
      SplitJoin(ps[i].path);
      assert ps[i] == PathText(Split(key), text);
    }
    if PathText(Split(key), text) in ps {
      var i :| 0 <= i < |ps| && ps[i] == PathText(Split(key), text);
      JoinSplit(key);
      assert flat[i] == FlatEntry(key, text);
    }
  }

  // Flat forms that survive. -------------------------------------------------------------------

  ghost predicate PathsApart(flat: seq<FlatEntry>) {
    forall a, b :: a in flat && b in flat ==> !(Split(a.key) < Split(b.key))
  }

  lemma {:induction false} LeavesApart(d: seq<Entry>, p: seq<string>, q: seq<string>)
    requires LeafAt(d, p).Some? && p < q
    ensures LeafAt(d, q).None?
    decreases |p|
  {
    if |p| > 1 {
      assert Get(d, p[0]).value.Dict?;
      LeavesApart(Get(d, p[0]).value.entries, p[1..], q[1..]);
    }
  }

  lemma {:induction false} FlatGetSome(flat: seq<FlatEntry>, key: string) returns (e: FlatEntry)
    requires FlatGet(flat, key).Some?
    ensures e in flat && e.key == key
  {
    if flat[|flat| - 1].key == key {
      e := flat[|flat| - 1];
    } else {
      e := FlatGetSome(flat[..|flat| - 1], key);
    }
  }

  /** When the paths keep apart, unflattening succeeds and puts every text at its path. */
  lemma {:induction false} BuiltLeaves(flat: seq<FlatEntry>)
    requires PathsApart(flat)
    ensures Unflattened(flat).Some?
    ensures forall q :: RealPath(q) ==> LeafAt(Unflattened(flat).value, q) == FlatGet(flat, Join(q))
  {
    if flat != [] {
      var front, last := flat[..|flat| - 1], flat[|flat| - 1];
      assert last in flat;
      BuiltLeaves(front);
      var out, path := Unflattened(front).value, Split(last.key);
      WithPathFails(out, path, last.text);
      forall n | 1 <= n < |path|
        ensures LeafAt(out, path[..n]).None?
      {
        NothingAbove(flat, path, n);
      }
      forall q | RealPath(q)
        ensures LeafAt(WithPath(out, path, last.text).value, q) == FlatGet(flat, Join(q))
      {
        WithPathLaw(out, path, last.text, q);
        ReadsOne(flat, q);
      }
    }
  }

  lemma Apart(flat: seq<FlatEntry>, a: FlatEntry, b: FlatEntry)
    requires PathsApart(flat) && a in flat && b in flat
    ensures !(Split(a.key) < Split(b.key))
  {
  }

  lemma NothingAbove(flat: seq<FlatEntry>, path: seq<string>, n: nat)
    requires flat != [] && PathsApart(flat) && path == Split(flat[|flat| - 1].key) && 1 <= n < |path|
    requires Unflattened(flat[..|flat| - 1]).Some?
    requires forall q :: RealPath(q) ==>
               LeafAt(Unflattened(flat[..|flat| - 1]).value, q) == FlatGet(flat[..|flat| - 1], Join(q))
    ensures LeafAt(Unflattened(flat[..|flat| - 1]).value, path[..n]).None?
  {
    var front, q := flat[..|flat| - 1], path[..n];
    assert RealPath(q) && q < path;
    SplitJoin(q);
    forall i | 0 <= i < |front|
      ensures front[i].key != Join(q)
    {
      Apart(flat, flat[i], flat[|flat| - 1]);
    }
    FlatGetNone(front, Join(q));
  }

  lemma ReadsOne(flat: seq<FlatEntry>, q: seq<string>)
    requires flat != [] && PathsApart(flat) && RealPath(q)
    ensures var last := flat[|flat| - 1];
            FlatGet(flat, Join(q)) == if q == Split(last.key) then Some(last.text)
                                      else if Split(last.key) < q then None
                                      else FlatGet(flat[..|flat| - 1], Join(q))
  {
    var last := flat[|flat| - 1];
    SplitJoin(q);
    JoinSplit(last.key);
    if Split(last.key) < q {
      forall i | 0 <= i < |flat|
        ensures flat[i].key != Join(q)
      {
        Apart(flat, last, flat[i]);
      }
      FlatGetNone(flat, Join(q));
    }
  }

  /** As Python compares dictionaries: the same text under every key. */
  ghost predicate SameTexts(a: seq<FlatEntry>, b: seq<FlatEntry>) {
    forall key :: FlatGet(a, key) == FlatGet(b, key)
  }

  lemma InReads(flat: seq<FlatEntry>, e: FlatEntry)
    requires e in flat
    ensures FlatGet(flat, e.key).Some?
  {
    if FlatGet(flat, e.key).None? {
      FlatGetMisses(flat, e);
    }
  }

  lemma {:induction false} FlatGetMisses(flat: seq<FlatEntry>, e: FlatEntry)
    requires FlatGet(flat, e.key).None?
    ensures e !in flat
  {
    if flat != [] {
      FlatGetMisses(flat[..|flat| - 1], e);
      assert flat == flat[..|flat| - 1] + [flat[|flat| - 1]];
    }
  }

  /** flatten(unflatten(f)) is f exactly when no dotted path of f leads through
      another and no key starts with a dot. */
  lemma FlatRoundTripIff(flat: seq<FlatEntry>)
    ensures (Unflattened(flat).Some? && SameTexts(Flattened(Unflattened(flat).value, ""), flat))
            <==> PathsApart(flat) && NoLeadingDot(flat)
  {
    if PathsApart(flat) && NoLeadingDot(flat) {
      FlatSurvives(flat);
    }
    if Unflattened(flat).Some? && SameTexts(Flattened(Unflattened(flat).value, ""), flat) {
      SurvivorsApart(flat);
    }
  }

  lemma FlatSurvives(flat: seq<FlatEntry>)
    requires PathsApart(flat) && NoLeadingDot(flat)
    ensures Unflattened(flat).Some? && SameTexts(Flattened(Unflattened(flat).value, ""), flat)
  {
    BuiltLeaves(flat);
    UnflattenedShape(flat);
    UnflattenedRootPlain(flat);
    forall key
      ensures FlatGet(Flattened(Unflattened(flat).value, ""), key) == FlatGet(flat, key)
    {
      FlatReads(Unflattened(flat).value, key);
      JoinSplit(key);
      assert RealPath(Split(key));
    }
  }

  lemma SurvivorsApart(flat: seq<FlatEntry>)
    requires Unflattened(flat).Some? && SameTexts(Flattened(Unflattened(flat).value, ""), flat)
    ensures PathsApart(flat) && NoLeadingDot(flat)
  {
    var out := Unflattened(flat).value;
    UnflattenedShape(flat);
    FlattenedNoLeading(out, "");
    forall e | e in flat
      ensures !LeadingDot(e.key)
    {
      InReads(flat, e);
      var x := FlatGetSome(Flattened(out, ""), e.key);
    }
    UnflattenedRootPlain(flat);
    forall a, b | a in flat && b in flat
      ensures !(Split(a.key) < Split(b.key))
    {
      InReads(flat, a);
      InReads(flat, b);
      FlatReads(out, a.key);
      FlatReads(out, b.key);
      if Split(a.key) < Split(b.key) {
        LeavesApart(out, Split(a.key), Split(b.key));
      }
    }
  }

  // set_by_path. ----------------------------------------------------------------------------------

  /** Setting a path changes its key in the flat form, takes away the keys below it,
      and nothing else. */
  lemma SetByPathLaw(d: seq<Entry>, dotted: string, text: string, key: string)
    requires Readable(d) && !LeadingDot(dotted) && SetByPath(d, dotted, text).Some?
    ensures FlatGet(Flattened(SetByPath(d, dotted, text).value, ""), key)
            == if key == dotted then Some(text)
               else if Split(dotted) < Split(key) then None
               else FlatGet(Flattened(d, ""), key)
  {
    var out := SetByPath(d, dotted, text).value;
    WithPathUnique(d, Split(dotted), text);
    WithPathDotFree(d, Split(dotted), text);
    WithPathRootPlain(d, dotted, text);
    WithPathLaw(d, Split(dotted), text, Split(key));
    FlatReads(d, key);
    FlatReads(out, key);
    JoinSplit(key);
    JoinSplit(dotted);
  }

  /** No key of the dictionary lies above or below a dotted key. */
  ghost predicate StandsApart(d: seq<Entry>, dotted: string) {
    forall key :: FlatGet(Flattened(d, ""), key).Some? ==> !(Split(key) < Split(dotted)) && !(Split(dotted) < Split(key))
  }

  ghost predicate JustSets(d: seq<Entry>, dotted: string, text: string) {
    SetByPath(d, dotted, text).Some?
    && forall key :: FlatGet(Flattened(SetByPath(d, dotted, text).value, ""), key)
                     == if key == dotted then Some(text) else FlatGet(Flattened(d, ""), key)
  }

  /** set_by_path is an update of the flat form at one key exactly when the key
      stands apart from those there and does not start with a dot. */
  lemma SetByPathIff(d: seq<Entry>, dotted: string, text: string)
    requires Readable(d)
    ensures JustSets(d, dotted, text) <==> StandsApart(d, dotted) && !LeadingDot(dotted)
  {
    if StandsApart(d, dotted) && !LeadingDot(dotted) {
      SetSucceeds(d, dotted, text);
      forall key
        ensures FlatGet(Flattened(SetByPath(d, dotted, text).value, ""), key)
                == if key == dotted then Some(text) else FlatGet(Flattened(d, ""), key)
      {
        SetByPathLaw(d, dotted, text, key);
        assert FlatGet(Flattened(d, ""), key).Some? ==> !(Split(dotted) < Split(key));
      }
    }
    if JustSets(d, dotted, text) {
      WithPathDotFree(d, Split(dotted), text);
      FlattenedNoLeading(SetByPath(d, dotted, text).value, "");
      var e := FlatGetSome(Flattened(SetByPath(d, dotted, text).value, ""), dotted);
      assert !LeadingDot(dotted);
      forall key | FlatGet(Flattened(d, ""), key).Some?
        ensures !(Split(key) < Split(dotted)) && !(Split(dotted) < Split(key))
      {
        SetByPathLaw(d, dotted, text, key);
        FlatReads(d, key);
        PathIsClear(d, Split(dotted), text, Split(key));
      }
    }
  }

  lemma PathIsClear(d: seq<Entry>, path: seq<string>, text: string, above: seq<string>)
    requires path != [] && WithPath(d, path, text).Some? && LeafAt(d, above).Some?
    ensures !(above < path)
  {
    assert above < path ==> path[..|above|] == above;
    WithPathFails(d, path, text);
  }

  lemma SetSucceeds(d: seq<Entry>, dotted: string, text: string)
    requires Readable(d) && StandsApart(d, dotted)
    ensures SetByPath(d, dotted, text).Some?
  {
    var path := Split(dotted);
    WithPathFails(d, path, text);
    forall n | 1 <= n < |path|
      ensures LeafAt(d, path[..n]).None?
    {
      SplitJoin(path[..n]);
      FlatReads(d, Join(path[..n]));
    }
  }
}
