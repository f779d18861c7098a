/** Locale files: nested dictionaries of texts, and their flat form with dotted
    keys. A dictionary is the list of its entries, in the order Python keeps. */
module Locale {
  import opened Graph

  datatype Value = Text(text: string) | Dict(entries: seq<Entry>)

  datatype Entry = Entry(key: string, value: Value)

  datatype FlatEntry = FlatEntry(key: string, text: string)

  // Dictionaries. -------------------------------------------------------------------

  function Get(d: seq<Entry>, key: string): Option<Value> {
    if d == [] then None
    else if d[|d| - 1].key == key then Some(d[|d| - 1].value)
    else Get(d[..|d| - 1], key)
  }

  /** d[key] = value: in place if the key is there, at the end if not. */
  function Put(d: seq<Entry>, key: string, value: Value): seq<Entry> {
    if d == [] then [Entry(key, value)]
    else if d[|d| - 1].key == key then d[..|d| - 1] + [Entry(key, value)]
    else if Get(d, key).None? then d + [Entry(key, value)]
    else Put(d[..|d| - 1], key, value) + [d[|d| - 1]]
  }

  function FlatGet(flat: seq<FlatEntry>, key: string): Option<string> {
    if flat == [] then None
    else if flat[|flat| - 1].key == key then Some(flat[|flat| - 1].text)
    else FlatGet(flat[..|flat| - 1], key)
  }

  function FlatPut(flat: seq<FlatEntry>, key: string, text: string): seq<FlatEntry> {
    if flat == [] then [FlatEntry(key, text)]
    else if flat[|flat| - 1].key == key then flat[..|flat| - 1] + [FlatEntry(key, text)]
    else if FlatGet(flat, key).None? then flat + [FlatEntry(key, text)]
    else FlatPut(flat[..|flat| - 1], key, text) + [flat[|flat| - 1]]
  }

  /** out.update(more) */
  function FlatUpdate(out: seq<FlatEntry>, more: seq<FlatEntry>): seq<FlatEntry> {
    if more == [] then out
    else FlatPut(FlatUpdate(out, more[..|more| - 1]), more[|more| - 1].key, more[|more| - 1].text)
  }

  // flatten, unflatten, set_by_path. -----------------------------------------------------

  function Prefixed(prefix: string, key: string): string {
    if prefix == "" then key else prefix + "." + key
  }

  function Flattened(d: seq<Entry>, prefix: string): seq<FlatEntry> {
    if d == [] then []
    else
      var e := d[|d| - 1];
      var front := Flattened(d[..|d| - 1], prefix);
      match e.value
      case Text(text) => FlatPut(front, Prefixed(prefix, e.key), text)
      case Dict(sub) => FlatUpdate(front, Flattened(sub, Prefixed(prefix, e.key)))
  }

  /** key.split('.') */
  function Split(key: string): (parts: seq<string>)
    ensures parts != []
    ensures forall p :: p in parts ==> '.' !in p
    decreases |key|
  {
    var k := DotAt(key, 0);
    if k == |key| then [key] else [key[..k]] + Split(key[k + 1..])
  }

  function DotAt(key: string, i: nat): (k: nat)
    requires i <= |key|
    ensures i <= k <= |key| && (forall j :: i <= j < k ==> key[j] != '.') && (k < |key| ==> key[k] == '.')
    decreases |key| - i
  {
    if i == |key| || key[i] == '.' then i else DotAt(key, i + 1)
  }

  /** The walk down a path that makes the dictionaries it misses, and the
      assignment at its end; None where Python raises, on meeting a text. */
  function WithPath(d: seq<Entry>, path: seq<string>, text: string): Option<seq<Entry>>
    decreases |path|
  {
    if path == [] then Some(d)
    else if |path| == 1 then Some(Put(d, path[0], Text(text)))
    else match Get(d, path[0])
      case Some(Text(_)) => None
      case Some(Dict(sub)) =>
        (match WithPath(sub, path[1..], text)
         case Some(sub') => Some(Put(d, path[0], Dict(sub')))
         case None => None)
      case None =>
        match WithPath([], path[1..], text)
        case Some(sub') => Some(Put(d, path[0], Dict(sub')))
        case None => None
  }

  function Unflattened(flat: seq<FlatEntry>): Option<seq<Entry>> {
    if flat == [] then Some([])
    else match Unflattened(flat[..|flat| - 1])
      case None => None
      case Some(out) => WithPath(out, Split(flat[|flat| - 1].key), flat[|flat| - 1].text)
  }

  lemma {:induction false} UnflattenedStuck(flat: seq<FlatEntry>, i: nat)
    requires i <= |flat| && Unflattened(flat[..i]).None?
    ensures Unflattened(flat).None?
  {
    if i == |flat| {
      assert flat[..i] == flat;
    } else {
      var front := flat[..|flat| - 1];
      assert front[..i] == flat[..i];
      UnflattenedStuck(front, i);
    }
  }

  function SetByPath(d: seq<Entry>, dotted: string, text: string): Option<seq<Entry>> {
    WithPath(d, Split(dotted), text)
  }

  // Paths and dotted keys. -----------------------------------------------------------------

  function Join(path: seq<string>): string {
    if path == [] then ""
    else if |path| == 1 then path[0] else path[0] + "." + Join(path[1..])
  }

  predicate PartsDotFree(path: seq<string>) {
    forall p :: p in path ==> '.' !in p
  }

  lemma {:induction false} JoinSplit(key: string)
    ensures Join(Split(key)) == key
    decreases |key|
  {
    var k := DotAt(key, 0);
    if k < |key| {
      JoinSplit(key[k + 1..]);
      var rest := Split(key[k + 1..]);
      assert ([key[..k]] + rest)[1..] == rest;
      assert key == key[..k] + "." + key[k + 1..];
    }
  }

  lemma {:induction false} SplitJoin(path: seq<string>)
    requires path != [] && PartsDotFree(path)
    ensures Split(Join(path)) == path
  {
    var p := path[0];
    assert p in path;
    if |path| == 1 {
      DotAtEnd(p, "");
      assert p + "" == p;
      assert path == [p];
    } else {
      var rest := Join(path[1..]);
      SplitJoin(path[1..]);
      DotAtEnd(p, "." + rest);
      var key := p + "." + rest;
      assert key == p + ("." + rest);
      assert key[..|p|] == p && key[|p| + 1..] == rest;
      assert path == [p] + path[1..];
    }
  }

  lemma DotAtEnd(p: string, rest: string)
    requires '.' !in p && (rest == "" || rest[0] == '.')
    ensures DotAt(p + rest, 0) == |p|
  {
    var key, k := p + rest, DotAt(p + rest, 0);
    assert forall j :: 0 <= j < |p| ==> key[j] == p[j];
    assert rest != "" ==> key[|p|] == rest[0];
  }
}
