/** A locale file as the scripts change it: dictionaries inside dictionaries, each
    an object, walked to with one variable and assigned into in place. */
module LocaleInPlace {
  import opened Graph
  import opened Locale
  import opened LocaleTheorems
  import opened LocaleRoundTrip

  datatype Slot = Slot(key: string, held: Held)

  datatype Held = Words(text: string) | Inner(dictionary: Dictionary)

  class Dictionary {
    var slots: seq<Slot>

    constructor ()
      ensures slots == []
    {
      slots := [];
    }
  }

  function SlotOf(slots: seq<Slot>, key: string): (i: nat)
    ensures i <= |slots| && (i < |slots| ==> slots[i].key == key)
    ensures forall j :: 0 <= j < i ==> slots[j].key != key
  {
    if slots == [] then 0
    else if slots[0].key == key then 0
    else 1 + SlotOf(slots[1..], key)
  }

  // A picture of the objects: what each path's dictionary holds, one level deep. --------

  type Picture = map<seq<string>, seq<Slot>>

  ghost predicate Shows(h: Picture, p: seq<string>, d: seq<Entry>)
    decreases d
  {
    p in h && |h[p]| == |d| && forall i :: 0 <= i < |d| ==> ShowsEntry(h, p, h[p][i], d[i])
  }

  ghost predicate ShowsEntry(h: Picture, p: seq<string>, slot: Slot, e: Entry)
    decreases e
  {
    slot.key == e.key
    && match e.value
       case Text(text) => slot.held == Words(text)
       case Dict(sub) => slot.held.Inner? && Shows(h, p + [e.key], sub)
  }

  /** Two pictures show the same from a path down. */
  ghost predicate SameBelow(h: Picture, h': Picture, p: seq<string>) {
    forall r :: r in h && p <= r ==> r in h' && h'[r] == h[r]
  }

  lemma {:induction false} ShowsFrame(h: Picture, h': Picture, p: seq<string>, d: seq<Entry>)
    requires Shows(h, p, d) && SameBelow(h, h', p)
    ensures Shows(h', p, d)
    decreases d
  {
    forall i | 0 <= i < |d|
      ensures ShowsEntry(h', p, h'[p][i], d[i])
    {
      assert ShowsEntry(h, p, h[p][i], d[i]);
      EntryFrame(h, h', p, h[p][i], d[i]);
    }
  }

  lemma {:induction false} EntryFrame(h: Picture, h': Picture, p: seq<string>, slot: Slot, e: Entry)
    requires ShowsEntry(h, p, slot, e) && SameBelow(h, h', p + [e.key])
    ensures ShowsEntry(h', p, slot, e)
    decreases e
  {
    if e.value.Dict? {
      ShowsFrame(h, h', p + [e.key], e.value.entries);
    }
  }

  // Dictionaries inside a dictionary. -----------------------------------------------------

  function DictAt(d: seq<Entry>, q: seq<string>): Option<seq<Entry>>
    decreases |q|
  {
    if q == [] then Some(d)
    else match Get(d, q[0])
      case Some(Dict(sub)) => DictAt(sub, q[1..])
      case _ => None
  }

  /** d with another dictionary in the place that a path leads to. */
  function Graft(d: seq<Entry>, q: seq<string>, put: seq<Entry>): seq<Entry>
    decreases |q|
  {
    if q == [] then put
    else Put(d, q[0], Dict(Graft(Below(d, q[0]), q[1..], put)))
  }

  lemma {:induction false} WithPathSplits(d: seq<Entry>, q: seq<string>, rest: seq<string>, text: string)
    requires DictAt(d, q).Some? && rest != []
    ensures WithPath(d, q + rest, text)
            == match WithPath(DictAt(d, q).value, rest, text)
               case Some(x) => Some(Graft(d, q, x))
               case None => None
    decreases |q|
  {
    if q == [] {
      assert q + rest == rest;
    } else {
      assert (q + rest)[1..] == q[1..] + rest;
      WithPathSplits(Below(d, q[0]), q[1..], rest, text);
    }
  }

  lemma {:induction false} PutPut(d: seq<Entry>, key: string, a: Value, b: Value)
    ensures Put(Put(d, key, a), key, b) == Put(d, key, b)
  {
    GetPut(d, key, a, key);
    if d != [] && d[|d| - 1].key != key && Get(d, key).Some? {
      PutPut(d[..|d| - 1], key, a, b);
      var rest := Put(d[..|d| - 1], key, a);
      assert (rest + [d[|d| - 1]])[..|rest|] == rest;
    } else if d == [] || d[|d| - 1].key == key {
      assert Put(d, key, a)[..|Put(d, key, a)| - 1] == if d == [] then [] else d[..|d| - 1];
    } else {
      assert Put(d, key, a)[..|d|] == d;
    }
  }

  lemma {:induction false} GraftGraft(d: seq<Entry>, q: seq<string>, a: seq<Entry>, b: seq<Entry>)
    requires DictAt(d, q).Some?
    ensures DictAt(Graft(d, q, a), q) == Some(a)
    ensures Graft(Graft(d, q, a), q, b) == Graft(d, q, b)
    decreases |q|
  {
    if q != [] {
      var sub := Below(d, q[0]);
      GraftGraft(sub, q[1..], a, b);
      GetPut(d, q[0], Dict(Graft(sub, q[1..], a)), q[0]);
      PutPut(d, q[0], Dict(Graft(sub, q[1..], a)), Dict(Graft(sub, q[1..], b)));
    }
  }

  lemma {:induction false} GraftUnique(d: seq<Entry>, q: seq<string>, put: seq<Entry>)
    requires UniqueKeys(d) && DictAt(d, q).Some?
    ensures UniqueKeys(DictAt(d, q).value)
    ensures UniqueKeys(put) ==> UniqueKeys(Graft(d, q, put))
    decreases |q|
  {
    if q != [] {
      GetShapes(d, q[0]);
      GraftUnique(Below(d, q[0]), q[1..], put);
      if UniqueKeys(put) {
        PutUnique(d, q[0], Dict(Graft(Below(d, q[0]), q[1..], put)));
      }
    }
  }

  /** Making the dictionary a walk misses changes nothing for the walk. */
  lemma MadeOnTheWay(d: seq<Entry>, q: seq<string>, key: string, rest: seq<string>, text: string)
    requires DictAt(d, q).Some? && Get(DictAt(d, q).value, key).None? && rest != []
    ensures var made := Graft(d, q, DictAt(d, q).value + [Entry(key, Dict([]))]);
            WithPath(made, q + ([key] + rest), text) == WithPath(d, q + ([key] + rest), text)
            && DictAt(made, q) == Some(DictAt(d, q).value + [Entry(key, Dict([]))])
  {
    var sub := DictAt(d, q).value;
    var more := sub + [Entry(key, Dict([]))];
    var made := Graft(d, q, more);
    GraftGraft(d, q, more, []);
    WithPathSplits(d, q, [key] + rest, text);
    WithPathSplits(made, q, [key] + rest, text);
    assert ([key] + rest)[1..] == rest;
    GetLast(sub, Entry(key, Dict([])));
    if WithPath([], rest, text).Some? {
      var x := WithPath([], rest, text).value;
      PutNew(sub, key, Dict(x));
      GraftGraft(d, q, more, sub + [Entry(key, Dict(x))]);
    }
  }

  // Keys that differ. ------------------------------------------------------------------------

  lemma {:induction false} GetFound(d: seq<Entry>, i: nat)
    requires UniqueKeys(d) && i < |d|
    ensures Get(d, d[i].key) == Some(d[i].value)
    ensures forall v :: Put(d, d[i].key, v) == d[i := Entry(d[i].key, v)]
  {
    var front := d[..|d| - 1];
    if i < |d| - 1 {
      GetFound(front, i);
      assert front[i] == d[i];
      assert d[|d| - 1].key != d[i].key;
      forall v
        ensures Put(d, d[i].key, v) == d[i := Entry(d[i].key, v)]
      {
        assert Put(front, d[i].key, v) == front[i := Entry(d[i].key, v)];
      }
    }
  }

  lemma {:induction false} GetMissing(d: seq<Entry>, key: string)
    requires forall j :: 0 <= j < |d| ==> d[j].key != key
    ensures Get(d, key).None?
  {
    if d != [] {
      GetMissing(d[..|d| - 1], key);
    }
  }

  lemma KeysApart(d: seq<Entry>, i: nat, j: nat)
    requires UniqueKeys(d) && i < |d| && j < |d| && i != j
    ensures d[i].key != d[j].key
  {
    if i < j {
      FrontUnique(d, j + 1);
      var to := d[..j + 1];
      assert to[..j] == d[..j];
      GetFound(d[..j], i);
    } else {
      FrontUnique(d, i + 1);
      var to := d[..i + 1];
      assert to[..i] == d[..i];
      GetFound(d[..i], j);
    }
  }

  lemma {:induction false} FrontUnique(d: seq<Entry>, n: nat)
    requires UniqueKeys(d) && 1 <= n <= |d|
    ensures UniqueKeys(d[..n]) && UniqueKeys(d[..n - 1]) && Get(d[..n - 1], d[n - 1].key).None?
  {
    if n < |d| {
      FrontUnique(d[..|d| - 1], n);
      assert d[..|d| - 1][..n] == d[..n] && d[..|d| - 1][..n - 1] == d[..n - 1];
    } else {
      assert d[..n] == d;
    }
  }

  // Pictures of grafts. -----------------------------------------------------------------------

  /** The pictures agree outside what lies at and below q. */
  ghost predicate SameOutside(h: Picture, h': Picture, q: seq<string>) {
    forall r :: r in h && !(q <= r) ==> r in h' && h'[r] == h[r]
  }

  lemma {:induction false} ShowsDictAt(h: Picture, p: seq<string>, d: seq<Entry>, q: seq<string>)
    requires Shows(h, p, d) && UniqueKeys(d) && DictAt(d, q).Some?
    ensures Shows(h, p + q, DictAt(d, q).value)
    decreases |q|
  {
    if q == [] {
      assert p + q == p;
    } else {
      var i := Holding(d, q[0]);
      assert ShowsEntry(h, p, h[p][i], d[i]);
      GetShapes(d, q[0]);
      ShowsDictAt(h, p + [q[0]], Below(d, q[0]), q[1..]);
      assert (p + [q[0]]) + q[1..] == p + q;
    }
  }

  lemma {:induction false} Holding(d: seq<Entry>, key: string) returns (i: nat)
    requires Get(d, key).Some?
    ensures i < |d| && d[i].key == key && d[i].value == Get(d, key).value
  {
    if d[|d| - 1].key == key {
      i := |d| - 1;
    } else {
      i := Holding(d[..|d| - 1], key);
    }
  }

  lemma {:induction false} ShowsGraft(h: Picture, h': Picture, p: seq<string>, d: seq<Entry>, q: seq<string>, put: seq<Entry>)
    requires Shows(h, p, d) && UniqueKeys(d) && DictAt(d, q).Some?
    requires SameOutside(h, h', p + q) && Shows(h', p + q, put)
    ensures Shows(h', p, Graft(d, q, put))
    decreases |q|
  {
    if q == [] {
      assert p + q == p;
    } else {
      var i := Holding(d, q[0]);
      assert ShowsEntry(h, p, h[p][i], d[i]);
      var sub, p' := Below(d, q[0]), p + [q[0]];
      assert p' + q[1..] == p + q;
      GetShapes(d, q[0]);
      ShowsGraft(h, h', p', sub, q[1..], put);
      var e := Entry(q[0], Dict(Graft(sub, q[1..], put)));
      GetFound(d, i);
      assert Put(d, d[i].key, e.value) == d[i := e];
      assert !(p + q <= p);
      forall j | 0 <= j < |d|
        ensures ShowsEntry(h', p, h'[p][j], d[i := e][j])
      {
        if j != i {
          assert ShowsEntry(h, p, h[p][j], d[j]);
          KeysApart(d, i, j);
          OtherBranch(h, h', p, q, d[j].key);
          EntryFrame(h, h', p, h[p][j], d[j]);
        }
      }
    }
  }

  lemma OtherBranch(h: Picture, h': Picture, p: seq<string>, q: seq<string>, key: string)
    requires q != [] && q[0] != key && SameOutside(h, h', p + q)
    ensures SameBelow(h, h', p + [key])
  {
    forall r | r in h && p + [key] <= r
      ensures r in h' && h'[r] == h[r]
    {
      assert r[|p|] == (p + [key])[|p|] && (p + q)[|p|] == q[0];
    }
  }

  ghost predicate SameBut(h: Picture, h': Picture, q: seq<string>, also: seq<string>) {
    forall r :: r in h && r != q && r != also ==> r in h' && h'[r] == h[r]
  }

  lemma SlotsSpell(h: Picture, q: seq<string>, sub: seq<Entry>, i: nat)
    requires Shows(h, q, sub) && i < |sub|
    ensures h[q][i].key == sub[i].key
  {
    assert ShowsEntry(h, q, h[q][i], sub[i]);
  }

  lemma KeyIsNew(h: Picture, q: seq<string>, sub: seq<Entry>, key: string)
    requires Shows(h, q, sub)
    ensures SlotOf(h[q], key) == |sub| <==> Get(sub, key).None?
  {
    var i := SlotOf(h[q], key);
    if i == |sub| {
      forall j | 0 <= j < |sub|
        ensures sub[j].key != key
      {
        SlotsSpell(h, q, sub, j);
      }
      GetMissing(sub, key);
    } else {
      SlotsSpell(h, q, sub, i);
      if Get(sub, key).None? {
        GetHits(sub, i);
      }
    }
  }

  lemma {:induction false} GetHits(d: seq<Entry>, i: nat)
    requires i < |d|
    ensures Get(d, d[i].key).Some?
  {
    if i < |d| - 1 {
      GetHits(d[..|d| - 1], i);
    }
  }

  /** An entry keeps its picture when another key of its dictionary changes. */
  lemma OtherEntry(h: Picture, h': Picture, q: seq<string>, key: string, sub: seq<Entry>, j: nat)
    requires Shows(h, q, sub) && SameBut(h, h', q, q + [key]) && j < |sub| && sub[j].key != key
    ensures ShowsEntry(h', q, h[q][j], sub[j])
  {
    assert ShowsEntry(h, q, h[q][j], sub[j]);
    forall r | r in h && q + [sub[j].key] <= r
      ensures r in h' && h'[r] == h[r]
    {
      assert r[|q|] == (q + [sub[j].key])[|q|] && (q + [key])[|q|] == key;
    }
    EntryFrame(h, h', q, h[q][j], sub[j]);
  }

  lemma ShowsMore(h: Picture, h': Picture, q: seq<string>, sub: seq<Entry>, slot: Slot)
    requires Shows(h, q, sub) && Get(sub, slot.key).None? && slot.held.Inner?
    requires SameBut(h, h', q, q + [slot.key]) && q in h' && h'[q] == h[q] + [slot]
    requires q + [slot.key] in h' && h'[q + [slot.key]] == []
    ensures Shows(h', q, sub + [Entry(slot.key, Dict([]))])
  {
    var more := sub + [Entry(slot.key, Dict([]))];
    forall j | 0 <= j < |more|
      ensures ShowsEntry(h', q, h'[q][j], more[j])
    {
      if j < |sub| {
        KeyIsNew(h, q, sub, slot.key);
        SlotsSpell(h, q, sub, j);
        OtherEntry(h, h', q, slot.key, sub, j);
      } else {
        assert Shows(h', q + [slot.key], []);
      }
    }
  }

  /** The slots after cur[key] = text. */
  function SlotsWith(slots: seq<Slot>, key: string, text: string): seq<Slot> {
    var i := SlotOf(slots, key);
    if i < |slots| then slots[i := Slot(key, Words(text))] else slots + [Slot(key, Words(text))]
  }

  lemma ShowsPut(h: Picture, h': Picture, q: seq<string>, sub: seq<Entry>, key: string, text: string)
    requires Shows(h, q, sub) && UniqueKeys(sub)
    requires SameBut(h, h', q, q) && q in h' && h'[q] == SlotsWith(h[q], key, text)
    ensures Shows(h', q, Put(sub, key, Text(text)))
  {
    var i := SlotOf(h[q], key);
    var put := Put(sub, key, Text(text));
    KeyIsNew(h, q, sub, key);
    if i < |sub| {
      SlotsSpell(h, q, sub, i);
      GetFound(sub, i);
    } else {
      PutNew(sub, key, Text(text));
    }
    forall j | 0 <= j < |put|
      ensures ShowsEntry(h', q, h'[q][j], put[j])
    {
      if j < |sub| && j != i {
        if i < |sub| { KeysApart(sub, i, j); } else { SlotsSpell(h, q, sub, j); }
        OtherEntry(h, h', q, key, sub, j);
      }
    }
  }

  // The file. ------------------------------------------------------------------------------------

  /** Every object found in a slot is the one at the path that the slot's key ends. */
  ghost predicate Linked(at: map<seq<string>, Dictionary>, h: Picture) {
    forall p, i :: p in h && 0 <= i < |h[p]| ==> LinkedSlot(at, p, h[p][i])
  }

  ghost predicate LinkedSlot(at: map<seq<string>, Dictionary>, p: seq<string>, slot: Slot) {
    slot.held.Inner? ==> p + [slot.key] in at && at[p + [slot.key]] == slot.held.dictionary
  }

  ghost predicate OneObjectEach(at: map<seq<string>, Dictionary>) {
    forall p, q :: p in at && q in at && at[p] == at[q] ==> p == q
  }

  lemma LinkedMore(at: map<seq<string>, Dictionary>, h: Picture, h': Picture, q: seq<string>, slot: Slot)
    requires Linked(at, h) && q in h && SlotOf(h[q], slot.key) == |h[q]| && slot.held.Inner?
    requires h' == h[q := h[q] + [slot]][q + [slot.key] := []]
    ensures Linked(at[q + [slot.key] := slot.held.dictionary], h')
  {
    var at' := at[q + [slot.key] := slot.held.dictionary];
    forall p, i | p in h' && 0 <= i < |h'[p]|
      ensures LinkedSlot(at', p, h'[p][i])
    {
      if p == q && i == |h[q]| {
      } else {
        assert LinkedSlot(at, p, h[p][i]);
        if p + [h[p][i].key] == q + [slot.key] {
          SamePathEnd(p, h[p][i].key, q, slot.key);
        }
      }
    }
  }

  lemma SamePathEnd(p: seq<string>, a: string, q: seq<string>, b: string)
    requires p + [a] == q + [b]
    ensures p == q && a == b
  {
    assert (p + [a])[..|p|] == p && (q + [b])[..|q|] == q;
    assert (p + [a])[|p|] == a && (q + [b])[|q|] == b;
  }

  lemma LinkedPut(at: map<seq<string>, Dictionary>, h: Picture, h': Picture, q: seq<string>, key: string, text: string)
    requires Linked(at, h) && q in h && h' == h[q := SlotsWith(h[q], key, text)]
    ensures Linked(at, h')
  {
    forall p, i | p in h' && 0 <= i < |h'[p]|
      ensures LinkedSlot(at, p, h'[p][i])
    {
      if i < |h[p]| {
        assert LinkedSlot(at, p, h[p][i]);
      }
    }
  }

  lemma GrowPicture(h: Picture, h': Picture, d: seq<Entry>, q: seq<string>, sub: seq<Entry>, slot: Slot)
    requires Shows(h, [], d) && UniqueKeys(d) && DictAt(d, q) == Some(sub) && q in h
    requires Get(sub, slot.key).None? && slot.held.Inner?
    requires h' == h[q := h[q] + [slot]][q + [slot.key] := []]
    ensures SlotOf(h[q], slot.key) == |h[q]|
    ensures Shows(h', [], Graft(d, q, sub + [Entry(slot.key, Dict([]))]))
    ensures UniqueKeys(Graft(d, q, sub + [Entry(slot.key, Dict([]))]))
  {
    var more := sub + [Entry(slot.key, Dict([]))];
    assert [] + q == q;
    ShowsDictAt(h, [], d, q);
    KeyIsNew(h, q, sub, slot.key);
    assert q <= q + [slot.key];
    ShowsMore(h, h', q, sub, slot);
    ShowsGraft(h, h', [], d, q, more);
    GraftUnique(d, q, more);
    MoreUnique(sub, slot.key);
  }

  lemma MoreUnique(sub: seq<Entry>, key: string)
    requires UniqueKeys(sub) && Get(sub, key).None?
    ensures UniqueKeys(sub + [Entry(key, Dict([]))])
  {
    assert (sub + [Entry(key, Dict([]))])[..|sub|] == sub;
  }

  lemma PutPicture(h: Picture, h': Picture, d: seq<Entry>, q: seq<string>, sub: seq<Entry>, key: string, text: string)
    requires Shows(h, [], d) && UniqueKeys(d) && DictAt(d, q) == Some(sub) && q in h
    requires h' == h[q := SlotsWith(h[q], key, text)]
    ensures Shows(h', [], Graft(d, q, Put(sub, key, Text(text))))
    ensures UniqueKeys(Graft(d, q, Put(sub, key, Text(text))))
  {
    var put := Put(sub, key, Text(text));
    assert [] + q == q;
    ShowsDictAt(h, [], d, q);
    GraftUnique(d, q, put);
    ShowsPut(h, h', q, sub, key, text);
    ShowsGraft(h, h', [], d, q, put);
    PutUnique(sub, key, Text(text));
  }

  /** The objects, their picture and the nested value agree. */
  ghost predicate Faithful(root: Dictionary, at: map<seq<string>, Dictionary>, h: Picture, contents: seq<Entry>) {
    [] in at && at[[]] == root && OneObjectEach(at) && Linked(at, h) && UniqueKeys(contents) && Shows(h, [], contents)
  }

  lemma GrowFaithful(root: Dictionary, at: map<seq<string>, Dictionary>, h: Picture, h': Picture, d: seq<Entry>,
                     q: seq<string>, sub: seq<Entry>, slot: Slot)
    requires Faithful(root, at, h, d) && DictAt(d, q) == Some(sub) && q in h
    requires Get(sub, slot.key).None? && slot.held.Inner? && slot.held.dictionary !in at.Values
    requires h' == h[q := h[q] + [slot]][q + [slot.key] := []]
    ensures Faithful(root, at[q + [slot.key] := slot.held.dictionary], h', Graft(d, q, sub + [Entry(slot.key, Dict([]))]))
  {
    GrowPicture(h, h', d, q, sub, slot);
    LinkedMore(at, h, h', q, slot);
  }

  lemma PutFaithful(root: Dictionary, at: map<seq<string>, Dictionary>, h: Picture, h': Picture, d: seq<Entry>,
                    q: seq<string>, sub: seq<Entry>, key: string, text: string)
    requires Faithful(root, at, h, d) && DictAt(d, q) == Some(sub) && q in h
    requires h' == h[q := SlotsWith(h[q], key, text)]
    ensures Faithful(root, at, h', Graft(d, q, Put(sub, key, Text(text))))
  {
    PutPicture(h, h', d, q, sub, key, text);
    LinkedPut(at, h, h', q, key, text);
  }

  lemma {:induction false} DictAtNext(d: seq<Entry>, q: seq<string>, key: string)
    requires DictAt(d, q).Some?
    ensures DictAt(d, q + [key]) == match Get(DictAt(d, q).value, key)
                                    case Some(Dict(sub)) => Some(sub)
                                    case _ => None
    decreases |q|
  {
    if q == [] {
      assert q + [key] == [key] && [key][1..] == [];
    } else {
      assert (q + [key])[1..] == q[1..] + [key];
      DictAtNext(Below(d, q[0]), q[1..], key);
    }
  }

  /** What the slot under a key says about the value at the path. */
  lemma SlotSays(root: Dictionary, at: map<seq<string>, Dictionary>, h: Picture, d: seq<Entry>, q: seq<string>, key: string)
    requires Faithful(root, at, h, d) && q in h && DictAt(d, q).Some?
    ensures Shows(h, q, DictAt(d, q).value)
    ensures var sub, j := DictAt(d, q).value, SlotOf(h[q], key);
            match Get(sub, key)
            case None => j == |h[q]|
            case Some(Text(text)) => j < |h[q]| && h[q][j].held == Words(text)
            case Some(Dict(next)) => j < |h[q]| && h[q][j].held.Inner?
                                     && DictAt(d, q + [key]) == Some(next)
                                     && q + [key] in at && at[q + [key]] == h[q][j].held.dictionary
  {
    var sub, j := DictAt(d, q).value, SlotOf(h[q], key);
    assert [] + q == q;
    ShowsDictAt(h, [], d, q);
    GraftUnique(d, q, []);
    KeyIsNew(h, q, sub, key);
    if j < |h[q]| {
      assert ShowsEntry(h, q, h[q][j], sub[j]);
      GetFound(sub, j);
      DictAtNext(d, q, key);
      assert LinkedSlot(at, q, h[q][j]);
    }
  }

  /** The slot in any place of a dictionary, against its value. */
  lemma SlotHolds(root: Dictionary, at: map<seq<string>, Dictionary>, h: Picture, d: seq<Entry>, q: seq<string>, i: nat)
    requires Faithful(root, at, h, d) && q in h && DictAt(d, q).Some? && Shows(h, q, DictAt(d, q).value) && i < |h[q]|
    ensures var e, slot := DictAt(d, q).value[i], h[q][i];
            slot.key == e.key
            && match e.value
               case Text(text) => slot.held == Words(text)
               case Dict(next) => slot.held.Inner? && DictAt(d, q + [e.key]) == Some(next)
                                  && q + [e.key] in at && at[q + [e.key]] == slot.held.dictionary
  {
    var sub := DictAt(d, q).value;
    assert ShowsEntry(h, q, h[q][i], sub[i]);
    GraftUnique(d, q, []);
    GetFound(sub, i);
    DictAtNext(d, q, sub[i].key);
    assert LinkedSlot(at, q, h[q][i]);
  }

  lemma FlattenedNext(d: seq<Entry>, i: nat, prefix: string)
    requires i < |d|
    ensures var front, key := Flattened(d[..i], prefix), Prefixed(prefix, d[i].key);
            Flattened(d[..i + 1], prefix)
            == match d[i].value
               case Text(text) => FlatPut(front, key, text)
               case Dict(sub) => FlatUpdate(front, Flattened(sub, key))
  {
    assert d[..i + 1][..i] == d[..i];
  }

  lemma WalkStep(d: seq<Entry>, parts: seq<string>, i: nat, text: string)
    requires i + 1 < |parts| && DictAt(d, parts[..i]).Some?
    ensures var sub, key := DictAt(d, parts[..i]).value, parts[i];
            parts[..i + 1] == parts[..i] + [key]
            && (Get(sub, key).Some? && Get(sub, key).value.Text? ==> WithPath(d, parts, text).None?)
            && (Get(sub, key).None? ==>
                  var made := Graft(d, parts[..i], sub + [Entry(key, Dict([]))]);
                  WithPath(made, parts, text) == WithPath(d, parts, text)
                  && DictAt(made, parts[..i + 1]) == Some([]))
  {
    var q, key, rest := parts[..i], parts[i], parts[i + 1..];
    var sub := DictAt(d, q).value;
    assert parts == q + ([key] + rest) && parts[..i + 1] == q + [key];
    if Get(sub, key).None? {
      MadeOnTheWay(d, q, key, rest, text);
      GetLast(sub, Entry(key, Dict([])));
      DictAtNext(Graft(d, q, sub + [Entry(key, Dict([]))]), q, key);
    } else {
      WithPathSplits(d, q, [key] + rest, text);
    }
  }

  lemma WalkEnd(d: seq<Entry>, parts: seq<string>, text: string)
    requires parts != [] && DictAt(d, parts[..|parts| - 1]).Some?
    ensures var q, key := parts[..|parts| - 1], parts[|parts| - 1];
            WithPath(d, parts, text) == Some(Graft(d, q, Put(DictAt(d, q).value, key, Text(text))))
  {
    var q, key := parts[..|parts| - 1], parts[|parts| - 1];
    assert parts == q + [key];
    WithPathSplits(d, q, [key], text);
  }

  class LocaleFile {
    const root: Dictionary
    /** The dictionary objects by the paths that lead to them, and their value. */
    ghost var at: map<seq<string>, Dictionary>
    ghost var picture: Picture
    ghost var contents: seq<Entry>

    /** The picture shows the slots of every object. */
    ghost predicate Pictured()
      reads this, at.Values
    {
      at.Keys == picture.Keys && forall p :: p in at ==> at[p].slots == picture[p]
    }

    ghost predicate Valid()
      reads this, at.Values
    {
      Pictured() && Faithful(root, at, picture, contents)
    }

    constructor ()
      ensures Valid() && contents == [] && fresh(at.Values)
    {
      root := new Dictionary();
      new;
      at := map[[] := root];
      picture := map[[] := []];
      contents := [];
    }

    /** cur.setdefault(key, child), where the key is missing. */
    method AddInner(ghost q: seq<string>, cur: Dictionary, key: string, child: Dictionary)
      requires Valid() && q in at && cur == at[q] && DictAt(contents, q).Some?
      requires Get(DictAt(contents, q).value, key).None? && child !in at.Values && child.slots == []
      modifies this, cur
      ensures Valid() && at == old(at)[q + [key] := child]
      ensures contents == Graft(old(contents), q, DictAt(old(contents), q).value + [Entry(key, Dict([]))])
    {
      ghost var h, sub := picture, DictAt(contents, q).value;
      var slot := Slot(key, Inner(child));
      ghost var h' := h[q := h[q] + [slot]][q + [key] := []];
      GrowFaithful(root, at, h, h', contents, q, sub, slot);
      Attach(q, cur, slot, child);
      contents := Graft(contents, q, sub + [Entry(key, Dict([]))]);
    }

    method Attach(ghost q: seq<string>, cur: Dictionary, slot: Slot, ghost child: Dictionary)
      requires Pictured() && OneObjectEach(at) && q in at && cur == at[q]
      requires child !in at.Values && child.slots == []
      modifies this`at, this`picture, cur
      ensures at == old(at)[q + [slot.key] := child]
      ensures picture == old(picture)[q := old(picture)[q] + [slot]][q + [slot.key] := []]
      ensures Pictured()
    {
      cur.slots := cur.slots + [slot];
      picture := picture[q := picture[q] + [slot]][q + [slot.key] := []];
      at := at[q + [slot.key] := child];
    }

    /** cur[key] = text */
    method SetWords(ghost q: seq<string>, cur: Dictionary, key: string, text: string)
      requires Valid() && q in at && cur == at[q] && DictAt(contents, q).Some?
      modifies this`contents, this`picture, cur
      ensures Valid()
      ensures contents == Graft(old(contents), q, Put(DictAt(old(contents), q).value, key, Text(text)))
    {
      ghost var h, sub := picture, DictAt(contents, q).value;
      ghost var h' := h[q := SlotsWith(h[q], key, text)];
      PutFaithful(root, at, h, h', contents, q, sub, key, text);
      cur.slots := SlotsWith(cur.slots, key, text);
      contents := Graft(contents, q, Put(sub, key, Text(text)));
      picture := h';
    }

    /** cur = cur.setdefault(parts[i], {}); false where a text is in the way. */
    method Enter(ghost parts: seq<string>, ghost i: nat, ghost text: string, cur: Dictionary, key: string)
      returns (ok: bool, next: Dictionary)
      requires Valid() && i + 1 < |parts| && key == parts[i]
      requires parts[..i] in at && at[parts[..i]] == cur && DictAt(contents, parts[..i]).Some?
      modifies this, cur
      ensures Valid() && fresh(at.Values - old(at.Values))
      ensures ok ==> parts[..i + 1] in at && at[parts[..i + 1]] == next && DictAt(contents, parts[..i + 1]).Some?
      ensures ok ==> WithPath(contents, parts, text) == WithPath(old(contents), parts, text)
      ensures ok ==> if Get(DictAt(old(contents), parts[..i]).value, key).None? then DictAt(contents, parts[..i + 1]) == Some([])
                     else contents == old(contents)
      ensures !ok ==> contents == old(contents) && WithPath(contents, parts, text).None?
                      && Get(DictAt(contents, parts[..i]).value, key).Some?
    {
      SlotSays(root, at, picture, contents, parts[..i], key);
      WalkStep(contents, parts, i, text);
      var j := SlotOf(cur.slots, key);
      if j == |cur.slots| {
        var child := new Dictionary();
        AddInner(parts[..i], cur, key, child);
        return true, child;
      }
      match cur.slots[j].held
      case Words(_) => return false, cur;
      case Inner(dictionary) => return true, dictionary;
    }

    /** The walk of set_by_path and of one turn of unflatten; false where Python
        raises, on meeting a text, and then nothing has been changed. */
    method SetByPath(dotted: string, text: string) returns (ok: bool)
      requires Valid()
      modifies this, at.Values
      ensures Valid() && fresh(at.Values - old(at.Values))
      ensures ok == WithPath(old(contents), Split(dotted), text).Some?
      ensures contents == if ok then WithPath(old(contents), Split(dotted), text).value else old(contents)
    {
      var parts := Split(dotted);
      var cur := root;
      for i := 0 to |parts| - 1
        invariant Valid() && parts[..i] in at && at[parts[..i]] == cur && DictAt(contents, parts[..i]).Some?
        invariant WithPath(contents, parts, text) == WithPath(old(contents), parts, text)
        invariant contents == old(contents) || DictAt(contents, parts[..i]) == Some([])
        invariant fresh(at.Values - old(at.Values))
      {
        ok, cur := Enter(parts, i, text, cur, parts[i]);
        if !ok {
          return;
        }
      }
      WalkEnd(contents, parts, text);
      SetWords(parts[..|parts| - 1], cur, parts[|parts| - 1], text);
      ok := true;
    }

    /** flatten, on the dictionary that a path leads to. */
    method Flatten(ghost q: seq<string>, ghost d: seq<Entry>, cur: Dictionary, prefix: string) returns (out: seq<FlatEntry>)
      requires Valid() && q in at && at[q] == cur && DictAt(contents, q) == Some(d)
      ensures out == Flattened(d, prefix)
      decreases d
    {
      SlotSays(root, at, picture, contents, q, "");
      out := [];
      for i := 0 to |cur.slots|
        invariant out == Flattened(d[..i], prefix)
      {
        SlotHolds(root, at, picture, contents, q, i);
        FlattenedNext(d, i, prefix);
        var slot := cur.slots[i];
        var key := if prefix != "" then prefix + "." + slot.key else slot.key;
        match slot.held {
          case Words(text) => out := FlatPut(out, key, text);
          case Inner(dictionary) =>
            var nested := Flatten(q + [slot.key], d[i].value.entries, dictionary, key);
            out := FlatUpdate(out, nested);
        }
      }
      assert d[..|d|] == d;
    }
  }

  /** unflatten: a new file, filled key by key. */
  method Unflatten(flat: seq<FlatEntry>) returns (file: LocaleFile, ok: bool)
    ensures fresh(file) && file.Valid()
    ensures ok == Unflattened(flat).Some?
    ensures ok ==> file.contents == Unflattened(flat).value
  {
    file := new LocaleFile();
    for i := 0 to |flat|
      invariant fresh(file) && file.Valid() && fresh(file.at.Values)
      invariant Unflattened(flat[..i]) == Some(file.contents)
    {
      assert flat[..i + 1][..i] == flat[..i];
      ok := file.SetByPath(flat[i].key, flat[i].text);
      if !ok {
        UnflattenedStuck(flat, i + 1);
        return;
      }
    }
    assert flat[..|flat|] == flat;
    ok := true;
  }
}
