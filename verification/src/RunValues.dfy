/** Field values of nodes, and substitution at any depth of them. */
module RunValues {
  import opened Graph
  import opened Repository
  import opened TimeBuiltins
  import opened Placeholders

  datatype Json = Null | Bool(b: bool) | Num(n: int) | Str(s: string) | Arr(items: seq<Json>) | Obj(fields: seq<Field>)

  datatype Field = Field(name: string, value: Json)

  function SubstituteDeep(v: Json, vars: Vars, clock: Clock): Json {
    match v
    case Str(s) => Str(SubstituteString(s, vars, clock))
    case Arr(items) => Arr(SubstituteItems(items, vars, clock))
    case Obj(fields) => Obj(SubstituteFields(fields, vars, clock))
    case _ => v
  }

  function SubstituteItems(items: seq<Json>, vars: Vars, clock: Clock): (r: seq<Json>)
    ensures |r| == |items|
  {
    if items == [] then [] else [SubstituteDeep(items[0], vars, clock)] + SubstituteItems(items[1..], vars, clock)
  }

  function SubstituteFields(fields: seq<Field>, vars: Vars, clock: Clock): (r: seq<Field>)
    ensures |r| == |fields|
  {
    if fields == [] then []
    else
      [Field(fields[0].name, SubstituteDeep(fields[0].value, vars, clock))] + SubstituteFields(fields[1..], vars, clock)
  }

  /** The value at a path of positions. */
  function At(v: Json, path: seq<nat>): Option<Json>
    decreases |path|
  {
    if path == [] then Some(v)
    else match v
      case Arr(items) => if path[0] < |items| then At(items[path[0]], path[1..]) else None
      case Obj(fields) => if path[0] < |fields| then At(fields[path[0]].value, path[1..]) else None
      case _ => None
  }

  lemma {:induction false} SubstituteItemsAt(items: seq<Json>, vars: Vars, clock: Clock, i: nat)
    requires i < |items|
    ensures SubstituteItems(items, vars, clock)[i] == SubstituteDeep(items[i], vars, clock)
  {
    if i > 0 {
      SubstituteItemsAt(items[1..], vars, clock, i - 1);
    }
  }

  lemma {:induction false} SubstituteFieldsAt(fields: seq<Field>, vars: Vars, clock: Clock, i: nat)
    requires i < |fields|
    ensures SubstituteFields(fields, vars, clock)[i] == Field(fields[i].name, SubstituteDeep(fields[i].value, vars, clock))
  {
    if i > 0 {
      SubstituteFieldsAt(fields[1..], vars, clock, i - 1);
    }
  }

  /** Substitution reaches every depth and keeps every path. */
  lemma {:induction false} SubstituteDeepAt(v: Json, vars: Vars, clock: Clock, path: seq<nat>)
    ensures At(SubstituteDeep(v, vars, clock), path)
            == match At(v, path)
               case Some(x) => Some(SubstituteDeep(x, vars, clock))
               case None => None
    decreases |path|
  {
    if path != [] {
      match v
      case Arr(items) =>
        if path[0] < |items| {
          SubstituteItemsAt(items, vars, clock, path[0]);
          SubstituteDeepAt(items[path[0]], vars, clock, path[1..]);
        }
      case Obj(fields) =>
        if path[0] < |fields| {
          SubstituteFieldsAt(fields, vars, clock, path[0]);
          SubstituteDeepAt(fields[path[0]].value, vars, clock, path[1..]);
        }
      case _ =>
    }
  }

  // What the placeholders of a value ask for. ----------------------------------------

  function KeysOf(s: string): set<string> {
    PieceKeys(Pieces(s))
  }

  function PieceKeys(ps: seq<Piece>): set<string> {
    if ps == [] then {}
    else
      var front := PieceKeys(ps[..|ps| - 1]);
      match ps[|ps| - 1]
      case Placeholder(expr) => front + {Trim(expr)}
      case Lit(_) => front
  }

  lemma {:induction false} PieceKeyStands(ps: seq<Piece>, key: string) returns (i: nat)
    requires key in PieceKeys(ps)
    ensures i < |ps| && ps[i].Placeholder? && Trim(ps[i].expr) == key
  {
    i := |ps| - 1;
    if !(ps[i].Placeholder? && Trim(ps[i].expr) == key) {
      i := PieceKeyStands(ps[..i], key);
    }
  }

  lemma {:induction false} PieceKeyFound(ps: seq<Piece>, i: nat)
    requires i < |ps| && ps[i].Placeholder?
    ensures Trim(ps[i].expr) in PieceKeys(ps)
  {
    if i < |ps| - 1 {
      PieceKeyFound(ps[..|ps| - 1], i);
    }
  }

  function Mentions(v: Json): set<string> {
    match v
    case Str(s) => KeysOf(s)
    case Arr(items) => ItemMentions(items)
    case Obj(fields) => FieldMentions(fields)
    case _ => {}
  }

  function ItemMentions(items: seq<Json>): set<string> {
    if items == [] then {} else Mentions(items[0]) + ItemMentions(items[1..])
  }

  function FieldMentions(fields: seq<Field>): set<string> {
    if fields == [] then {} else Mentions(fields[0].value) + FieldMentions(fields[1..])
  }

  /** A placeholder with this key stands in the string at this path. */
  ghost predicate MentionedAt(v: Json, path: seq<nat>, i: nat, key: string) {
    match At(v, path)
    case Some(Str(s)) => i < |Pieces(s)| && Pieces(s)[i].Placeholder? && Trim(Pieces(s)[i].expr) == key
    case _ => false
  }

  lemma {:induction false} MentionedSomewhere(v: Json, key: string) returns (path: seq<nat>, i: nat)
    requires key in Mentions(v)
    ensures MentionedAt(v, path, i, key)
    decreases v
  {
    match v {
      case Str(s) =>
        path := [];
        i := PieceKeyStands(Pieces(s), key);
      case Arr(items) =>
        var k, rest, j := MentionedItem(items, key);
        path, i := [k] + rest, j;
        assert path[1..] == rest;
      case Obj(fields) =>
        var k, rest, j := MentionedField(fields, key);
        path, i := [k] + rest, j;
        assert path[1..] == rest;
    }
  }

  lemma {:induction false} MentionedItem(items: seq<Json>, key: string) returns (k: nat, path: seq<nat>, i: nat)
    requires key in ItemMentions(items)
    ensures k < |items| && MentionedAt(items[k], path, i, key)
    decreases items
  {
    if key in Mentions(items[0]) {
      k := 0;
      path, i := MentionedSomewhere(items[0], key);
    } else {
      k, path, i := MentionedItem(items[1..], key);
      k := k + 1;
    }
  }

  lemma {:induction false} MentionedField(fields: seq<Field>, key: string) returns (k: nat, path: seq<nat>, i: nat)
    requires key in FieldMentions(fields)
    ensures k < |fields| && MentionedAt(fields[k].value, path, i, key)
    decreases fields
  {
    if key in Mentions(fields[0].value) {
      k := 0;
      path, i := MentionedSomewhere(fields[0].value, key);
    } else {
      k, path, i := MentionedField(fields[1..], key);
      k := k + 1;
    }
  }

  /** And nothing that stands somewhere is missed. */
  lemma {:induction false} MentionsComplete(v: Json, path: seq<nat>, i: nat, key: string)
    requires MentionedAt(v, path, i, key)
    ensures key in Mentions(v)
    decreases |path|
  {
    match v
    case Arr(items) =>
      assert path != [];
      MentionsComplete(items[path[0]], path[1..], i, key);
      ItemMentionsAll(items, path[0]);
    case Obj(fields) =>
      assert path != [];
      MentionsComplete(fields[path[0]].value, path[1..], i, key);
      FieldMentionsAll(fields, path[0]);
    case Str(s) =>
      assert path == [];
      PieceKeyFound(Pieces(s), i);
    case _ =>
  }

  lemma {:induction false} ItemMentionsAll(items: seq<Json>, k: nat)
    requires k < |items|
    ensures Mentions(items[k]) <= ItemMentions(items)
  {
    if k > 0 {
      ItemMentionsAll(items[1..], k - 1);
    }
  }

  lemma {:induction false} FieldMentionsAll(fields: seq<Field>, k: nat)
    requires k < |fields|
    ensures Mentions(fields[k].value) <= FieldMentions(fields)
  {
    if k > 0 {
      FieldMentionsAll(fields[1..], k - 1);
    }
  }
}
