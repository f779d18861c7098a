/** The date and time placeholders, with their relative offsets. */
module TimeBuiltins {
  import opened Graph

  /** The instant of a run in milliseconds, and the rendering of an instant. */
  datatype Clock = Clock(now: int, format: (string, int) -> string)

  const LAST_INSTANT := 8640000000000000

  predicate IsDigit(c: char) {
    '0' <= c <= '9'
  }

  function DigitValue(c: char): nat
    requires IsDigit(c)
  {
    c as int - 48
  }

  function UnitMs(c: char): Option<int> {
    match c
    case 'd' => Some(86400000)
    case 'h' => Some(3600000)
    case 'm' => Some(60000)
    case 's' => Some(1000)
    case _ => None
  }

  function Number(digits: string): nat
    requires forall c :: c in digits ==> IsDigit(c)
  {
    if digits == "" then 0
    else
      assert digits[|digits| - 1] in digits;
      10 * Number(digits[..|digits| - 1]) + DigitValue(digits[|digits| - 1])
  }

  /** The rest of the scan: what is left, the digits read, the total so far. */
  function ParseFrom(rest: string, digits: string, total: int): Option<int>
    requires forall c :: c in digits ==> IsDigit(c)
    decreases |rest|
  {
    if rest == "" then if digits == "" then Some(total) else None
    else if IsDigit(rest[0]) then ParseFrom(rest[1..], digits + [rest[0]], total)
    else if digits == "" then None
    else match UnitMs(rest[0])
      case None => None
      case Some(ms) => ParseFrom(rest[1..], "", total + Number(digits) * ms)
  }

  predicate Signed(s: string) {
    s != "" && (s[0] == '+' || s[0] == '-')
  }

  function Sign(s: string): int {
    if s != "" && s[0] == '-' then -1 else 1
  }

  function Unsigned(s: string): string {
    if Signed(s) then s[1..] else s
  }

  function OffsetOf(s: string): Option<int> {
    if Unsigned(s) == "" then None
    else match ParseFrom(Unsigned(s), "", 0)
      case None => None
      case Some(total) => Some(total * Sign(s))
  }

  method ParseOffset(s: string) returns (r: Option<int>)
    ensures r == OffsetOf(s)
  {
    var sign := if s != "" && s[0] == '-' then -1 else 1;
    var rest := if Signed(s) then s[1..] else s;
    if rest == "" {
      return None;
    }
    var totalMs := 0;
    var numStr := "";
    for i := 0 to |rest|
      invariant forall c :: c in numStr ==> IsDigit(c)
      invariant ParseFrom(rest[i..], numStr, totalMs) == ParseFrom(rest, "", 0)
    {
      var ch := rest[i];
      assert rest[i..][0] == ch && rest[i..][1..] == rest[i + 1..];
      if IsDigit(ch) {
        numStr := numStr + [ch];
        continue;
      }
      if numStr == "" {
        return None;
      }
      var n := Number(numStr);
      numStr := "";
      match UnitMs(ch) {
        case None => return None;
        case Some(ms) => totalMs := totalMs + n * ms;
      }
    }
    if numStr != "" {
      return None;
    }
    return Some(totalMs * sign);
  }

  // The language of offsets. -----------------------------------------------------------

  /** A number and its unit, as in 6h. */
  datatype Term = Term(digits: string, unit: char)

  predicate IsUnit(c: char) {
    c == 'd' || c == 'h' || c == 'm' || c == 's'
  }

  predicate IsTerm(t: Term) {
    t.digits != "" && (forall c :: c in t.digits ==> IsDigit(c)) && IsUnit(t.unit)
  }

  /** Days, hours, minutes and seconds, in milliseconds. */
  function Weight(unit: char): int {
    if unit == 'd' then 24 * 60 * 60 * 1000
    else if unit == 'h' then 60 * 60 * 1000
    else if unit == 'm' then 60 * 1000
    else 1000
  }

  predicate AreTerms(terms: seq<Term>) {
    forall t :: t in terms ==> IsTerm(t)
  }

  function Text(terms: seq<Term>): string {
    if terms == [] then "" else terms[0].digits + [terms[0].unit] + Text(terms[1..])
  }

  function Duration(terms: seq<Term>): int
    requires AreTerms(terms)
  {
    if terms == [] then 0
    else
      assert terms[0] in terms;
      Milliseconds(terms[0]) + Duration(terms[1..])
  }

  function Milliseconds(t: Term): int
    requires IsTerm(t)
  {
    Number(t.digits) * Weight(t.unit)
  }

  lemma UnitWeight(c: char)
    ensures UnitMs(c) == if IsUnit(c) then Some(Weight(c)) else None
    ensures IsUnit(c) ==> !IsDigit(c)
  {
  }

  lemma ReadUnit(t: Term, rest: string, total: int)
    requires IsTerm(t)
    ensures ParseFrom([t.unit] + rest, t.digits, total) == ParseFrom(rest, "", total + Milliseconds(t))
  {
    UnitWeight(t.unit);
    assert ([t.unit] + rest)[1..] == rest;
  }

  lemma {:induction false} ReadDigits(digits: string, read: string, rest: string, total: int)
    requires forall c :: c in digits || c in read ==> IsDigit(c)
    ensures ParseFrom(digits + rest, read, total) == ParseFrom(rest, read + digits, total)
    decreases |digits|
  {
    if digits == "" {
      assert digits + rest == rest && read + digits == read;
    } else {
      assert (digits + rest)[1..] == digits[1..] + rest;
      ReadDigits(digits[1..], read + [digits[0]], rest, total);
      assert read + [digits[0]] + digits[1..] == read + digits;
    }
  }

  lemma ReadTerm(t: Term, rest: string, total: int)
    requires IsTerm(t)
    ensures ParseFrom(t.digits + [t.unit] + rest, "", total) == ParseFrom(rest, "", total + Milliseconds(t))
  {
    ReadDigits(t.digits, "", [t.unit] + rest, total);
    assert "" + t.digits == t.digits;
    assert t.digits + [t.unit] + rest == t.digits + ([t.unit] + rest);
    ReadUnit(t, rest, total);
  }

  lemma {:induction false} ReadTerms(terms: seq<Term>, total: int)
    requires AreTerms(terms)
    ensures ParseFrom(Text(terms), "", total) == Some(total + Duration(terms))
  {
    if terms != [] {
      var t := terms[0];
      assert t in terms;
      ReadTerm(t, Text(terms[1..]), total);
      ReadTerms(terms[1..], total + Milliseconds(t));
    }
  }

  lemma {:induction false} OnlyTermsRead(rest: string, digits: string, total: int) returns (terms: seq<Term>)
    requires forall c :: c in digits ==> IsDigit(c)
    requires ParseFrom(rest, digits, total).Some?
    ensures AreTerms(terms) && digits + rest == Text(terms)
    ensures ParseFrom(rest, digits, total) == Some(total + Duration(terms))
    decreases |rest|
  {
    if rest == "" {
      terms := [];
    } else if IsDigit(rest[0]) {
      terms := OnlyTermsRead(rest[1..], digits + [rest[0]], total);
      assert digits + rest == digits + [rest[0]] + rest[1..];
    } else {
      var t := Term(digits, rest[0]);
      UnitWeight(rest[0]);
      var more := OnlyTermsRead(rest[1..], "", total + Milliseconds(t));
      terms := [t] + more;
      assert terms[1..] == more;
      assert digits + rest == digits + [rest[0]] + ("" + rest[1..]);
    }
  }

  /** s is a sign, or none, and one or more terms that add up to ms. */
  ghost predicate IsOffset(s: string, ms: int, terms: seq<Term>) {
    s != "" && terms != [] && AreTerms(terms) && Unsigned(s) == Text(terms) && ms == if s[0] == '-' then -Duration(terms) else Duration(terms)
  }

  lemma OffsetSound(s: string) returns (terms: seq<Term>)
    requires OffsetOf(s).Some?
    ensures IsOffset(s, OffsetOf(s).value, terms)
  {
    terms := OnlyTermsRead(Unsigned(s), "", 0);
    assert "" + Unsigned(s) == Unsigned(s);
  }

  lemma OffsetComplete(s: string, ms: int, terms: seq<Term>)
    requires IsOffset(s, ms, terms)
    ensures OffsetOf(s) == Some(ms)
  {
    ReadTerms(terms, 0);
    assert terms[0] in terms;
  }

  /** The offsets accepted are a sign or none and one or more terms, and the
      offset is their signed sum. */
  lemma OffsetLanguage(s: string, ms: int)
    ensures OffsetOf(s) == Some(ms) <==> exists terms :: IsOffset(s, ms, terms)
  {
    if OffsetOf(s) == Some(ms) {
      var terms := OffsetSound(s);
    }
    forall terms | IsOffset(s, ms, terms)
      ensures OffsetOf(s) == Some(ms)
    {
      OffsetComplete(s, ms, terms);
    }
  }

  function Power(k: nat): nat {
    if k == 0 then 1 else 10 * Power(k - 1)
  }

  /** Digits are read as a decimal number. */
  lemma {:induction false} NumberIsDecimal(a: string, b: string)
    requires (forall c :: c in a ==> IsDigit(c)) && forall c :: c in b ==> IsDigit(c)
    ensures Number(a + b) == Number(a) * Power(|b|) + Number(b)
  {
    if b == "" {
      assert a + b == a;
    } else {
      var front, last := b[..|b| - 1], b[|b| - 1];
      NumberIsDecimal(a, front);
      assert b == front + [last];
      assert (a + b)[..|a + b| - 1] == a + front;
      Shift(Number(a), Power(|front|), Number(front), DigitValue(last));
    }
  }

  lemma Shift(x: int, p: int, y: int, d: int)
    ensures 10 * (x * p + y) + d == x * (10 * p) + (10 * y + d)
  {
  }

  lemma OneDigit(k: nat)
    requires k < 10
    ensures IsDigit("0123456789"[k]) && Number(["0123456789"[k]]) == k
  {
    var s := ["0123456789"[k]];
    assert s[..0] == "";
    assert Number(s) == 10 * Number(s[..0]) + DigitValue(s[0]);
  }

  /** A plus sign changes nothing, a minus sign turns the offset round. */
  lemma SignsTurn(s: string)
    requires s != "" && s[0] != '+' && s[0] != '-'
    ensures OffsetOf("+" + s) == OffsetOf(s)
    ensures OffsetOf("-" + s) == match OffsetOf(s) case Some(ms) => Some(-ms) case None => None
  {
    assert ("+" + s)[1..] == s && ("-" + s)[1..] == s;
  }

  // The builtins. --------------------------------------------------------------------------

  const BASES: seq<string> := ["timestamp", "datetime", "date", "time", "now"]

  predicate StartsWith(s: string, prefix: string) {
    |s| >= |prefix| && s[..|prefix|] == prefix
  }

  function BuiltinFrom(bases: seq<string>, name: string, clock: Clock): Option<string> {
    if bases == [] then None
    else
      var base := bases[0];
      if name == base then Some(clock.format(base, clock.now))
      else if StartsWith(name, base) && Signed(name[|base|..]) && OffsetOf(name[|base|..]).Some? then
        var at := clock.now + OffsetOf(name[|base|..]).value;
        if -LAST_INSTANT <= at <= LAST_INSTANT then Some(clock.format(base, at)) else None
      else BuiltinFrom(bases[1..], name, clock)
  }

  /** resolveTimeBuiltin, at one fixed instant. */
  function Builtin(name: string, clock: Clock): Option<string> {
    BuiltinFrom(BASES, name, clock)
  }

  lemma {:induction false} TextHasNoDollar(terms: seq<Term>)
    requires AreTerms(terms)
    ensures '$' !in Text(terms)
  {
    if terms != [] {
      assert terms[0] in terms;
      TextHasNoDollar(terms[1..]);
    }
  }

  lemma OffsetHasNoDollar(s: string)
    requires OffsetOf(s).Some?
    ensures '$' !in s
  {
    var terms := OnlyTermsRead(Unsigned(s), "", 0);
    assert "" + Unsigned(s) == Unsigned(s);
    TextHasNoDollar(terms);
    assert Signed(s) ==> s == [s[0]] + Unsigned(s);
  }

  lemma {:induction false} BuiltinFromHasNoDollar(bases: seq<string>, name: string, clock: Clock)
    requires BuiltinFrom(bases, name, clock).Some?
    requires forall b :: b in bases ==> '$' !in b
    ensures '$' !in name
  {
    var base := bases[0];
    assert base in bases;
    if name == base {
    } else if StartsWith(name, base) && Signed(name[|base|..]) && OffsetOf(name[|base|..]).Some? {
      OffsetHasNoDollar(name[|base|..]);
      assert name == base + name[|base|..];
    } else {
      BuiltinFromHasNoDollar(bases[1..], name, clock);
    }
  }

  lemma BuiltinHasNoDollar(name: string, clock: Clock)
    requires Builtin(name, clock).Some?
    ensures '$' !in name
  {
    BuiltinFromHasNoDollar(BASES, name, clock);
  }

  /** Where two strings part. */
  function PartAt(a: string, b: string): (k: nat)
    ensures k <= |a| && k <= |b|
    ensures k < |a| && k < |b| ==> a[k] != b[k]
    ensures k == |a| == |b| ==> a == b
  {
    if a == "" || b == "" || a[0] != b[0] then 0
    else
      assert a == [a[0]] + a[1..] && b == [b[0]] + b[1..];
      1 + PartAt(a[1..], b[1..])
  }

  predicate Lower(s: string) {
    forall c :: c in s ==> 'a' <= c <= 'z'
  }

  predicate Introduces(b: string, name: string) {
    name == b || (StartsWith(name, b) && Signed(name[|b|..]))
  }

  /** No name is introduced by two of the bases. */
  lemma OneBase(b: string, base: string, off: string)
    requires b != base && Lower(b) && Lower(base) && (off == "" || Signed(off))
    ensures !Introduces(b, base + off)
  {
    var name := base + off;
    var k := PartAt(b, base);
    if k < |b| {
      assert b[k] in b;
      assert k < |name| ==> name[k] != b[k];
      assert |name| >= |b| ==> name[..|b|][k] == name[k];
    } else {
      assert name[|b|] == base[|b|] && base[|b|] in base;
    }
  }

  function Meaning(base: string, off: string, clock: Clock): Option<string> {
    if off == "" then Some(clock.format(base, clock.now))
    else match OffsetOf(off)
      case None => None
      case Some(ms) =>
        if -100000000 <= (clock.now + ms) / 86400000 && clock.now + ms <= 100000000 * 86400000 then Some(clock.format(base, clock.now + ms)) else None
  }

  lemma {:induction false} MeansFrom(bases: seq<string>, base: string, off: string, clock: Clock)
    requires Lower(base) && (off == "" || Signed(off)) && forall b :: b in bases ==> Lower(b)
    ensures BuiltinFrom(bases, base + off, clock) == if base in bases then Meaning(base, off, clock) else None
  {
    if bases != [] {
      assert bases[0] in bases;
      assert (base + off)[..|base|] == base && (base + off)[|base|..] == off;
      assert bases == [bases[0]] + bases[1..];
      MeansFrom(bases[1..], base, off, clock);
      if bases[0] != base {
        OneBase(bases[0], base, off);
      }
    }
  }

  /** Each builtin means its own instant, and with an offset the shifted one;
      a malformed offset, or one past the calendar, means nothing. */
  lemma BuiltinMeans(base: string, off: string, clock: Clock)
    requires base in BASES && (off == "" || Signed(off))
    ensures Builtin(base + off, clock) == Meaning(base, off, clock)
  {
    MeansFrom(BASES, base, off, clock);
  }
}
