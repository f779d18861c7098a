/** Scanning a text for ${...} placeholders and replacing them. */
module Placeholders {
  import opened Graph
  import opened Repository
  import opened TimeBuiltins

  // The scanner: the leftmost matches of "${", one or more characters other than
  // "}", and "}". --------------------------------------------------------------------

  predicate Opens(s: string) {
    |s| >= 2 && s[0] == '$' && s[1] == '{'
  }

  /** The place of the first "}" at or behind i, or |s|. */
  function CloseAt(s: string, i: nat): (k: nat)
    requires i <= |s|
    ensures i <= k <= |s|
    ensures forall j :: i <= j < k ==> s[j] != '}'
    ensures k < |s| ==> s[k] == '}'
    decreases |s| - i
  {
    if i == |s| || s[i] == '}' then i else CloseAt(s, i + 1)
  }

  /** The length of the match at the front of s, 0 if there is none. */
  function MatchLength(s: string): (n: nat)
    ensures n <= |s|
    ensures n > 0 ==> n >= 4 && Opens(s) && s[n - 1] == '}' && forall j :: 2 <= j < n - 1 ==> s[j] != '}'
  {
    if Opens(s) && CloseAt(s, 2) < |s| && CloseAt(s, 2) > 2 then CloseAt(s, 2) + 1 else 0
  }

  /** A text as literal characters and placeholders; a placeholder keeps the
      characters between its braces. */
  datatype Piece = Lit(c: char) | Placeholder(expr: string)

  function Pieces(s: string): seq<Piece> {
    if s == "" then []
    else
      var n := MatchLength(s);
      if n > 0 then [Placeholder(s[2..n - 1])] + Pieces(s[n..]) else [Lit(s[0])] + Pieces(s[1..])
  }

  function Token(expr: string): string {
    "${" + expr + "}"
  }

  predicate IsSpace(c: char) {
    || '\t' <= c <= '\r' || c == ' ' || c == '\U{A0}' || c == '\U{1680}' || '\U{2000}' <= c <= '\U{200A}'
    || c == '\U{2028}' || c == '\U{2029}' || c == '\U{202F}' || c == '\U{205F}' || c == '\U{3000}' || c == '\U{FEFF}'
  }

  function TrimLeft(s: string): string {
    if s != "" && IsSpace(s[0]) then TrimLeft(s[1..]) else s
  }

  function TrimRight(s: string): string {
    if s != "" && IsSpace(s[|s| - 1]) then TrimRight(s[..|s| - 1]) else s
  }

  function Trim(s: string): string {
    TrimRight(TrimLeft(s))
  }

  // One pass of substitution. ------------------------------------------------------------

  /** What replaces a placeholder, if anything does. */
  function Value(expr: string, vars: Vars, clock: Clock): Option<string> {
    var key := Trim(expr);
    if key in vars then Some(vars[key]) else Builtin(key, clock)
  }

  function Replace(p: Piece, vars: Vars, clock: Clock): string {
    match p
    case Lit(c) => [c]
    case Placeholder(expr) =>
      match Value(expr, vars, clock)
      case Some(v) => v
      case None => Token(expr)
  }

  function ReplaceAll(ps: seq<Piece>, vars: Vars, clock: Clock): string {
    if ps == [] then "" else Replace(ps[0], vars, clock) + ReplaceAll(ps[1..], vars, clock)
  }

  function SubstituteString(s: string, vars: Vars, clock: Clock): string {
    ReplaceAll(Pieces(s), vars, clock)
  }

  /** The two passes of a run: all variables, and then the builtins alone. */
  function Twice(s: string, vars: Vars, clock: Clock): string {
    SubstituteString(SubstituteString(s, vars, clock), map[], clock)
  }

  lemma {:induction false} ReplaceConcat(a: seq<Piece>, b: seq<Piece>, vars: Vars, clock: Clock)
    ensures ReplaceAll(a + b, vars, clock) == ReplaceAll(a, vars, clock) + ReplaceAll(b, vars, clock)
  {
    if a == [] {
      assert a + b == b;
    } else {
      assert (a + b)[1..] == a[1..] + b;
      ReplaceConcat(a[1..], b, vars, clock);
    }
  }

  lemma MatchIsToken(s: string)
    requires MatchLength(s) > 0
    ensures var n := MatchLength(s); s == Token(s[2..n - 1]) + s[n..] && IsExpr(s[2..n - 1])
  {
    var n := MatchLength(s);
    assert s[..n] == Token(s[2..n - 1]);
    assert s == s[..n] + s[n..];
  }

  /** The pieces of a text, put together, are the text. */
  lemma {:induction false} PiecesSpell(s: string)
    ensures Spell(Pieces(s)) == s
  {
    if s != "" {
      var n := MatchLength(s);
      if n > 0 {
        PiecesSpell(s[n..]);
        MatchIsToken(s);
      } else {
        PiecesSpell(s[1..]);
      }
    }
  }

  function Spell(ps: seq<Piece>): string {
    if ps == [] then ""
    else (match ps[0] case Lit(c) => [c] case Placeholder(expr) => Token(expr)) + Spell(ps[1..])
  }

  // A placeholder that is left in place is a barrier. ----------------------------------------

  predicate IsExpr(expr: string) {
    expr != "" && '}' !in expr
  }

  lemma {:induction false} PiecesAreExprs(s: string, i: nat)
    requires i < |Pieces(s)| && Pieces(s)[i].Placeholder?
    ensures IsExpr(Pieces(s)[i].expr)
  {
    var n := MatchLength(s);
    if i > 0 {
      PiecesAreExprs(if n > 0 then s[n..] else s[1..], i - 1);
    }
  }

  lemma {:induction false} TrimKeepsDollar(s: string)
    requires '$' in s
    ensures '$' in Trim(s)
  {
    TrimLeftKeepsDollar(s);
    TrimRightKeepsDollar(TrimLeft(s));
  }

  lemma {:induction false} TrimLeftKeepsDollar(s: string)
    requires '$' in s
    ensures '$' in TrimLeft(s)
  {
    if IsSpace(s[0]) {
      assert s == [s[0]] + s[1..];
      TrimLeftKeepsDollar(s[1..]);
    }
  }

  lemma {:induction false} TrimRightKeepsDollar(s: string)
    requires '$' in s
    ensures '$' in TrimRight(s)
  {
    if IsSpace(s[|s| - 1]) {
      assert s == s[..|s| - 1] + [s[|s| - 1]];
      TrimRightKeepsDollar(s[..|s| - 1]);
    }
  }

  /** Nothing but variables can replace a placeholder with a "$" inside. */
  lemma DollarIsNoBuiltin(expr: string, clock: Clock)
    requires '$' in expr
    ensures Value(expr, map[], clock) == None
  {
    TrimKeepsDollar(expr);
    if Builtin(Trim(expr), clock).Some? {
      BuiltinHasNoDollar(Trim(expr), clock);
    }
  }

  lemma {:induction false} NoCloseIsVerbatim(s: string, vars: Vars, clock: Clock)
    requires '}' !in s
    ensures SubstituteString(s, vars, clock) == s
  {
    if s != "" {
      NoCloseIsVerbatim(s[1..], vars, clock);
    }
  }

  lemma MatchOfToken(expr: string, rest: string)
    requires IsExpr(expr)
    ensures MatchLength(Token(expr) + rest) == |Token(expr)|
  {
    var s := Token(expr) + rest;
    assert s[|expr| + 2] == '}';
    assert forall j :: 2 <= j < |expr| + 2 ==> s[j] == expr[j - 2];
  }

  lemma SubstituteToken(expr: string, rest: string, vars: Vars, clock: Clock)
    requires IsExpr(expr)
    ensures SubstituteString(Token(expr) + rest, vars, clock)
            == Replace(Placeholder(expr), vars, clock) + SubstituteString(rest, vars, clock)
  {
    var s := Token(expr) + rest;
    MatchOfToken(expr, rest);
    assert s[2..|Token(expr)| - 1] == expr && s[|Token(expr)|..] == rest;
    assert Pieces(s) == [Placeholder(expr)] + Pieces(rest);
  }

  lemma SubstituteLit(s: string, c: char, rest: string, vars: Vars, clock: Clock)
    requires s == [c] + rest && MatchLength(s) == 0
    ensures SubstituteString(s, vars, clock) == [c] + SubstituteString(rest, vars, clock)
  {
    assert s[1..] == rest;
  }

  lemma Assoc(a: string, b: string, c: string)
    ensures a + (b + c) == (a + b) + c
  {
  }

  /** Replacing the match, or the character, at the front of a text works the
      same whatever follows the text. */
  lemma FrontMatch(before: string, tail: string, clock: Clock)
    requires MatchLength(before) > 0
    ensures var n := MatchLength(before);
            var front := Replace(Placeholder(before[2..n - 1]), map[], clock);
            && SubstituteString(before, map[], clock) == front + SubstituteString(before[n..], map[], clock)
            && SubstituteString(before + tail, map[], clock) == front + SubstituteString(before[n..] + tail, map[], clock)
  {
    var n := MatchLength(before);
    var expr, rest := before[2..n - 1], before[n..];
    MatchIsToken(before);
    SubstituteToken(expr, rest, map[], clock);
    Assoc(Token(expr), rest, tail);
    SubstituteToken(expr, rest + tail, map[], clock);
  }

  lemma FrontLit(before: string, tail: string, clock: Clock)
    requires before != "" && MatchLength(before) == 0 && MatchLength(before + tail) == 0
    ensures SubstituteString(before, map[], clock) == [before[0]] + SubstituteString(before[1..], map[], clock)
    ensures SubstituteString(before + tail, map[], clock) == [before[0]] + SubstituteString(before[1..] + tail, map[], clock)
  {
    var c, rest := before[0], before[1..];
    assert before == [c] + rest;
    SubstituteLit(before, c, rest, map[], clock);
    Assoc([c], rest, tail);
    SubstituteLit(before + tail, c, rest + tail, map[], clock);
  }

  /** An opening before the placeholder that nothing closes: the match then
      reaches to the end of the placeholder, and is copied as it is. */
  lemma Swallowed(before: string, expr: string, after: string, clock: Clock)
    requires Opens(before) && '}' !in before[2..] && IsExpr(expr)
    ensures SubstituteString(before + (Token(expr) + after), map[], clock)
            == before + (Token(expr) + SubstituteString(after, map[], clock))
  {
    var wide := before[2..] + "${" + expr;
    assert wide[|before| - 2] == '$';
    DollarIsNoBuiltin(wide, clock);
    WideToken(before, expr);
    SubstituteToken(wide, after, map[], clock);
    Assoc(before, Token(expr), after);
    Assoc(before, Token(expr), SubstituteString(after, map[], clock));
  }

  lemma WideToken(before: string, expr: string)
    requires Opens(before)
    ensures before + Token(expr) == Token(before[2..] + "${" + expr)
  {
  }

  /** A text in front of a tail that starts with such a placeholder: unless it
      leaves an opening unclosed, it cannot touch the tail. */
  lemma {:induction false} InFrontOf(before: string, expr: string, after: string, tail: string, out: string, clock: Clock)
    requires IsExpr(expr) && tail == Token(expr) + after
    requires out == Token(expr) + SubstituteString(after, map[], clock) == SubstituteString(tail, map[], clock)
    ensures SubstituteString(before + tail, map[], clock) == SubstituteString(before, map[], clock) + out
    decreases |before|
  {
    if before == "" {
      NothingInFront(tail, out);
    } else if MatchLength(before) > 0 {
      var n := MatchLength(before);
      FrontMatch(before, tail, clock);
      InFrontOf(before[n..], expr, after, tail, out, clock);
      Assoc(Replace(Placeholder(before[2..n - 1]), map[], clock), SubstituteString(before[n..], map[], clock), out);
    } else if Opens(before) && '}' !in before[2..] {
      OpenIsVerbatim(before, clock);
      Swallowed(before, expr, after, clock);
    } else {
      NoMatchBefore(before, tail);
      FrontLit(before, tail, clock);
      InFrontOf(before[1..], expr, after, tail, out, clock);
      Assoc([before[0]], SubstituteString(before[1..], map[], clock), out);
    }
  }

  lemma NothingInFront(tail: string, out: string)
    ensures "" + tail == tail && "" + out == out
  {
  }

  lemma OpenIsVerbatim(before: string, clock: Clock)
    requires Opens(before) && '}' !in before[2..]
    ensures SubstituteString(before, map[], clock) == before
  {
    assert before == "${" + before[2..];
    NoCloseIsVerbatim(before, map[], clock);
  }

  lemma NoMatchBefore(before: string, rest: string)
    requires before != "" && MatchLength(before) == 0 && Opens(rest)
    requires !(Opens(before) && '}' !in before[2..])
    ensures MatchLength(before + rest) == 0
  {
    var s := before + rest;
    if Opens(before) {
      var j :| 0 <= j < |before[2..]| && before[2..][j] == '}';
      assert before[j + 2] == '}';
      assert s[2] == before[2];
    } else if |before| == 1 {
      assert s[1] == rest[0];
    }
  }

  /** Barrier: whatever text stands before a placeholder that the builtins do not
      replace, and whatever stands behind it, the second pass treats the two
      sides apart and copies the placeholder. */
  lemma Barrier(before: string, expr: string, after: string, clock: Clock)
    requires IsExpr(expr) && Value(expr, map[], clock) == None
    ensures SubstituteString(before + (Token(expr) + after), map[], clock)
            == SubstituteString(before, map[], clock) + (Token(expr) + SubstituteString(after, map[], clock))
  {
    var tail, out := Token(expr) + after, Token(expr) + SubstituteString(after, map[], clock);
    SubstituteToken(expr, after, map[], clock);
    InFrontOf(before, expr, after, tail, out, clock);
  }

  /** Survival: a placeholder of the text that the first pass leaves in place, as
      it does for names the run or the engine fills in, stands verbatim in what
      both passes return, between what they make of the text around it. */
  lemma LeftInPlaceSurvives(s: string, i: nat, vars: Vars, clock: Clock)
    requires i < |Pieces(s)| && Pieces(s)[i].Placeholder?
    requires Value(Pieces(s)[i].expr, vars, clock) == None
    ensures var ps := Pieces(s);
            Twice(s, vars, clock)
            == SubstituteString(ReplaceAll(ps[..i], vars, clock), map[], clock)
               + Token(ps[i].expr)
               + SubstituteString(ReplaceAll(ps[i + 1..], vars, clock), map[], clock)
  {
    var ps := Pieces(s);
    PiecesAreExprs(s, i);
    var before, after := ReplaceAll(ps[..i], vars, clock), ReplaceAll(ps[i + 1..], vars, clock);
    ReplaceAround(ps, i, vars, clock);
    Barrier(before, ps[i].expr, after, clock);
    Assoc(SubstituteString(before, map[], clock), Token(ps[i].expr), SubstituteString(after, map[], clock));
  }

  lemma ReplaceAround(ps: seq<Piece>, i: nat, vars: Vars, clock: Clock)
    requires i < |ps|
    ensures ReplaceAll(ps, vars, clock)
            == ReplaceAll(ps[..i], vars, clock) + (Replace(ps[i], vars, clock) + ReplaceAll(ps[i + 1..], vars, clock))
  {
    assert ps == ps[..i] + ps[i..];
    ReplaceConcat(ps[..i], ps[i..], vars, clock);
  }

  // The second pass is the last that is needed. -------------------------------------------------

  /** Rendered instants contain nothing a scanner could mistake. */
  ghost predicate RendersPlainly(clock: Clock) {
    forall base, t :: base in BASES ==> var text := clock.format(base, t); text != "" && forall c :: c in text ==> c != '$' && c != '{' && c != '}'
  }

  lemma {:induction false} PlainFront(text: string, rest: string, vars: Vars, clock: Clock)
    requires '$' !in text
    ensures SubstituteString(text + rest, vars, clock) == text + SubstituteString(rest, vars, clock)
  {
    if text == "" {
      assert text + rest == rest;
    } else {
      Assoc([text[0]], text[1..], rest);
      assert text == [text[0]] + text[1..];
      SubstituteLit(text + rest, text[0], text[1..] + rest, vars, clock);
      PlainFront(text[1..], rest, vars, clock);
      Assoc([text[0]], text[1..], SubstituteString(rest, vars, clock));
    }
  }

  /** Replacing cannot bring a brace to the front. */
  lemma BraceStaysInFront(s: string, clock: Clock)
    requires RendersPlainly(clock) && SubstituteString(s, map[], clock) != ""
    requires SubstituteString(s, map[], clock)[0] == '{'
    ensures s != "" && s[0] == '{' && MatchLength(s) == 0
  {
    var n := MatchLength(s);
    if n > 0 {
      var expr := s[2..n - 1];
      MatchIsToken(s);
      SubstituteToken(expr, s[n..], map[], clock);
      PlainOrToken(expr, clock);
      assert false;
    }
  }

  lemma PlainOrToken(expr: string, clock: Clock)
    requires RendersPlainly(clock)
    ensures var r := Replace(Placeholder(expr), map[], clock);
            && r != "" && r[0] != '{'
            && (r == Token(expr) || forall c :: c in r ==> c != '$' && c != '{' && c != '}')
  {
    if Builtin(Trim(expr), clock).Some? {
      var base, at := BuiltinIsRendered(BASES, Trim(expr), clock);
      assert clock.format(base, at)[0] in clock.format(base, at);
    }
  }

  lemma {:induction false} BuiltinIsRendered(bases: seq<string>, name: string, clock: Clock) returns (base: string, at: int)
    requires BuiltinFrom(bases, name, clock).Some?
    ensures base in bases && BuiltinFrom(bases, name, clock) == Some(clock.format(base, at))
  {
    base := bases[0];
    if name == base {
      at := clock.now;
    } else if StartsWith(name, base) && Signed(name[|base|..]) && OffsetOf(name[|base|..]).Some? {
      at := clock.now + OffsetOf(name[|base|..]).value;
    } else {
      base, at := BuiltinIsRendered(bases[1..], name, clock);
    }
  }

  /** A third pass would change nothing. */
  lemma {:induction false} SecondPassIsFinal(s: string, clock: Clock)
    requires RendersPlainly(clock)
    ensures SubstituteString(SubstituteString(s, map[], clock), map[], clock) == SubstituteString(s, map[], clock)
    decreases |s|
  {
    var n := MatchLength(s);
    if n > 0 {
      SecondPassIsFinal(s[n..], clock);
      MatchStaysFinal(s, clock);
    } else if s != "" {
      SecondPassIsFinal(s[1..], clock);
      LitStaysFinal(s, clock);
    }
  }

  lemma MatchStaysFinal(s: string, clock: Clock)
    requires RendersPlainly(clock) && MatchLength(s) > 0
    requires var r := SubstituteString(s[MatchLength(s)..], map[], clock); SubstituteString(r, map[], clock) == r
    ensures SubstituteString(SubstituteString(s, map[], clock), map[], clock) == SubstituteString(s, map[], clock)
  {
    var n := MatchLength(s);
    var expr := s[2..n - 1];
    MatchIsToken(s);
    SubstituteToken(expr, s[n..], map[], clock);
    PlainOrToken(expr, clock);
    var front, rest := Replace(Placeholder(expr), map[], clock), SubstituteString(s[n..], map[], clock);
    if front == Token(expr) {
      SubstituteToken(expr, rest, map[], clock);
    } else {
      PlainFront(front, rest, map[], clock);
    }
  }

  lemma LitStaysFinal(s: string, clock: Clock)
    requires RendersPlainly(clock) && s != "" && MatchLength(s) == 0
    requires var r := SubstituteString(s[1..], map[], clock); SubstituteString(r, map[], clock) == r
    ensures SubstituteString(SubstituteString(s, map[], clock), map[], clock) == SubstituteString(s, map[], clock)
  {
    var rest := SubstituteString(s[1..], map[], clock);
    assert s == [s[0]] + s[1..];
    SubstituteLit(s, s[0], s[1..], map[], clock);
    var r := [s[0]] + rest;
    if MatchLength(r) > 0 {
      BraceStaysInFront(s[1..], clock);
      OpensAndStays(s, clock);
    } else {
      SubstituteLit(r, s[0], rest, map[], clock);
    }
  }

  /** An opening that is no match is followed by nothing that closes it, or by an
      empty pair of braces; either way it is none after replacing. */
  lemma OpensAndStays(s: string, clock: Clock)
    requires Opens(s) && MatchLength(s) == 0 && MatchLength(s[1..]) == 0
    ensures MatchLength(SubstituteString(s, map[], clock)) > 0 ==> SubstituteString(s, map[], clock) == s
  {
    var k := CloseAt(s, 2);
    if k == |s| {
      assert '}' !in s;
      NoCloseIsVerbatim(s, map[], clock);
    } else {
      assert s == ['$'] + s[1..] && s[1..] == ['{'] + s[2..] && s[2..] == ['}'] + s[3..];
      SubstituteLit(s, '$', s[1..], map[], clock);
      SubstituteLit(s[1..], '{', s[2..], map[], clock);
      SubstituteLit(s[2..], '}', s[3..], map[], clock);
    }
  }
}
