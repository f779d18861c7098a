/** What substitution puts in, and what it leaves alone: each placeholder on its
    own, by the text around it. */
module Substitution {
  import opened Graph
  import opened Repository
  import opened TimeBuiltins
  import opened Placeholders
  import opened RunValues

  // The text on both sides of a piece. ------------------------------------------------

  lemma {:induction false} LeftPieces(s: string, i: nat)
    requires i <= |Pieces(s)|
    ensures Pieces(Spell(Pieces(s)[..i])) == Pieces(s)[..i]
  {
    if i > 0 {
      var n := MatchLength(s);
      LeftPieces(if n > 0 then s[n..] else s[1..], i - 1);
      if n > 0 {
        LeftAfterToken(s, i);
      } else {
        LeftAfterLit(s, i);
      }
    }
  }

  lemma LeftAfterToken(s: string, i: nat)
    requires MatchLength(s) > 0 && 0 < i <= |Pieces(s)|
    requires var rest := s[MatchLength(s)..]; Pieces(Spell(Pieces(rest)[..i - 1])) == Pieces(rest)[..i - 1]
    ensures Pieces(Spell(Pieces(s)[..i])) == Pieces(s)[..i]
  {
    var n := MatchLength(s);
    MatchIsToken(s);
    SpellCons(Placeholder(s[2..n - 1]), Pieces(s[n..]), i - 1);
    TokenPiece(s[2..n - 1], Spell(Pieces(s[n..])[..i - 1]));
  }

  lemma LeftAfterLit(s: string, i: nat)
    requires s != "" && MatchLength(s) == 0 && 0 < i <= |Pieces(s)|
    requires Pieces(Spell(Pieces(s[1..])[..i - 1])) == Pieces(s[1..])[..i - 1]
    ensures Pieces(Spell(Pieces(s)[..i])) == Pieces(s)[..i]
  {
    LeftOfRest(s, i - 1);
    SpellCons(Lit(s[0]), Pieces(s[1..]), i - 1);
    LitPiece(s[0], Spell(Pieces(s[1..])[..i - 1]));
  }

  function TextOfPiece(p: Piece): string {
    match p case Lit(c) => [c] case Placeholder(expr) => Token(expr)
  }

  lemma SpellCons(p: Piece, ps: seq<Piece>, k: nat)
    requires k <= |ps|
    ensures ([p] + ps)[..k + 1] == [p] + ps[..k]
    ensures Spell(([p] + ps)[..k + 1]) == TextOfPiece(p) + Spell(ps[..k])
  {
    assert ([p] + ps)[..k + 1] == [p] + ps[..k];
    assert ([p] + ps[..k])[1..] == ps[..k];
  }

  lemma LitPiece(c: char, rest: string)
    requires MatchLength([c] + rest) == 0
    ensures Pieces([c] + rest) == [Lit(c)] + Pieces(rest)
  {
    assert ([c] + rest)[1..] == rest;
  }

  lemma TokenPiece(expr: string, rest: string)
    requires IsExpr(expr)
    ensures Pieces(Token(expr) + rest) == [Placeholder(expr)] + Pieces(rest)
  {
    var s := Token(expr) + rest;
    MatchOfToken(expr, rest);
    assert s[2..|Token(expr)| - 1] == expr && s[|Token(expr)|..] == rest;
  }

  lemma SpellSplit(ps: seq<Piece>, k: nat)
    requires k <= |ps|
    ensures Spell(ps) == Spell(ps[..k]) + Spell(ps[k..])
  {
    assert ps == ps[..k] + ps[k..];
    SpellConcat(ps[..k], ps[k..]);
  }

  /** A text cut off behind a literal has no match at its front. */
  lemma LeftOfRest(s: string, k: nat)
    requires s != "" && MatchLength(s) == 0 && k <= |Pieces(s[1..])|
    ensures MatchLength([s[0]] + Spell(Pieces(s[1..])[..k])) == 0
  {
    PiecesSpell(s[1..]);
    SpellSplit(Pieces(s[1..]), k);
    HeadCut(s, Spell(Pieces(s[1..])[..k]), Spell(Pieces(s[1..])[k..]));
  }

  lemma HeadCut(s: string, a: string, b: string)
    requires s != "" && s[1..] == a + b && MatchLength(s) == 0
    ensures MatchLength([s[0]] + a) == 0
  {
    assert s == [s[0]] + s[1..];
    Assoc([s[0]], a, b);
    MatchGrows([s[0]] + a, b);
  }

  lemma MatchGrows(a: string, b: string)
    requires MatchLength(a + b) == 0
    ensures MatchLength(a) == 0
  {
    if MatchLength(a) > 0 {
      var n := MatchLength(a);
      MatchIsToken(a);
      Assoc(Token(a[2..n - 1]), a[n..], b);
      MatchOfToken(a[2..n - 1], a[n..] + b);
    }
  }

  lemma {:induction false} SpellConcat(a: seq<Piece>, b: seq<Piece>)
    ensures Spell(a + b) == Spell(a) + Spell(b)
  {
    if a == [] {
      assert a + b == b;
    } else {
      assert (a + b)[1..] == a[1..] + b;
      SpellConcat(a[1..], b);
    }
  }

  lemma {:induction false} RightPieces(s: string, i: nat)
    requires i <= |Pieces(s)|
    ensures Pieces(Spell(Pieces(s)[i..])) == Pieces(s)[i..]
  {
    if i == 0 {
      PiecesSpell(s);
    } else {
      var n := MatchLength(s);
      var rest := if n > 0 then s[n..] else s[1..];
      RightPieces(rest, i - 1);
      assert Pieces(s)[1..] == Pieces(rest);
      assert Pieces(s)[i..] == Pieces(rest)[i - 1..];
    }
  }

  /** The text before the i-th piece, and the text behind it. */
  function LeftText(s: string, i: nat): string
    requires i < |Pieces(s)|
  {
    Spell(Pieces(s)[..i])
  }

  function RightText(s: string, i: nat): string
    requires i < |Pieces(s)|
  {
    Spell(Pieces(s)[i + 1..])
  }

  lemma AroundPiece(s: string, i: nat)
    requires i < |Pieces(s)|
    ensures s == LeftText(s, i) + ((match Pieces(s)[i] case Lit(c) => [c] case Placeholder(expr) => Token(expr)) + RightText(s, i))
  {
    var ps := Pieces(s);
    PiecesSpell(s);
    SpellSplit(ps, i);
  }

  // One pass. ----------------------------------------------------------------------------

  lemma PassAround(s: string, i: nat, vars: Vars, clock: Clock)
    requires i < |Pieces(s)|
    ensures SubstituteString(s, vars, clock)
            == SubstituteString(LeftText(s, i), vars, clock)
               + (Replace(Pieces(s)[i], vars, clock) + SubstituteString(RightText(s, i), vars, clock))
  {
    LeftPieces(s, i);
    RightPieces(s, i + 1);
    ReplaceAround(Pieces(s), i, vars, clock);
  }

  /** A placeholder becomes the value of the variable its trimmed name names; where
      there is none, what the builtin of that name renders; where there is neither,
      it stays. The text around it is substituted on its own. */
  lemma PlaceholderBecomes(s: string, i: nat, vars: Vars, clock: Clock)
    requires i < |Pieces(s)| && Pieces(s)[i].Placeholder?
    ensures var expr := Pieces(s)[i].expr;
            var key := Trim(expr);
            s == LeftText(s, i) + ("${" + expr + "}" + RightText(s, i))
            && SubstituteString(s, vars, clock)
               == SubstituteString(LeftText(s, i), vars, clock)
                  + ((if key in vars then vars[key]
                      else if Builtin(key, clock).Some? then Builtin(key, clock).value
                      else "${" + expr + "}")
                     + SubstituteString(RightText(s, i), vars, clock))
  {
    AroundPiece(s, i);
    PassAround(s, i, vars, clock);
  }

  /** Every other character is copied. */
  lemma LiteralIsCopied(s: string, i: nat, vars: Vars, clock: Clock)
    requires i < |Pieces(s)| && Pieces(s)[i].Lit?
    ensures var c := Pieces(s)[i].c;
            s == LeftText(s, i) + ([c] + RightText(s, i))
            && SubstituteString(s, vars, clock)
               == SubstituteString(LeftText(s, i), vars, clock) + ([c] + SubstituteString(RightText(s, i), vars, clock))
  {
    AroundPiece(s, i);
    PassAround(s, i, vars, clock);
  }

  /** At any depth of a value: the text found at a path is the substituted text. */
  lemma PlaceholderBecomesAt(v: Json, path: seq<nat>, s: string, i: nat, vars: Vars, clock: Clock)
    requires At(v, path) == Some(Str(s)) && i < |Pieces(s)| && Pieces(s)[i].Placeholder? && Trim(Pieces(s)[i].expr) in vars
    ensures At(SubstituteDeep(v, vars, clock), path)
            == Some(Str(SubstituteString(LeftText(s, i), vars, clock)
                        + (vars[Trim(Pieces(s)[i].expr)] + SubstituteString(RightText(s, i), vars, clock))))
  {
    SubstituteDeepAt(v, vars, clock, path);
    PlaceholderBecomes(s, i, vars, clock);
  }

  /** What is no text, list or object stays as it is. */
  lemma OthersAreCopied(v: Json, path: seq<nat>, vars: Vars, clock: Clock)
    requires At(v, path).Some? && (At(v, path).value.Null? || At(v, path).value.Bool? || At(v, path).value.Num?)
    ensures At(SubstituteDeep(v, vars, clock), path) == At(v, path)
  {
    SubstituteDeepAt(v, vars, clock, path);
  }

  lemma {:induction false} NoOpeningIsVerbatim(s: string, vars: Vars, clock: Clock)
    requires '$' !in s
    ensures SubstituteString(s, vars, clock) == s
  {
    if s != "" {
      NoOpeningIsVerbatim(s[1..], vars, clock);
    }
  }

  // Trimming. ------------------------------------------------------------------------------

  predicate Blank(s: string) {
    forall c :: c in s ==> IsSpace(c)
  }

  lemma {:induction false} TrimLeftCuts(s: string) returns (cut: string)
    ensures s == cut + TrimLeft(s) && Blank(cut)
    ensures TrimLeft(s) != "" ==> !IsSpace(TrimLeft(s)[0])
  {
    cut := "";
    if s != "" && IsSpace(s[0]) {
      cut := TrimLeftCuts(s[1..]);
      Assoc([s[0]], cut, TrimLeft(s[1..]));
      assert s == [s[0]] + s[1..];
      cut := [s[0]] + cut;
    }
  }

  lemma {:induction false} TrimRightCuts(s: string) returns (cut: string)
    ensures s == TrimRight(s) + cut && Blank(cut)
    ensures TrimRight(s) != "" ==> TrimRight(s)[0] == s[0] && !IsSpace(TrimRight(s)[|TrimRight(s)| - 1])
  {
    cut := "";
    if s != "" && IsSpace(s[|s| - 1]) {
      cut := TrimRightCuts(s[..|s| - 1]);
      Assoc(TrimRight(s[..|s| - 1]), cut, [s[|s| - 1]]);
      assert s == s[..|s| - 1] + [s[|s| - 1]];
      cut := cut + [s[|s| - 1]];
    }
  }

  /** Trimming takes the blanks off both ends, all of them and nothing else. */
  lemma TrimCuts(s: string) returns (left: string, right: string)
    ensures s == left + (Trim(s) + right) && Blank(left) && Blank(right)
    ensures Trim(s) != "" ==> !IsSpace(Trim(s)[0]) && !IsSpace(Trim(s)[|Trim(s)| - 1])
  {
    left := TrimLeftCuts(s);
    right := TrimRightCuts(TrimLeft(s));
  }
}
