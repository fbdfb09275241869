/**
 * The text shape `name[sub]` that declarations and references arrive in.
 *
 * Two regular expressions of parserUtils.cpp are modelled here:
 * - `.*\[([1-9][0-9]*)\]` in `varDecl`, which accepts an array declarator;
 * - `.*\[(.*)\]` in `extractArrayInfo`, whose group is the subscript.
 * With a greedy leading `.*` the group starts after the LAST `[` that
 * precedes the final `]`; the stored name is always the text before the
 * FIRST `[`. The regex `.` is modelled as matching every character.
 */
module Declarators {
  import opened Wrappers
  import opened Errors
  import opened Decimal

  function FirstIndexOf(s: string, ch: char): (i: nat)
    requires ch in s
    ensures i < |s| && s[i] == ch && ch !in s[..i]
  {
    if s[0] == ch then 0 else 1 + FirstIndexOf(s[1..], ch)
  }

  function LastIndexOf(s: string, ch: char): (i: nat)
    requires ch in s
    ensures i < |s| && s[i] == ch && ch !in s[i + 1..]
  {
    if s[|s| - 1] == ch then |s| - 1 else LastIndexOf(s[..|s| - 1], ch)
  }

  /** `isArray`: the text contains a `[`. */
  predicate IsArray(s: string)
  {
    '[' in s
  }

  /** The text before the first `[` (all of it when there is none). */
  function BaseName(s: string): (b: string)
    ensures b <= s && '[' !in b
    ensures IsArray(s) ==> s[|b|] == '['
    ensures !IsArray(s) ==> b == s
  {
    if IsArray(s) then s[..FirstIndexOf(s, '[')] else s
  }

  /**
   * The capture group of `.*\[(.*)\]` under a whole-string match, or `None`
   * when the text does not match.
   */
  function BracketGroup(s: string): (r: Option<string>)
    ensures r.None? <==> !(|s| >= 2 && s[|s| - 1] == ']' && '[' in s[..|s| - 1])
    ensures r.Some? ==> '[' !in r.value && |r.value| + 2 <= |s|
    ensures r.Some? ==> s == s[..|s| - |r.value| - 2] + "[" + r.value + "]"
  {
    if |s| >= 2 && s[|s| - 1] == ']' && '[' in s[..|s| - 1] then
      var p := LastIndexOf(s[..|s| - 1], '[');
      assert s == s[..p] + "[" + s[p + 1..|s| - 1] + "]";
      Some(s[p + 1..|s| - 1])
    else
      None
  }

  /** Splitting off a final `[g]` with no `[` inside `g` finds exactly `g`. */
  lemma BracketGroupOfSuffix(x: string, g: string)
    requires '[' !in g
    ensures BracketGroup(x + "[" + g + "]") == Some(g)
  {
    var s := x + "[" + g + "]";
    assert s[..|s| - 1] == x + "[" + g;
    assert s[|x|] == '[';
    var p := LastIndexOf(s[..|s| - 1], '[');
    assert s[..|s| - 1][|x| + 1..] == g;
  }

  /** `[1-9][0-9]*`: a positive decimal without a leading zero. */
  predicate IsPositiveDecimal(g: string)
  {
    |g| > 0 && AllDigits(g) && g[0] != '0'
  }

  /** Whole-string match of `.*\[([1-9][0-9]*)\]`, stated over every split. */
  ghost predicate DeclRegexMatches(s: string)
  {
    exists x, g :: s == x + "[" + g + "]" && IsPositiveDecimal(g)
  }

  lemma DeclRegexByGroup(s: string)
    ensures DeclRegexMatches(s) <==>
      BracketGroup(s).Some? && IsPositiveDecimal(BracketGroup(s).value)
  {
    if DeclRegexMatches(s) {
      var x, g :| s == x + "[" + g + "]" && IsPositiveDecimal(g);
      assert '[' !in g by {
        assert forall i :: 0 <= i < |g| ==> IsDigit(g[i]);
      }
      BracketGroupOfSuffix(x, g);
    }
    if BracketGroup(s).Some? && IsPositiveDecimal(BracketGroup(s).value) {
      var g := BracketGroup(s).value;
      assert s == s[..|s| - |g| - 2] + "[" + g + "]";
    }
  }

  /**
   * The declarator check of `varDecl`: a plain name is one word; a text
   * with a `[` must match `.*\[([1-9][0-9]*)\]`, and then names an array
   * of that many words called by the text before the first `[`.
   */
  function ParseDeclarator(d: string): (r: Result<(string, nat), Error>)
    ensures r.Ok? <==> !IsArray(d) || DeclRegexMatches(d)
    ensures r.Err? ==> r.error == InvalidArrayDeclaration
    ensures r.Ok? ==> r.value.0 == BaseName(d) && r.value.1 >= 1
    ensures r.Ok? && !IsArray(d) ==> r.value == (d, 1)
  {
    DeclRegexByGroup(d);
    if !IsArray(d) then Ok((d, 1))
    else
      match BracketGroup(d)
      case Some(g) =>
        if IsPositiveDecimal(g) then
          LeadingDigitBound(g);
          Ok((BaseName(d), DigitsValue(g)))
        else Err(InvalidArrayDeclaration)
      case None => Err(InvalidArrayDeclaration)
  }

  /** Writing `base[n]` and parsing it back yields `base` and `n`. */
  lemma DeclaratorRoundTrip(base: string, n: nat)
    requires '[' !in base && n >= 1
    ensures ParseDeclarator(base + "[" + NatToString(n) + "]") == Ok((base, n))
  {
    var g := NatToString(n);
    var d := base + "[" + g + "]";
    assert '[' !in g by {
      assert forall i :: 0 <= i < |g| ==> IsDigit(g[i]);
    }
    BracketGroupOfSuffix(base, g);
    NatToStringValue(n);
    BaseNameOfSuffixed(base, g);
  }

  /**
   * Conversely, every accepted array declarator ends in `[n]` with `n`
   * written canonically: `a[007]` and `a[0]` are refused.
   */
  lemma DeclaratorShape(d: string)
    requires IsArray(d) && ParseDeclarator(d).Ok?
    ensures var g := NatToString(ParseDeclarator(d).value.1);
      |g| + 2 <= |d| && d == d[..|d| - |g| - 2] + "[" + g + "]"
  {
    DeclRegexByGroup(d);
    var g := BracketGroup(d).value;
    assert ParseDeclarator(d).value.1 == DigitsValue(g);
    CanonicalRoundTrip(g);
  }

  // ---------------------------------------------------------------------
  // References: `x`, `x[k]`, `x[id]`
  // ---------------------------------------------------------------------

  /** How a reference is subscripted. */
  datatype Subscript = Plain | Literal(k: int) | Ident(id: string)

  /**
   * `extractArrayInfo` exactly as written: the stripped name, the index
   * (`-1` doubling as "the subscript is an identifier") and the identifier.
   * A text that does not match `.*\[(.*)\]` keeps its name and index 0.
   */
  function ExtractArrayInfoAsWritten(name: string): (r: (string, int, string))
    ensures !IsArray(name) ==> r == (name, 0, "")
    ensures IsArray(name) && BracketGroup(name).None? ==> r == (name, 0, "")
    ensures IsArray(name) && BracketGroup(name).Some? ==> r.0 == BaseName(name)
    ensures IsArray(name) && BracketGroup(name).Some? && Stoi(BracketGroup(name).value).Some?
      ==> r.1 == Stoi(BracketGroup(name).value).value
    ensures IsArray(name) && BracketGroup(name).Some? && Stoi(BracketGroup(name).value).None?
      ==> r.1 == -1 && r.2 == BracketGroup(name).value
    ensures r.1 != -1 ==> r.2 == ""
  {
    if !IsArray(name) then (name, 0, "")
    else
      match BracketGroup(name)
      case None => (name, 0, "")
      case Some(g) =>
        match Stoi(g)
        case Some(k) => (BaseName(name), k, "")
        case None => (BaseName(name), -1, g)
  }

  /** How `createExpRecForSymbol` reads the index/identifier pair it receives. */
  function ClassifyAsWritten(index: int, idIndex: string): Subscript
  {
    if index == -1 then Ident(idIndex) else Literal(index)
  }

  /**
   * The subscript reading with the sentinel removed: a number that `stoi`
   * accepts is a literal subscript, whatever its value.
   */
  function ParseReference(name: string): (r: (string, Subscript))
    ensures !IsArray(name) ==> r == (name, Plain)
    ensures IsArray(name) && BracketGroup(name).None? ==> r == (name, Plain)
    ensures IsArray(name) && BracketGroup(name).Some? ==> !r.1.Plain?
    ensures r.1.Ident? ==> BracketGroup(name) == Some(r.1.id) && Stoi(r.1.id).None? && r.0 == BaseName(name)
    ensures r.1.Literal? ==> BracketGroup(name).Some? && Stoi(BracketGroup(name).value) == Some(r.1.k) && r.0 == BaseName(name)
  {
    if !IsArray(name) then (name, Plain)
    else
      match BracketGroup(name)
      case None => (name, Plain)
      case Some(g) =>
        match Stoi(g)
        case Some(k) => (BaseName(name), Literal(k))
        case None => (BaseName(name), Ident(g))
  }

  lemma BaseNameOfSuffixed(base: string, g: string)
    requires '[' !in base
    ensures BaseName(base + "[" + g + "]") == base
  {
    var d := base + "[" + g + "]";
    assert d[..|base|] == base;
    assert d[|base|] == '[';
  }

  /** `base[k]` with `k` written by `to_string` is read as the literal `k`, for every `k`. */
  lemma LiteralSubscriptRoundTrip(base: string, k: int)
    requires '[' !in base
    ensures ParseReference(base + "[" + IntToString(k) + "]") == (base, Literal(k))
  {
    var g := IntToString(k);
    assert '[' !in g by {
      var m := NatToString(if k < 0 then -k else k);
      assert forall i :: 0 <= i < |m| ==> IsDigit(m[i]);
    }
    BracketGroupOfSuffix(base, g);
    BaseNameOfSuffixed(base, g);
    StoiIntToString(k);
  }

  /** `base[id]` with a non-numeric, bracket-free `id` is read as that identifier. */
  lemma IdentSubscriptRoundTrip(base: string, id: string)
    requires '[' !in base && '[' !in id && Stoi(id).None?
    ensures ParseReference(base + "[" + id + "]") == (base, Ident(id))
  {
    BracketGroupOfSuffix(base, id);
    BaseNameOfSuffixed(base, id);
  }

  /** As written and corrected agree on everything except a literal `-1`. */
  lemma AsWrittenAgreesExceptMinusOne(name: string)
    requires IsArray(name) && BracketGroup(name).Some?
    requires Stoi(BracketGroup(name).value) != Some(-1)
    ensures var (n, index, id) := ExtractArrayInfoAsWritten(name);
      (n, ClassifyAsWritten(index, id)) == ParseReference(name)
  {
  }

  /** The sentinel clash: `a[-1]` is read as the identifier subscript "". */
  lemma MinusOneSubscriptMisread()
    ensures ExtractArrayInfoAsWritten("a[-1]") == ("a", -1, "")
    ensures ClassifyAsWritten(-1, "") == Ident("")
    ensures ParseReference("a[-1]") == ("a", Literal(-1))
  {
    assert NatToString(1) == "1";
    assert IntToString(-1) == "-1";
    StoiIntToString(-1);
    assert "a[-1]" == "a" + "[" + "-1" + "]";
    BracketGroupOfSuffix("a", "-1");
    BaseNameOfSuffixed("a", "-1");
  }
}
