/**
 * The scoped symbol table: a list of active scopes, innermost last, a list
 * of retired scopes, and one counter shared by temporary and string-label
 * names. All operations that touch the innermost scope require an active
 * scope, because the source calls `back()` on the list without a check.
 */
module SymbolTable {
  import opened Wrappers
  import opened Errors
  import opened Decimal
  import opened Symbols

  datatype Table = Table(active: seq<Scope>, retired: seq<Scope>, counter: nat)

  /** The table as constructed: no scope yet, counter at 0. */
  const Empty: Table := Table([], [], 0)

  predicate HasScope(t: Table)
  {
    |t.active| > 0
  }

  function Innermost(t: Table): Scope
    requires HasScope(t)
  {
    t.active[|t.active| - 1]
  }

  /** Every scope, active or retired, files each entry under its own name. */
  ghost predicate WellFormed(t: Table)
  {
    && (forall i :: 0 <= i < |t.active| ==> Keyed(t.active[i]))
    && (forall i :: 0 <= i < |t.retired| ==> Keyed(t.retired[i]))
  }

  // ---------------------------------------------------------------------
  // Scopes
  // ---------------------------------------------------------------------

  /** `enterNewScope`: push one empty scope. */
  function EnterNewScope(t: Table): (t': Table)
    ensures |t'.active| == |t.active| + 1 && t'.active[..|t.active|] == t.active
    ensures Innermost(t') == map[]
    ensures t'.retired == t.retired && t'.counter == t.counter
  {
    t.(active := t.active + [map[]])
  }

  /** `leaveScope`: the innermost scope moves, unchanged, to the retired list. */
  function LeaveScope(t: Table): (t': Table)
    requires HasScope(t)
    ensures |t'.active| == |t.active| - 1 && t'.active == t.active[..|t.active| - 1]
    ensures t'.retired == t.retired + [Innermost(t)]
    ensures |t'.active| + |t'.retired| == |t.active| + |t.retired|
    ensures t'.counter == t.counter
  {
    Table(t.active[..|t.active| - 1], t.retired + [Innermost(t)], t.counter)
  }

  /** `insert`: only the innermost scope changes, and an existing name wins. */
  function Insert(t: Table, s: Symbol): (t': Table)
    requires HasScope(t)
    ensures |t'.active| == |t.active| && t'.active[..|t.active| - 1] == t.active[..|t.active| - 1]
    ensures Innermost(t') == ScopeInsert(Innermost(t), s)
    ensures s.name in Innermost(t) ==> t' == t
    ensures t'.retired == t.retired && t'.counter == t.counter
  {
    t.(active := t.active[..|t.active| - 1] + [ScopeInsert(Innermost(t), s)])
  }

  // ---------------------------------------------------------------------
  // Lookups
  // ---------------------------------------------------------------------

  /** `find`: the innermost scope only. */
  function Find(t: Table, name: string): (r: Option<Symbol>)
    requires HasScope(t)
    ensures r.Some? <==> name in Innermost(t)
    ensures r.Some? ==> r.value == Innermost(t)[name]
  {
    ScopeFind(Innermost(t), name)
  }

  /**
   * The search of `findAll` over the first `n` scopes, from scope `n - 1`
   * back: the entry of the innermost of them holding the name.
   */
  function FindIn(scopes: seq<Scope>, n: nat, name: string): (r: Option<Symbol>)
    requires n <= |scopes|
    ensures r.None? <==> forall i :: 0 <= i < n ==> name !in scopes[i]
    ensures r.Some? ==> exists i :: 0 <= i < n && name in scopes[i] && r.value == scopes[i][name] &&
                                    forall j :: i < j < n ==> name !in scopes[j]
  {
    if n == 0 then None
    else if name in scopes[n - 1] then Some(scopes[n - 1][name])
    else FindIn(scopes, n - 1, name)
  }

  /** `findAll`: innermost-first search through every active scope. */
  function FindAll(t: Table, name: string): Option<Symbol>
  {
    FindIn(t.active, |t.active|, name)
  }

  /** The loop of `findAll`, walking the active list with a reverse iterator. */
  method FindAllScan(t: Table, name: string) returns (r: Option<Symbol>)
    ensures r == FindAll(t, name)
  {
    var i := |t.active|;
    while i > 0
      invariant 0 <= i <= |t.active|
      invariant FindIn(t.active, i, name) == FindAll(t, name)
    {
      if name in t.active[i - 1] {
        return Some(t.active[i - 1][name]);
      }
      i := i - 1;
    }
    return None;
  }

  /**
   * `lookup`: `find`, then `findAll`; a miss in every active scope is the
   * "symbol not found" error.
   */
  function Lookup(t: Table, name: string): (r: Result<Symbol, Error>)
    requires HasScope(t)
    ensures r.Ok? <==> exists i :: 0 <= i < |t.active| && name in t.active[i]
    ensures r.Ok? ==> FindAll(t, name) == Some(r.value)
    ensures r.Err? ==> r.error == SymbolNotFound
    ensures r == if FindAll(t, name).Some? then Ok(FindAll(t, name).value) else Err(SymbolNotFound)
  {
    match Find(t, name)
    case Some(s) =>
      assert t.active[|t.active| - 1] == Innermost(t);
      Ok(s)
    case None =>
      match FindAll(t, name)
      case Some(s) => Ok(s)
      case None => Err(SymbolNotFound)
  }

  /** A hit in the innermost scope is what `findAll` returns too. */
  lemma FindAgreesWithFindAll(t: Table, name: string)
    requires HasScope(t) && Find(t, name).Some?
    ensures FindAll(t, name) == Find(t, name)
  {
  }

  /** A name declared only in an outer scope is invisible to `find` but not to `findAll`. */
  lemma FindIgnoresOuterScopes(t: Table, name: string, i: nat)
    requires HasScope(t) && i < |t.active| - 1 && name in t.active[i]
    requires name !in Innermost(t)
    ensures Find(t, name).None?
    ensures FindAll(t, name).Some? && Lookup(t, name).Ok?
  {
  }

  // ---------------------------------------------------------------------
  // Generated names
  // ---------------------------------------------------------------------

  datatype NameKind = TempName | StringLabel

  /** `t#n` for temporaries, `str_n` for string labels. */
  function GenName(kind: NameKind, n: nat): string
  {
    match kind
    case TempName => "t#" + NatToString(n)
    case StringLabel => "str_" + NatToString(n)
  }

  /** Two generated names are equal only for the same kind and counter value. */
  lemma GenNameInjective(k1: NameKind, n1: nat, k2: NameKind, n2: nat)
    ensures GenName(k1, n1) == GenName(k2, n2) <==> k1 == k2 && n1 == n2
  {
    if GenName(k1, n1) == GenName(k2, n2) {
      assert GenName(k1, n1)[0] == GenName(k2, n2)[0];
      if k1 == TempName && k2 == TempName {
        assert GenName(k1, n1)[2..] == NatToString(n1);
        assert GenName(k2, n2)[2..] == NatToString(n2);
      } else if k1 == StringLabel && k2 == StringLabel {
        assert GenName(k1, n1)[4..] == NatToString(n1);
        assert GenName(k2, n2)[4..] == NatToString(n2);
      }
      NatToStringInjective(n1, n2);
    }
  }

  /** Draws the next generated name of the given kind and bumps the shared counter. */
  function NextName(t: Table, kind: NameKind): (r: (Table, string))
    ensures r.1 == GenName(kind, t.counter)
    ensures r.0 == t.(counter := t.counter + 1)
  {
    (t.(counter := t.counter + 1), GenName(kind, t.counter))
  }

  /**
   * `getTemp`: a temporary named `t#n`, inserted into the innermost scope
   * with the type and location its caller then gives it.
   */
  function GetTemp(t: Table, ty: char, loc: int): (r: (Table, Symbol))
    requires HasScope(t)
    ensures r.1 == Symbol(GenName(TempName, t.counter), ty, loc, 0)
    ensures r.0 == Insert(t.(counter := t.counter + 1), r.1)
  {
    var (t1, name) := NextName(t, TempName);
    var s := Symbol(name, ty, loc, 0);
    (Insert(t1, s), s)
  }

  /** `getStringLabel`: a label named `str_n`, inserted into the innermost scope. */
  function GetStringLabel(t: Table): (r: (Table, Symbol))
    requires HasScope(t)
    ensures r.1 == Symbol(GenName(StringLabel, t.counter), NoType, 0, 0)
    ensures r.0 == Insert(t.(counter := t.counter + 1), r.1)
  {
    var (t1, name) := NextName(t, StringLabel);
    var s := Symbol(name, NoType, 0, 0);
    (Insert(t1, s), s)
  }

  /** No active scope yet holds a name the counter will generate. */
  ghost predicate Fresh(t: Table)
  {
    forall i, k, n: nat :: 0 <= i < |t.active| && t.counter <= n ==> GenName(k, n) !in t.active[i]
  }

  /**
   * On a fresh table the temporary really lands in the innermost scope,
   * `find` returns it, and the table stays fresh.
   */
  lemma GetTempFresh(t: Table, ty: char, loc: int)
    requires HasScope(t) && Fresh(t)
    ensures var (t', s) := GetTemp(t, ty, loc);
      Find(t', s.name) == Some(s) && Fresh(t') && t'.counter == t.counter + 1
  {
    var (t', s) := GetTemp(t, ty, loc);
    assert GenName(TempName, t.counter) !in Innermost(t);
    forall i, k, n: nat | 0 <= i < |t'.active| && t'.counter <= n
      ensures GenName(k, n) !in t'.active[i]
    {
      GenNameInjective(k, n, TempName, t.counter);
      assert t'.active[i] == t.active[i] || t'.active[i] == Innermost(t)[s.name := s];
    }
  }

  /** The same for string labels. */
  lemma GetStringLabelFresh(t: Table)
    requires HasScope(t) && Fresh(t)
    ensures var (t', s) := GetStringLabel(t);
      Find(t', s.name) == Some(s) && Fresh(t') && t'.counter == t.counter + 1
  {
    var (t', s) := GetStringLabel(t);
    assert GenName(StringLabel, t.counter) !in Innermost(t);
    forall i, k, n: nat | 0 <= i < |t'.active| && t'.counter <= n
      ensures GenName(k, n) !in t'.active[i]
    {
      GenNameInjective(k, n, StringLabel, t.counter);
      assert t'.active[i] == t.active[i] || t'.active[i] == Innermost(t)[s.name := s];
    }
  }

  /** One `getTemp` or `getStringLabel` call, reduced to the name it draws. */
  function Draw(t: Table, kind: NameKind): (r: (Table, string))
    requires HasScope(t)
    ensures HasScope(r.0) && |r.0.active| == |t.active|
    ensures r.0.counter == t.counter + 1 && r.1 == GenName(kind, t.counter)
  {
    var (t1, s) := if kind == TempName then GetTemp(t, NoType, 0) else GetStringLabel(t);
    (t1, s.name)
  }

  /** A run of `getTemp` / `getStringLabel` calls, in order. */
  function Generate(t: Table, kinds: seq<NameKind>): (r: (Table, seq<string>))
    requires HasScope(t)
    ensures HasScope(r.0) && |r.0.active| == |t.active|
    decreases |kinds|
  {
    if kinds == [] then (t, [])
    else
      var (t1, name) := Draw(t, kinds[0]);
      var (t2, names) := Generate(t1, kinds[1..]);
      (t2, [name] + names)
  }

  /** The names a run of calls draws, from counter value `n` on, without the table. */
  function GeneratedNames(n: nat, kinds: seq<NameKind>): (names: seq<string>)
    ensures |names| == |kinds|
    decreases |kinds|
  {
    if kinds == [] then [] else [GenName(kinds[0], n)] + GeneratedNames(n + 1, kinds[1..])
  }

  /** A run is its first call followed by the run of the rest. */
  lemma GenerateCons(t: Table, kinds: seq<NameKind>)
    requires HasScope(t) && kinds != []
    ensures Generate(t, kinds).1 == [Draw(t, kinds[0]).1] + Generate(Draw(t, kinds[0]).0, kinds[1..]).1
    ensures Generate(t, kinds).0 == Generate(Draw(t, kinds[0]).0, kinds[1..]).0
  {
  }

  /** A run of N calls draws the names for counter values `counter` … `counter + N - 1` and advances the counter by N. */
  lemma {:induction false} GenerateNames(t: Table, kinds: seq<NameKind>)
    requires HasScope(t)
    ensures Generate(t, kinds).1 == GeneratedNames(t.counter, kinds)
    ensures Generate(t, kinds).0.counter == t.counter + |kinds|
    decreases |kinds|
  {
    if kinds != [] {
      GenerateCons(t, kinds);
      GenerateNames(Draw(t, kinds[0]).0, kinds[1..]);
    }
  }

  /** The i-th name is the one for counter value `n + i`. */
  lemma {:induction false} GeneratedNamesAt(n: nat, kinds: seq<NameKind>, i: nat)
    requires i < |kinds|
    ensures GeneratedNames(n, kinds)[i] == GenName(kinds[i], n + i)
    decreases i
  {
    if i > 0 {
      GeneratedNamesAt(n + 1, kinds[1..], i - 1);
      assert kinds[1..][i - 1] == kinds[i];
    }
  }

  /** The i-th call of a run draws its name with counter value `counter + i`. */
  lemma GenerateAt(t: Table, kinds: seq<NameKind>, i: nat)
    requires HasScope(t) && i < |kinds|
    ensures |Generate(t, kinds).1| == |kinds|
    ensures Generate(t, kinds).1[i] == GenName(kinds[i], t.counter + i)
  {
    GenerateNames(t, kinds);
    GeneratedNamesAt(t.counter, kinds, i);
  }

  /** N calls produce N pairwise distinct names and advance the counter by N. */
  lemma GeneratedNamesDistinct(t: Table, kinds: seq<NameKind>)
    requires HasScope(t)
    ensures |Generate(t, kinds).1| == |kinds|
    ensures Generate(t, kinds).0.counter == t.counter + |kinds|
    ensures forall i, j :: 0 <= i < j < |kinds| ==> Generate(t, kinds).1[i] != Generate(t, kinds).1[j]
  {
    GenerateNames(t, kinds);
    forall i, j | 0 <= i < j < |kinds|
      ensures Generate(t, kinds).1[i] != Generate(t, kinds).1[j]
    {
      GeneratedPairDistinct(t, kinds, i, j);
    }
  }

  lemma GeneratedPairDistinct(t: Table, kinds: seq<NameKind>, i: nat, j: nat)
    requires HasScope(t) && i < j < |kinds|
    ensures |Generate(t, kinds).1| == |kinds|
    ensures Generate(t, kinds).1[i] != Generate(t, kinds).1[j]
  {
    GenerateAt(t, kinds, i);
    GenerateAt(t, kinds, j);
    GenNameInjective(kinds[i], t.counter + i, kinds[j], t.counter + j);
  }

  // ---------------------------------------------------------------------
  // Scoping behaviour
  // ---------------------------------------------------------------------

  /** Entering a scope changes no resolution, and leaving it again restores the active list. */
  lemma EnterThenLeave(t: Table, name: string)
    ensures FindAll(EnterNewScope(t), name) == FindAll(t, name)
    ensures LeaveScope(EnterNewScope(t)) == t.(retired := t.retired + [map[]])
  {
    var t' := EnterNewScope(t);
    assert t'.active[..|t'.active| - 1] == t.active;
  }

  function InsertAll(t: Table, syms: seq<Symbol>): (t': Table)
    requires HasScope(t)
    ensures |t'.active| == |t.active| && t'.active[..|t.active| - 1] == t.active[..|t.active| - 1]
    ensures t'.retired == t.retired
    decreases |syms|
  {
    if syms == [] then t else InsertAll(Insert(t, syms[0]), syms[1..])
  }

  /**
   * A block: whatever is declared inside it, after `leaveScope` every name
   * resolves as before the block; names declared only inside no longer
   * resolve and shadowed outer names resolve again.
   */
  lemma BlockRestoresResolution(t: Table, syms: seq<Symbol>, name: string)
    ensures var inner := InsertAll(EnterNewScope(t), syms);
      && LeaveScope(inner).active == t.active
      && LeaveScope(inner).retired == t.retired + [Innermost(inner)]
      && FindAll(LeaveScope(inner), name) == FindAll(t, name)
  {
  }

  /** While the block is open, a name inserted into it shadows every outer one. */
  lemma InnerShadowsOuter(t: Table, s: Symbol)
    ensures FindAll(Insert(EnterNewScope(t), s), s.name) == Some(s)
    ensures Lookup(Insert(EnterNewScope(t), s), s.name) == Ok(s)
  {
  }

  /** After `insert`, `find` sees the entry (or the older one of that name) and nothing else moved. */
  lemma InsertThenFind(t: Table, s: Symbol, name: string)
    requires HasScope(t)
    ensures Find(Insert(t, s), s.name) == Some(if s.name in Innermost(t) then Innermost(t)[s.name] else s)
    ensures name != s.name ==> Find(Insert(t, s), name) == Find(t, name)
    ensures name != s.name ==> FindAll(Insert(t, s), name) == FindAll(t, name)
  {
    var t' := Insert(t, s);
    if name != s.name {
      assert name in Innermost(t') <==> name in Innermost(t);
      if name !in Innermost(t) {
        assert t'.active[..|t'.active| - 1] == t.active[..|t.active| - 1];
      }
    }
  }

  /** Every table operation keeps each scope filed by name. */
  lemma OperationsKeepWellFormed(t: Table, s: Symbol)
    requires WellFormed(t)
    ensures WellFormed(EnterNewScope(t))
    ensures HasScope(t) ==> WellFormed(LeaveScope(t)) && WellFormed(Insert(t, s))
  {
    if HasScope(t) {
      var t' := Insert(t, s);
      forall i | 0 <= i < |t'.active|
        ensures Keyed(t'.active[i])
      {
        if i < |t.active| - 1 {
          assert t'.active[i] == t.active[..|t.active| - 1][i];
        }
      }
    }
  }
}
