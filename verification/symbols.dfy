/**
 * The symbol-table entry and the hash set of entries that one scope is.
 *
 * A scope of the source is an `unordered_set<Symbol *>` whose hash and
 * equality look only at the name. This module models that set as a list of
 * entries with pairwise different names and proves that it behaves exactly
 * like a `map` from names to entries, which is what the rest of the model
 * uses as `Scope`.
 */
module Symbols {
  import opened Wrappers

  /** A declared variable, array, temporary or string label. */
  datatype Symbol = Symbol(name: string, ty: char, loc: int, size: int)

  /**
   * The value the model gives to a type field the source never sets
   * (temporaries for indirect subscripts, string labels).
   */
  const NoType: char := '\0'

  /** `Symbol::operator==` and `SymbolEqual`: only the names are compared. */
  predicate SymbolEqual(a: Symbol, b: Symbol)
  {
    a.name == b.name
  }

  /** `SymbolHash`: the string hash of the name alone. */
  function SymbolHash(hash: string -> int, s: Symbol): int
  {
    hash(s.name)
  }

  /** Equality ignores type, location and size, and the hash agrees with it. */
  lemma EqualityIsByName(a: Symbol, b: Symbol, hash: string -> int)
    ensures SymbolEqual(a, b) <==> a.name == b.name
    ensures SymbolEqual(a, b) ==> SymbolHash(hash, a) == SymbolHash(hash, b)
    ensures SymbolEqual(a, a.(ty := b.ty, loc := b.loc, size := b.size))
  {
  }

  // ---------------------------------------------------------------------
  // A scope as the source stores it: a set under name equality
  // ---------------------------------------------------------------------

  /** The set invariant: no two elements are equal under `SymbolEqual`. */
  predicate UniqueNames(xs: seq<Symbol>)
  {
    forall i, j :: 0 <= i < j < |xs| ==> xs[i].name != xs[j].name
  }

  /** `unordered_set::find` with a probe of the given name. */
  function SetFind(xs: seq<Symbol>, name: string): (r: Option<Symbol>)
    ensures r.None? <==> forall i :: 0 <= i < |xs| ==> xs[i].name != name
    ensures r.Some? ==> r.value in xs && r.value.name == name
  {
    if xs == [] then None
    else if xs[0].name == name then Some(xs[0])
    else SetFind(xs[1..], name)
  }

  /** `unordered_set::insert`: an element equal to one present is not added. */
  function SetInsert(xs: seq<Symbol>, x: Symbol): seq<Symbol>
  {
    if SetFind(xs, x.name).Some? then xs else xs + [x]
  }

  // ---------------------------------------------------------------------
  // The same scope as a map
  // ---------------------------------------------------------------------

  type Scope = map<string, Symbol>

  /** Every entry is filed under its own name. */
  ghost predicate Keyed(m: Scope)
  {
    forall k :: k in m ==> m[k].name == k
  }

  function ScopeFind(m: Scope, name: string): Option<Symbol>
  {
    if name in m then Some(m[name]) else None
  }

  /** Insertion that keeps an existing entry of the same name. */
  function ScopeInsert(m: Scope, x: Symbol): Scope
  {
    if x.name in m then m else m[x.name := x]
  }

  function AsScope(xs: seq<Symbol>): Scope
  {
    if xs == [] then map[] else AsScope(xs[1..])[xs[0].name := xs[0]]
  }

  /** The map of a set: keyed, and holding exactly the set's names. */
  lemma {:induction false} AsScopeKeys(xs: seq<Symbol>)
    ensures Keyed(AsScope(xs))
    ensures forall n :: n in AsScope(xs) <==> exists i :: 0 <= i < |xs| && xs[i].name == n
  {
    if xs != [] {
      AsScopeKeys(xs[1..]);
      forall n | exists i :: 0 <= i < |xs| && xs[i].name == n
        ensures n in AsScope(xs)
      {
        var i :| 0 <= i < |xs| && xs[i].name == n;
        if i > 0 {
          assert xs[1..][i - 1].name == n;
        }
      }
      forall n | n in AsScope(xs)
        ensures exists i :: 0 <= i < |xs| && xs[i].name == n
      {
        if n != xs[0].name {
          var i :| 0 <= i < |xs[1..]| && xs[1..][i].name == n;
          assert xs[i + 1].name == n;
        }
      }
    }
  }

  /** Finding in the set is finding in its map. */
  lemma {:induction false} FindRefines(xs: seq<Symbol>, name: string)
    requires UniqueNames(xs)
    ensures SetFind(xs, name) == ScopeFind(AsScope(xs), name)
  {
    if xs != [] {
      assert UniqueNames(xs[1..]) by {
        forall i, j | 0 <= i < j < |xs[1..]|
          ensures xs[1..][i].name != xs[1..][j].name
        {
          assert xs[1..][i] == xs[i + 1] && xs[1..][j] == xs[j + 1];
        }
      }
      FindRefines(xs[1..], name);
    }
  }

  /** Inserting into the set keeps it a set and is `ScopeInsert` on its map. */
  lemma InsertRefines(xs: seq<Symbol>, x: Symbol)
    requires UniqueNames(xs)
    ensures UniqueNames(SetInsert(xs, x))
    ensures AsScope(SetInsert(xs, x)) == ScopeInsert(AsScope(xs), x)
  {
    FindRefines(xs, x.name);
    AsScopeKeys(xs);
    if SetFind(xs, x.name).None? {
      AppendAsScope(xs, x);
    }
  }

  lemma {:induction false} AppendAsScope(xs: seq<Symbol>, x: Symbol)
    requires forall i :: 0 <= i < |xs| ==> xs[i].name != x.name
    ensures AsScope(xs + [x]) == AsScope(xs)[x.name := x]
  {
    if xs != [] {
      assert (xs + [x])[1..] == xs[1..] + [x];
      AppendAsScope(xs[1..], x);
    }
  }
}
