/**
 * The list reducer both list view models apply: keep the entries matching the
 * search query, then stable-sort them by the chosen order.
 */
module ListReducer {
  import opened Text
  import opened PokemonModel
  import opened UiState

  // ----- Filtering -----

  /** `name.contains(query, ignoreCase = true) || id.toString().contains(query)`. */
  predicate Matches(p: Pokemon, query: string) {
    Contains(p.name, query, true) || Contains(IntToDecimal(p.id), query, false)
  }

  /** `filter { Matches(it, query) }`. */
  function KeepMatching(ps: seq<Pokemon>, query: string): seq<Pokemon> {
    if ps == [] then []
    else (if Matches(ps[0], query) then [ps[0]] else []) + KeepMatching(ps[1..], query)
  }

  /** Each entry is kept, as often as it occurs, exactly when it matches. */
  lemma {:induction false} KeepMatchingCounts(ps: seq<Pokemon>, query: string)
    ensures forall x :: multiset(KeepMatching(ps, query))[x] == if Matches(x, query) then multiset(ps)[x] else 0
  {
    if ps != [] {
      KeepMatchingCounts(ps[1..], query);
      assert ps == [ps[0]] + ps[1..];
    }
  }

  /**
   * Filtering distributes over concatenation; with KeepMatchingSingle this
   * determines `filter`, so the kept entries stay in their input order.
   */
  lemma {:induction false} KeepMatchingAppend(a: seq<Pokemon>, b: seq<Pokemon>, query: string)
    ensures KeepMatching(a + b, query) == KeepMatching(a, query) + KeepMatching(b, query)
    decreases |a|
  {
    if a == [] {
      assert a + b == b;
    } else {
      var ab := a + b;
      assert ab[0] == a[0] && ab[1..] == a[1..] + b;
      var h := if Matches(a[0], query) then [a[0]] else [];
      var x, y := KeepMatching(a[1..], query), KeepMatching(b, query);
      KeepMatchingAppend(a[1..], b, query);
      assert KeepMatching(ab, query) == h + (x + y);
      assert KeepMatching(a, query) == h + x;
      assert h + (x + y) == (h + x) + y;
    }
  }

  /** A single entry is kept exactly when it matches, and nothing comes of nothing. */
  lemma KeepMatchingSingle(x: Pokemon, query: string)
    ensures KeepMatching([x], query) == if Matches(x, query) then [x] else []
    ensures KeepMatching([], query) == []
  {
    assert [x][1..] == [];
  }

  /** A blank query passes the list through; any other keeps the matching entries. */
  function FilterPokemon(ps: seq<Pokemon>, query: string): seq<Pokemon> {
    if IsBlank(query) then ps else KeepMatching(ps, query)
  }

  /**
   * Filter soundness and completeness: with a blank query the list is
   * unchanged; otherwise an entry is kept, as often as it occurs, exactly when
   * its name contains the query ignoring case or its decimal id contains it.
   */
  lemma FilterSpec(ps: seq<Pokemon>, query: string)
    ensures IsBlank(query) ==> FilterPokemon(ps, query) == ps
    ensures !IsBlank(query) ==> forall x ::
      multiset(FilterPokemon(ps, query))[x] == if Matches(x, query) then multiset(ps)[x] else 0
    ensures forall x :: x in FilterPokemon(ps, query) <==> x in ps && (IsBlank(query) || Matches(x, query))
  {
    KeepMatchingCounts(ps, query);
    var r := FilterPokemon(ps, query);
    forall x ensures x in r <==> x in ps && (IsBlank(query) || Matches(x, query)) {
      assert x in r <==> multiset(r)[x] > 0;
      assert x in ps <==> multiset(ps)[x] > 0;
    }
  }

  // ----- Sorting -----

  /** The selector of `sortedBy` / `sortedByDescending`. */
  datatype SortKey = IdKey(id: int) | NameKey(name: string)

  function KeyOf(order: SortOrder, p: Pokemon): SortKey {
    if order == ByNumberAsc || order == ByNumberDesc then IdKey(p.id) else NameKey(p.name)
  }

  /** `a` may stand before `b`: its key is not after `b`'s in the order's direction. */
  predicate Before(order: SortOrder, a: Pokemon, b: Pokemon) {
    match order
    case ByNumberAsc => a.id <= b.id
    case ByNumberDesc => a.id >= b.id
    case ByNameAsc => LexLe(a.name, b.name)
    case ByNameDesc => LexLe(b.name, a.name)
  }

  predicate IsSortedBy(order: SortOrder, s: seq<Pokemon>) {
    forall i, j :: 0 <= i < j < |s| ==> Before(order, s[i], s[j])
  }

  lemma BeforeTotal(order: SortOrder, a: Pokemon, b: Pokemon)
    ensures Before(order, a, b) || Before(order, b, a)
  {
    LexLeTotal(a.name, b.name);
  }

  lemma BeforeTransitive(order: SortOrder, a: Pokemon, b: Pokemon, c: Pokemon)
    requires Before(order, a, b) && Before(order, b, c)
    ensures Before(order, a, c)
  {
    if order == ByNameAsc {
      LexLeTransitive(a.name, b.name, c.name);
    } else if order == ByNameDesc {
      LexLeTransitive(c.name, b.name, a.name);
    }
  }

  /** Two entries are mutually Before exactly when their keys are equal. */
  lemma BeforeBothWays(order: SortOrder, a: Pokemon, b: Pokemon)
    ensures Before(order, a, b) && Before(order, b, a) <==> KeyOf(order, a) == KeyOf(order, b)
  {
    LexLeReflexive(a.name);
    if Before(order, a, b) && Before(order, b, a) && order in {ByNameAsc, ByNameDesc} {
      LexLeAntisymmetric(a.name, b.name);
    }
  }

  /** Insert `x` in front of the first element it may precede. */
  function Insert(order: SortOrder, x: Pokemon, t: seq<Pokemon>): seq<Pokemon> {
    if t == [] then [x]
    else if Before(order, x, t[0]) then [x] + t
    else [t[0]] + Insert(order, x, t[1..])
  }

  /** The stable sort of Kotlin's `sortedBy` / `sortedByDescending` for one order. */
  function SortBy(ps: seq<Pokemon>, order: SortOrder): seq<Pokemon> {
    if ps == [] then [] else Insert(order, ps[0], SortBy(ps[1..], order))
  }

  lemma {:induction false} InsertPermutation(order: SortOrder, x: Pokemon, t: seq<Pokemon>)
    ensures multiset(Insert(order, x, t)) == multiset(t) + multiset{x}
  {
    if t != [] && !Before(order, x, t[0]) {
      InsertPermutation(order, x, t[1..]);
      assert t == [t[0]] + t[1..];
    }
  }

  /** An entry that may precede every element of a sorted list can head it. */
  lemma ConsSorted(order: SortOrder, h: Pokemon, s: seq<Pokemon>)
    requires IsSortedBy(order, s)
    requires forall j :: 0 <= j < |s| ==> Before(order, h, s[j])
    ensures IsSortedBy(order, [h] + s)
  {
    var r := [h] + s;
    forall i, j | 0 <= i < j < |r| ensures Before(order, r[i], r[j]) {
      if i == 0 { assert r[j] == s[j - 1]; }
      else { assert r[i] == s[i - 1] && r[j] == s[j - 1]; }
    }
  }

  lemma {:induction false} InsertSorted(order: SortOrder, x: Pokemon, t: seq<Pokemon>)
    requires IsSortedBy(order, t)
    ensures IsSortedBy(order, Insert(order, x, t))
  {
    if t == [] {
    } else if Before(order, x, t[0]) {
      forall j | 0 <= j < |t| ensures Before(order, x, t[j]) {
        if j > 0 { BeforeTransitive(order, x, t[0], t[j]); }
      }
      ConsSorted(order, x, t);
    } else {
      var rest := Insert(order, x, t[1..]);
      InsertSorted(order, x, t[1..]);
      InsertPermutation(order, x, t[1..]);
      BeforeTotal(order, x, t[0]);
      forall j | 0 <= j < |rest| ensures Before(order, t[0], rest[j]) {
        var e := rest[j];
        assert e in multiset(rest);
        if e != x {
          assert e in multiset(t[1..]);
          var k :| 0 <= k < |t[1..]| && t[1..][k] == e;
          assert t[k + 1] == e;
        }
      }
      ConsSorted(order, t[0], rest);
    }
  }

  /** `SortBy` adds and drops nothing: the result is a permutation of the input. */
  lemma {:induction false} SortByPermutation(ps: seq<Pokemon>, order: SortOrder)
    ensures multiset(SortBy(ps, order)) == multiset(ps)
  {
    if ps != [] {
      SortByPermutation(ps[1..], order);
      InsertPermutation(order, ps[0], SortBy(ps[1..], order));
      assert ps == [ps[0]] + ps[1..];
    }
  }

  /**
   * `SortBy` orders by the chosen key: ids non-decreasing for ByNumberAsc,
   * non-increasing for ByNumberDesc, names in lexicographic order for
   * ByNameAsc and in reverse lexicographic order for ByNameDesc.
   */
  lemma {:induction false} SortBySorted(ps: seq<Pokemon>, order: SortOrder)
    ensures IsSortedBy(order, SortBy(ps, order))
  {
    if ps != [] {
      SortBySorted(ps[1..], order);
      InsertSorted(order, ps[0], SortBy(ps[1..], order));
    }
  }

  // ----- Stability -----

  /** The entries of `s` whose key is `k`, in their order in `s`. */
  function WithKey(order: SortOrder, s: seq<Pokemon>, k: SortKey): seq<Pokemon> {
    if s == [] then []
    else (if KeyOf(order, s[0]) == k then [s[0]] else []) + WithKey(order, s[1..], k)
  }

  lemma WithKeyCons(order: SortOrder, x: Pokemon, s: seq<Pokemon>, k: SortKey)
    ensures WithKey(order, [x] + s, k) == (if KeyOf(order, x) == k then [x] else []) + WithKey(order, s, k)
  {
    assert ([x] + s)[1..] == s;
  }

  lemma {:induction false} WithKeyMember(order: SortOrder, s: seq<Pokemon>, k: SortKey, e: Pokemon)
    requires e in WithKey(order, s, k)
    ensures e in s && KeyOf(order, e) == k
  {
    if s != [] && !(KeyOf(order, s[0]) == k && e == s[0]) {
      WithKeyMember(order, s[1..], k, e);
    }
  }

  lemma {:induction false} InsertStable(order: SortOrder, x: Pokemon, t: seq<Pokemon>, k: SortKey)
    ensures WithKey(order, Insert(order, x, t), k)
         == (if KeyOf(order, x) == k then [x] else []) + WithKey(order, t, k)
  {
    if t == [] {
      WithKeyCons(order, x, [], k);
    } else if Before(order, x, t[0]) {
      WithKeyCons(order, x, t, k);
    } else {
      var rest := Insert(order, x, t[1..]);
      assert Insert(order, x, t) == [t[0]] + rest;
      InsertStable(order, x, t[1..], k);
      WithKeyCons(order, t[0], rest, k);
      WithKeyCons(order, t[0], t[1..], k);
      assert t == [t[0]] + t[1..];
      BeforeBothWays(order, x, t[0]);
      assert !(KeyOf(order, x) == k && KeyOf(order, t[0]) == k);
    }
  }

  /** Sorting is stable: the entries sharing any one key keep their input order. */
  lemma {:induction false} SortByStable(ps: seq<Pokemon>, order: SortOrder, k: SortKey)
    ensures WithKey(order, SortBy(ps, order), k) == WithKey(order, ps, k)
  {
    if ps != [] {
      SortByStable(ps[1..], order, k);
      InsertStable(order, ps[0], SortBy(ps[1..], order), k);
    }
  }

  /**
   * Sortedness and stability determine the result: every stable sort
   * (Kotlin's TimSort among them) returns what SortBy returns.
   */
  lemma {:induction false} StableSortUnique(order: SortOrder, r: seq<Pokemon>, s: seq<Pokemon>)
    requires IsSortedBy(order, r) && IsSortedBy(order, s)
    requires forall k :: WithKey(order, r, k) == WithKey(order, s, k)
    ensures r == s
  {
    if r == [] {
      EmptyByKeys(order, r, s);
    } else if s == [] {
      EmptyByKeys(order, s, r);
    } else {
      SameHead(order, r, s);
      SameTailKeys(order, r, s);
      StableSortUnique(order, r[1..], s[1..]);
      assert r == [r[0]] + r[1..] && s == [s[0]] + s[1..];
    }
  }

  lemma EmptyByKeys(order: SortOrder, r: seq<Pokemon>, s: seq<Pokemon>)
    requires r == [] && forall k :: WithKey(order, r, k) == WithKey(order, s, k)
    ensures s == []
  {
    if s != [] {
      HeadKeyPresent(order, s);
    }
  }

  lemma HeadKeyPresent(order: SortOrder, s: seq<Pokemon>)
    requires s != []
    ensures WithKey(order, s, KeyOf(order, s[0])) != []
  {
  }

  /** Two sorted lists with the same entries per key start with the same entry. */
  lemma SameHead(order: SortOrder, r: seq<Pokemon>, s: seq<Pokemon>)
    requires r != [] && s != []
    requires IsSortedBy(order, r) && IsSortedBy(order, s)
    requires forall k :: WithKey(order, r, k) == WithKey(order, s, k)
    ensures r[0] == s[0]
  {
    var a, b := r[0], s[0];
    var ka, kb := KeyOf(order, a), KeyOf(order, b);
    assert r == [a] + r[1..] && s == [b] + s[1..];
    assert Before(order, a, b) by {
      WithKeyCons(order, b, s[1..], kb);
      assert b in WithKey(order, r, kb);
      WithKeyMember(order, r, kb, b);
      var i :| 0 <= i < |r| && r[i] == b;
      if i == 0 { LexLeReflexive(a.name); }
    }
    assert Before(order, b, a) by {
      WithKeyCons(order, a, r[1..], ka);
      assert a in WithKey(order, s, ka);
      WithKeyMember(order, s, ka, a);
      var j :| 0 <= j < |s| && s[j] == a;
      if j == 0 { LexLeReflexive(b.name); }
    }
    BeforeBothWays(order, a, b);
    WithKeyCons(order, a, r[1..], ka);
    WithKeyCons(order, b, s[1..], ka);
    assert WithKey(order, r, ka)[0] == a;
    assert WithKey(order, s, ka)[0] == b;
  }

  lemma SameTailKeys(order: SortOrder, r: seq<Pokemon>, s: seq<Pokemon>)
    requires r != [] && s != [] && r[0] == s[0]
    requires forall k :: WithKey(order, r, k) == WithKey(order, s, k)
    ensures forall k :: WithKey(order, r[1..], k) == WithKey(order, s[1..], k)
  {
    var a := r[0];
    assert r == [a] + r[1..] && s == [a] + s[1..];
    forall k ensures WithKey(order, r[1..], k) == WithKey(order, s[1..], k) {
      WithKeyCons(order, a, r[1..], k);
      WithKeyCons(order, a, s[1..], k);
      var p := if KeyOf(order, a) == k then [a] else [];
      var x, y := WithKey(order, r[1..], k), WithKey(order, s[1..], k);
      assert p + x == p + y;
      assert (p + x)[|p|..] == x && (p + y)[|p|..] == y;
    }
  }

  // ----- The reducers of the two list view models -----

  /** HomeViewModel's `when (order)`: any string other than the four names means by number ascending. */
  function SortOrderOf(name: string): SortOrder {
    if name == "BY_NUMBER_DESC" then ByNumberDesc
    else if name == "BY_NAME_ASC" then ByNameAsc
    else if name == "BY_NAME_DESC" then ByNameDesc
    else ByNumberAsc
  }

  /** HomeViewModel's `applySorting` on an order given as a string. */
  function ApplySorting(ps: seq<Pokemon>, name: string): seq<Pokemon> {
    SortBy(ps, SortOrderOf(name))
  }

  /** The names select their own order, and every other string selects number ascending. */
  lemma SortOrderOfNames(o: SortOrder, name: string)
    ensures SortOrderOf(SortOrderName(o)) == o
    ensures name !in SortOrderNames ==> SortOrderOf(name) == ByNumberAsc
  {
  }

  /** The combined filter and sort behind the displayed list. */
  function Reduce(cached: seq<Pokemon>, query: string, order: SortOrder): seq<Pokemon> {
    SortBy(FilterPokemon(cached, query), order)
  }

  /**
   * The displayed list is sorted by the order, stable, and holds exactly the
   * filtered entries, each as often as in the input.
   */
  lemma ReduceSpec(cached: seq<Pokemon>, query: string, order: SortOrder)
    ensures var r := Reduce(cached, query, order);
      && IsSortedBy(order, r)
      && multiset(r) == multiset(FilterPokemon(cached, query))
      && (forall k :: WithKey(order, r, k) == WithKey(order, FilterPokemon(cached, query), k))
      && (forall x :: x in r <==> x in cached && (IsBlank(query) || Matches(x, query)))
  {
    var f := FilterPokemon(cached, query);
    var r := Reduce(cached, query, order);
    SortBySorted(f, order);
    SortByPermutation(f, order);
    FilterSpec(cached, query);
    forall k ensures WithKey(order, r, k) == WithKey(order, f, k) {
      SortByStable(f, order, k);
    }
    forall x ensures x in r <==> x in f {
      assert x in r <==> x in multiset(r);
      assert x in f <==> x in multiset(f);
    }
  }
}
