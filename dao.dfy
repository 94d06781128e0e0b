/**
 * The `cached_pokemon` table behind `PokemonDao`: rows keyed by their
 * primary key `id`, with the eight declared queries as operations on it.
 */
module PokemonDao {
  import opened Wrappers
  import opened CachedRecords

  /** Every row is stored under its own primary key. */
  ghost predicate KeyedById(rows: map<int, CachedPokemon>) {
    forall k :: k in rows ==> rows[k].id == k
  }

  /** `@Insert(onConflict = REPLACE)` of a list: each entry replaces the row with its id, in list order. */
  function InsertAll(rows: map<int, CachedPokemon>, cs: seq<CachedPokemon>): map<int, CachedPokemon>
    decreases |cs|
  {
    if cs == [] then rows else InsertAll(rows[cs[0].id := cs[0]], cs[1..])
  }

  /** The ids a list of rows carries. */
  function Ids(cs: seq<CachedPokemon>): set<int> {
    set i | 0 <= i < |cs| :: cs[i].id
  }

  /** Entry `i` is the last one of the list with its id. */
  predicate IsLastWithId(cs: seq<CachedPokemon>, i: int) {
    0 <= i < |cs| && forall j :: i < j < |cs| ==> cs[j].id != cs[i].id
  }

  /**
   * Bulk upsert keeps the primary-key invariant, stores exactly the old ids
   * plus the listed ones, leaves rows with unlisted ids untouched, and for a
   * repeated id the last entry wins.
   */
  lemma {:induction false} InsertAllSpec(rows: map<int, CachedPokemon>, cs: seq<CachedPokemon>)
    ensures var r := InsertAll(rows, cs);
      && (KeyedById(rows) ==> KeyedById(r))
      && r.Keys == rows.Keys + Ids(cs)
      && (forall k :: k in rows && k !in Ids(cs) ==> r[k] == rows[k])
      && (forall i :: IsLastWithId(cs, i) ==> r[cs[i].id] == cs[i])
    decreases |cs|
  {
    if cs != [] {
      var next := rows[cs[0].id := cs[0]];
      InsertAllSpec(next, cs[1..]);
      assert Ids(cs) == {cs[0].id} + Ids(cs[1..]) by {
        forall x | x in Ids(cs) ensures x in {cs[0].id} + Ids(cs[1..]) {
          var i :| 0 <= i < |cs| && cs[i].id == x;
          if i > 0 { assert cs[1..][i - 1].id == x; }
        }
      }
      var r := InsertAll(rows, cs);
      forall i | IsLastWithId(cs, i) ensures r[cs[i].id] == cs[i] {
        if i > 0 {
          assert IsLastWithId(cs[1..], i - 1);
        } else {
          assert cs[0].id !in Ids(cs[1..]);
        }
      }
    }
  }

  /** Upserting the same list again changes nothing: the rows and so the id set stay as they are. */
  lemma InsertAllIdempotent(rows: map<int, CachedPokemon>, cs: seq<CachedPokemon>)
    ensures InsertAll(InsertAll(rows, cs), cs) == InsertAll(rows, cs)
  {
    var once := InsertAll(rows, cs);
    var twice := InsertAll(once, cs);
    InsertAllSpec(rows, cs);
    InsertAllSpec(once, cs);
    forall k | k in twice ensures twice[k] == once[k] {
      if k in Ids(cs) {
        var i := LastWithId(cs, k);
      }
    }
  }

  /** The index of the last entry carrying a listed id. */
  lemma {:induction false} LastWithId(cs: seq<CachedPokemon>, k: int) returns (i: nat)
    requires k in Ids(cs)
    ensures IsLastWithId(cs, i) && cs[i].id == k
  {
    var n := |cs| - 1;
    if cs[n].id == k {
      i := n;
    } else {
      var p := cs[..n];
      assert k in Ids(p) by {
        var j :| 0 <= j < |cs| && cs[j].id == k;
        assert p[j].id == k;
      }
      i := LastWithId(p, k);
      assert cs[i] == p[i];
    }
  }

  // ----- SELECT * ... ORDER BY id ASC -----

  /** Some element of a non-empty set. */
  ghost function Pick<T>(s: set<T>): (x: T)
    requires s != {}
    ensures x in s
  {
    var x :| x in s; x
  }

  lemma {:induction false} MinKeyExists(keys: set<int>)
    requires keys != {}
    ensures exists k :: k in keys && forall j :: j in keys ==> k <= j
    decreases |keys|
  {
    var x := Pick(keys);
    if keys != {x} {
      MinKeyExists(keys - {x});
      var m :| m in keys - {x} && forall j :: j in keys - {x} ==> m <= j;
      var least := if x < m then x else m;
      forall j | j in keys ensures least <= j {
        if j != x { assert j in keys - {x}; }
      }
    }
  }

  ghost function MinKey(keys: set<int>): (k: int)
    requires keys != {}
    ensures k in keys && forall j :: j in keys ==> k <= j
  {
    MinKeyExists(keys);
    var k :| k in keys && forall j :: j in keys ==> k <= j; k
  }

  /** The rows in ascending id order: the result of `getAllPokemon()`. */
  ghost function Listing(rows: map<int, CachedPokemon>): seq<CachedPokemon>
    decreases |rows|
  {
    if rows == map[] then []
    else
      var k := MinKey(rows.Keys);
      assert |rows - {k}| < |rows| by { assert (rows - {k}).Keys == rows.Keys - {k}; }
      [rows[k]] + Listing(rows - {k})
  }

  /** `list` holds every row of `rows` exactly once, in strictly ascending id order. */
  ghost predicate ListsInIdOrder(rows: map<int, CachedPokemon>, list: seq<CachedPokemon>) {
    && |list| == |rows|
    && (forall i :: 0 <= i < |list| ==> list[i].id in rows && rows[list[i].id] == list[i])
    && (forall i, j :: 0 <= i < j < |list| ==> list[i].id < list[j].id)
    && (forall k :: k in rows ==> exists i :: 0 <= i < |list| && list[i].id == k)
  }

  /** One unfolding of `Listing`: the row with the least id, then the listing of the others. */
  lemma ListingUnfold(rows: map<int, CachedPokemon>) returns (k: int, rest: map<int, CachedPokemon>)
    requires rows != map[]
    ensures k == MinKey(rows.Keys) && rest == rows - {k}
    ensures rest.Keys == rows.Keys - {k} && |rest| == |rows| - 1
    ensures Listing(rows) == [rows[k]] + Listing(rest)
  {
    k := MinKey(rows.Keys);
    rest := rows - {k};
    assert rest.Keys == rows.Keys - {k};
  }

  lemma {:induction false} ListingLength(rows: map<int, CachedPokemon>)
    ensures |Listing(rows)| == |rows|
    decreases |rows|
  {
    if rows != map[] {
      var k, rest := ListingUnfold(rows);
      ListingLength(rest);
    }
  }

  lemma {:induction false} ListingRows(rows: map<int, CachedPokemon>)
    requires KeyedById(rows)
    ensures forall i :: 0 <= i < |Listing(rows)| ==> Listing(rows)[i].id in rows && rows[Listing(rows)[i].id] == Listing(rows)[i]
    decreases |rows|
  {
    if rows != map[] {
      var k, rest := ListingUnfold(rows);
      ListingRows(rest);
      var l, tail := Listing(rows), Listing(rest);
      forall i | 0 <= i < |l| ensures l[i].id in rows && rows[l[i].id] == l[i] {
        if i > 0 { assert l[i] == tail[i - 1]; }
      }
    }
  }

  lemma {:induction false} ListingAscending(rows: map<int, CachedPokemon>)
    requires KeyedById(rows)
    ensures forall i, j :: 0 <= i < j < |Listing(rows)| ==> Listing(rows)[i].id < Listing(rows)[j].id
    decreases |rows|
  {
    if rows != map[] {
      var k, rest := ListingUnfold(rows);
      ListingAscending(rest);
      ListingRows(rest);
      var l, tail := Listing(rows), Listing(rest);
      forall i, j | 0 <= i < j < |l| ensures l[i].id < l[j].id {
        assert l[j] == tail[j - 1] && l[j].id in rest;
        if i > 0 { assert l[i] == tail[i - 1]; }
      }
    }
  }

  lemma {:induction false} ListingCovers(rows: map<int, CachedPokemon>)
    requires KeyedById(rows)
    ensures forall m :: m in rows ==> exists i :: 0 <= i < |Listing(rows)| && Listing(rows)[i].id == m
    decreases |rows|
  {
    if rows != map[] {
      var k, rest := ListingUnfold(rows);
      ListingCovers(rest);
      var l, tail := Listing(rows), Listing(rest);
      forall m | m in rows ensures exists i :: 0 <= i < |l| && l[i].id == m {
        if m == k {
          assert l[0].id == m;
        } else {
          assert m in rest;
          var i :| 0 <= i < |tail| && tail[i].id == m;
          assert l[i + 1].id == m;
        }
      }
    }
  }

  /** The listing is every row once, ordered by ascending id. */
  lemma ListingSpec(rows: map<int, CachedPokemon>)
    requires KeyedById(rows)
    ensures ListsInIdOrder(rows, Listing(rows))
  {
    ListingLength(rows);
    ListingRows(rows);
    ListingAscending(rows);
    ListingCovers(rows);
  }

  // ----- SELECT MAX(lastFetchedAt) -----

  /** `t` is the largest `lastFetchedAt` of the rows. */
  ghost predicate IsMaxFetch(rows: map<int, CachedPokemon>, t: int) {
    && (exists k :: k in rows && rows[k].lastFetchedAt == t)
    && (forall k :: k in rows ==> rows[k].lastFetchedAt <= t)
  }

  ghost function MaxFetched(rows: map<int, CachedPokemon>): (t: int)
    requires rows != map[]
    ensures IsMaxFetch(rows, t)
    decreases |rows|
  {
    var k := Pick(rows.Keys);
    var rest := rows - {k};
    assert rest.Keys == rows.Keys - {k};
    assert forall j :: j in rows ==> j == k || j in rest;
    if rest == map[] then rows[k].lastFetchedAt
    else
      var m := MaxFetched(rest);
      var j :| j in rest && rest[j].lastFetchedAt == m;
      assert rows[j] == rest[j];
      if rows[k].lastFetchedAt > m then rows[k].lastFetchedAt else m
  }

  lemma MaxFetchUnique(rows: map<int, CachedPokemon>, t: int)
    requires rows != map[] && IsMaxFetch(rows, t)
    ensures t == MaxFetched(rows)
  {
  }

  // ----- The table -----

  class PokemonTable {
    var rows: map<int, CachedPokemon>

    ghost predicate Valid()
      reads this
    {
      KeyedById(rows)
    }

    constructor ()
      ensures Valid() && rows == map[]
    {
      rows := map[];
    }

    /** `getAllPokemon()`, as one snapshot of its feed. */
    method GetAllPokemon() returns (list: seq<CachedPokemon>)
      requires Valid()
      ensures list == Listing(rows)
      ensures ListsInIdOrder(rows, list)
    {
      list := [];
      var rest := rows;
      while rest != map[]
        invariant list + Listing(rest) == Listing(rows)
        decreases |rest|
      {
        MinKeyExists(rest.Keys);
        var k :| k in rest && forall j :: j in rest ==> k <= j;
        assert k == MinKey(rest.Keys);
        assert (rest - {k}).Keys == rest.Keys - {k};
        list := list + [rest[k]];
        rest := rest - {k};
      }
      ListingSpec(rows);
    }

    /** `getPokemonById(id)`: the row with that id, or null. */
    method GetPokemonById(id: int) returns (row: Option<CachedPokemon>)
      requires Valid()
      ensures row.Some? <==> id in rows
      ensures row.Some? ==> row.value == rows[id] && row.value.id == id
    {
      row := if id in rows then Some(rows[id]) else None;
    }

    /** `insertPokemon(row)` with REPLACE. */
    method InsertPokemon(row: CachedPokemon)
      requires Valid()
      modifies this
      ensures Valid()
      ensures rows == old(rows)[row.id := row]
    {
      rows := rows[row.id := row];
    }

    /** `insertAllPokemon(list)` with REPLACE: the entries one after another. */
    method InsertAllPokemon(list: seq<CachedPokemon>)
      requires Valid()
      modifies this
      ensures Valid()
      ensures rows == InsertAll(old(rows), list)
    {
      var i := 0;
      while i < |list|
        invariant 0 <= i <= |list|
        invariant Valid()
        invariant InsertAll(rows, list[i..]) == InsertAll(old(rows), list)
      {
        assert list[i..][1..] == list[i + 1..];
        InsertPokemon(list[i]);
        i := i + 1;
      }
    }

    /** `deleteAllPokemon()`. */
    method DeleteAllPokemon()
      modifies this
      ensures Valid() && rows == map[]
    {
      rows := map[];
    }

    /** `getPokemonCount()`: the number of stored ids. */
    method GetPokemonCount() returns (n: int)
      ensures n == |rows.Keys|
    {
      n := |rows|;
    }

    /** `getLastFetchTime()`: null for an empty table, else the largest stamp. */
    method GetLastFetchTime() returns (t: Option<int>)
      ensures t.None? <==> rows == map[]
      ensures t.Some? ==> IsMaxFetch(rows, t.value) && t.value == MaxFetched(rows)
    {
      t := None;
      var rest := rows;
      while rest != map[]
        invariant rest.Keys <= rows.Keys
        invariant forall k :: k in rest ==> rest[k] == rows[k]
        invariant t.None? <==> rest == rows
        invariant t.Some? ==> exists k :: k in rows && k !in rest && rows[k].lastFetchedAt == t.value
        invariant t.Some? ==> forall k :: k in rows && k !in rest ==> rows[k].lastFetchedAt <= t.value
        decreases |rest|
      {
        ghost var some := Pick(rest.Keys);
        var k :| k in rest.Keys;
        var stamp := rest[k].lastFetchedAt;
        if t.None? || stamp > t.value {
          t := Some(stamp);
        }
        assert (rest - {k}).Keys == rest.Keys - {k};
        rest := rest - {k};
      }
      if t.Some? {
        MaxFetchUnique(rows, t.value);
      }
    }
  }
}
