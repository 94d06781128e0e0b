/**
 * `PokemonRepository`: the cache-freshness decisions and the store
 * operations the view models use, over one `PokemonTable`.
 */
module Repository {
  import opened Wrappers
  import opened PokemonModel
  import opened CachedRecords
  import opened Mappers
  import opened PokemonDao

  /** The repository's own outcome type. */
  datatype Result<+T> = Success(data: T) | Error(message: string) | Loading

  /** Twenty-four hours in milliseconds. */
  const CacheExpirationTime: int := 24 * 60 * 60 * 1000

  const NoConnectionMessage := "No hay conexión a internet"

  /** `isCacheExpired()` on a table state: no stamp at all, or the newest stamp more than a day old. */
  ghost predicate Expired(rows: map<int, CachedPokemon>, now: int) {
    rows == map[] || now - MaxFetched(rows) > CacheExpirationTime
  }

  /** The `needsRefresh` condition of `refreshCacheIfNeeded`. */
  ghost predicate NeedsRefresh(force: bool, rows: map<int, CachedPokemon>, now: int) {
    force || |rows| == 0 || Expired(rows, now)
  }

  /** An empty table is always expired, so it always needs a refresh. */
  lemma EmptyCacheNeedsRefresh(force: bool, rows: map<int, CachedPokemon>, now: int)
    requires rows == map[]
    ensures Expired(rows, now) && NeedsRefresh(force, rows, now)
  {
  }

  /** A row stamped exactly 24 hours ago is still fresh; one millisecond later it is not. */
  lemma ExpiryBoundary(rows: map<int, CachedPokemon>, now: int)
    requires rows != map[]
    ensures now - MaxFetched(rows) == 86_400_000 ==> !Expired(rows, now)
    ensures now - MaxFetched(rows) == 86_400_001 ==> Expired(rows, now)
  {
  }

  /** Freshness depends on the newest stamp only: a row with a later stamp makes an expired table fresh. */
  lemma FreshRowsUnexpire(rows: map<int, CachedPokemon>, c: CachedPokemon, now: int)
    requires now - c.lastFetchedAt <= CacheExpirationTime
    ensures !Expired(rows[c.id := c], now)
  {
    var r := rows[c.id := c];
    var t := MaxFetched(r);
    assert r[c.id].lastFetchedAt <= t;
  }

  class PokemonRepository {
    const dao: PokemonTable

    ghost predicate Valid()
      reads this, dao
    {
      dao.Valid()
    }

    constructor (dao: PokemonTable)
      requires dao.Valid()
      ensures this.dao == dao && Valid()
    {
      this.dao := dao;
    }

    /** `isCacheEmpty()`: the stored count is zero. */
    method IsCacheEmpty() returns (empty: bool)
      ensures empty <==> dao.rows == map[]
    {
      var n := dao.GetPokemonCount();
      empty := n == 0;
    }

    /** `isCacheExpired()` at wall-clock time `now`. */
    method IsCacheExpired(now: int) returns (expired: bool)
      ensures expired <==> Expired(dao.rows, now)
      ensures dao.rows == map[] ==> expired
      ensures dao.rows != map[] ==> (expired <==> now - MaxFetched(dao.rows) > 86_400_000)
    {
      var last := dao.GetLastFetchTime();
      match last {
        case None => expired := true;
        case Some(t) => expired := now - t > CacheExpirationTime;
      }
    }

    /**
     * `refreshCacheIfNeeded(forceRefresh)`, with the connectivity sample and
     * the clock passed in. The list it would write is always empty, so the
     * table is never written and the outcome depends on connectivity alone.
     */
    method RefreshCacheIfNeeded(force: bool, connected: bool, now: int) returns (r: Result<()>)
      ensures !connected ==> r == Error(NoConnectionMessage)
      ensures connected ==> r == Success(())
    {
      if !connected {
        return Error(NoConnectionMessage);
      }
      var needed := force;
      if !needed {
        needed := IsCacheEmpty();
      }
      if !needed {
        needed := IsCacheExpired(now);
      }
      assert needed <==> NeedsRefresh(force, dao.rows, now);
      if !needed {
        return Success(());
      }
      r := Success(());
    }

    /**
     * `cachePokemonList(list)`: every Pokemon upserted as a row; `stamps` are
     * the clock readings the conversions take, one per entry, in list order.
     */
    method CachePokemonList(list: seq<Pokemon>, stamps: seq<int>)
      requires Valid() && |stamps| == |list|
      modifies dao
      ensures Valid()
      ensures dao.rows == InsertAll(old(dao.rows), ToCachedList(list, stamps))
    {
      dao.InsertAllPokemon(ToCachedList(list, stamps));
    }

    /** `getPokemonById(id)`: the stored row as a domain Pokemon, or null. */
    method GetPokemonById(id: int) returns (p: Option<Pokemon>)
      requires Valid()
      ensures p.Some? <==> id in dao.rows
      ensures p.Some? ==> p.value == ToPokemon(dao.rows[id]) && p.value.id == id
    {
      var row := dao.GetPokemonById(id);
      p := if row.Some? then Some(ToPokemon(row.value)) else None;
    }

    /** `clearCache()`. */
    method ClearCache()
      requires Valid()
      modifies dao
      ensures Valid() && dao.rows == map[]
    {
      dao.DeleteAllPokemon();
    }

    /** `getCachedPokemon()`, as one snapshot: every stored row as a Pokemon, by ascending id. */
    method GetCachedPokemon() returns (ps: seq<Pokemon>)
      requires Valid()
      ensures ps == ToPokemonList(Listing(dao.rows))
      ensures |ps| == |dao.rows|
      ensures forall i, j :: 0 <= i < j < |ps| ==> ps[i].id < ps[j].id
      ensures forall i :: 0 <= i < |ps| ==> ps[i].id in dao.rows && ps[i] == ToPokemon(dao.rows[ps[i].id])
      ensures forall x :: x in ps <==> exists k :: k in dao.rows && x == ToPokemon(dao.rows[k])
    {
      var rows := dao.GetAllPokemon();
      ps := ToPokemonList(rows);
      CachedListingMembers(dao.rows);
    }
  }

  /** Every stored row, and nothing else, appears in the domain listing. */
  lemma CachedListingMembers(rows: map<int, CachedPokemon>)
    requires KeyedById(rows)
    ensures forall x :: x in ToPokemonList(Listing(rows)) <==> exists k :: k in rows && x == ToPokemon(rows[k])
  {
    ListingSpec(rows);
    var listing := Listing(rows);
    var ps := ToPokemonList(listing);
    forall x | x in ps ensures exists k :: k in rows && x == ToPokemon(rows[k]) {
      var i :| 0 <= i < |ps| && ps[i] == x;
      assert x == ToPokemon(rows[listing[i].id]);
    }
    forall x | exists k :: k in rows && x == ToPokemon(rows[k]) ensures x in ps {
      var k :| k in rows && x == ToPokemon(rows[k]);
      var i :| 0 <= i < |listing| && listing[i].id == k;
      assert ps[i] == x;
    }
  }

  /** The ids of a list of Pokemon. */
  function PokemonIds(ps: seq<Pokemon>): set<int> {
    set i | 0 <= i < |ps| :: ps[i].id
  }

  /** Converting for the cache keeps the set of ids. */
  lemma CachedListIds(list: seq<Pokemon>, stamps: seq<int>)
    requires |stamps| == |list|
    ensures Ids(ToCachedList(list, stamps)) == PokemonIds(list)
  {
    var cs := ToCachedList(list, stamps);
    forall k | k in Ids(cs) ensures k in PokemonIds(list) {
      var i :| 0 <= i < |cs| && cs[i].id == k;
      assert list[i].id == k;
    }
    forall k | k in PokemonIds(list) ensures k in Ids(cs) {
      var i :| 0 <= i < |list| && list[i].id == k;
      assert cs[i].id == k;
    }
  }

  /**
   * What `cachePokemonList` leaves in the table: the old ids plus the listed
   * ones; unlisted rows untouched; for each listed id the row built from its
   * last occurrence, stamped with that entry's own reading, which reads back as that Pokemon.
   */
  lemma CachePokemonListEffect(rows: map<int, CachedPokemon>, list: seq<Pokemon>, stamps: seq<int>)
    requires KeyedById(rows) && |stamps| == |list|
    ensures var r := InsertAll(rows, ToCachedList(list, stamps));
      && KeyedById(r)
      && r.Keys == rows.Keys + PokemonIds(list)
      && (forall k :: k in rows && k !in PokemonIds(list) ==> r[k] == rows[k])
      && (forall i :: 0 <= i < |list| && (forall j :: i < j < |list| ==> list[j].id != list[i].id) ==>
            r[list[i].id] == ToCached(list[i], stamps[i]) && ToPokemon(r[list[i].id]) == list[i]
            && r[list[i].id].lastFetchedAt == stamps[i])
  {
    var cs := ToCachedList(list, stamps);
    var r := InsertAll(rows, cs);
    InsertAllSpec(rows, cs);
    CachedListIds(list, stamps);
    forall i | 0 <= i < |list| && (forall j :: i < j < |list| ==> list[j].id != list[i].id)
      ensures r[list[i].id] == ToCached(list[i], stamps[i]) && ToPokemon(r[list[i].id]) == list[i]
    {
      assert IsLastWithId(cs, i) by {
        forall j | i < j < |cs| ensures cs[j].id != cs[i].id {
          assert cs[j].id == list[j].id;
        }
      }
      CachedRoundTrip(list[i], stamps[i]);
    }
  }
}
