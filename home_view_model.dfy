/**
 * `HomeViewModel`: the list screen's state cells, the page-by-page loading of
 * the bundled JSON files into the cache, the refresh entry point and the
 * displayed list, which is the cache filtered by the query and sorted by the
 * saved order.
 */
module Home {
  import opened Wrappers
  import opened Text
  import opened PokemonModel
  import opened CachedRecords
  import opened JsonResponse
  import opened Mappers
  import opened ListReducer
  import opened PokemonDao
  import opened Repository

  const PageSize: nat := 10

  /** The value the preference store yields when no order was ever saved. */
  const DefaultSortOrder := "BY_NUMBER_ASC"

  const LoadErrorPrefix := "Error al cargar Pokémon: "

  /** `n.toString().padStart(3, '0')`. */
  function Padded(n: nat): string {
    PadStart(NatToDecimal(n), 3, '0')
  }

  /** `getFileNameForPage(page)`: both bounds of the page's id range padded to three digits. */
  function FileNameForPage(page: nat): string {
    var start, end := page * PageSize + 1, (page + 1) * PageSize;
    "pokemon_" + (Padded(start) + ("_" + (Padded(end) + ".json")))
  }

  lemma PaddedOne()
    ensures Padded(1) == "001"
  {
    assert NatToDecimal(1) == "1";
    assert seq(2, _ => '0') == "00";
  }

  lemma PaddedTen()
    ensures Padded(10) == "010"
  {
    assert NatToDecimal(1) == "1";
    assert NatToDecimal(10) == "10";
    assert seq(1, _ => '0') == "0";
  }
  
  /** Page 0 is the bundled file `pokemon_001_010.json`. */
  lemma FirstFileName()
    ensures FileNameForPage(0) == "pokemon_001_010.json"
  {
    PaddedOne();
    PaddedTen();
    assert FileNameForPage(0) == "pokemon_" + (Padded(1) + ("_" + (Padded(10) + ".json")));
  }

  /** Past the fixed `pokemon_` prefix, a page name is its first bound, `_`, and the rest. */
  lemma SplitName(a: string, b: string)
    ensures ("pokemon_" + (a + ("_" + (b + ".json"))))[8..] == a + ['_'] + (b + ".json")
  {
    assert "_" + (b + ".json") == ['_'] + (b + ".json");
  }

  /**
   * The name spells out the page's id range: between `pokemon_` and `_` the
   * digits of the first id, between `_` and `.json` those of the last, each
   * at least three characters long.
   */
  lemma FileNameSpellsRange(page: nat) returns (a: string, b: string)
    ensures FileNameForPage(page) == "pokemon_" + (a + ("_" + (b + ".json")))
    ensures IsDigits(a) && |a| >= 3 && DecimalValue(a) == 10 * page + 1
    ensures IsDigits(b) && |b| >= 3 && DecimalValue(b) == 10 * (page + 1)
  {
    var start, end := page * PageSize + 1, (page + 1) * PageSize;
    PaddedDecimalValue(start, 3);
    PaddedDecimalValue(end, 3);
    a, b := Padded(start), Padded(end);
  }

  /** The first bound of a page name, and what follows its `_`. */
  lemma FirstBound(page: nat) returns (a: string, r: string)
    ensures FileNameForPage(page)[8..] == a + ['_'] + r
    ensures IsDigits(a) && DecimalValue(a) == 10 * page + 1
  {
    var start, end := page * PageSize + 1, (page + 1) * PageSize;
    a, r := Padded(start), Padded(end) + ".json";
    PaddedDecimalValue(start, 3);
    SplitName(a, Padded(end));
  }

  /** Different pages name different files. */
  lemma FileNameInjective(p: nat, q: nat)
    requires FileNameForPage(p) == FileNameForPage(q)
    ensures p == q
  {
    var a1, r1 := FirstBound(p);
    var a2, r2 := FirstBound(q);
    DigitsBeforeSeparator(a1, r1, a2, r2, '_');
  }

  /** The clock readings `clock(from)`, ..., `clock(from + n - 1)`, in the order they are taken. */
  function Readings(clock: nat -> int, from: nat, n: nat): (r: seq<int>)
    ensures |r| == n
    ensures forall k :: 0 <= k < n ==> r[k] == clock(from + k)
    decreases n
  {
    if n == 0 then [] else [clock(from)] + Readings(clock, from + 1, n - 1)
  }

  /** The Pokemon a page asset yields: its items, or none when it could not be read. */
  function PageRead(asset: Asset<PokemonJsonResponse>): seq<Pokemon> {
    match asset
    case Decoded(response) => ItemsToPokemon(response.items)
    case Unavailable(_) => []
  }

  class HomeViewModel {
    const repository: PokemonRepository
    var currentPage: nat
    var pokemonFromJson: seq<Pokemon>
    var isLoading: bool
    var errorMessage: Option<string>
    var searchQuery: string
    /** The order held by the preference store, and the copy the view model collects from it. */
    var savedSortOrder: string
    var currentSortOrder: string

    ghost predicate Valid()
      reads this, repository, repository.dao
    {
      repository.Valid()
    }

    /**
     * The field initialisers and `loadSavedSortOrder()`: `saved` is what the
     * preference store holds, if anything.
     */
    constructor (repository: PokemonRepository, saved: Option<string>)
      requires repository.Valid()
      ensures Valid() && this.repository == repository
      ensures currentPage == 0 && pokemonFromJson == [] && !isLoading && errorMessage == None
      ensures searchQuery == ""
      ensures savedSortOrder == currentSortOrder == saved.GetOr(DefaultSortOrder)
    {
      this.repository := repository;
      currentPage := 0;
      pokemonFromJson := [];
      isLoading := false;
      errorMessage := None;
      searchQuery := "";
      savedSortOrder := saved.GetOr(DefaultSortOrder);
      currentSortOrder := saved.GetOr(DefaultSortOrder);
    }

    /**
     * `loadMorePokemonFromJson()`. `assets` stands for opening and decoding a
     * bundled file: the decoded response, or the failure's message; `clock(k)`
     * is the time the `k`-th clock reading of the call returns. On success the
     * page is appended, the cursor advances by one and the page is written to
     * the cache, entry `k` stamped `clock(k)`; on failure only the error is set.
     */
    method LoadMorePokemonFromJson(assets: string -> Asset<PokemonJsonResponse>, clock: nat -> int)
      requires Valid()
      modifies this, repository.dao
      ensures Valid()
      ensures var asset := assets(FileNameForPage(old(currentPage)));
        && pokemonFromJson == old(pokemonFromJson) + PageRead(asset)
        && currentPage == old(currentPage) + (if asset.Decoded? then 1 else 0)
        && errorMessage == (if asset.Decoded? then old(errorMessage) else Some(LoadErrorPrefix + asset.reason))
        && repository.dao.rows
           == InsertAll(old(repository.dao.rows), ToCachedList(PageRead(asset), Readings(clock, 0, |PageRead(asset)|)))
      ensures isLoading == old(isLoading) && searchQuery == old(searchQuery)
      ensures savedSortOrder == old(savedSortOrder) && currentSortOrder == old(currentSortOrder)
    {
      var fileName := FileNameForPage(currentPage);
      match assets(fileName) {
        case Decoded(response) =>
          var newPokemons := ItemsToPokemon(response.items);
          pokemonFromJson := pokemonFromJson + newPokemons;
          currentPage := currentPage + 1;
          repository.CachePokemonList(newPokemons, Readings(clock, 0, |newPokemons|));
        case Unavailable(reason) =>
          errorMessage := Some(LoadErrorPrefix + reason);
      }
    }

    /**
     * `initializeData()`: with an empty cache, load the first page and cache
     * everything read so far; then, when the view model's connectivity sample
     * says connected, ask the repository for a refresh (whose own sample is
     * `repositoryConnected`). The clock is read once per row converted, first
     * for the page and then for the whole list, and once more by the expiry
     * check; `clock(k)` is the `k`-th reading. The loading flag is down at the end.
     */
    method InitializeData(assets: string -> Asset<PokemonJsonResponse>, connected: bool, repositoryConnected: bool,
                          clock: nat -> int)
      requires Valid()
      modifies this, repository.dao
      ensures Valid() && !isLoading
      ensures searchQuery == old(searchQuery)
      ensures savedSortOrder == old(savedSortOrder) && currentSortOrder == old(currentSortOrder)
      ensures old(repository.dao.rows) != map[] ==>
        && repository.dao.rows == old(repository.dao.rows)
        && pokemonFromJson == old(pokemonFromJson) && currentPage == old(currentPage)
        && errorMessage == old(errorMessage)
      ensures old(repository.dao.rows) == map[] ==>
        var asset := assets(FileNameForPage(old(currentPage)));
        var page := PageRead(asset);
        var once := InsertAll(old(repository.dao.rows), ToCachedList(page, Readings(clock, 0, |page|)));
        && pokemonFromJson == old(pokemonFromJson) + PageRead(asset)
        && currentPage == old(currentPage) + (if asset.Decoded? then 1 else 0)
        && errorMessage == (if asset.Decoded? then old(errorMessage) else Some(LoadErrorPrefix + asset.reason))
        && repository.dao.rows == if pokemonFromJson == [] then once
           else InsertAll(once, ToCachedList(pokemonFromJson, Readings(clock, |page|, |pokemonFromJson|)))
    {
      isLoading := true;
      var cacheIsEmpty := repository.IsCacheEmpty();
      var read: nat := 0;
      if cacheIsEmpty {
        read := SeedCache(assets, clock);
      }
      if connected {
        var _ := repository.RefreshCacheIfNeeded(false, repositoryConnected, clock(read));
      }
      isLoading := false;
    }

    /**
     * The empty-cache branch of `initializeData()`: one page is loaded from
     * the assets, then everything read so far is cached. Returns how many
     * clock readings were taken.
     */
    method SeedCache(assets: string -> Asset<PokemonJsonResponse>, clock: nat -> int) returns (read: nat)
      requires Valid()
      modifies this, repository.dao
      ensures Valid() && isLoading == old(isLoading)
      ensures searchQuery == old(searchQuery)
      ensures savedSortOrder == old(savedSortOrder) && currentSortOrder == old(currentSortOrder)
      ensures
        var asset := assets(FileNameForPage(old(currentPage)));
        var page := PageRead(asset);
        var once := InsertAll(old(repository.dao.rows), ToCachedList(page, Readings(clock, 0, |page|)));
        && pokemonFromJson == old(pokemonFromJson) + page
        && currentPage == old(currentPage) + (if asset.Decoded? then 1 else 0)
        && errorMessage == (if asset.Decoded? then old(errorMessage) else Some(LoadErrorPrefix + asset.reason))
        && repository.dao.rows == if pokemonFromJson == [] then once
           else InsertAll(once, ToCachedList(pokemonFromJson, Readings(clock, |page|, |pokemonFromJson|)))
    {
      var before := |pokemonFromJson|;
      LoadMorePokemonFromJson(assets, clock);
      read := |pokemonFromJson| - before;
      if |pokemonFromJson| > 0 {
        repository.CachePokemonList(pokemonFromJson, Readings(clock, read, |pokemonFromJson|));
        read := read + |pokemonFromJson|;
      }
    }

    /** `updateSearchQuery(query)`: only the query changes. */
    method UpdateSearchQuery(query: string)
      modifies this
      ensures searchQuery == query
      ensures currentPage == old(currentPage) && pokemonFromJson == old(pokemonFromJson)
      ensures isLoading == old(isLoading) && errorMessage == old(errorMessage)
      ensures savedSortOrder == old(savedSortOrder) && currentSortOrder == old(currentSortOrder)
    {
      searchQuery := query;
    }

    /** `changeSortOrder(order)`: the preference is saved and the collected copy follows it. */
    method ChangeSortOrder(order: string)
      modifies this
      ensures savedSortOrder == order && currentSortOrder == order
      ensures currentPage == old(currentPage) && pokemonFromJson == old(pokemonFromJson)
      ensures isLoading == old(isLoading) && errorMessage == old(errorMessage)
      ensures searchQuery == old(searchQuery)
    {
      savedSortOrder := order;
      currentSortOrder := savedSortOrder;
    }

    /**
     * `forceRefresh()`. Without connection only the error is set. Otherwise
     * the error is cleared, a forced refresh is asked for, its error (if any)
     * shown, and the loading flag is down at the end. The cache is not written.
     */
    method ForceRefresh(connected: bool, repositoryConnected: bool, now: int)
      requires Valid()
      modifies this
      ensures Valid()
      ensures !connected ==> errorMessage == Some(NoConnectionMessage) && isLoading == old(isLoading)
      ensures connected ==> !isLoading
      ensures connected ==> errorMessage == if repositoryConnected then None else Some(NoConnectionMessage)
      ensures currentPage == old(currentPage) && pokemonFromJson == old(pokemonFromJson)
      ensures searchQuery == old(searchQuery)
      ensures savedSortOrder == old(savedSortOrder) && currentSortOrder == old(currentSortOrder)
    {
      if !connected {
        errorMessage := Some(NoConnectionMessage);
        return;
      }
      isLoading := true;
      errorMessage := None;
      var result := repository.RefreshCacheIfNeeded(true, repositoryConnected, now);
      if result.Error? {
        errorMessage := Some(result.message);
      }
      isLoading := false;
    }

    /** `clearError()`: only the error changes. */
    method ClearError()
      modifies this
      ensures errorMessage == None
      ensures currentPage == old(currentPage) && pokemonFromJson == old(pokemonFromJson)
      ensures isLoading == old(isLoading) && searchQuery == old(searchQuery)
      ensures savedSortOrder == old(savedSortOrder) && currentSortOrder == old(currentSortOrder)
    {
      errorMessage := None;
    }

    /**
     * `getPokemons()`: the list `observeCachedPokemon` derives from the cache
     * listing, the query and the current order. It is sorted by that order,
     * and holds exactly the cached entries that pass the filter.
     */
    method GetPokemons() returns (ps: seq<Pokemon>)
      requires Valid()
      ensures ps == ApplySorting(FilterPokemon(ToPokemonList(Listing(repository.dao.rows)), searchQuery), currentSortOrder)
      ensures IsSortedBy(SortOrderOf(currentSortOrder), ps)
      ensures forall x :: x in ps <==>
        (exists k :: k in repository.dao.rows && x == ToPokemon(repository.dao.rows[k]))
        && (IsBlank(searchQuery) || Matches(x, searchQuery))
    {
      var cached := repository.GetCachedPokemon();
      var filtered := FilterPokemon(cached, searchQuery);
      ps := ApplySorting(filtered, currentSortOrder);
      ReduceSpec(cached, searchQuery, SortOrderOf(currentSortOrder));
    }
  }
}
