/**
 * `NewHomeViewModel`: the list screen driven by `HomeEvent`s over one
 * `HomeUiState`, with its own page cursor and the list of everything loaded.
 */
module ListScreen {
  import opened Wrappers
  import opened Text
  import opened PokemonModel
  import opened UiState
  import opened ListReducer
  import Home

  const PageSize: nat := 10

  const LoadMoreErrorPrefix := "No se pudieron cargar más Pokémon: "

  /** This view model's `getFileNameForPage(page)`: only the first bound is padded. */
  function FileNameForPage(page: nat): string {
    var start, end := page * PageSize + 1, (page + 1) * PageSize;
    "pokemon_" + (Home.Padded(start) + ("_" + (NatToDecimal(end) + ".json")))
  }

  /** Page 0 is `pokemon_001_10.json`. */
  lemma FirstFileName()
    ensures FileNameForPage(0) == "pokemon_001_10.json"
  {
    Home.PaddedOne();
    assert NatToDecimal(1) == "1";
    assert NatToDecimal(10) == "10";
    assert FileNameForPage(0) == "pokemon_" + (Home.Padded(1) + ("_" + (NatToDecimal(10) + ".json")));
  }

  /** The first bound of a page name, and what follows its `_`. */
  lemma FirstBound(page: nat) returns (a: string, r: string)
    ensures FileNameForPage(page)[8..] == a + ['_'] + r
    ensures IsDigits(a) && DecimalValue(a) == 10 * page + 1
  {
    var start, end := page * PageSize + 1, (page + 1) * PageSize;
    a, r := Home.Padded(start), NatToDecimal(end) + ".json";
    PaddedDecimalValue(start, 3);
    Home.SplitName(a, NatToDecimal(end));
  }

  /** Different pages name different files here too. */
  lemma FileNameInjective(p: nat, q: nat)
    requires FileNameForPage(p) == FileNameForPage(q)
    ensures p == q
  {
    var a1, r1 := FirstBound(p);
    var a2, r2 := FirstBound(q);
    DigitsBeforeSeparator(a1, r1, a2, r2, '_');
  }

  /**
   * The two view models ask for the same file exactly from page 9 on, where
   * the last id has three digits; on pages 0 to 8 this one asks for a name
   * one character shorter.
   */
  lemma FileNamesAgreeFromPageNine(page: nat)
    ensures FileNameForPage(page) == Home.FileNameForPage(page) <==> page >= 9
    ensures page < 9 ==> |FileNameForPage(page)| + 1 == |Home.FileNameForPage(page)|
  {
    var end := (page + 1) * PageSize;
    assert end == 10 * page + 10;
    PadKeepsLongNumbers(end);
    DecimalLengthAtLeastThree(end);
    assert Home.FileNameForPage(page) == "pokemon_" + (Home.Padded(page * PageSize + 1) + ("_" + (Home.Padded(end) + ".json")));
    assert FileNameForPage(page) == "pokemon_" + (Home.Padded(page * PageSize + 1) + ("_" + (NatToDecimal(end) + ".json")));
  }

  class NewHomeViewModel {
    var uiState: HomeUiState
    var currentPage: nat
    var allLoaded: seq<Pokemon>

    /**
     * Between events the loading flag is down, and the displayed list holds
     * exactly the loaded entries that pass the query, sorted by the order.
     */
    ghost predicate Valid()
      reads this
    {
      && !uiState.isLoading
      && multiset(uiState.pokemons) == multiset(FilterPokemon(allLoaded, uiState.searchQuery))
      && IsSortedBy(uiState.sortOrder, uiState.pokemons)
    }

    /** The initial state, then `init { loadMorePokemon() }`. */
    constructor (assets: string -> Asset<seq<Pokemon>>)
      ensures Valid()
      ensures uiState.searchQuery == "" && uiState.sortOrder == ByNumberAsc
      ensures match assets(FileNameForPage(0))
        case Decoded(page) =>
          && allLoaded == page && currentPage == 1
          && uiState.errorMessage == None && uiState.hasMorePages == (|page| == PageSize)
          && uiState.pokemons == Reduce(page, "", ByNumberAsc)
        case Unavailable(reason) =>
          && allLoaded == [] && currentPage == 0 && uiState.pokemons == []
          && uiState.errorMessage == Some(LoadMoreErrorPrefix + reason) && !uiState.hasMorePages
    {
      uiState := HomeUiState();
      currentPage := 0;
      allLoaded := [];
      new;
      LoadMorePokemon(assets);
    }

    /** `onEvent(event)`: each event goes to its handler and does what that handler does. */
    method OnEvent(event: HomeEvent, assets: string -> Asset<seq<Pokemon>>)
      requires Valid()
      modifies this
      ensures Valid()
      ensures event.Search? ==>
        && uiState == old(uiState).(searchQuery := event.query,
             pokemons := Reduce(allLoaded, event.query, uiState.sortOrder))
        && allLoaded == old(allLoaded) && currentPage == old(currentPage)
      ensures event.LoadMore? && (old(uiState.isLoading) || !old(uiState.hasMorePages)) ==>
        uiState == old(uiState) && currentPage == old(currentPage) && allLoaded == old(allLoaded)
      ensures event.LoadMore? && !old(uiState.isLoading) && old(uiState.hasMorePages) ==>
        match assets(FileNameForPage(old(currentPage)))
        case Decoded(page) =>
          && allLoaded == old(allLoaded) + page
          && currentPage == old(currentPage) + 1
          && uiState == old(uiState).(
               pokemons := Reduce(allLoaded, uiState.searchQuery, uiState.sortOrder),
               isLoading := false, errorMessage := None, hasMorePages := |page| == PageSize)
        case Unavailable(reason) =>
          && allLoaded == old(allLoaded)
          && currentPage == old(currentPage)
          && uiState == old(uiState).(
               isLoading := false, errorMessage := Some(LoadMoreErrorPrefix + reason), hasMorePages := false)
      ensures event.UpdateSortOrder? ==>
        && uiState == old(uiState).(sortOrder := event.order, pokemons := SortBy(old(uiState.pokemons), event.order))
        && multiset(uiState.pokemons) == multiset(old(uiState.pokemons))
        && allLoaded == old(allLoaded) && currentPage == old(currentPage)
      ensures event.ClearError? ==>
        uiState == old(uiState).(errorMessage := None) && allLoaded == old(allLoaded) && currentPage == old(currentPage)
      ensures event.Refresh? ==>
        && uiState.searchQuery == old(uiState.searchQuery) && uiState.sortOrder == old(uiState.sortOrder)
        && match assets(FileNameForPage(0))
           case Decoded(page) =>
             && allLoaded == page && currentPage == 1
             && uiState.errorMessage == None && uiState.hasMorePages == (|page| == PageSize)
             && uiState.pokemons == Reduce(page, uiState.searchQuery, uiState.sortOrder)
           case Unavailable(reason) =>
             && allLoaded == [] && currentPage == 0 && uiState.pokemons == []
             && uiState.errorMessage == Some(LoadMoreErrorPrefix + reason) && !uiState.hasMorePages
    {
      match event {
        case Search(query) => HandleSearch(query);
        case LoadMore => LoadMorePokemon(assets);
        case UpdateSortOrder(order) => HandleSortOrderChange(order);
        case ClearError => ClearError();
        case Refresh => Refresh(assets);
      }
    }

    /** `handleSearch(query)`: the query is stored and the loaded list re-filtered and sorted by the current order. */
    method HandleSearch(query: string)
      requires Valid()
      modifies this
      ensures Valid()
      ensures uiState == old(uiState).(searchQuery := query,
        pokemons := Reduce(allLoaded, query, uiState.sortOrder))
      ensures allLoaded == old(allLoaded) && currentPage == old(currentPage)
    {
      var shown := SortBy(FilterPokemon(allLoaded, query), uiState.sortOrder);
      SortByPermutation(FilterPokemon(allLoaded, query), uiState.sortOrder);
      SortBySorted(FilterPokemon(allLoaded, query), uiState.sortOrder);
      uiState := uiState.(searchQuery := query, pokemons := shown);
    }

    /** `handleSortOrderChange(order)`: the list on screen is re-sorted by the new order; nothing is re-filtered. */
    method HandleSortOrderChange(order: SortOrder)
      requires Valid()
      modifies this
      ensures Valid()
      ensures uiState == old(uiState).(sortOrder := order, pokemons := SortBy(old(uiState.pokemons), order))
      ensures multiset(uiState.pokemons) == multiset(old(uiState.pokemons))
      ensures allLoaded == old(allLoaded) && currentPage == old(currentPage)
    {
      SortByPermutation(uiState.pokemons, order);
      SortBySorted(uiState.pokemons, order);
      uiState := uiState.(sortOrder := order, pokemons := SortBy(uiState.pokemons, order));
    }

    /** `clearError()`. */
    method ClearError()
      requires Valid()
      modifies this
      ensures Valid()
      ensures uiState == old(uiState).(errorMessage := None)
      ensures allLoaded == old(allLoaded) && currentPage == old(currentPage)
    {
      uiState := uiState.(errorMessage := None);
    }

    /**
     * `refresh()`: back to page 0 with nothing loaded and a default state that
     * keeps only the query and the order, then the first page is loaded.
     */
    method Refresh(assets: string -> Asset<seq<Pokemon>>)
      requires Valid()
      modifies this
      ensures Valid()
      ensures uiState.searchQuery == old(uiState.searchQuery) && uiState.sortOrder == old(uiState.sortOrder)
      ensures match assets(FileNameForPage(0))
        case Decoded(page) =>
          && allLoaded == page && currentPage == 1
          && uiState.errorMessage == None && uiState.hasMorePages == (|page| == PageSize)
          && uiState.pokemons == Reduce(page, uiState.searchQuery, uiState.sortOrder)
        case Unavailable(reason) =>
          && allLoaded == [] && currentPage == 0 && uiState.pokemons == []
          && uiState.errorMessage == Some(LoadMoreErrorPrefix + reason) && !uiState.hasMorePages
    {
      currentPage := 0;
      allLoaded := [];
      uiState := HomeUiState(searchQuery := uiState.searchQuery, sortOrder := uiState.sortOrder);
      LoadMorePokemon(assets);
    }

    /**
     * `loadMorePokemon()`. Nothing happens while a load is running or after
     * the pages ran out. Otherwise the next page is read: on success it is
     * appended, the cursor advances, the list is re-derived, and more pages
     * are expected only if this one was full; on failure the error is set
     * and no more pages are expected.
     */
    method LoadMorePokemon(assets: string -> Asset<seq<Pokemon>>)
      requires Valid()
      modifies this
      ensures Valid()
      ensures old(uiState.isLoading) || !old(uiState.hasMorePages) ==>
        uiState == old(uiState) && currentPage == old(currentPage) && allLoaded == old(allLoaded)
      ensures !old(uiState.isLoading) && old(uiState.hasMorePages) ==>
        match assets(FileNameForPage(old(currentPage)))
        case Decoded(page) =>
          && allLoaded == old(allLoaded) + page
          && currentPage == old(currentPage) + 1
          && uiState == old(uiState).(
               pokemons := Reduce(allLoaded, uiState.searchQuery, uiState.sortOrder),
               isLoading := false, errorMessage := None, hasMorePages := |page| == PageSize)
        case Unavailable(reason) =>
          && allLoaded == old(allLoaded)
          && currentPage == old(currentPage)
          && uiState == old(uiState).(
               isLoading := false, errorMessage := Some(LoadMoreErrorPrefix + reason), hasMorePages := false)
    {
      if uiState.isLoading || !uiState.hasMorePages {
        return;
      }
      uiState := uiState.(isLoading := true, errorMessage := None);
      var fileName := FileNameForPage(currentPage);
      match assets(fileName) {
        case Decoded(newPokemons) =>
          allLoaded := allLoaded + newPokemons;
          currentPage := currentPage + 1;
          var filtered := FilterPokemon(allLoaded, uiState.searchQuery);
          SortByPermutation(filtered, uiState.sortOrder);
          SortBySorted(filtered, uiState.sortOrder);
          uiState := uiState.(pokemons := SortBy(filtered, uiState.sortOrder),
            isLoading := false, hasMorePages := |newPokemons| == PageSize);
        case Unavailable(reason) =>
          uiState := uiState.(isLoading := false,
            errorMessage := Some(LoadMoreErrorPrefix + reason), hasMorePages := false);
      }
    }

    /** `getPokemons()`: the list on screen, sorted and holding exactly the filtered loaded entries. */
    method GetPokemons() returns (ps: seq<Pokemon>)
      requires Valid()
      ensures ps == uiState.pokemons
      ensures IsSortedBy(uiState.sortOrder, ps)
      ensures multiset(ps) == multiset(FilterPokemon(allLoaded, uiState.searchQuery))
    {
      ps := uiState.pokemons;
    }
  }

  /** Once the pages ran out, further `LoadMore` events change nothing at all. */
  method LoadMoreWhenExhausted(vm: NewHomeViewModel, assets: string -> Asset<seq<Pokemon>>)
    requires vm.Valid() && !vm.uiState.hasMorePages
    modifies vm
    ensures vm.uiState == old(vm.uiState) && vm.currentPage == old(vm.currentPage)
    ensures vm.allLoaded == old(vm.allLoaded)
  {
    vm.OnEvent(LoadMore, assets);
    vm.OnEvent(LoadMore, assets);
  }
}
