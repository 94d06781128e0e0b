/** The immutable UI state records of the list and detail screens, with their defaults. */
module UiState {
  import opened Wrappers
  import opened PokemonModel

  /** The four orders the list can be shown in. */
  datatype SortOrder = ByNumberAsc | ByNumberDesc | ByNameAsc | ByNameDesc

  /** The enum constant's name, which is also the string the preference store holds. */
  function SortOrderName(o: SortOrder): string {
    match o
    case ByNumberAsc => "BY_NUMBER_ASC"
    case ByNumberDesc => "BY_NUMBER_DESC"
    case ByNameAsc => "BY_NAME_ASC"
    case ByNameDesc => "BY_NAME_DESC"
  }

  const SortOrderNames: seq<string> := ["BY_NUMBER_ASC", "BY_NUMBER_DESC", "BY_NAME_ASC", "BY_NAME_DESC"]

  /** State of the list screen; the defaults are those of a fresh screen. */
  datatype HomeUiState = HomeUiState(
    pokemons: seq<Pokemon> := [],
    isLoading: bool := false,
    searchQuery: string := "",
    sortOrder: SortOrder := ByNumberAsc,
    errorMessage: Option<string> := None,
    hasMorePages: bool := true)

  /** State of the detail screen. */
  datatype DetailUiState = DetailUiState(
    pokemon: Option<Pokemon> := None,
    isFavorite: bool := false,
    isLoading: bool := false,
    errorMessage: Option<string> := None)

  /** User events of the list screen. */
  datatype HomeEvent = Search(query: string) | LoadMore | UpdateSortOrder(order: SortOrder) | ClearError | Refresh

  /** User events of the detail screen. */
  datatype DetailEvent = ToggleFavorite | NavigateBack | Refresh

  /**
   * A fresh list screen shows nothing, is idle, has no query and no error,
   * orders by number ascending and still expects pages.
   */
  lemma DefaultHomeUiState()
    ensures var s := HomeUiState();
      && s.pokemons == [] && !s.isLoading && s.searchQuery == "" && s.sortOrder == ByNumberAsc
      && s.errorMessage == None && s.hasMorePages
  {
  }

  /** A fresh detail screen has no Pokemon, is not a favourite, is idle and has no error. */
  lemma DefaultDetailUiState()
    ensures var s := DetailUiState();
      s.pokemon == None && !s.isFavorite && !s.isLoading && s.errorMessage == None
  {
  }

  /** Exactly four orders, each with its own name. */
  lemma SortOrderNamesExact(o: SortOrder, o': SortOrder)
    ensures SortOrderName(o) in SortOrderNames
    ensures SortOrderName(o) == SortOrderName(o') ==> o == o'
  {
  }
}
