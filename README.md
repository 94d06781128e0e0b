# MyPokedex core, modelled and proved in Dafny

MyPokedex is an Android Pokédex. Under its Compose screens sits a small,
sequential slice of logic, and this project models that slice:

- the list reducer (filter by query, stable sort by one of four orders);
- the paging of bundled JSON files and the page-file names of both list view models
  (`HomeViewModel` and `NewHomeViewModel`);
- the `cached_pokemon` table behind `PokemonDao`, and the `PokemonRepository`
  built on it (empty and expiry tests, the refresh ladder, upsert, lookup, clear);
- the mappers between the domain `Pokemon`, the cached row and the remote payload;
- the JSON item conversion with its stat-by-name lookup, and `Stats.toMap`;
- the connectivity callback of `NetworkMonitor`, with its `distinctUntilChanged` stage;
- the favourites toggle of `NewDetailViewModel`;
- the sort dialog's two mappings between order strings and (field, direction) pairs.

Each module follows one source file:

| module (file) | source |
|---|---|
| `Text` (text.dfy) | the Kotlin standard-library behaviour the core relies on: `Int.toString`, `padStart`, `contains(ignoreCase)`, `isBlank`, `String.compareTo` |
| `PokemonModel` (pokemon.dfy) | `Pokemon.kt` |
| `CachedRecords` (cached.dfy) | `CachedPokemon.kt`, `PokemonDetailResponse.kt` (records only) |
| `JsonResponse` (json_response.dfy) | `PokemonJsonResponse.kt` |
| `Mappers` (mappers.dfy) | `PokemonMappers.kt` |
| `UiState` (ui_state.dfy) | `PokemonDetailUiState.kt` |
| `ListReducer` (reducer.dfy) | the filter and `applySorting` of both list view models |
| `SearchTools` (search_tools.dfy) | the two `when` mappings of `SearchToolsDialog.kt` |
| `PokemonDao` (dao.dfy) | `PokemonDao.kt` |
| `Repository` (repository.dfy) | `PokemonRepository.kt` |
| `Connectivity` (network.dfy) | `NetworkMonitor.kt` |
| `Home` (home_view_model.dfy) | `HomeViewModel.kt` |
| `ListScreen` (list_view_model.dfy) | `ListViewModel.kt` (`NewHomeViewModel`) |
| `DetailScreen` (detail_view_model.dfy) | `DetailListViewModel.kt` (`NewDetailViewModel`) |

Objects whose fields the source changes in place are classes:

- `PokemonTable`
- `PokemonRepository`
- `ConnectivityCollection`
- `HomeViewModel`
- `NewHomeViewModel`
- `NewDetailViewModel`

The rest are datatypes and functions.

Many things the source gets from its platform are passed in as parameters instead:

- **Wall clock.** A single reading of `System.currentTimeMillis()` is a parameter `now`.
  Where the source reads the clock once per converted row, the readings are a sequence
  `stamps` (one per row, in list order) or a function `clock` from the reading's index in
  the call to the time it returns.
- **Asset loading and JSON decoding.** A bundled page file is read through a parameter
  `assets`. It maps a file name to the decoded page, or to the message of the exception
  the read or the decoding would throw.
- **Connectivity samples.** `isConnected.value` in `HomeViewModel` and
  `networkMonitor.isConnected.first()` in the repository are boolean parameters.
- **Stored sort order.** The preference store's saved sort order is an `Option<string>`.
  Its default is `"BY_NUMBER_ASC"`.
- **Initial connection check.** The connectivity manager's answers to the initial check
  are an optional active network plus a capabilities lookup.

Coroutines run to completion, one after the other.

## Model

| member | source | states |
|---|---|---|
| Text.IntToDecimal | app/src/main/java/com/uvg/mypokedex/ui/features/home/HomeViewModel.kt:89 | `Int.toString()`: a minus sign before the digits of the magnitude for a negative number, the digits alone otherwise; its properties are the rendering lemmas below |
| Text.PadStart | app/src/main/java/com/uvg/mypokedex/ui/features/home/HomeViewModel.kt:231 | `padStart(width, pad)`: `s` when it is at least `width` long, otherwise `pad` repeated in front up to `width`; its shape is PadStartShape |
| Text.IsWhitespace | app/src/main/java/com/uvg/mypokedex/ui/features/home/HomeViewModel.kt:84 | the characters `isWhitespace` accepts among those the model distinguishes |
| Text.IsBlank | app/src/main/java/com/uvg/mypokedex/ui/features/home/HomeViewModel.kt:84 | `isBlank()`: every character is whitespace, so the empty string is blank |
| Text.Contains | app/src/main/java/com/uvg/mypokedex/ui/features/home/HomeViewModel.kt:88-89 | `contains(query, ignoreCase)`: some start index at which every query character equals the text character, up to ASCII case when ignoring case |
| Text.LexLe | app/src/main/java/com/uvg/mypokedex/ui/features/home/HomeViewModel.kt:222-223 | `compareTo(b) <= 0`: the first differing character decides, and a proper prefix comes first; its order laws are the LexLe lemmas |
| Text.NatToDecimal | app/src/main/java/com/uvg/mypokedex/ui/features/home/HomeViewModel.kt:89 | `toString` of a non-negative number is a non-empty digit string, with no leading zero unless the number is 0 |
| Text.DecimalRoundTrip | app/src/main/java/com/uvg/mypokedex/ui/features/home/HomeViewModel.kt:89 | reading the decimal rendering back yields the number |
| Text.NatToDecimalInjective | app/src/main/java/com/uvg/mypokedex/ui/features/home/HomeViewModel.kt:231 | distinct naturals render differently |
| Text.IntToDecimalInjective | app/src/main/java/com/uvg/mypokedex/ui/features/home/HomeViewModel.kt:89 | distinct ids render to distinct strings, negative ids included |
| Text.NegativesInjective | app/src/main/java/com/uvg/mypokedex/ui/features/home/HomeViewModel.kt:89 | two negative numbers with the same rendering are equal |
| Text.NonNegativeRendering | app/src/main/java/com/uvg/mypokedex/ui/features/home/HomeViewModel.kt:89 | a non-negative id's text starts with a digit |
| Text.NegativeRendering | app/src/main/java/com/uvg/mypokedex/ui/features/home/HomeViewModel.kt:89 | a negative id's text is `-` followed by the digits of its magnitude |
| Text.DecimalLengthAtLeastThree | app/src/main/java/com/uvg/mypokedex/ui/features/home/HomeViewModel.kt:231 | a rendering has at least three digits exactly when the number is at least 100 |
| Text.DecimalLengthAtLeastTwo | app/src/main/java/com/uvg/mypokedex/ui/detail/ListViewModel.kt:146 | a rendering has at least two digits exactly when the number is at least 10 |
| Text.PadStartShape | app/src/main/java/com/uvg/mypokedex/ui/features/home/HomeViewModel.kt:231 | `padStart(width, pad)` has length max(\|s\|, width), ends with `s`, and has only `pad` before it |
| Text.PaddedDecimalValue | app/src/main/java/com/uvg/mypokedex/ui/features/home/HomeViewModel.kt:231 | a zero-padded rendering is still all digits and still reads back as the number |
| Text.PadKeepsLongNumbers | app/src/main/java/com/uvg/mypokedex/ui/features/home/HomeViewModel.kt:231 | padding to three changes a rendering exactly when the number is below 100 |
| Text.AsciiUpper | app/src/main/java/com/uvg/mypokedex/ui/features/home/HomeViewModel.kt:88 | each lower-case ASCII letter is raised to its own capital (its code minus 32), and every other character is left alone |
| Text.LexLeReflexive | app/src/main/java/com/uvg/mypokedex/ui/features/home/HomeViewModel.kt:222 | the name order relates every name to itself |
| Text.LexLeTotal | app/src/main/java/com/uvg/mypokedex/ui/features/home/HomeViewModel.kt:222 | any two names are comparable |
| Text.LexLeAntisymmetric | app/src/main/java/com/uvg/mypokedex/ui/features/home/HomeViewModel.kt:222 | names ordered both ways are equal |
| Text.LexLeTransitive | app/src/main/java/com/uvg/mypokedex/ui/features/home/HomeViewModel.kt:222 | the name order is transitive |
| PokemonModel.StatsToMap | app/src/main/java/com/uvg/mypokedex/data/model/Pokemon.kt:26-33 | six entries in the order HP, Attack, Defense, Sp. Atk, Sp. Def, Speed, each paired with its own field |
| PokemonModel.StatLabelsDistinct | app/src/main/java/com/uvg/mypokedex/data/model/Pokemon.kt:27-32 | the six labels are pairwise distinct |
| PokemonModel.StatsToMapLookup | app/src/main/java/com/uvg/mypokedex/data/model/Pokemon.kt:27-32 | looking up label i in the map gives field i |
| PokemonModel.DistinctKeysKeepAll | app/src/main/java/com/uvg/mypokedex/data/model/Pokemon.kt:26 | `mapOf` with pairwise distinct keys keeps one entry per pair, and no other key |
| PokemonModel.StatsToMapHasSixKeys | app/src/main/java/com/uvg/mypokedex/data/model/Pokemon.kt:26-33 | the map has exactly six keys, so no field is overwritten |
| PokemonModel.StatsMapRoundTrip | app/src/main/java/com/uvg/mypokedex/data/model/Pokemon.kt:26-33 | the six stats can be read back from the map unchanged |
| JsonResponse.StatValue | app/src/main/java/com/uvg/mypokedex/data/model/PokemonJsonResponse.kt:41-46 | `find { it.name == name }?.value ?: 0` |
| JsonResponse.JsonToPokemon | app/src/main/java/com/uvg/mypokedex/data/model/PokemonJsonResponse.kt:33-49 | `PokemonJson.toPokemon()`; its fields are stated by JsonToPokemonFields |
| JsonResponse.FindStat | app/src/main/java/com/uvg/mypokedex/data/model/PokemonJsonResponse.kt:41-46 | `find` yields nothing exactly when no entry has the name, and otherwise the first such entry |
| JsonResponse.JsonToPokemonFields | app/src/main/java/com/uvg/mypokedex/data/model/PokemonJsonResponse.kt:33-46 | id, name, types, weight and height pass through; stat i is the first entry named hp, attack, ..., speed, or 0 when there is none |
| JsonResponse.EmptyStatsAreZero | app/src/main/java/com/uvg/mypokedex/data/model/PokemonJsonResponse.kt:41-46 | an empty stats list gives all-zero stats |
| JsonResponse.FindStatSkips | app/src/main/java/com/uvg/mypokedex/data/model/PokemonJsonResponse.kt:41 | an entry with another name, inserted anywhere, does not change what `find` returns |
| JsonResponse.OtherStatNamesIgnored | app/src/main/java/com/uvg/mypokedex/data/model/PokemonJsonResponse.kt:41-46 | a stat entry whose name is none of the six, inserted anywhere, does not change the Pokemon |
| JsonResponse.ItemsToPokemon | app/src/main/java/com/uvg/mypokedex/ui/features/home/HomeViewModel.kt:142 | the page's items convert one by one, in order |
| Mappers.ArtworkUrl | app/app/src/main/java/com/uvg/mypokedex/data/PokemonMappers.kt:15 | the official-artwork locator: the fixed prefix, the decimal id, then `.png` |
| Mappers.ToCached | app/app/src/main/java/com/uvg/mypokedex/data/PokemonMappers.kt:11-27 | `Pokemon.toCachedPokemon()` with the clock reading as its stamp; its inverse is ToPokemon (CachedRoundTrip) |
| Mappers.ToPokemon | app/app/src/main/java/com/uvg/mypokedex/data/PokemonMappers.kt:32-48 | `CachedPokemon.toPokemon()`: every domain field copied back; image and stamp dropped |
| Mappers.DetailToCached | app/app/src/main/java/com/uvg/mypokedex/data/PokemonMappers.kt:53-70 | `PokemonDetailResponse.toCachedPokemon()`; its fields are stated by DetailToCachedFields |
| Mappers.ToCachedList | app/app/src/main/java/com/uvg/mypokedex/data/PokemonMappers.kt:75-77 | same length and order, entry i converted by `toCachedPokemon` with its own clock reading `stamps[i]` as its stamp |
| Mappers.ToPokemonList | app/app/src/main/java/com/uvg/mypokedex/data/PokemonMappers.kt:82-84 | same length and order, mapped element by element |
| Mappers.CachedRoundTrip | app/app/src/main/java/com/uvg/mypokedex/data/PokemonMappers.kt:11-48 | caching a Pokemon and reading the row back gives the same Pokemon |
| Mappers.RowRoundTrip | app/app/src/main/java/com/uvg/mypokedex/data/PokemonMappers.kt:11-48 | a row survives the reverse trip exactly when its image is the id-derived one and its stamp is the write time |
| Mappers.ToCachedStamps | app/app/src/main/java/com/uvg/mypokedex/data/PokemonMappers.kt:15-25 | a cached row is stamped with the write time, and its image is the artwork prefix, the decimal id, then `.png` |
| Mappers.ArtworkUrlInjective | app/app/src/main/java/com/uvg/mypokedex/data/PokemonMappers.kt:15 | distinct ids get distinct image locators |
| Mappers.DetailToCachedFields | app/app/src/main/java/com/uvg/mypokedex/data/PokemonMappers.kt:53-70 | the payload's official artwork if present, else the id-derived locator; type names in payload order; all six stats 0; stamped now |
| Mappers.ListRoundTrip | app/app/src/main/java/com/uvg/mypokedex/data/PokemonMappers.kt:75-84 | the two list mappers are inverse on domain lists |
| UiState.DefaultHomeUiState | app/src/main/java/com/uvg/mypokedex/ui/detail/PokemonDetailUiState.kt:7-14 | a fresh list state is empty, idle, unqueried, error-free, by number ascending, and still expects pages |
| UiState.DefaultDetailUiState | app/src/main/java/com/uvg/mypokedex/ui/detail/PokemonDetailUiState.kt:25-30 | a fresh detail state has no Pokemon, no favourite, no loading and no error |
| UiState.SortOrderNamesExact | app/src/main/java/com/uvg/mypokedex/ui/detail/PokemonDetailUiState.kt:16-21 | the four orders have four distinct names, the four order strings |
| SearchTools.DecodeSortOrder | app/app/src/main/java/com/uvg/mypokedex/ui/components/SearchToolsDialog.kt:20-28 | the dialog's pair for a stored order string; stated by DecodeSpec |
| SearchTools.EncodeSortOrder | app/app/src/main/java/com/uvg/mypokedex/ui/components/SearchToolsDialog.kt:134-140 | the result is always one of the four order strings, and `BY_NUMBER_ASC` for an unknown option |
| SearchTools.DecodeSpec | app/app/src/main/java/com/uvg/mypokedex/ui/components/SearchToolsDialog.kt:20-28 | decoding yields an offered option; only the two descending strings give descending, only the name strings give Nombre, and every other string gives (Número, true) |
| SearchTools.EncodeDecode | app/app/src/main/java/com/uvg/mypokedex/ui/components/SearchToolsDialog.kt:134-140 | encoding the decoded pair of any of the four strings gives the string back |
| SearchTools.DecodeEncode | app/app/src/main/java/com/uvg/mypokedex/ui/components/SearchToolsDialog.kt:21-26 | decoding the encoding of an offered option and any direction gives the pair back |
| ListReducer.KeepMatching | app/src/main/java/com/uvg/mypokedex/ui/features/home/HomeViewModel.kt:87-90 | `filter`: the entries for which `Matches` holds, in input order; its counts are KeepMatchingCounts and its order KeepMatchingAppend with KeepMatchingSingle |
| ListReducer.KeepMatchingCounts | app/src/main/java/com/uvg/mypokedex/ui/features/home/HomeViewModel.kt:87-90 | each entry is kept as often as it occurs exactly when its name contains the query ignoring case or its decimal id contains it |
| ListReducer.KeepMatchingAppend | app/src/main/java/com/uvg/mypokedex/ui/features/home/HomeViewModel.kt:87-90 | filtering a concatenation is the concatenation of the filtered parts, so kept entries keep their relative order |
| ListReducer.KeepMatchingSingle | app/src/main/java/com/uvg/mypokedex/ui/features/home/HomeViewModel.kt:87-90 | a one-entry list keeps its entry exactly when it matches; the empty list gives the empty list |
| ListReducer.FilterSpec | app/src/main/java/com/uvg/mypokedex/ui/features/home/HomeViewModel.kt:84-91 | a blank query passes the list through unchanged; otherwise the filter is sound and complete, counting multiplicities |
| ListReducer.Matches | app/src/main/java/com/uvg/mypokedex/ui/features/home/HomeViewModel.kt:88-89 | the filter condition: the name contains the query ignoring case, or the decimal id contains it |
| ListReducer.FilterPokemon | app/src/main/java/com/uvg/mypokedex/ui/features/home/HomeViewModel.kt:84-91 | the list itself for a blank query, otherwise KeepMatching; stated by FilterSpec |
| ListReducer.SortBy | app/src/main/java/com/uvg/mypokedex/ui/features/home/HomeViewModel.kt:220-224 | the stable sort of one order; stated by SortByPermutation, SortBySorted, SortByStable and StableSortUnique |
| ListReducer.SortOrderOf | app/src/main/java/com/uvg/mypokedex/ui/features/home/HomeViewModel.kt:219-225 | the order a string selects, number ascending for any unknown string; stated by SortOrderOfNames |
| ListReducer.ApplySorting | app/src/main/java/com/uvg/mypokedex/ui/features/home/HomeViewModel.kt:218-226 | `applySorting(pokemons, order)`: SortBy under the selected order |
| ListReducer.Reduce | app/src/main/java/com/uvg/mypokedex/ui/detail/ListViewModel.kt:116-126 | the list shown for the loaded entries, a query and an order; stated by ReduceSpec |
| ListReducer.BeforeTotal | app/src/main/java/com/uvg/mypokedex/ui/features/home/HomeViewModel.kt:220-224 | every sort order compares any two entries |
| ListReducer.BeforeTransitive | app/src/main/java/com/uvg/mypokedex/ui/features/home/HomeViewModel.kt:220-224 | every sort order is transitive |
| ListReducer.BeforeBothWays | app/src/main/java/com/uvg/mypokedex/ui/features/home/HomeViewModel.kt:220-224 | two entries are ordered both ways exactly when their sort keys (id or name) are equal |
| ListReducer.SortByPermutation | app/src/main/java/com/uvg/mypokedex/ui/features/home/HomeViewModel.kt:218-226 | sorting neither adds nor drops an entry |
| ListReducer.SortBySorted | app/src/main/java/com/uvg/mypokedex/ui/features/home/HomeViewModel.kt:219-225 | the result is ordered by id or name, ascending or descending as the order says |
| ListReducer.SortByStable | app/src/main/java/com/uvg/mypokedex/ui/features/home/HomeViewModel.kt:220-224 | entries with equal keys keep their input order |
| ListReducer.StableSortUnique | app/src/main/java/com/uvg/mypokedex/ui/features/home/HomeViewModel.kt:220-224 | two sorted lists with the same entries per key, in the same order, are equal, so the stable sort has exactly one result |
| ListReducer.SortOrderOfNames | app/src/main/java/com/uvg/mypokedex/ui/features/home/HomeViewModel.kt:219-225 | each of the four strings selects its own order, and any other string selects number ascending |
| ListReducer.ReduceSpec | app/src/main/java/com/uvg/mypokedex/ui/features/home/HomeViewModel.kt:84-92 | the displayed list is sorted, stable, a permutation of the filtered list, and holds exactly the entries that pass the filter |
| PokemonDao.InsertAll | app/src/main/java/com/uvg/mypokedex/data/local/PokemonDao.kt:20-21 | REPLACE insertion of a list, one entry after the other; stated by InsertAllSpec |
| PokemonDao.Listing | app/src/main/java/com/uvg/mypokedex/data/local/PokemonDao.kt:11-12 | `ORDER BY id ASC` over the table; stated by ListingSpec |
| PokemonDao.PokemonTable.constructor | app/src/main/java/com/uvg/mypokedex/data/local/PokemonDao.kt:8-31 | a fresh table holds no rows |
| PokemonDao.InsertAllSpec | app/src/main/java/com/uvg/mypokedex/data/local/PokemonDao.kt:20-21 | a bulk upsert keeps rows under their ids, stores the old ids plus the listed ones, leaves other rows untouched, and the last entry with an id wins |
| PokemonDao.InsertAllIdempotent | app/src/main/java/com/uvg/mypokedex/data/local/PokemonDao.kt:20-21 | upserting the same list twice is the same as once |
| PokemonDao.ListingSpec | app/src/main/java/com/uvg/mypokedex/data/local/PokemonDao.kt:11-12 | the listing holds every stored row once, in strictly ascending id order |
| PokemonDao.MaxFetched | app/src/main/java/com/uvg/mypokedex/data/local/PokemonDao.kt:29-30 | the value is the stamp of some row and no row has a later one |
| PokemonDao.MaxFetchUnique | app/src/main/java/com/uvg/mypokedex/data/local/PokemonDao.kt:29-30 | the maximum stamp is unique |
| PokemonDao.PokemonTable.GetAllPokemon | app/src/main/java/com/uvg/mypokedex/data/local/PokemonDao.kt:11-12 | the query returns every row once, by ascending id |
| PokemonDao.PokemonTable.GetPokemonById | app/src/main/java/com/uvg/mypokedex/data/local/PokemonDao.kt:14-15 | the row with that id, or nothing exactly when the id is absent |
| PokemonDao.PokemonTable.InsertPokemon | app/src/main/java/com/uvg/mypokedex/data/local/PokemonDao.kt:17-18 | the row replaces the one with its id, and nothing else changes |
| PokemonDao.PokemonTable.InsertAllPokemon | app/src/main/java/com/uvg/mypokedex/data/local/PokemonDao.kt:20-21 | the table becomes the one the entries, inserted one by one, produce |
| PokemonDao.PokemonTable.DeleteAllPokemon | app/src/main/java/com/uvg/mypokedex/data/local/PokemonDao.kt:23-24 | the table is empty afterwards |
| PokemonDao.PokemonTable.GetPokemonCount | app/src/main/java/com/uvg/mypokedex/data/local/PokemonDao.kt:26-27 | the count is the number of stored ids |
| PokemonDao.PokemonTable.GetLastFetchTime | app/src/main/java/com/uvg/mypokedex/data/local/PokemonDao.kt:29-30 | null exactly for an empty table, otherwise the largest stamp |
| Repository.Expired | app/src/main/java/com/uvg/mypokedex/data/repository/PokemonRepository.kt:51-55 | `isCacheExpired()` on a table: no stamp at all, or the newest stamp more than 24 hours before the reading |
| Repository.NeedsRefresh | app/src/main/java/com/uvg/mypokedex/data/repository/PokemonRepository.kt:69 | forced, or the table empty, or expired |
| Repository.PokemonRepository.constructor | app/src/main/java/com/uvg/mypokedex/data/repository/PokemonRepository.kt:17-24 | the repository over its table |
| Repository.EmptyCacheNeedsRefresh | app/src/main/java/com/uvg/mypokedex/data/repository/PokemonRepository.kt:51-69 | an empty table counts as expired, so it always needs a refresh |
| Repository.ExpiryBoundary | app/src/main/java/com/uvg/mypokedex/data/repository/PokemonRepository.kt:51-55 | a newest stamp exactly 24 hours old is fresh, and one millisecond more is expired |
| Repository.FreshRowsUnexpire | app/src/main/java/com/uvg/mypokedex/data/repository/PokemonRepository.kt:51-55 | upserting one row stamped within the last 24 hours makes the table fresh |
| Repository.PokemonRepository.IsCacheEmpty | app/src/main/java/com/uvg/mypokedex/data/repository/PokemonRepository.kt:44-46 | true exactly when the table holds no rows |
| Repository.PokemonRepository.IsCacheExpired | app/src/main/java/com/uvg/mypokedex/data/repository/PokemonRepository.kt:51-55 | true for an empty table, otherwise exactly when the newest stamp is more than 86 400 000 ms old |
| Repository.PokemonRepository.RefreshCacheIfNeeded | app/src/main/java/com/uvg/mypokedex/data/repository/PokemonRepository.kt:61-92 | disconnected gives the no-connection error; connected gives success, whether or not a refresh is needed, and the table is never written |
| Repository.PokemonRepository.CachePokemonList | app/src/main/java/com/uvg/mypokedex/data/repository/PokemonRepository.kt:97-100 | the table becomes the old one with every Pokemon upserted as a row, entry i stamped with the i-th clock reading |
| Repository.CachePokemonListEffect | app/src/main/java/com/uvg/mypokedex/data/repository/PokemonRepository.kt:97-100 | afterwards the ids are the old ones plus the listed ones; unlisted rows are untouched; each listed id holds the row of its last occurrence, stamped with that occurrence's own reading, which reads back as that Pokemon |
| Repository.PokemonRepository.GetPokemonById | app/src/main/java/com/uvg/mypokedex/data/repository/PokemonRepository.kt:105-107 | the mapped stored row, or null exactly when the id is absent |
| Repository.PokemonRepository.ClearCache | app/src/main/java/com/uvg/mypokedex/data/repository/PokemonRepository.kt:112-114 | the table is empty afterwards |
| Repository.PokemonRepository.GetCachedPokemon | app/src/main/java/com/uvg/mypokedex/data/repository/PokemonRepository.kt:35-39 | every stored row once, as a domain Pokemon, by ascending id, and nothing else |
| Repository.CachedListingMembers | app/src/main/java/com/uvg/mypokedex/data/repository/PokemonRepository.kt:35-39 | a Pokemon is in the cached listing exactly when some stored row maps to it |
| Connectivity.CheckInitialConnection | app/src/main/java/com/uvg/mypokedex/data/NetworkMonitor.kt:72-78 | false without an active network or without its capabilities, otherwise INTERNET and VALIDATED |
| Connectivity.IsCurrentlyConnected | app/src/main/java/com/uvg/mypokedex/data/NetworkMonitor.kt:83-85 | the same answer as the initial check |
| Connectivity.Distinct | app/src/main/java/com/uvg/mypokedex/data/NetworkMonitor.kt:67 | `distinctUntilChanged()`: each value that differs from the one before it; stated by the Distinct lemmas |
| Connectivity.DistinctNoRepeats | app/src/main/java/com/uvg/mypokedex/data/NetworkMonitor.kt:67 | the collector never receives the same value twice in a row |
| Connectivity.DistinctKeepsLatest | app/src/main/java/com/uvg/mypokedex/data/NetworkMonitor.kt:67 | nothing is passed on before the first value is sent, at most as many values are passed on as are sent, and the last value passed on is the last one sent |
| Connectivity.DistinctOfNoRepeats | app/src/main/java/com/uvg/mypokedex/data/NetworkMonitor.kt:67 | a stream without repeats passes through unchanged |
| Connectivity.DistinctIdempotent | app/src/main/java/com/uvg/mypokedex/data/NetworkMonitor.kt:67 | the stage applied twice equals the stage applied once |
| Connectivity.RepeatSuppressed | app/src/main/java/com/uvg/mypokedex/data/NetworkMonitor.kt:67 | sending the last value again passes nothing on |
| Connectivity.ConnectivityCollection.constructor | app/src/main/java/com/uvg/mypokedex/data/NetworkMonitor.kt:54-62 | one callback registered, no networks, and the initial answer sent and received |
| Connectivity.ConnectivityCollection.Send | app/src/main/java/com/uvg/mypokedex/data/NetworkMonitor.kt:62-67 | the value is recorded as sent, and the collector's latest value is it |
| Connectivity.ConnectivityCollection.OnAvailable | app/src/main/java/com/uvg/mypokedex/data/NetworkMonitor.kt:25-28 | the network is added without a capability check, true is sent, and the collector's latest value is true |
| Connectivity.ConnectivityCollection.OnLost | app/src/main/java/com/uvg/mypokedex/data/NetworkMonitor.kt:30-33 | the network is removed, and whether any network remains is sent and is the collector's latest value |
| Connectivity.ConnectivityCollection.OnCapabilitiesChanged | app/src/main/java/com/uvg/mypokedex/data/NetworkMonitor.kt:35-51 | the network is added exactly when it has INTERNET and VALIDATED, removed otherwise, and whether any network remains is sent |
| Connectivity.ConnectivityCollection.Close | app/src/main/java/com/uvg/mypokedex/data/NetworkMonitor.kt:64-66 | the one registration is undone and nothing else changes |
| Connectivity.ConnectThenLose | app/src/main/java/com/uvg/mypokedex/data/NetworkMonitor.kt:21-67 | a network found twice and then lost reaches the collector as one change each way |
| Home.Padded | app/src/main/java/com/uvg/mypokedex/ui/features/home/HomeViewModel.kt:231 | `toString().padStart(3, '0')` |
| Home.FileNameForPage | app/src/main/java/com/uvg/mypokedex/ui/features/home/HomeViewModel.kt:228-232 | `getFileNameForPage(page)`; stated by FirstFileName, FileNameSpellsRange and FileNameInjective |
| Home.FirstFileName | app/src/main/java/com/uvg/mypokedex/ui/features/home/HomeViewModel.kt:228-232 | page 0 is `pokemon_001_010.json` |
| Home.FileNameSpellsRange | app/src/main/java/com/uvg/mypokedex/ui/features/home/HomeViewModel.kt:228-232 | a page name spells its first and last id, each in at least three digits |
| Home.FileNameInjective | app/src/main/java/com/uvg/mypokedex/ui/features/home/HomeViewModel.kt:228-232 | different pages name different files |
| Home.HomeViewModel.constructor | app/src/main/java/com/uvg/mypokedex/ui/features/home/HomeViewModel.kt:43-64 | page 0, nothing loaded, idle, no error, no query, and the saved order or `BY_NUMBER_ASC` |
| Home.HomeViewModel.LoadMorePokemonFromJson | app/src/main/java/com/uvg/mypokedex/ui/features/home/HomeViewModel.kt:135-155 | on success the page is appended, the cursor advances by one and the page is cached, entry k stamped with the call's k-th clock reading; on failure only the error is set |
| Home.HomeViewModel.InitializeData | app/src/main/java/com/uvg/mypokedex/ui/features/home/HomeViewModel.kt:100-130 | a non-empty cache leaves everything but the loading flag alone; an empty one loads the first page, caches it, then caches everything read so far, each row stamped with its own clock reading in order; loading is off at the end |
| Home.HomeViewModel.SeedCache | app/src/main/java/com/uvg/mypokedex/ui/features/home/HomeViewModel.kt:109-115 | the empty-cache branch: the first page is loaded and cached with the first readings, then everything read so far is cached with the readings after those; the query, the order and the loading flag are untouched |
| Home.HomeViewModel.UpdateSearchQuery | app/src/main/java/com/uvg/mypokedex/ui/features/home/HomeViewModel.kt:160-162 | only the query changes |
| Home.HomeViewModel.ChangeSortOrder | app/src/main/java/com/uvg/mypokedex/ui/features/home/HomeViewModel.kt:167-171 | the order is saved and the collected copy follows it; nothing else changes |
| Home.HomeViewModel.ForceRefresh | app/src/main/java/com/uvg/mypokedex/ui/features/home/HomeViewModel.kt:176-198 | disconnected sets the no-connection error and leaves loading alone; connected clears the error, shows the repository's error if any, and ends idle; the cache is not written |
| Home.HomeViewModel.ClearError | app/src/main/java/com/uvg/mypokedex/ui/features/home/HomeViewModel.kt:204-206 | only the error changes |
| Home.HomeViewModel.GetPokemons | app/src/main/java/com/uvg/mypokedex/ui/features/home/HomeViewModel.kt:75-95 | the displayed list is the cached listing filtered and sorted; it is sorted by the current order and holds exactly the cached entries that pass the query |
| ListScreen.FileNameForPage | app/src/main/java/com/uvg/mypokedex/ui/detail/ListViewModel.kt:143-147 | this view model's `getFileNameForPage(page)`, only the first bound padded; stated by FirstFileName, FileNameInjective and FileNamesAgreeFromPageNine |
| ListScreen.FirstFileName | app/src/main/java/com/uvg/mypokedex/ui/detail/ListViewModel.kt:143-147 | page 0 is `pokemon_001_10.json` |
| ListScreen.FileNameInjective | app/src/main/java/com/uvg/mypokedex/ui/detail/ListViewModel.kt:143-147 | different pages name different files |
| ListScreen.FileNamesAgreeFromPageNine | app/src/main/java/com/uvg/mypokedex/ui/detail/ListViewModel.kt:143-147 | both list view models ask for the same file exactly from page 9 on; before that this name is one character shorter |
| ListScreen.NewHomeViewModel.constructor | app/src/main/java/com/uvg/mypokedex/ui/detail/ListViewModel.kt:21-33 | empty query and number-ascending order, then the first page loaded and shown as its stable sort by id, or the load error set with nothing shown |
| ListScreen.NewHomeViewModel.OnEvent | app/src/main/java/com/uvg/mypokedex/ui/detail/ListViewModel.kt:36-44 | each event's outcome is its handler's: Search re-derives the list for the query, LoadMore is a no-op or appends the next page or sets the error, UpdateSortOrder re-sorts the shown list, ClearError clears the error, Refresh reloads from page 0; the invariant is kept |
| ListScreen.NewHomeViewModel.HandleSearch | app/src/main/java/com/uvg/mypokedex/ui/detail/ListViewModel.kt:48-63 | the query is stored and the list becomes everything loaded, filtered by the query and sorted by the current order |
| ListScreen.NewHomeViewModel.HandleSortOrderChange | app/src/main/java/com/uvg/mypokedex/ui/detail/ListViewModel.kt:65-72 | the displayed list is re-sorted by the new order into a permutation of itself; the query is unchanged |
| ListScreen.NewHomeViewModel.ClearError | app/src/main/java/com/uvg/mypokedex/ui/detail/ListViewModel.kt:74-76 | only the error changes |
| ListScreen.NewHomeViewModel.Refresh | app/src/main/java/com/uvg/mypokedex/ui/detail/ListViewModel.kt:78-88 | back to page 0 with nothing loaded and a default state keeping the query and order, then page 0 is loaded |
| ListScreen.NewHomeViewModel.LoadMorePokemon | app/src/main/java/com/uvg/mypokedex/ui/detail/ListViewModel.kt:101-141 | no-op while loading or after the last page; success appends, advances by one, re-derives the list and expects more pages exactly when the page was full; failure sets the error and stops paging |
| ListScreen.NewHomeViewModel.GetPokemons | app/src/main/java/com/uvg/mypokedex/ui/detail/ListViewModel.kt:156-158 | the displayed list, sorted by the order and a permutation of the loaded entries that pass the query |
| ListScreen.LoadMoreWhenExhausted | app/src/main/java/com/uvg/mypokedex/ui/detail/ListViewModel.kt:101-141 | once no more pages are expected, repeated `LoadMore` events change nothing |
| DetailScreen.NewDetailViewModel.constructor | app/src/main/java/com/uvg/mypokedex/ui/detail/DetailListViewModel.kt:19-25 | a default state and no favourites |
| DetailScreen.NewDetailViewModel.InitializePokemon | app/src/main/java/com/uvg/mypokedex/ui/detail/DetailListViewModel.kt:29-37 | the Pokemon is shown, its flag is read from the set, loading is off; the set is unchanged |
| DetailScreen.NewDetailViewModel.OnEvent | app/src/main/java/com/uvg/mypokedex/ui/detail/DetailListViewModel.kt:41-47 | toggle and refresh do what their handlers do (toggle flips the flag and the set, refresh clears the error when a Pokemon is shown and changes nothing otherwise); navigating back changes nothing |
| DetailScreen.NewDetailViewModel.HandleToggleFavorite | app/src/main/java/com/uvg/mypokedex/ui/detail/DetailListViewModel.kt:51-72 | no-op without a Pokemon; otherwise the flag flips, the shown id enters or leaves the set to match, and no other id changes |
| DetailScreen.NewDetailViewModel.HandleRefresh | app/src/main/java/com/uvg/mypokedex/ui/detail/DetailListViewModel.kt:74-98 | no-op without a Pokemon; otherwise the error is cleared, loading is off, and the flag stays in step with the set |
| DetailScreen.NewDetailViewModel.GetIsFavourite | app/src/main/java/com/uvg/mypokedex/ui/detail/DetailListViewModel.kt:102-104 | the shown flag, which agrees with the set for the shown Pokemon |
| DetailScreen.NewDetailViewModel.IsFavorite | app/src/main/java/com/uvg/mypokedex/ui/detail/DetailListViewModel.kt:108-110 | membership of the id in the set |
| DetailScreen.NewDetailViewModel.GetAllFavorites | app/src/main/java/com/uvg/mypokedex/ui/detail/DetailListViewModel.kt:112-114 | the set itself |
| DetailScreen.ToggleTwice | app/src/main/java/com/uvg/mypokedex/ui/detail/DetailListViewModel.kt:51-72 | two toggles restore both the screen state and the favourite set |
| DetailScreen.MarkFavorite | app/src/main/java/com/uvg/mypokedex/ui/detail/DetailListViewModel.kt:29-72 | a Pokemon shown and toggled once is the only favourite, and is shown as favourite |

## Left out

- Compose UI, navigation and every screen. These only render.
- Coroutines, flows and their timing: `launch`, `combine`, `stateIn` with `WhileSubscribed`,
  `callbackFlow`. Every operation runs to completion, one at a time.
  - The check-then-set race in `loadMorePokemon` is not modelled.
  - `NewHomeViewModel.Valid` holds `isLoading` false between events, so the `isLoading`
    half of the guard in `loadMorePokemon` (ListViewModel.kt:103) never fires here;
    only a load still running in another coroutine could make it fire.
  - `HomeViewModel` caches a page from a separately launched coroutine. Here that write
    happens inside the call.
- `HomeViewModel`'s `init` block runs `loadSavedSortOrder`, `observeCachedPokemon` and
  `initializeData` (HomeViewModel.kt:66-70). The constructor here covers the first;
  `initializeData` is a separate call (`InitializeData`) that the client makes after
  construction, and `observeCachedPokemon` is `GetPokemons`.
- The `trySend` buffer of the connectivity flow. A send is never dropped here.
- The Room engine, Gson or kotlinx JSON decoding, asset file I/O and Retrofit.
  - The DAO's declared contract is modelled as a map keyed by id.
  - A page read is the `assets` parameter.
- The exception branches of `refreshCacheIfNeeded` ("Error al refrescar caché"),
  `initializeData` ("Error al cargar datos") and `handleRefresh` ("Error al actualizar").
  - Nothing in the modelled code can throw there, because the store and the set
    operations are total here.
- Floating point.
  - Weight and height are an abstract type `Measure`.
  - The detail payload's `/ 10f` conversion is a parameter `tenth`.
- Long subtraction overflow in `isCacheExpired`. Stamps are unbounded integers.
- Int overflow of `page * 10` in the file names. Pages are unbounded naturals.
- Unicode case folding: `contains(ignoreCase = true)` folds ASCII letters only.
- UTF-16 code-unit order: names are compared character by character.
- Logging (`android.util.Log`).
- The preference store (`DataStoreManager`).
  - Only its default `"BY_NUMBER_ASC"` and the save-then-collect effect of
    `changeSortOrder` are modelled.
- Sorting implementation: `sortedBy`/`sortedByDescending` are modelled as a stable insertion
  sort. `StableSortUnique` shows that any stable sort gives the same list.
- The remote fetch of `refreshCacheIfNeeded`. The list it would write is always empty in the
  source, so that path never writes the table, here as there.
- The start-up value of `isConnected`. It stays `false` until the monitor's first value
  arrives. Here it is one boolean sample, and so is the repository's own connectivity check.
