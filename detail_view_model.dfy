/**
 * `NewDetailViewModel`: the detail screen's `DetailUiState` and the
 * in-memory set of favourite ids it keeps in step with it.
 */
module DetailScreen {
  import opened Wrappers
  import opened PokemonModel
  import opened UiState

  class NewDetailViewModel {
    var uiState: DetailUiState
    var favorites: set<int>

    /**
     * Between events nothing is loading, and when a Pokemon is shown its
     * favourite flag says whether its id is in the set.
     */
    ghost predicate Valid()
      reads this
    {
      && !uiState.isLoading
      && (uiState.pokemon.Some? ==> uiState.isFavorite == (uiState.pokemon.value.id in favorites))
    }

    /** A default state and no favourites. */
    constructor ()
      ensures Valid()
      ensures uiState == DetailUiState() && favorites == {}
    {
      uiState := DetailUiState();
      favorites := {};
    }

    /** `initializePokemon(pokemon)`: shown, its flag read from the set, loading cleared; the error is kept. */
    method InitializePokemon(p: Pokemon)
      requires Valid()
      modifies this
      ensures Valid()
      ensures uiState == old(uiState).(pokemon := Some(p), isFavorite := p.id in favorites, isLoading := false)
      ensures favorites == old(favorites)
    {
      uiState := uiState.(pokemon := Some(p), isFavorite := p.id in favorites, isLoading := false);
    }

    /**
     * `onEvent(event)`: each event does what its handler does; `NavigateBack`
     * is left to the screen and changes nothing here.
     */
    method OnEvent(event: DetailEvent)
      requires Valid()
      modifies this
      ensures Valid()
      ensures event.NavigateBack? ==> uiState == old(uiState) && favorites == old(favorites)
      ensures event.ToggleFavorite? && old(uiState.pokemon).None? ==>
        uiState == old(uiState) && favorites == old(favorites)
      ensures event.ToggleFavorite? && old(uiState.pokemon).Some? ==>
        var id := old(uiState.pokemon).value.id;
        && uiState == old(uiState).(isFavorite := !old(uiState.isFavorite))
        && favorites == if id in old(favorites) then old(favorites) - {id} else old(favorites) + {id}
      ensures event.Refresh? ==> favorites == old(favorites)
      ensures event.Refresh? && old(uiState.pokemon).None? ==> uiState == old(uiState)
      ensures event.Refresh? && old(uiState.pokemon).Some? ==> uiState == old(uiState).(errorMessage := None)
    {
      match event {
        case ToggleFavorite => HandleToggleFavorite();
        case NavigateBack =>
        case Refresh => HandleRefresh();
      }
    }

    /**
     * `handleToggleFavorite()`: without a Pokemon nothing happens; otherwise
     * the flag flips and the shown id is added to or removed from the set to
     * match, and no other id changes.
     */
    method HandleToggleFavorite()
      requires Valid()
      modifies this
      ensures Valid()
      ensures old(uiState.pokemon).None? ==> uiState == old(uiState) && favorites == old(favorites)
      ensures old(uiState.pokemon).Some? ==>
        var id := old(uiState.pokemon).value.id;
        && uiState == old(uiState).(isFavorite := !old(uiState.isFavorite))
        && (id in favorites <==> id !in old(favorites))
        && favorites == if id in old(favorites) then old(favorites) - {id} else old(favorites) + {id}
    {
      if uiState.pokemon.None? {
        return;
      }
      var current := uiState.pokemon.value;
      var newFavoriteState := !uiState.isFavorite;
      if newFavoriteState {
        favorites := favorites + {current.id};
      } else {
        favorites := favorites - {current.id};
      }
      uiState := uiState.(isFavorite := newFavoriteState);
    }

    /**
     * `handleRefresh()`: without a Pokemon nothing happens; otherwise the
     * error is cleared and the flag re-read from the set, which under the
     * invariant leaves it as it was.
     */
    method HandleRefresh()
      requires Valid()
      modifies this
      ensures Valid()
      ensures favorites == old(favorites)
      ensures old(uiState.pokemon).None? ==> uiState == old(uiState)
      ensures old(uiState.pokemon).Some? ==> uiState == old(uiState).(errorMessage := None)
    {
      if uiState.pokemon.None? {
        return;
      }
      var current := uiState.pokemon.value;
      uiState := uiState.(isLoading := true, errorMessage := None);
      uiState := uiState.(isFavorite := current.id in favorites, isLoading := false);
    }

    /** `getIsFavourite()`: the shown flag, which agrees with the set for the shown Pokemon. */
    method GetIsFavourite() returns (b: bool)
      requires Valid()
      ensures b == uiState.isFavorite
      ensures uiState.pokemon.Some? ==> (b <==> uiState.pokemon.value.id in favorites)
    {
      b := uiState.isFavorite;
    }

    /** `isFavorite(pokemonId)`. */
    method IsFavorite(id: int) returns (b: bool)
      ensures b <==> id in favorites
    {
      b := id in favorites;
    }

    /** `getAllFavorites()`: a copy of the set. */
    method GetAllFavorites() returns (ids: set<int>)
      ensures ids == favorites
    {
      ids := favorites;
    }
  }

  /** Toggling twice restores both the screen state and the favourite set. */
  method ToggleTwice(vm: NewDetailViewModel)
    requires vm.Valid()
    modifies vm
    ensures vm.Valid()
    ensures vm.uiState == old(vm.uiState) && vm.favorites == old(vm.favorites)
  {
    vm.OnEvent(ToggleFavorite);
    vm.OnEvent(ToggleFavorite);
  }

  /** A client run: a Pokemon starts out not favourite, one toggle marks it and only it. */
  method MarkFavorite(p: Pokemon) returns (ids: set<int>, shown: bool)
    ensures ids == {p.id} && shown
  {
    var vm := new NewDetailViewModel();
    vm.InitializePokemon(p);
    vm.OnEvent(ToggleFavorite);
    shown := vm.GetIsFavourite();
    ids := vm.GetAllFavorites();
  }
}
