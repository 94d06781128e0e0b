/** Conversions between the domain entity, the cached row and the remote payload. */
module Mappers {
  import opened Wrappers
  import opened Text
  import opened PokemonModel
  import opened CachedRecords

  const ArtworkPrefix := "https://raw.githubusercontent.com/PokeAPI/sprites/master/sprites/pokemon/other/official-artwork/"

  /** The id-derived official-artwork image locator. */
  function ArtworkUrl(id: int): string {
    ArtworkPrefix + IntToDecimal(id) + ".png"
  }

  /** `Pokemon.toCachedPokemon()`, with the wall clock `now` passed in. */
  function ToCached(p: Pokemon, now: int): CachedPokemon {
    CachedPokemon(p.id, p.name, ArtworkUrl(p.id), p.types, p.weight, p.height,
      p.stats.hp, p.stats.attack, p.stats.defense,
      p.stats.specialAttack, p.stats.specialDefense, p.stats.speed, now)
  }

  /** `CachedPokemon.toPokemon()`. */
  function ToPokemon(c: CachedPokemon): Pokemon {
    Pokemon(c.id, c.name, c.types, c.weight, c.height,
      Stats(c.hp, c.attack, c.defense, c.specialAttack, c.specialDefense, c.speed))
  }

  /**
   * `PokemonDetailResponse.toCachedPokemon()`. `tenth` stands for the float
   * conversion `x / 10f` that turns hectograms and decimetres into kg and m.
   */
  function DetailToCached(r: PokemonDetailResponse, now: int, tenth: int -> Measure): CachedPokemon {
    var artwork :=
      match r.sprites.other
      case Some(OtherSprites(Some(OfficialArtwork(Some(url))))) => Some(url)
      case _ => None;
    CachedPokemon(r.id, r.name, artwork.GetOr(ArtworkUrl(r.id)),
      seq(|r.types|, i requires 0 <= i < |r.types| => r.types[i].info.name),
      tenth(r.weight), tenth(r.height), 0, 0, 0, 0, 0, 0, now)
  }

  /**
   * `List<Pokemon>.toCachedPokemonList()`. Each conversion reads the clock for
   * its default stamp, so entry `i` is stamped with its own reading `stamps[i]`.
   */
  function ToCachedList(ps: seq<Pokemon>, stamps: seq<int>): (cs: seq<CachedPokemon>)
    requires |stamps| == |ps|
    ensures |cs| == |ps|
    ensures forall i :: 0 <= i < |ps| ==> cs[i] == ToCached(ps[i], stamps[i])
  {
    if ps == [] then [] else [ToCached(ps[0], stamps[0])] + ToCachedList(ps[1..], stamps[1..])
  }

  /** `List<CachedPokemon>.toPokemonList()`. */
  function ToPokemonList(cs: seq<CachedPokemon>): (ps: seq<Pokemon>)
    ensures |ps| == |cs|
    ensures forall i :: 0 <= i < |cs| ==> ps[i] == ToPokemon(cs[i])
  {
    if cs == [] then [] else [ToPokemon(cs[0])] + ToPokemonList(cs[1..])
  }

  /** Caching a Pokemon and reading it back loses nothing. */
  lemma CachedRoundTrip(p: Pokemon, now: int)
    ensures ToPokemon(ToCached(p, now)) == p
  {
  }

  /**
   * The other direction: a row survives the trip through the domain entity
   * exactly when its image locator is the id-derived one and its stamp is `now`.
   */
  lemma RowRoundTrip(c: CachedPokemon, now: int)
    ensures ToCached(ToPokemon(c), now) == c <==> c.imageUrl == ArtworkUrl(c.id) && c.lastFetchedAt == now
  {
  }

  /** The row's stamp is always the write time and its image is derived from the id. */
  lemma ToCachedStamps(p: Pokemon, now: int)
    ensures ToCached(p, now).lastFetchedAt == now
    ensures ToCached(p, now).imageUrl == ArtworkPrefix + IntToDecimal(p.id) + ".png"
  {
  }

  /** Distinct ids get distinct image locators. */
  lemma ArtworkUrlInjective(a: int, b: int)
    requires ArtworkUrl(a) == ArtworkUrl(b)
    ensures a == b
  {
    var sa, sb := IntToDecimal(a), IntToDecimal(b);
    var n := |ArtworkPrefix|;
    assert |sa| == |sb|;
    assert sa == ArtworkUrl(a)[n..n + |sa|];
    assert sb == ArtworkUrl(b)[n..n + |sb|];
    IntToDecimalInjective(a, b);
  }

  /**
   * The remote payload's row: the official artwork when the payload has one,
   * the id-derived locator otherwise; the type names in payload order; all six
   * stats zero; stamped with `now`.
   */
  lemma DetailToCachedFields(r: PokemonDetailResponse, now: int, tenth: int -> Measure)
    ensures var c := DetailToCached(r, now, tenth);
      && c.id == r.id && c.name == r.name && c.lastFetchedAt == now
      && (r.sprites.other.Some? && r.sprites.other.value.officialArtwork.Some?
          && r.sprites.other.value.officialArtwork.value.frontDefault.Some? ==>
            c.imageUrl == r.sprites.other.value.officialArtwork.value.frontDefault.value)
      && (r.sprites.other.None? || r.sprites.other.value.officialArtwork.None?
          || r.sprites.other.value.officialArtwork.value.frontDefault.None? ==>
            c.imageUrl == ArtworkUrl(r.id))
      && |c.types| == |r.types|
      && (forall i :: 0 <= i < |r.types| ==> c.types[i] == r.types[i].info.name)
      && c.hp == c.attack == c.defense == c.specialAttack == c.specialDefense == c.speed == 0
  {
  }

  /** The list mappers are inverse too. */
  lemma {:induction false} ListRoundTrip(ps: seq<Pokemon>, stamps: seq<int>)
    requires |stamps| == |ps|
    ensures ToPokemonList(ToCachedList(ps, stamps)) == ps
  {
    if ps != [] {
      ListRoundTrip(ps[1..], stamps[1..]);
    }
  }
}
