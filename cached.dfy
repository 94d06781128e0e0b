/** The persisted row of the `cached_pokemon` table, and the remote detail payload. */
module CachedRecords {
  import opened Wrappers
  import opened PokemonModel

  /**
   * One row of `cached_pokemon`, keyed by `id`. `lastFetchedAt` is
   * milliseconds since the epoch, stamped when the row is built.
   */
  datatype CachedPokemon = CachedPokemon(
    id: int,
    name: string,
    imageUrl: string,
    types: seq<string>,
    weight: Measure,
    height: Measure,
    hp: int,
    attack: int,
    defense: int,
    specialAttack: int,
    specialDefense: int,
    speed: int,
    lastFetchedAt: int)

  // The remote detail endpoint's payload (`PokemonDetailResponse`).

  datatype TypeInfo = TypeInfo(name: string, url: string)

  datatype PokemonType = PokemonType(slot: int, info: TypeInfo)   // the JSON key is `type`

  datatype OfficialArtwork = OfficialArtwork(frontDefault: Option<string>)

  datatype OtherSprites = OtherSprites(officialArtwork: Option<OfficialArtwork>)

  datatype PokemonSprites = PokemonSprites(frontDefault: Option<string>, other: Option<OtherSprites>)

  /** Weight in hectograms and height in decimetres, as the API sends them. */
  datatype PokemonDetailResponse = PokemonDetailResponse(
    id: int,
    name: string,
    height: int,
    weight: int,
    types: seq<PokemonType>,
    sprites: PokemonSprites)
}
