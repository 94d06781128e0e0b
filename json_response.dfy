/** The bundled page format (`PokemonJsonResponse`) and its conversion to the domain entity. */
module JsonResponse {
  import opened Wrappers
  import opened PokemonModel

  datatype Range = Range(start: int, end: int)

  datatype StatJson = StatJson(name: string, value: int)

  datatype PokemonJson = PokemonJson(
    id: int,
    name: string,
    types: seq<string>,   // the JSON key is `type`
    weight: Measure,
    height: Measure,
    stats: seq<StatJson>)

  datatype PokemonJsonResponse = PokemonJsonResponse(range: Range, items: seq<PokemonJson>)

  /** The JSON stat names read, in the order of the `Stats` fields. */
  const JsonStatNames: seq<string> :=
    ["hp", "attack", "defense", "special-attack", "special-defense", "speed"]

  /** Entry `i` is the first one called `name`. */
  predicate IsFirstNamed(stats: seq<StatJson>, i: int, name: string) {
    && 0 <= i < |stats|
    && stats[i].name == name
    && forall j :: 0 <= j < i ==> stats[j].name != name
  }

  /** `stats.find { it.name == name }`: the first entry with that name, if any. */
  function FindStat(stats: seq<StatJson>, name: string): (r: Option<StatJson>)
    ensures r.None? <==> forall i :: 0 <= i < |stats| ==> stats[i].name != name
    ensures r.Some? ==> exists i :: IsFirstNamed(stats, i, name) && stats[i] == r.value
  {
    if stats == [] then None
    else if stats[0].name == name then (assert IsFirstNamed(stats, 0, name); Some(stats[0]))
    else
      var r := FindStat(stats[1..], name);
      assert r.Some? ==> exists i :: IsFirstNamed(stats, i, name) && stats[i] == r.value by {
        if r.Some? {
          var i :| IsFirstNamed(stats[1..], i, name) && stats[1..][i] == r.value;
          assert IsFirstNamed(stats, i + 1, name) by {
            forall j | 0 <= j < i + 1 ensures stats[j].name != name {
              if j > 0 { assert stats[j] == stats[1..][j - 1]; }
            }
          }
        }
      }
      r
  }

  /** `stats.find { it.name == name }?.value ?: 0`. */
  function StatValue(stats: seq<StatJson>, name: string): int {
    match FindStat(stats, name)
    case Some(s) => s.value
    case None => 0
  }

  /** `PokemonJson.toPokemon()`. */
  function JsonToPokemon(j: PokemonJson): Pokemon {
    Pokemon(j.id, j.name, j.types, j.weight, j.height,
      Stats(StatValue(j.stats, "hp"), StatValue(j.stats, "attack"), StatValue(j.stats, "defense"),
            StatValue(j.stats, "special-attack"), StatValue(j.stats, "special-defense"),
            StatValue(j.stats, "speed")))
  }

  /** `response.items.map { it.toPokemon() }`. */
  function ItemsToPokemon(items: seq<PokemonJson>): (ps: seq<Pokemon>)
    ensures |ps| == |items|
    ensures forall i :: 0 <= i < |items| ==> ps[i] == JsonToPokemon(items[i])
  {
    if items == [] then [] else [JsonToPokemon(items[0])] + ItemsToPokemon(items[1..])
  }

  /**
   * Identity, name, types and measures pass through, and stat field i (hp,
   * attack, ..., speed) is the value of the first JSON stat named
   * JsonStatNames[i], or 0 when no entry has that name.
   */
  lemma JsonToPokemonFields(j: PokemonJson, i: nat)
    requires i < 6
    ensures var p := JsonToPokemon(j);
      && p.id == j.id && p.name == j.name && p.types == j.types
      && p.weight == j.weight && p.height == j.height
      && ((forall k :: 0 <= k < |j.stats| ==> j.stats[k].name != JsonStatNames[i]) ==>
            StatField(p.stats, i) == 0)
      && (forall k :: IsFirstNamed(j.stats, k, JsonStatNames[i]) ==>
            StatField(p.stats, i) == j.stats[k].value)
  {
    var name := JsonStatNames[i];
    var p := JsonToPokemon(j);
    assert StatField(p.stats, i) == StatValue(j.stats, name);
    forall k | IsFirstNamed(j.stats, k, name)
      ensures StatValue(j.stats, name) == j.stats[k].value
    {
      var r := FindStat(j.stats, name);
      var k' :| IsFirstNamed(j.stats, k', name) && j.stats[k'] == r.value;
      assert k' == k by {
        if k' < k { assert false; } else if k < k' { assert false; }
      }
    }
  }

  /** An empty stats list gives all-zero statistics. */
  lemma EmptyStatsAreZero(j: PokemonJson)
    requires j.stats == []
    ensures JsonToPokemon(j).stats == Stats(0, 0, 0, 0, 0, 0)
  {
  }

  /** An entry whose name is none of the six read names changes nothing, wherever it stands. */
  lemma OtherStatNamesIgnored(j: PokemonJson, k: nat, extra: StatJson)
    requires k <= |j.stats| && extra.name !in JsonStatNames
    ensures JsonToPokemon(j.(stats := j.stats[..k] + [extra] + j.stats[k..])) == JsonToPokemon(j)
  {
    NotAStatName(extra.name);
    FindStatSkips(j.stats, k, extra, "hp");
    FindStatSkips(j.stats, k, extra, "attack");
    FindStatSkips(j.stats, k, extra, "defense");
    FindStatSkips(j.stats, k, extra, "special-attack");
    FindStatSkips(j.stats, k, extra, "special-defense");
    FindStatSkips(j.stats, k, extra, "speed");
  }

  lemma NotAStatName(n: string)
    requires n !in JsonStatNames
    ensures n != "hp" && n != "attack" && n != "defense"
    ensures n != "special-attack" && n != "special-defense" && n != "speed"
  {
    assert n != JsonStatNames[0] && n != JsonStatNames[1] && n != JsonStatNames[2];
    assert n != JsonStatNames[3] && n != JsonStatNames[4] && n != JsonStatNames[5];
  }

  lemma {:induction false} FindStatSkips(stats: seq<StatJson>, k: nat, extra: StatJson, name: string)
    requires k <= |stats| && extra.name != name
    ensures FindStat(stats[..k] + [extra] + stats[k..], name) == FindStat(stats, name)
  {
    var s := stats[..k] + [extra] + stats[k..];
    if k == 0 {
      assert s[1..] == stats;
    } else {
      assert s[0] == stats[0];
      assert s[1..] == stats[1..][..k - 1] + [extra] + stats[1..][k - 1..];
      FindStatSkips(stats[1..], k - 1, extra, name);
    }
  }
}
