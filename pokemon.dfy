/** The domain entity `Pokemon` and its fixed-shape statistics record. */
module PokemonModel {
  import opened Wrappers

  /**
   * A Kotlin `Float` (weight in kg, height in m). The core only carries
   * these values from one record to another, so they stay uninterpreted.
   */
  type Measure(==, !new)

  datatype Stats = Stats(
    hp: int,
    attack: int,
    defense: int,
    specialAttack: int,
    specialDefense: int,
    speed: int)

  datatype Pokemon = Pokemon(
    id: int,
    name: string,
    types: seq<string>,
    weight: Measure,
    height: Measure,
    stats: Stats)

  /** The display labels of `Stats.toMap`, in the map's iteration order. */
  const StatLabels: seq<string> := ["HP", "Attack", "Defense", "Sp. Atk", "Sp. Def", "Speed"]

  /** The field a key stands for: 0 = hp, 1 = attack, ..., 5 = speed. */
  function StatField(s: Stats, i: nat): int
    requires i < 6
  {
    if i == 0 then s.hp
    else if i == 1 then s.attack
    else if i == 2 then s.defense
    else if i == 3 then s.specialAttack
    else if i == 4 then s.specialDefense
    else s.speed
  }

  /**
   * `Stats.toMap()`: `mapOf` keeps insertion order, so the map is modelled as
   * its entry sequence, key first.
   */
  function StatsToMap(s: Stats): (entries: seq<(string, int)>)
    ensures |entries| == |StatLabels|
    ensures forall i :: 0 <= i < |entries| ==> entries[i] == (StatLabels[i], StatField(s, i))
  {
    [("HP", s.hp), ("Attack", s.attack), ("Defense", s.defense),
     ("Sp. Atk", s.specialAttack), ("Sp. Def", s.specialDefense), ("Speed", s.speed)]
  }

  /** `map[key]` on an entry sequence: the value of the first entry with that key. */
  function Lookup(entries: seq<(string, int)>, key: string): Option<int> {
    if entries == [] then None
    else if entries[0].0 == key then Some(entries[0].1)
    else Lookup(entries[1..], key)
  }

  /** The map as Dafny's own (unordered) map type. */
  function AsMap(entries: seq<(string, int)>): map<string, int> {
    if entries == [] then map[]
    else AsMap(entries[1..])[entries[0].0 := entries[0].1]
  }

  /** Reading the six labels back out of a map: the partner of StatsToMap. */
  function StatsFromMap(entries: seq<(string, int)>): Option<Stats> {
    match (Lookup(entries, "HP"), Lookup(entries, "Attack"), Lookup(entries, "Defense"),
           Lookup(entries, "Sp. Atk"), Lookup(entries, "Sp. Def"), Lookup(entries, "Speed"))
    case (Some(hp), Some(atk), Some(def), Some(spAtk), Some(spDef), Some(spd)) =>
      Some(Stats(hp, atk, def, spAtk, spDef, spd))
    case _ => None
  }

  lemma StatLabelsDistinct()
    ensures forall i, j :: 0 <= i < j < |StatLabels| ==> StatLabels[i] != StatLabels[j]
  {
  }

  /** Each key of `toMap` finds its own field. */
  lemma StatsToMapLookup(s: Stats, i: nat)
    requires i < |StatLabels|
    ensures Lookup(StatsToMap(s), StatLabels[i]) == Some(StatField(s, i))
  {
    var e := StatsToMap(s);
    assert e[i].0 == StatLabels[i];
    StatLabelsDistinct();
    LookupFindsFirst(e, StatLabels[i], i);
  }

  lemma {:induction false} LookupFindsFirst(entries: seq<(string, int)>, key: string, i: nat)
    requires i < |entries| && entries[i].0 == key
    requires forall j :: 0 <= j < i ==> entries[j].0 != key
    ensures Lookup(entries, key) == Some(entries[i].1)
  {
    if i > 0 {
      LookupFindsFirst(entries[1..], key, i - 1);
    }
  }

  /** No entry is overwritten: the six labels give a map with six keys. */
  lemma StatsToMapHasSixKeys(s: Stats)
    ensures |AsMap(StatsToMap(s))| == 6
  {
    StatLabelsDistinct();
    DistinctKeysKeepAll(StatsToMap(s));
  }

  lemma {:induction false} DistinctKeysKeepAll(entries: seq<(string, int)>)
    requires forall i, j :: 0 <= i < j < |entries| ==> entries[i].0 != entries[j].0
    ensures |AsMap(entries)| == |entries|
    ensures forall i :: 0 <= i < |entries| ==> entries[i].0 in AsMap(entries)
    ensures forall k :: k in AsMap(entries) ==> exists i :: 0 <= i < |entries| && entries[i].0 == k
  {
    if entries != [] {
      var rest := entries[1..];
      DistinctKeysKeepAll(rest);
      assert entries[0].0 !in AsMap(rest);
      forall k | k in AsMap(entries)
        ensures exists i :: 0 <= i < |entries| && entries[i].0 == k
      {
        if k != entries[0].0 {
          var i :| 0 <= i < |rest| && rest[i].0 == k;
          assert entries[i + 1].0 == k;
        }
      }
    }
  }

  /** Reading the map back gives the original record. */
  lemma StatsMapRoundTrip(s: Stats)
    ensures StatsFromMap(StatsToMap(s)) == Some(s)
  {
    StatsToMapLookup(s, 0);
    StatsToMapLookup(s, 1);
    StatsToMapLookup(s, 2);
    StatsToMapLookup(s, 3);
    StatsToMapLookup(s, 4);
    StatsToMapLookup(s, 5);
  }
}
