/**
 * The class-structure page (src/components/ClassStructure.jsx): for each year,
 * how many divisions it has and how many practical batches each division is
 * split into, kept as one object keyed by year and saved as one record per
 * year.
 */
module ClassStructure {
  import opened Values
  import opened Storage
  import opened Ui

  /** The two counts the page edits for one year. */
  function Counts(divisions: Value, batches: Value): (r: Record)
    ensures r.Keys == {"num_divisions", "batches_per_division"}
    ensures r["num_divisions"] == divisions && r["batches_per_division"] == batches
  {
    map["num_divisions" := divisions, "batches_per_division" := batches]
  }

  /** The years the page starts with, in the order the object literal lists them. */
  const DefaultYears: seq<string> := ["SY", "TY", "Final Year"]

  /** Two divisions of three batches for SY and TY, one of three for the final year. */
  const Defaults: map<string, Record> := map[
    "SY" := Counts(Num(2), Num(3)),
    "TY" := Counts(Num(2), Num(3)),
    "Final Year" := Counts(Num(1), Num(3))]

  /** No key is listed twice. */
  predicate Distinct(xs: seq<string>)
  {
    forall i, j :: 0 <= i < j < |xs| ==> xs[i] != xs[j]
  }

  /** The keys of an object after `obj[k] = ...`: a new key goes at the end, a known one keeps its place. */
  function AddKey(keys: seq<string>, k: string): (r: seq<string>)
    ensures k in keys ==> r == keys
    ensures k !in keys ==> r == keys + [k]
  {
    if k in keys then keys else keys + [k]
  }

  /** An object's keys stay distinct, and gain exactly `k`, when `k` is assigned. */
  lemma AddKeyKeepsDistinct(keys: seq<string>, k: string)
    requires Distinct(keys)
    ensures Distinct(AddKey(keys, k))
    ensures forall x :: x in AddKey(keys, k) <==> x in keys || x == k
  {
  }

  /** The keys of `{ ...a, ...b }`: those of `a`, then the keys of `b` that `a` lacks, in order. */
  function AddKeys(keys: seq<string>, more: seq<string>): (r: seq<string>)
    decreases |more|
  {
    if more == [] then keys else AddKey(AddKeys(keys, more[..|more| - 1]), more[|more| - 1])
  }

  lemma {:induction false} AddKeysKeepsDistinct(keys: seq<string>, more: seq<string>)
    requires Distinct(keys)
    ensures Distinct(AddKeys(keys, more))
    ensures forall x :: x in AddKeys(keys, more) <==> x in keys || x in more
    decreases |more|
  {
    if more != [] {
      var init := more[..|more| - 1];
      AddKeysKeepsDistinct(keys, init);
      AddKeyKeepsDistinct(AddKeys(keys, init), more[|more| - 1]);
      assert more == init + [more[|more| - 1]];
    }
  }

  /** `parseInt(value) || 0`: the parsed number, or 0 when `parseInt` gives NaN. */
  function ParseIntOrZero(v: Value): (r: Value)
    ensures r.Num?
    ensures ParseIntValue(v).Num? ==> r == ParseIntValue(v)
    ensures ParseIntValue(v) == NaN ==> r == Num(0)
  {
    var p := ParseIntValue(v);
    if p.Num? then p else Num(0)
  }

  /** A number typed into the field is kept as it is. */
  lemma ParseIntOrZeroOfNumber(n: int)
    ensures ParseIntOrZero(Num(n)) == Num(n)
  {
    ParseIntOfNumber(n);
  }

  /** Running what the field stored through the conversion again changes nothing. */
  lemma ParseIntOrZeroTwice(v: Value)
    ensures ParseIntOrZero(ParseIntOrZero(v)) == ParseIntOrZero(v)
  {
    ParseIntOrZeroOfNumber(ParseIntOrZero(v).n);
  }

  /** `handleChange` on the map of structures, with `v` the converted input: only that field of that year changes. */
  function Changed(structures: map<string, Record>, year: string, field: string, v: Value): (r: map<string, Record>)
    ensures r.Keys == structures.Keys + {year}
    ensures forall y :: y in structures && y != year ==> r[y] == structures[y]
    ensures r[year].Keys == (if year in structures then structures[year].Keys else {}) + {field}
    ensures r[year][field] == v
    ensures forall f :: year in structures && f in structures[year] && f != field ==> r[year][f] == structures[year][f]
  {
    var prev := if year in structures then structures[year] else map[];
    structures[year := prev[field := v]]
  }

  /** `num_divisions * batches_per_division` of one year's structure. */
  function TotalBatches(s: Record): Value
  {
    Times(Get(s, "num_divisions"), Get(s, "batches_per_division"))
  }

  /** Once both counts are typed in, the total is the product of the two parsed numbers. */
  lemma TotalOfTypedCounts(structures: map<string, Record>, year: string, divisions: Value, batches: Value)
    ensures var d := ParseIntOrZero(divisions); var b := ParseIntOrZero(batches);
      TotalBatches(Changed(Changed(structures, year, "num_divisions", d), year, "batches_per_division", b)[year]) == Num(d.n * b.n)
  {
    var d := ParseIntOrZero(divisions);
    var b := ParseIntOrZero(batches);
    var s := Changed(Changed(structures, year, "num_divisions", d), year, "batches_per_division", b)[year];
    assert s["num_divisions"] == d;
  }

  /** The record `handleSave` upserts for one year: its two counts and their product. */
  function StructureData(s: Record): (r: Record)
    ensures r.Keys == {"num_divisions", "batches_per_division", "total_batches"} && "year" !in r
    ensures r["num_divisions"] == Get(s, "num_divisions") && r["batches_per_division"] == Get(s, "batches_per_division")
    ensures r["total_batches"] == TotalBatches(s)
  {
    map[
      "num_divisions" := Get(s, "num_divisions"),
      "batches_per_division" := Get(s, "batches_per_division"),
      "total_batches" := TotalBatches(s)]
  }

  /** The class-structure collection after `handleSave` upserted `years` in order. */
  function SavedAll(stored: seq<Record>, years: seq<string>, structures: map<string, Record>, newId: string -> string, now: string): seq<Record>
    requires forall y :: y in years ==> y in structures
    decreases |years|
  {
    if years == [] then stored
    else
      var y := years[|years| - 1];
      UpsertYear(SavedAll(stored, years[..|years| - 1], structures, newId, now), y, StructureData(structures[y]), newId(y), now)
  }

  /** `find` gives year `y` a record carrying the two counts of `x` and their product. */
  predicate StoresStructure(coll: seq<Record>, y: string, x: Record)
  {
    FindYear(coll, y).Some? &&
    var r := FindYear(coll, y).value;
    && Get(r, "year") == Str(y)
    && Get(r, "num_divisions") == Get(x, "num_divisions")
    && Get(r, "batches_per_division") == Get(x, "batches_per_division")
    && Get(r, "total_batches") == TotalBatches(x)
  }

  /** After a save, `find` gives each saved year a record carrying its two counts and their product. */
  lemma {:induction false} SavedAllStoresEachYear(stored: seq<Record>, years: seq<string>, structures: map<string, Record>, newId: string -> string, now: string, y: string)
    requires forall x :: x in years ==> x in structures
    requires Distinct(years) && y in years
    ensures StoresStructure(SavedAll(stored, years, structures, newId, now), y, structures[y])
    decreases |years|
  {
    var init := years[..|years| - 1];
    var last := years[|years| - 1];
    assert forall x :: x in init ==> x in years;
    var before := SavedAll(stored, init, structures, newId, now);
    if last == y {
      UpsertStructure(before, y, structures[y], newId(y), now);
    } else {
      assert y in init;
      assert Distinct(init);
      SavedAllStoresEachYear(stored, init, structures, newId, now, y);
      UpsertOtherStructure(before, last, structures[last], newId(last), now, y, structures[y]);
    }
  }

  /** Upserting another year leaves what `find` reports for `y` as it was. */
  lemma UpsertOtherStructure(before: seq<Record>, last: string, x: Record, id: string, now: string, y: string, z: Record)
    requires last != y && StoresStructure(before, y, z)
    ensures StoresStructure(UpsertYear(before, last, StructureData(x), id, now), y, z)
  {
    UpsertYearOtherYear(before, last, StructureData(x), id, now, y);
  }

  /** One more year saved is one more upsert. */
  lemma SavedAllSnoc(stored: seq<Record>, years: seq<string>, i: int, structures: map<string, Record>, newId: string -> string, now: string)
    requires 0 <= i < |years|
    requires forall x :: x in years ==> x in structures
    ensures forall x :: x in years[..i] ==> x in structures
    ensures SavedAll(stored, years[..i + 1], structures, newId, now)
         == UpsertYear(SavedAll(stored, years[..i], structures, newId, now), years[i], StructureData(structures[years[i]]), newId(years[i]), now)
  {
    assert years[..i + 1][..i] == years[..i];
  }

  /** The record `find` reports after upserting a year's structure data carries that data. */
  lemma UpsertStructure(before: seq<Record>, y: string, x: Record, id: string, now: string)
    ensures StoresStructure(UpsertYear(before, y, StructureData(x), id, now), y, x)
  {
    var data := StructureData(x);
    assert "year" !in data;
    UpsertYearResult(before, y, data, id, now);
    assert "num_divisions" in data && "batches_per_division" in data && "total_batches" in data;
  }

  /** A collection with at most one record per year keeps that after a save. */
  lemma {:induction false} SavedAllOnePerYear(stored: seq<Record>, years: seq<string>, structures: map<string, Record>, newId: string -> string, now: string)
    requires forall x :: x in years ==> x in structures
    requires forall y :: CountYear(stored, y) <= 1
    ensures forall y :: CountYear(SavedAll(stored, years, structures, newId, now), y) <= 1
    decreases |years|
  {
    if years != [] {
      var init := years[..|years| - 1];
      var last := years[|years| - 1];
      assert forall x :: x in init ==> x in years;
      SavedAllOnePerYear(stored, init, structures, newId, now);
      UpsertYearKeepsOnePerYear(SavedAll(stored, init, structures, newId, now), last, StructureData(structures[last]), newId(last), now);
    }
  }

  /** The object key a stored item lands under, `String(item.year)`. */
  function KeyOf(item: Record): string
  {
    ToText(Get(item, "year"))
  }

  /** `structureMap` after the `forEach` over `data`: each item's counts under its year, later items winning. */
  function Loaded(data: seq<Record>): map<string, Record>
    decreases |data|
  {
    if data == [] then map[]
    else
      var item := data[|data| - 1];
      Loaded(data[..|data| - 1])[KeyOf(item) := Counts(Get(item, "num_divisions"), Get(item, "batches_per_division"))]
  }

  /** The keys of `structureMap`, in the order the `forEach` first assigned them. */
  function LoadedKeys(data: seq<Record>): seq<string>
    decreases |data|
  {
    if data == [] then [] else AddKey(LoadedKeys(data[..|data| - 1]), KeyOf(data[|data| - 1]))
  }

  /** The keys of `structureMap` are listed once each. */
  lemma {:induction false} LoadedKeysMatch(data: seq<Record>)
    ensures Distinct(LoadedKeys(data))
    ensures forall y :: y in LoadedKeys(data) <==> y in Loaded(data)
    decreases |data|
  {
    if data != [] {
      var init := data[..|data| - 1];
      LoadedKeysMatch(init);
      AddKeyKeepsDistinct(LoadedKeys(init), KeyOf(data[|data| - 1]));
    }
  }

  /** `structureMap` holds an entry exactly for the years the items name. */
  lemma {:induction false} LoadedYears(data: seq<Record>)
    ensures forall y :: y in Loaded(data) <==> exists j :: 0 <= j < |data| && KeyOf(data[j]) == y
    decreases |data|
  {
    if data != [] {
      var init := data[..|data| - 1];
      var item := data[|data| - 1];
      assert Loaded(data) == Loaded(init)[KeyOf(item) := Counts(Get(item, "num_divisions"), Get(item, "batches_per_division"))];
      LoadedYears(init);
      forall y | y in Loaded(data)
        ensures exists j :: 0 <= j < |data| && KeyOf(data[j]) == y
      {
        if y != KeyOf(data[|data| - 1]) {
          var j :| 0 <= j < |init| && KeyOf(init[j]) == y;
          assert data[j] == init[j];
        }
      }
      forall y | exists j :: 0 <= j < |data| && KeyOf(data[j]) == y
        ensures y in Loaded(data)
      {
        var j :| 0 <= j < |data| && KeyOf(data[j]) == y;
        if j < |init| {
          assert init[j] == data[j];
        }
      }
    }
  }

  /** The entry of a year is taken from the last item of that year. */
  lemma {:induction false} LoadedTakesLast(data: seq<Record>, j: int)
    requires 0 <= j < |data|
    requires forall k :: j < k < |data| ==> KeyOf(data[k]) != KeyOf(data[j])
    ensures KeyOf(data[j]) in Loaded(data)
    ensures Loaded(data)[KeyOf(data[j])] == Counts(Get(data[j], "num_divisions"), Get(data[j], "batches_per_division"))
    decreases |data|
  {
    if j < |data| - 1 {
      var init := data[..|data| - 1];
      assert init[j] == data[j];
      assert forall k :: j < k < |init| ==> init[k] == data[k];
      LoadedTakesLast(init, j);
    }
  }

  /** A year no stored item names keeps the entry it had. */
  lemma LoadKeepsUnstored(structures: map<string, Record>, data: seq<Record>, y: string)
    requires y in structures
    requires forall j :: 0 <= j < |data| ==> KeyOf(data[j]) != y
    ensures (structures + Loaded(data))[y] == structures[y]
  {
    LoadedYears(data);
  }

  /** The page's state: the year keys in object order and each year's structure. */
  class ClassStructureView {
    const store: LocalStore
    var years: seq<string>
    var structures: map<string, Record>

    /** The listed years are exactly the keys of `structures`, each once. */
    predicate Valid()
      reads this
    {
      && Distinct(years)
      && (forall y :: y in years ==> y in structures)
      && (forall y :: y in structures ==> y in years)
    }

    constructor (store: LocalStore)
      ensures this.store == store && years == DefaultYears && structures == Defaults
      ensures Valid()
    {
      this.store := store;
      years := DefaultYears;
      structures := Defaults;
    }

    /** `loadStructures`: the stored counts are laid over the current ones, and only when something is stored. */
    method LoadStructures()
      requires Valid()
      modifies this`years, this`structures
      ensures Valid()
      ensures store.GetAll(ClassStructures) == [] ==> years == old(years) && structures == old(structures)
      ensures store.GetAll(ClassStructures) != [] ==>
        && structures == old(structures) + Loaded(store.GetAll(ClassStructures))
        && years == AddKeys(old(years), LoadedKeys(store.GetAll(ClassStructures)))
    {
      var data := store.GetAll(ClassStructures);
      var structureMap, keys := Collect(data);
      LoadedKeysMatch(data);
      if |keys| > 0 {
        AddKeysKeepsDistinct(years, keys);
        structures := structures + structureMap;
        years := AddKeys(years, keys);
      }
    }

    /** The `forEach` of `loadStructures`, building `structureMap` and, with it, the order of its keys. */
    static method Collect(data: seq<Record>) returns (structureMap: map<string, Record>, keys: seq<string>)
      ensures structureMap == Loaded(data) && keys == LoadedKeys(data)
    {
      structureMap := map[];
      keys := [];
      var i := 0;
      while i < |data|
        invariant 0 <= i <= |data|
        invariant structureMap == Loaded(data[..i]) && keys == LoadedKeys(data[..i])
      {
        assert data[..i + 1][..i] == data[..i];
        var item := data[i];
        structureMap := structureMap[KeyOf(item) := Counts(Get(item, "num_divisions"), Get(item, "batches_per_division"))];
        keys := AddKey(keys, KeyOf(item));
        i := i + 1;
      }
      assert data[..i] == data;
    }

    /** `handleChange(year, field, value)`. */
    method HandleChange(year: string, field: string, value: Value)
      requires Valid()
      modifies this`years, this`structures
      ensures Valid()
      ensures structures == Changed(old(structures), year, field, ParseIntOrZero(value))
      ensures years == AddKey(old(years), year)
    {
      AddKeyKeepsDistinct(years, year);
      structures := Changed(structures, year, field, ParseIntOrZero(value));
      years := AddKey(years, year);
    }

    /** `getTotalBatches(year)`. */
    function GetTotalBatches(year: string): (r: Value)
      reads this
      requires year in structures
      ensures r.Num? <==> ToNumber(Get(structures[year], "num_divisions")).Some? && ToNumber(Get(structures[year], "batches_per_division")).Some?
      ensures r == Times(Get(structures[year], "num_divisions"), Get(structures[year], "batches_per_division"))
    {
      TotalBatches(structures[year])
    }

    /** `handleSave`: every year is upserted once, in key order, with its two counts and their product. */
    method HandleSave(newId: string -> string, now: string)
      requires Valid()
      modifies store
      ensures store.accepting == old(store.accepting)
      ensures store.GetAll(ClassStructures) ==
        if store.accepting then SavedAll(old(store.GetAll(ClassStructures)), years, structures, newId, now) else old(store.GetAll(ClassStructures))
      ensures forall d :: d != ClassStructures ==> store.GetAll(d) == old(store.GetAll(d))
    {
      var i := 0;
      while i < |years|
        invariant 0 <= i <= |years|
        invariant store.accepting == old(store.accepting)
        invariant store.GetAll(ClassStructures) ==
          if store.accepting then SavedAll(old(store.GetAll(ClassStructures)), years[..i], structures, newId, now) else old(store.GetAll(ClassStructures))
        invariant forall d :: d != ClassStructures ==> store.GetAll(d) == old(store.GetAll(d))
      {
        var y := years[i];
        SavedAllSnoc(old(store.GetAll(ClassStructures)), years, i, structures, newId, now);
        var _ := store.UpsertClassStructure(y, StructureData(structures[y]), newId(y), now);
        i := i + 1;
      }
      assert years[..i] == years;
    }
  }
}
