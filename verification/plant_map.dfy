/** The plant-to-element map read from `plant_elm_map.csv`: one entry per row,
    grouped under the SDDP plant the row names. */
module PlantMap {
  import opened Wrappers
  import opened Text
  import opened OrderedDict

  /** An SDDP plant; equal when all three fields are equal. */
  datatype SddpPlant = SddpPlant(system: string, plantType: string, name: string)

  /** One binding of a plant to a PowerFactory element with its share of the plant's output. */
  datatype PlantMapEntry = PlantMapEntry(plant: SddpPlant, weight: real, elmName: string)

  /** A row of the map table, already split into its five columns and with the weight parsed. */
  datatype PlantRow = PlantRow(system: string, plantType: string, name: string, weight: real, elmName: string)

  /** Plant -> its entries, in the order the rows gave them. */
  type PlantMap = Dict<SddpPlant, seq<PlantMapEntry>>

  /** The key a row files under: system and type stripped and lower-cased, name only stripped. */
  function PlantOf(row: PlantRow): SddpPlant {
    SddpPlant(Normalize(row.system), Normalize(row.plantType), Trim(row.name))
  }

  /** The entry a row adds: its plant, its weight and its stripped element name. */
  function EntryOf(row: PlantRow): PlantMapEntry {
    PlantMapEntry(PlantOf(row), row.weight, Trim(row.elmName))
  }

  /** The entry of every row, in row order. */
  function RowEntries(rows: seq<PlantRow>): (es: seq<PlantMapEntry>)
    ensures |es| == |rows|
    ensures forall i :: 0 <= i < |rows| ==> es[i] == EntryOf(rows[i])
  {
    seq(|rows|, i requires 0 <= i < |rows| => EntryOf(rows[i]))
  }

  /** The key of every row, in row order. */
  function RowPlants(rows: seq<PlantRow>): (ps: seq<SddpPlant>)
    ensures |ps| == |rows|
    ensures forall i :: 0 <= i < |rows| ==> ps[i] == PlantOf(rows[i])
  {
    seq(|rows|, i requires 0 <= i < |rows| => PlantOf(rows[i]))
  }

  /** The list `e` ends up in: `[e]` for a plant not yet in the map, else its list plus `e`. */
  function Appended(pm: PlantMap, e: PlantMapEntry): seq<PlantMapEntry> {
    match Get(pm, e.plant)
    case None => [e]
    case Some(es) => es + [e]
  }

  /** Files one entry under its plant. */
  function AddEntry(pm: PlantMap, e: PlantMapEntry): PlantMap {
    Put(pm, e.plant, Appended(pm, e))
  }

  /** `_read_plant_map`, after the header row: every row in turn goes through `AddEntry`. */
  function ReadPlantMap(rows: seq<PlantRow>): PlantMap {
    if |rows| == 0 then []
    else AddEntry(ReadPlantMap(rows[..|rows| - 1]), EntryOf(rows[|rows| - 1]))
  }

  /** Reference grouping: the entries of the rows whose key is `k`, in row order. */
  function EntriesFor(rows: seq<PlantRow>, k: SddpPlant): (es: seq<PlantMapEntry>)
    ensures es == [] <==> forall i :: 0 <= i < |rows| ==> PlantOf(rows[i]) != k
  {
    if |rows| == 0 then []
    else
      var last := EntryOf(rows[|rows| - 1]);
      assert forall i :: 0 <= i < |rows| - 1 ==> rows[..|rows| - 1][i] == rows[i];
      EntriesFor(rows[..|rows| - 1], k) + (if last.plant == k then [last] else [])
  }

  /** All entries of the map, plant by plant in iteration order. */
  function Flatten(pm: PlantMap): seq<PlantMapEntry> {
    if |pm| == 0 then [] else pm[0].1 + Flatten(pm[1..])
  }

  /** `_get_required_plant_types`: the type of every plant in the map. */
  function RequiredPlantTypes(pm: PlantMap): set<string> {
    set i | 0 <= i < |pm| :: pm[i].0.plantType
  }

  /** `_get_required_powerfactory_generators_names`: the element name of every entry. */
  function RequiredGeneratorNames(pm: PlantMap): set<string> {
    set e | e in Flatten(pm) :: e.elmName
  }

  /** The map groups the rows: a plant is present exactly when some row names it, and its
      list holds the entries of those rows and of no other, in row order. */
  lemma {:induction false} ReadPlantMapGroupsRows(rows: seq<PlantRow>)
    ensures Valid(ReadPlantMap(rows))
    ensures forall k :: Get(ReadPlantMap(rows), k) ==
                        if EntriesFor(rows, k) == [] then None else Some(EntriesFor(rows, k))
  {
    if |rows| > 0 {
      var init := rows[..|rows| - 1];
      var e := EntryOf(rows[|rows| - 1]);
      var pm0 := ReadPlantMap(init);
      ReadPlantMapGroupsRows(init);
      var v := Appended(pm0, e);
      assert v == EntriesFor(init, e.plant) + [e];
      assert ReadPlantMap(rows) == Put(pm0, e.plant, v);
      PutValid(pm0, e.plant, v);
      forall k
        ensures Get(ReadPlantMap(rows), k) ==
                if EntriesFor(rows, k) == [] then None else Some(EntriesFor(rows, k))
      {
        PutGet(pm0, e.plant, v, k);
        assert EntriesFor(rows, k) == EntriesFor(init, k) + (if e.plant == k then [e] else []);
        if k != e.plant {
          assert EntriesFor(rows, k) == EntriesFor(init, k);
        }
      }
    }
  }

  /** Plants iterate in the order of the rows that first name them. */
  lemma {:induction false} ReadPlantMapKeyOrder(rows: seq<PlantRow>)
    ensures Keys(ReadPlantMap(rows)) == Distinct(RowPlants(rows))
    decreases |rows|
  {
    if |rows| > 0 {
      ReadPlantMapKeyOrder(rows[..|rows| - 1]);
      KeyOrderStep(ReadPlantMap(rows[..|rows| - 1]), rows);
    }
  }

  /** One row more: its plant joins the keys if it is new. */
  lemma KeyOrderStep(pm: PlantMap, rows: seq<PlantRow>)
    requires |rows| > 0 && Keys(pm) == Distinct(RowPlants(rows[..|rows| - 1]))
    ensures Keys(AddEntry(pm, EntryOf(rows[|rows| - 1]))) == Distinct(RowPlants(rows))
  {
    var e := EntryOf(rows[|rows| - 1]);
    var ps := RowPlants(rows);
    var prefix := ps[..|ps| - 1];
    assert prefix == RowPlants(rows[..|rows| - 1]);
    assert ps[|ps| - 1] == e.plant;
    assert Distinct(ps) == if e.plant in Distinct(prefix) then Distinct(prefix) else Distinct(prefix) + [e.plant];
    PutKeys(pm, e.plant, Appended(pm, e));
  }

  /** Assigning `d[k] = v` swaps the old list of `k` for `v` among the flattened entries. */
  lemma {:induction false} FlattenPut(d: PlantMap, k: SddpPlant, v: seq<PlantMapEntry>)
    ensures var prev := if Get(d, k).Some? then Get(d, k).value else [];
            multiset(Flatten(Put(d, k, v))) + multiset(prev) == multiset(Flatten(d)) + multiset(v)
  {
    var r := Put(d, k, v);
    if |d| == 0 {
      assert r == [(k, v)];
      assert Flatten(r) == v + Flatten(r[1..]);
      assert r[1..] == [];
    } else if d[0].0 == k {
      assert r == [(k, v)] + d[1..];
      assert r[1..] == d[1..];
      assert Flatten(r) == v + Flatten(d[1..]);
      assert Flatten(d) == d[0].1 + Flatten(d[1..]);
      assert Get(d, k) == Some(d[0].1);
    } else {
      var rest := Put(d[1..], k, v);
      assert r == [d[0]] + rest;
      assert r[1..] == rest;
      assert Flatten(r) == d[0].1 + Flatten(rest);
      assert Flatten(d) == d[0].1 + Flatten(d[1..]);
      assert Get(d, k) == Get(d[1..], k);
      FlattenPut(d[1..], k, v);
      var prev: seq<PlantMapEntry> := if Get(d, k).Some? then Get(d, k).value else [];
      calc {
        multiset(Flatten(r)) + multiset(prev);
        multiset(d[0].1) + (multiset(Flatten(rest)) + multiset(prev));
        multiset(d[0].1) + (multiset(Flatten(d[1..])) + multiset(v));
        multiset(Flatten(d)) + multiset(v);
      }
    }
  }

  /** Grouping loses no row and invents none: the map holds exactly one entry per row. */
  lemma {:induction false} ReadPlantMapLossless(rows: seq<PlantRow>)
    ensures multiset(Flatten(ReadPlantMap(rows))) == multiset(RowEntries(rows))
    decreases |rows|
  {
    if |rows| > 0 {
      ReadPlantMapLossless(rows[..|rows| - 1]);
      LosslessStep(rows);
    }
  }

  lemma LosslessStep(rows: seq<PlantRow>)
    requires |rows| > 0
    requires multiset(Flatten(ReadPlantMap(rows[..|rows| - 1]))) == multiset(RowEntries(rows[..|rows| - 1]))
    ensures multiset(Flatten(ReadPlantMap(rows))) == multiset(RowEntries(rows))
  {
    var init := rows[..|rows| - 1];
    var e := EntryOf(rows[|rows| - 1]);
    AddOneEntry(ReadPlantMap(init), e);
    var es := RowEntries(rows);
    assert es == es[..|es| - 1] + [e];
    assert es[..|es| - 1] == RowEntries(init);
  }

  /** Hence the map holds as many entries as there were rows. */
  lemma ReadPlantMapCount(rows: seq<PlantRow>)
    ensures |Flatten(ReadPlantMap(rows))| == |rows|
  {
    ReadPlantMapLossless(rows);
    assert |multiset(Flatten(ReadPlantMap(rows)))| == |multiset(RowEntries(rows))|;
  }

  /** Filing one entry adds exactly that entry to the flattened map. */
  lemma AddOneEntry(pm: PlantMap, e: PlantMapEntry)
    ensures multiset(Flatten(AddEntry(pm, e))) == multiset(Flatten(pm)) + multiset{e}
  {
    var prev: seq<PlantMapEntry> := if Get(pm, e.plant).Some? then Get(pm, e.plant).value else [];
    var v := Appended(pm, e);
    assert v == prev + [e];
    FlattenPut(pm, e.plant, v);
    assert multiset(Flatten(Put(pm, e.plant, v))) + multiset(prev) == multiset(Flatten(pm)) + multiset(v);
    assert multiset(v) == multiset(prev) + multiset{e};
    assert AddEntry(pm, e) == Put(pm, e.plant, v);
    var lhs := multiset(Flatten(AddEntry(pm, e)));
    var rhs := multiset(Flatten(pm)) + multiset{e};
    forall x ensures lhs[x] == rhs[x] {
      assert (lhs + multiset(prev))[x] == (rhs + multiset(prev))[x];
    }
  }

  /** Membership in the flattened entries is membership in some plant's list. */
  lemma {:induction false} InFlatten(pm: PlantMap, e: PlantMapEntry)
    ensures e in Flatten(pm) <==> exists i, j :: 0 <= i < |pm| && 0 <= j < |pm[i].1| && pm[i].1[j] == e
  {
    if |pm| > 0 {
      InFlatten(pm[1..], e);
      if e in Flatten(pm[1..]) {
        var i, j :| 0 <= i < |pm[1..]| && 0 <= j < |pm[1..][i].1| && pm[1..][i].1[j] == e;
        assert pm[i + 1].1[j] == e;
      }
      if e !in pm[0].1 && e !in Flatten(pm[1..]) {
        forall i, j | 0 <= i < |pm| && 0 <= j < |pm[i].1| ensures pm[i].1[j] != e {
          if i > 0 {
            assert pm[1..][i - 1] == pm[i];
          }
        }
      }
    }
  }

  /** The required types are the normalised type cells of the rows. */
  lemma RequiredPlantTypesOfRows(rows: seq<PlantRow>)
    ensures RequiredPlantTypes(ReadPlantMap(rows)) == set i | 0 <= i < |rows| :: Normalize(rows[i].plantType)
  {
    ReadPlantMapKeyOrder(rows);
    TypesOfKeys(ReadPlantMap(rows), rows);
  }

  /** A map keyed by the distinct plants of the rows has the rows' types. */
  lemma TypesOfKeys(pm: PlantMap, rows: seq<PlantRow>)
    requires Keys(pm) == Distinct(RowPlants(rows))
    ensures RequiredPlantTypes(pm) == set i | 0 <= i < |rows| :: Normalize(rows[i].plantType)
  {
    var ps := RowPlants(rows);
    forall t | t in RequiredPlantTypes(pm) ensures t in set i | 0 <= i < |rows| :: Normalize(rows[i].plantType) {
      var i :| 0 <= i < |pm| && pm[i].0.plantType == t;
      assert Keys(pm)[i] == pm[i].0;
      var r :| 0 <= r < |ps| && ps[r] == pm[i].0;
    }
    forall i | 0 <= i < |rows| ensures Normalize(rows[i].plantType) in RequiredPlantTypes(pm) {
      assert ps[i] in Keys(pm);
      var j :| 0 <= j < |pm| && Keys(pm)[j] == ps[i];
    }
  }

  /** The required element names are the stripped element cells of the rows. */
  lemma RequiredGeneratorNamesOfRows(rows: seq<PlantRow>)
    ensures RequiredGeneratorNames(ReadPlantMap(rows)) == set i | 0 <= i < |rows| :: Trim(rows[i].elmName)
  {
    ReadPlantMapLossless(rows);
    ElementNamesOfRows(Flatten(ReadPlantMap(rows)), rows);
  }

  /** Any arrangement of the rows' entries names the rows' elements. */
  lemma ElementNamesOfRows(flat: seq<PlantMapEntry>, rows: seq<PlantRow>)
    requires multiset(flat) == multiset(RowEntries(rows))
    ensures (set e | e in flat :: e.elmName) == set i | 0 <= i < |rows| :: Trim(rows[i].elmName)
  {
    var es := RowEntries(rows);
    SameMembers(flat, es);
    assert (set e | e in flat :: e.elmName) == (set e | e in es :: e.elmName);
    NamesOfRowEntries(rows);
  }

  /** Sequences with equal multisets have the same members. */
  lemma SameMembers<T>(xs: seq<T>, ys: seq<T>)
    requires multiset(xs) == multiset(ys)
    ensures forall x :: x in xs <==> x in ys
  {
    forall x ensures x in xs <==> x in ys {
      assert x in xs <==> x in multiset(xs);
      assert x in ys <==> x in multiset(ys);
    }
  }

  /** The element names of the row entries are the stripped element cells. */
  lemma NamesOfRowEntries(rows: seq<PlantRow>)
    ensures (set e | e in RowEntries(rows) :: e.elmName) == set i | 0 <= i < |rows| :: Trim(rows[i].elmName)
  {
    var es := RowEntries(rows);
    var entryNames := set e | e in es :: e.elmName;
    var cellNames := set i | 0 <= i < |rows| :: Trim(rows[i].elmName);
    forall n | n in entryNames ensures n in cellNames {
      var e :| e in es && e.elmName == n;
      var i :| 0 <= i < |rows| && es[i] == e;
    }
    forall i | 0 <= i < |rows| ensures Trim(rows[i].elmName) in entryNames {
      assert es[i] in es;
    }
  }

  /** Rows whose system and type cells differ only in letter case and surrounding
      whitespace, and whose name cells strip to the same text, share one plant. */
  lemma SamePlantUpToCaseAndPadding(r1: PlantRow, r2: PlantRow,
                                    ps1: string, s1: string, qs1: string, ps2: string, s2: string, qs2: string,
                                    pt1: string, t1: string, qt1: string, pt2: string, t2: string, qt2: string)
    requires r1.system == ps1 + s1 + qs1 && r2.system == ps2 + s2 + qs2
    requires r1.plantType == pt1 + t1 + qt1 && r2.plantType == pt2 + t2 + qt2
    requires IsBlank(ps1) && IsBlank(qs1) && IsBlank(ps2) && IsBlank(qs2)
    requires IsBlank(pt1) && IsBlank(qt1) && IsBlank(pt2) && IsBlank(qt2)
    requires Lower(s1) == Lower(s2) && Lower(t1) == Lower(t2)
    requires Trim(r1.name) == Trim(r2.name)
    ensures PlantOf(r1) == PlantOf(r2)
  {
    assert Normalize(r1.system) == Normalize(r2.system) by {
      NormalizeIgnoresCaseAndPadding(ps1, s1, qs1, ps2, s2, qs2);
    }
    assert Normalize(r1.plantType) == Normalize(r2.plantType) by {
      NormalizeIgnoresCaseAndPadding(pt1, t1, qt1, pt2, t2, qt2);
    }
  }

  /** The name cell keeps its case: plants `Gen` and `gen` of one system and type differ. */
  lemma NameCaseMatters(system: string, plantType: string, weight: real, elmName: string)
    ensures PlantOf(PlantRow(system, plantType, "Gen", weight, elmName))
         != PlantOf(PlantRow(system, plantType, "gen", weight, elmName))
  {
    assert Trim("Gen") == "Gen";
    assert Trim("gen") == "gen";
  }
}
