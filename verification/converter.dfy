/** `main` after argument parsing: load the catalogue and the plant map, then write one
    PowerFactory scenario per catalogue entry. */
module Converter {
  import opened Wrappers
  import opened OrderedDict
  import opened Text
  import opened PlantMap
  import opened Weights
  import opened Scenarios
  import opened Tables
  import opened Dispatch

  /** Reference order of the found elements: the names of `ns` that are mapped and that
      the application finds, in the order of `ns`. */
  function Kept(ns: seq<string>, mapped: set<string>, app: string -> Option<string>): seq<string> {
    if |ns| == 0 then []
    else
      var n := ns[|ns| - 1];
      Kept(ns[..|ns| - 1], mapped, app) + (if n in mapped && app(n).Some? then [n] else [])
  }

  /** The names of some elements, in order. */
  function Names(us: seq<Unit>): (ns: seq<string>)
    ensures |ns| == |us|
    ensures forall i :: 0 <= i < |us| ==> ns[i] == us[i].name
  {
    seq(|us|, i requires 0 <= i < |us| => us[i].name)
  }

  /** `_get_powerfactory_objects_by_full_name` over the mapped names: the names of `order`
      (the iteration order of the name set, which Python leaves unspecified) that are
      mapped, once each and in order of first appearance, paired with the class of the
      element the application finds for them; a name the application does not find is
      dropped. */
  function FoundUnits(order: seq<string>, mapped: set<string>, app: string -> Option<string>): (us: seq<Unit>)
    ensures forall i :: 0 <= i < |us| ==> && us[i].name in order && us[i].name in mapped
                                          && app(us[i].name) == Some(us[i].elmClass)
    ensures forall i, j :: 0 <= i < j < |us| ==> us[i].name != us[j].name
  {
    if |order| == 0 then []
    else
      var prev := order[..|order| - 1];
      var n := order[|order| - 1];
      var us := FoundUnits(prev, mapped, app);
      assert order == prev + [n];
      if n in mapped && app(n).Some? && n !in prev then us + [Unit(n, app(n).value)] else us
  }

  /** The elements are kept in the order in which `order` first gives their names. */
  lemma {:induction false} FoundUnitsInOrder(order: seq<string>, mapped: set<string>, app: string -> Option<string>)
    ensures Names(FoundUnits(order, mapped, app)) == Kept(Distinct(order), mapped, app)
  {
    if |order| > 0 {
      var prev := order[..|order| - 1];
      var n := order[|order| - 1];
      FoundUnitsInOrder(prev, mapped, app);
      var us := FoundUnits(prev, mapped, app);
      var ds := Distinct(prev);
      var keep := n in mapped && app(n).Some?;
      assert FoundUnits(order, mapped, app) == if keep && n !in prev then us + [Unit(n, app(n).value)] else us;
      assert Distinct(order) == if n in ds then ds else ds + [n];
      DistinctMembers(prev, n);
      if n !in prev {
        KeptAppend(ds, n, mapped, app);
        if keep {
          NamesAppend(us, Unit(n, app(n).value));
        }
      }
    }
  }

  /** Dropping repetitions keeps every name. */
  lemma DistinctMembers(ks: seq<string>, n: string)
    ensures n in Distinct(ks) <==> n in ks
  {
    var ds := Distinct(ks);
    if n in ds {
      var i :| 0 <= i < |ds| && ds[i] == n;
    }
    if n in ks {
      var i :| 0 <= i < |ks| && ks[i] == n;
    }
  }

  /** One name more is kept at the end when it is mapped and found. */
  lemma KeptAppend(ns: seq<string>, n: string, mapped: set<string>, app: string -> Option<string>)
    ensures Kept(ns + [n], mapped, app) == Kept(ns, mapped, app) + (if n in mapped && app(n).Some? then [n] else [])
  {
    assert (ns + [n])[..|ns|] == ns;
  }

  /** One element more adds its name at the end. */
  lemma NamesAppend(us: seq<Unit>, u: Unit)
    ensures Names(us + [u]) == Names(us) + [u.name]
  {
  }

  /** No mapped name that the application finds is missed. */
  lemma {:induction false} FoundUnitsComplete(order: seq<string>, mapped: set<string>, app: string -> Option<string>,
                                              n: string)
    requires n in order && n in mapped && app(n).Some?
    ensures exists i :: 0 <= i < |FoundUnits(order, mapped, app)| && FoundUnits(order, mapped, app)[i].name == n
  {
    var prev := order[..|order| - 1];
    var us := FoundUnits(prev, mapped, app);
    var r := FoundUnits(order, mapped, app);
    assert order == prev + [order[|order| - 1]];
    if n in prev {
      FoundUnitsComplete(prev, mapped, app, n);
      var i :| 0 <= i < |us| && us[i].name == n;
      assert r[i] == us[i];
    } else {
      assert r[|r| - 1].name == n;
    }
  }

  /** The scenario loop from catalogue position `k` on, with `body` as the work done in
      an activated scenario. A scenario whose body raises is neither finished nor saved,
      and ends the run. */
  function RunFrom(catalogue: ScenarioMap, body: SddpScenario -> Result<seq<Action>, Error>, k: nat): (r: Report)
    requires k <= |catalogue|
    ensures |r.saved| <= |catalogue| - k
    ensures r.failure.None? <==> |r.saved| == |catalogue| - k
    ensures forall i :: 0 <= i < |r.saved| ==>
              r.saved[i].name == catalogue[k + i].1 && body(catalogue[k + i].0) == Success(r.saved[i].actions)
    ensures r.failure.Some? ==> body(catalogue[k + |r.saved|].0) == Failure(r.failure.value)
    decreases |catalogue| - k
  {
    if k == |catalogue| then Report([], None)
    else
      match body(catalogue[k].0)
      case Failure(e) => Report([], Some(e))
      case Success(actions) =>
        var rest := RunFrom(catalogue, body, k + 1);
        var saved := [ScenarioOutput(catalogue[k].1, actions)] + rest.saved;
        assert forall i :: 1 <= i < |saved| ==> saved[i] == rest.saved[i - 1];
        Report(saved, rest.failure)
  }

  /** The work done in one activated scenario: set every found element's output. */
  function ScenarioBody(pm: PlantMap, units: seq<Unit>, durations: DurationSeries, generation: GenerationSeries)
    : SddpScenario -> Result<seq<Action>, Error>
  {
    s => DispatchScenario(pm, units, s, durations, generation)
  }

  /** The plant types no result file is known for. */
  function UnknownTypes(pm: PlantMap): (ts: set<string>)
    ensures forall t :: t in ts <==> t in RequiredPlantTypes(pm) && OutputFileOf(t).None?
  {
    set t | t in RequiredPlantTypes(pm) && OutputFileOf(t).None?
  }

  /** The loading half of `main`: read the plant map, redistribute its weights, and open
      the result file of every plant type, which fails on a type with none. */
  function LoadPlants(plantRows: seq<PlantRow>): Result<PlantMap, Error> {
    match Redistribute(ReadPlantMap(plantRows))
    case Failure(p) => Failure(ZeroTotalWeight(p))
    case Success(pm) =>
      var unknown := UnknownTypes(pm);
      if unknown != {} then Failure(UnknownPlantTypes(unknown)) else Success(pm)
  }

  /** `main` after argument parsing: load the plants, find the mapped elements, then create
      one scenario per catalogue entry; an exception while loading ends the run before any
      scenario is created. */
  function Run(plantRows: seq<PlantRow>, scenarioRows: seq<ScenarioRow>, order: seq<string>,
               app: string -> Option<string>, durations: DurationSeries,
               generation: GenerationSeries): Report
  {
    match LoadPlants(plantRows)
    case Failure(e) => Report([], Some(e))
    case Success(pm) =>
      var units := FoundUnits(order, RequiredGeneratorNames(pm), app);
      RunFrom(ReadScenarioMap(scenarioRows), ScenarioBody(pm, units, durations, generation), 0)
  }

  /** Redistribution changes neither the plants nor the element names, so the two
      requirement sets read off the map are the same before and after it. */
  lemma {:induction false} RedistributeKeepsRequirements(pm: PlantMap, pm': PlantMap)
    requires Redistribute(pm) == Success(pm')
    ensures RequiredPlantTypes(pm') == RequiredPlantTypes(pm)
    ensures RequiredGeneratorNames(pm') == RequiredGeneratorNames(pm)
  {
    assert |Keys(pm')| == |Keys(pm)|;
    forall i | 0 <= i < |pm| ensures pm'[i].0 == pm[i].0 {
      assert Keys(pm')[i] == Keys(pm)[i];
    }
    forall n ensures n in RequiredGeneratorNames(pm') <==> n in RequiredGeneratorNames(pm) {
      ReverseLookupFindsMappedNames(pm, n);
      ReverseLookupFindsMappedNames(pm', n);
      ReverseLookupAfterRedistribute(pm, pm', n);
    }
  }

  /** A plant whose rows' weights add up to zero aborts the run before any scenario is
      written; the plant reported is the first such plant in order of first appearance. */
  lemma {:induction false} RunStopsAtZeroTotal(plantRows: seq<PlantRow>, scenarioRows: seq<ScenarioRow>,
                                              order: seq<string>, app: string -> Option<string>,
                                              durations: DurationSeries, generation: GenerationSeries, i: int)
    requires 0 <= i < |Distinct(RowPlants(plantRows))|
    requires TotalWeight(EntriesFor(plantRows, Distinct(RowPlants(plantRows))[i])) == 0.0
    requires forall j :: 0 <= j < i ==> TotalWeight(EntriesFor(plantRows, Distinct(RowPlants(plantRows))[j])) != 0.0
    ensures Run(plantRows, scenarioRows, order, app, durations, generation)
            == Report([], Some(ZeroTotalWeight(Distinct(RowPlants(plantRows))[i])))
  {
    LoadStopsAtZeroTotal(plantRows, i);
  }

  lemma {:induction false} LoadStopsAtZeroTotal(plantRows: seq<PlantRow>, i: int)
    requires 0 <= i < |Distinct(RowPlants(plantRows))|
    requires TotalWeight(EntriesFor(plantRows, Distinct(RowPlants(plantRows))[i])) == 0.0
    requires forall j :: 0 <= j < i ==> TotalWeight(EntriesFor(plantRows, Distinct(RowPlants(plantRows))[j])) != 0.0
    ensures LoadPlants(plantRows) == Failure(ZeroTotalWeight(Distinct(RowPlants(plantRows))[i]))
  {
    var pm := ReadPlantMap(plantRows);
    ReadPlantMapKeyOrder(plantRows);
    forall j | 0 <= j <= i ensures pm[j].1 == EntriesFor(plantRows, pm[j].0) && pm[j].0 == Distinct(RowPlants(plantRows))[j] {
      MapEntryIsRowGroup(plantRows, j);
    }
    RedistributeFailsAtFirstZero(pm, i);
  }

  /** Once the weights load, a plant type without a result file aborts the run before any
      scenario is written, naming every such type among the rows. */
  lemma {:induction false} RunRejectsUnknownTypes(plantRows: seq<PlantRow>, scenarioRows: seq<ScenarioRow>,
                                                 order: seq<string>, app: string -> Option<string>,
                                                 durations: DurationSeries, generation: GenerationSeries)
    requires forall k :: k in RowPlants(plantRows) ==> TotalWeight(EntriesFor(plantRows, k)) != 0.0
    requires exists i :: 0 <= i < |plantRows| && OutputFileOf(Normalize(plantRows[i].plantType)).None?
    ensures Run(plantRows, scenarioRows, order, app, durations, generation)
            == Report([], Some(UnknownPlantTypes(set i | 0 <= i < |plantRows| && OutputFileOf(Normalize(plantRows[i].plantType)).None?
                                                        :: Normalize(plantRows[i].plantType))))
  {
    LoadRejectsUnknownTypes(plantRows);
  }

  lemma {:induction false} LoadRejectsUnknownTypes(plantRows: seq<PlantRow>)
    requires forall k :: k in RowPlants(plantRows) ==> TotalWeight(EntriesFor(plantRows, k)) != 0.0
    requires exists i :: 0 <= i < |plantRows| && OutputFileOf(Normalize(plantRows[i].plantType)).None?
    ensures LoadPlants(plantRows)
            == Failure(UnknownPlantTypes(set i | 0 <= i < |plantRows| && OutputFileOf(Normalize(plantRows[i].plantType)).None?
                                                :: Normalize(plantRows[i].plantType)))
  {
    RedistributeSucceedsOnRows(plantRows);
    var pm' := Redistribute(ReadPlantMap(plantRows)).value;
    RedistributeKeepsRequirements(ReadPlantMap(plantRows), pm');
    RequiredPlantTypesOfRows(plantRows);
    UnknownTypesOfRows(plantRows, pm');
  }

  /** Entry `j` of the plant map holds a plant of the rows with exactly that plant's rows. */
  lemma MapEntryIsRowGroup(rows: seq<PlantRow>, j: int)
    requires 0 <= j < |ReadPlantMap(rows)|
    ensures |Distinct(RowPlants(rows))| == |ReadPlantMap(rows)|
    ensures ReadPlantMap(rows)[j].0 == Distinct(RowPlants(rows))[j]
    ensures ReadPlantMap(rows)[j].0 in RowPlants(rows)
    ensures ReadPlantMap(rows)[j].1 == EntriesFor(rows, ReadPlantMap(rows)[j].0)
  {
    var pm := ReadPlantMap(rows);
    ReadPlantMapGroupsRows(rows);
    ReadPlantMapKeyOrder(rows);
    assert Keys(pm)[j] == pm[j].0;
    GetAt(pm, j);
  }

  /** Redistribution succeeds when no plant's rows add up to zero. */
  lemma {:induction false} RedistributeSucceedsOnRows(plantRows: seq<PlantRow>)
    requires forall k :: k in RowPlants(plantRows) ==> TotalWeight(EntriesFor(plantRows, k)) != 0.0
    ensures Redistribute(ReadPlantMap(plantRows)).Success?
  {
    var pm := ReadPlantMap(plantRows);
    forall j | 0 <= j < |pm| ensures TotalWeight(pm[j].1) != 0.0 {
      MapEntryIsRowGroup(plantRows, j);
    }
  }

  /** The unknown types of a map whose types are those of the rows are the unknown type
      cells of the rows. */
  lemma UnknownTypesOfRows(rows: seq<PlantRow>, pm: PlantMap)
    requires RequiredPlantTypes(pm) == set i | 0 <= i < |rows| :: Normalize(rows[i].plantType)
    ensures UnknownTypes(pm) == set i | 0 <= i < |rows| && OutputFileOf(Normalize(rows[i].plantType)).None?
                                    :: Normalize(rows[i].plantType)
    ensures (exists i :: 0 <= i < |rows| && OutputFileOf(Normalize(rows[i].plantType)).None?) ==> UnknownTypes(pm) != {}
  {
    var ts := set i | 0 <= i < |rows| && OutputFileOf(Normalize(rows[i].plantType)).None? :: Normalize(rows[i].plantType);
    forall t ensures t in UnknownTypes(pm) <==> t in ts {
      if t in UnknownTypes(pm) {
        var i :| 0 <= i < |rows| && Normalize(rows[i].plantType) == t;
      }
    }
    if exists i :: 0 <= i < |rows| && OutputFileOf(Normalize(rows[i].plantType)).None? {
      var i :| 0 <= i < |rows| && OutputFileOf(Normalize(rows[i].plantType)).None?;
      assert Normalize(rows[i].plantType) in ts;
    }
  }

  /** Whatever happens, the saved scenarios follow the catalogue: the coordinates in order
      of first appearance among the rows, each saved under the trimmed name of the last row
      for it; a run that raises nothing saves all of them. */
  lemma {:induction false} RunSavesCatalogueInOrder(plantRows: seq<PlantRow>, scenarioRows: seq<ScenarioRow>,
                                                   order: seq<string>, app: string -> Option<string>,
                                                   durations: DurationSeries, generation: GenerationSeries)
    ensures |Run(plantRows, scenarioRows, order, app, durations, generation).saved|
            <= |Distinct(RowScenarios(scenarioRows))|
    ensures Run(plantRows, scenarioRows, order, app, durations, generation).failure.None? ==>
              |Run(plantRows, scenarioRows, order, app, durations, generation).saved|
              == |Distinct(RowScenarios(scenarioRows))|
    ensures forall i, j :: 0 <= i < |Run(plantRows, scenarioRows, order, app, durations, generation).saved|
                           && IsLastRowFor(scenarioRows, Distinct(RowScenarios(scenarioRows))[i], j) ==>
              Run(plantRows, scenarioRows, order, app, durations, generation).saved[i].name
              == Trim(scenarioRows[j].name)
  {
    var r := Run(plantRows, scenarioRows, order, app, durations, generation);
    var catalogue := ReadScenarioMap(scenarioRows);
    var ks := Distinct(RowScenarios(scenarioRows));
    ScenarioMapKeyOrder(scenarioRows);
    ScenarioMapLastWriteWins(scenarioRows);
    assert |catalogue| == |ks| by {
      assert |Keys(catalogue)| == |ks|;
    }
    forall i, j | 0 <= i < |r.saved| && IsLastRowFor(scenarioRows, ks[i], j)
      ensures r.saved[i].name == Trim(scenarioRows[j].name)
    {
      assert Keys(catalogue)[i] == catalogue[i].0;
      GetAt(catalogue, i);
    }
  }

  /** Every write of every saved scenario sets `pgini` on an element that the map names
      and the application found: the "plant not found" branch never runs, because only
      mapped names are looked up. */
  lemma {:induction false} RunWritesOnlyMappedElements(plantRows: seq<PlantRow>, scenarioRows: seq<ScenarioRow>,
                                                      order: seq<string>, app: string -> Option<string>,
                                                      durations: DurationSeries, generation: GenerationSeries)
    ensures forall i, a :: 0 <= i < |Run(plantRows, scenarioRows, order, app, durations, generation).saved|
                           && a in Run(plantRows, scenarioRows, order, app, durations, generation).saved[i].actions ==>
              && a.SetAttribute? && a.attribute == "pgini" && a.unit in order && app(a.unit).Some?
              && exists k :: 0 <= k < |plantRows| && Trim(plantRows[k].elmName) == a.unit
  {
    var r := Run(plantRows, scenarioRows, order, app, durations, generation);
    if LoadPlants(plantRows).Success? {
      var pm0 := ReadPlantMap(plantRows);
      var pm := LoadPlants(plantRows).value;
      assert Redistribute(pm0) == Success(pm);
      RedistributeKeepsRequirements(pm0, pm);
      RequiredGeneratorNamesOfRows(plantRows);
      var units := FoundUnits(order, RequiredGeneratorNames(pm), app);
      FoundUnitsWriteMapped(pm, units, order, app, ReadScenarioMap(scenarioRows), durations, generation);
    }
  }

  /** The scenarios run over elements that are mapped and found write only `pgini`
      setpoints, on those elements. */
  lemma FoundUnitsWriteMapped(pm: PlantMap, units: seq<Unit>, order: seq<string>, app: string -> Option<string>,
                              catalogue: ScenarioMap, durations: DurationSeries, generation: GenerationSeries)
    requires forall u :: 0 <= u < |units| ==>
               units[u].name in order && units[u].name in RequiredGeneratorNames(pm) && app(units[u].name).Some?
    ensures forall i, a :: 0 <= i < |RunFrom(catalogue, ScenarioBody(pm, units, durations, generation), 0).saved|
                           && a in RunFrom(catalogue, ScenarioBody(pm, units, durations, generation), 0).saved[i].actions ==>
              && a.SetAttribute? && a.attribute == "pgini" && a.unit in order && app(a.unit).Some?
              && a.unit in RequiredGeneratorNames(pm)
  {
    var r := RunFrom(catalogue, ScenarioBody(pm, units, durations, generation), 0);
    forall i, a | 0 <= i < |r.saved| && a in r.saved[i].actions
      ensures && a.SetAttribute? && a.attribute == "pgini" && a.unit in order && app(a.unit).Some?
              && a.unit in RequiredGeneratorNames(pm)
    {
      SavedActionIsMapped(pm, units, catalogue, durations, generation, i, a);
    }
  }

  /** A write in a saved scenario is a `pgini` setpoint on one of the found elements. */
  lemma SavedActionIsMapped(pm: PlantMap, units: seq<Unit>, catalogue: ScenarioMap,
                            durations: DurationSeries, generation: GenerationSeries, i: int, a: Action)
    requires forall u :: 0 <= u < |units| ==> units[u].name in RequiredGeneratorNames(pm)
    requires 0 <= i < |RunFrom(catalogue, ScenarioBody(pm, units, durations, generation), 0).saved|
    requires a in RunFrom(catalogue, ScenarioBody(pm, units, durations, generation), 0).saved[i].actions
    ensures exists u :: 0 <= u < |units| && a.SetAttribute? && a.unit == units[u].name && a.attribute == "pgini"
  {
    var s := catalogue[i].0;
    assert ScenarioBody(pm, units, durations, generation)(s) == DispatchScenario(pm, units, s, durations, generation);
    ScenarioWritesOnlyMapped(pm, units, s, durations, generation, a);
  }

  /** When `order` enumerates every mapped name, as iterating the name set does, saved
      scenario `i` sets `pgini` on the element of row `k` whenever the application finds it. */
  lemma {:induction false} RunWritesEveryFoundElement(plantRows: seq<PlantRow>, scenarioRows: seq<ScenarioRow>,
                                                     order: seq<string>, app: string -> Option<string>,
                                                     durations: DurationSeries, generation: GenerationSeries,
                                                     i: int, k: int)
    requires forall k' :: 0 <= k' < |plantRows| ==> Trim(plantRows[k'].elmName) in order
    requires 0 <= i < |Run(plantRows, scenarioRows, order, app, durations, generation).saved|
    requires 0 <= k < |plantRows| && app(Trim(plantRows[k].elmName)).Some?
    ensures exists a :: a in Run(plantRows, scenarioRows, order, app, durations, generation).saved[i].actions
                        && a.SetAttribute? && a.unit == Trim(plantRows[k].elmName) && a.attribute == "pgini"
  {
    var pm0 := ReadPlantMap(plantRows);
    var pm := LoadPlants(plantRows).value;
    assert Redistribute(pm0) == Success(pm);
    RedistributeKeepsRequirements(pm0, pm);
    RequiredGeneratorNamesOfRows(plantRows);
    var n := Trim(plantRows[k].elmName);
    assert n in RequiredGeneratorNames(pm0);
    SavedScenarioWritesFound(pm, order, app, ReadScenarioMap(scenarioRows), durations, generation, i, n);
  }

  /** A saved scenario of a run over the found elements sets `pgini` on every mapped name
      of `order` that the application finds. */
  lemma SavedScenarioWritesFound(pm: PlantMap, order: seq<string>, app: string -> Option<string>,
                                 catalogue: ScenarioMap, durations: DurationSeries, generation: GenerationSeries,
                                 i: int, n: string)
    requires n in order && n in RequiredGeneratorNames(pm) && app(n).Some?
    requires 0 <= i < |RunFrom(catalogue, ScenarioBody(pm, FoundUnits(order, RequiredGeneratorNames(pm), app),
                                                       durations, generation), 0).saved|
    ensures exists a :: a in RunFrom(catalogue, ScenarioBody(pm, FoundUnits(order, RequiredGeneratorNames(pm), app),
                                                             durations, generation), 0).saved[i].actions
                        && a.SetAttribute? && a.unit == n && a.attribute == "pgini"
  {
    var units := FoundUnits(order, RequiredGeneratorNames(pm), app);
    FoundUnitsComplete(order, RequiredGeneratorNames(pm), app, n);
    var u :| 0 <= u < |units| && units[u].name == n;
    SavedScenarioWritesUnit(pm, units, catalogue, durations, generation, i, u);
  }

  /** A saved scenario sets `pgini` on every element whose name the map holds. */
  lemma SavedScenarioWritesUnit(pm: PlantMap, units: seq<Unit>, catalogue: ScenarioMap,
                                durations: DurationSeries, generation: GenerationSeries, i: int, u: int)
    requires 0 <= u < |units| && units[u].name in RequiredGeneratorNames(pm)
    requires 0 <= i < |RunFrom(catalogue, ScenarioBody(pm, units, durations, generation), 0).saved|
    ensures exists a :: a in RunFrom(catalogue, ScenarioBody(pm, units, durations, generation), 0).saved[i].actions
                        && a.SetAttribute? && a.unit == units[u].name && a.attribute == "pgini"
  {
    var actions := RunFrom(catalogue, ScenarioBody(pm, units, durations, generation), 0).saved[i].actions;
    var s := catalogue[i].0;
    assert ScenarioBody(pm, units, durations, generation)(s) == DispatchScenario(pm, units, s, durations, generation);
    ScenarioWritesMappedUnit(pm, units, s, durations, generation, u);
    assert actions[u] in actions;
  }
}
