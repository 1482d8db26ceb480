/** The dispatch loop of `main`: for every scenario of the catalogue and every mapped
    PowerFactory element, find the element's plant, read the plant's generation and
    turn it into the element's active-power setpoint. */
module Dispatch {
  import opened Wrappers
  import opened OrderedDict
  import opened PlantMap
  import opened Weights
  import opened Scenarios
  import opened Tables

  /** The exceptions that end a run. */
  datatype Error =
    | ZeroTotalWeight(plant: SddpPlant)                          // ZeroDivisionError in `_redistribute_weights`
    | UnknownPlantTypes(types: set<string>)                      // KeyError on `_PLANT_TYPE_OUTPUT_MAP`
    | MissingDuration(scenario: SddpScenario)                    // no duration for the scenario
    | ZeroDuration(scenario: SddpScenario)                       // ZeroDivisionError in `1000.0 / duration`, float duration
    | UnknownClass(elmClass: string)                             // KeyError on the class tables
    | MissingGeneration(plant: SddpPlant, scenario: SddpScenario) // no generation value for the plant

  /** A PowerFactory element the application found for a mapped name, with its class. */
  datatype Unit = Unit(name: string, elmClass: string)

  /** The plant an element was traced back to, and that entry's share. */
  datatype Match = Match(plant: SddpPlant, weight: real)

  /** What the loop does for one element: `setattr(elm, attribute, value)`, or report
      "Plant not found for generator" and write nothing. */
  datatype Action = SetAttribute(unit: string, attribute: string, value: real) | PlantNotFound(unit: string)

  /** One PowerFactory scenario, created, written and saved under its catalogue name. */
  datatype ScenarioOutput = ScenarioOutput(name: string, actions: seq<Action>)

  /** The scenarios saved before the run ended, and the exception that ended it, if any. */
  datatype Report = Report(saved: seq<ScenarioOutput>, failure: Option<Error>)

  /** The duration series: block length in hours per scenario; `None` where the lookup raises. */
  type DurationSeries = SddpScenario -> Option<real>

  /** The generation series: (plant type, plant name, scenario) -> energy of the block. */
  type GenerationSeries = (string, string, SddpScenario) -> Option<real>

  // ---------------------------------------------------------------------------
  // Reverse lookup: element name -> plant

  /** No entry of the plants at positions `lo` to `hi - 1` names element `elmName`. */
  ghost predicate NoMatchIn(pm: PlantMap, elmName: string, lo: int, hi: int)
    requires 0 <= lo && hi <= |pm|
  {
    forall i, j :: lo <= i < hi && 0 <= j < |pm[i].1| ==> pm[i].1[j].elmName != elmName
  }

  /** Entry `j` of plant `i` is the first entry for `elmName` in iteration order:
      no earlier plant has one, and no earlier entry of plant `i` does. */
  ghost predicate IsFirstMatch(pm: PlantMap, elmName: string, i: int, j: int) {
    IsFirstMatchFrom(pm, elmName, 0, i, j)
  }

  /** The same, for a search that starts at plant `lo`. */
  ghost predicate IsFirstMatchFrom(pm: PlantMap, elmName: string, lo: int, i: int, j: int) {
    && 0 <= lo <= i < |pm| && 0 <= j < |pm[i].1|
    && pm[i].1[j].elmName == elmName
    && NoMatchIn(pm, elmName, lo, i)
    && forall j' :: 0 <= j' < j ==> pm[i].1[j'].elmName != elmName
  }

  /** The inner loop: the position of the first entry of `es` for `elmName`. */
  function FirstEntryFrom(es: seq<PlantMapEntry>, elmName: string, j: nat): (r: Option<nat>)
    requires j <= |es|
    ensures r.None? <==> forall j' :: j <= j' < |es| ==> es[j'].elmName != elmName
    ensures r.Some? ==> j <= r.value < |es| && es[r.value].elmName == elmName
                        && forall j' :: j <= j' < r.value ==> es[j'].elmName != elmName
    decreases |es| - j
  {
    if j == |es| then None
    else if es[j].elmName == elmName then Some(j)
    else FirstEntryFrom(es, elmName, j + 1)
  }

  /** The outer loop, from plant `i` on: the first plant with an entry for `elmName`. */
  function LookupFrom(pm: PlantMap, elmName: string, i: nat): (r: Option<Match>)
    requires i <= |pm|
    ensures r.None? <==> NoMatchIn(pm, elmName, i, |pm|)
    ensures r.Some? ==> exists i', j :: IsFirstMatchFrom(pm, elmName, i, i', j)
                                        && r.value == Match(pm[i'].0, pm[i'].1[j].weight)
    decreases |pm| - i
  {
    if i == |pm| then None
    else
      match FirstEntryFrom(pm[i].1, elmName, 0)
      case Some(j) =>
        assert IsFirstMatchFrom(pm, elmName, i, i, j);
        Some(Match(pm[i].0, pm[i].1[j].weight))
      case None =>
        var r := LookupFrom(pm, elmName, i + 1);
        assert r.Some? ==> exists i', j :: IsFirstMatchFrom(pm, elmName, i, i', j)
                                           && r.value == Match(pm[i'].0, pm[i'].1[j].weight)
        by {
          if r.Some? {
            var i', j :| IsFirstMatchFrom(pm, elmName, i + 1, i', j)
                         && r.value == Match(pm[i'].0, pm[i'].1[j].weight);
            assert IsFirstMatchFrom(pm, elmName, i, i', j);
          }
        }
        r
  }

  /** The nested search of `main`: the first (plant, entry) in iteration order whose
      element name is `elmName`, with that entry's weight; `None` when there is none. */
  function ReverseLookup(pm: PlantMap, elmName: string): (r: Option<Match>)
    ensures r.None? <==> NoMatchIn(pm, elmName, 0, |pm|)
    ensures r.Some? ==> exists i, j :: IsFirstMatch(pm, elmName, i, j)
                                       && r.value == Match(pm[i].0, pm[i].1[j].weight)
  {
    LookupFrom(pm, elmName, 0)
  }

  /** The inner loop stops at the first entry for `elmName`. */
  lemma FirstEntryFromFinds(es: seq<PlantMapEntry>, elmName: string, j: int)
    requires 0 <= j < |es| && es[j].elmName == elmName
    requires forall j' :: 0 <= j' < j ==> es[j'].elmName != elmName
    ensures FirstEntryFrom(es, elmName, 0) == Some(j)
  {
    var f := FirstEntryFrom(es, elmName, 0);
    assert f.Some?;
    assert !(f.value < j) && !(j < f.value);
  }

  /** From any start at or before the first match, the search stops at that match. */
  lemma {:induction false} LookupFromFindsFirst(pm: PlantMap, elmName: string, start: nat, i: int, j: int)
    requires start <= i < |pm| && 0 <= j < |pm[i].1| && pm[i].1[j].elmName == elmName
    requires NoMatchIn(pm, elmName, start, i)
    requires forall j' :: 0 <= j' < j ==> pm[i].1[j'].elmName != elmName
    ensures LookupFrom(pm, elmName, start) == Some(Match(pm[i].0, pm[i].1[j].weight))
    decreases i - start
  {
    if start < i {
      var es := pm[start].1;
      assert forall j' :: 0 <= j' < |es| ==> es[j'].elmName != elmName;
      assert FirstEntryFrom(es, elmName, 0).None?;
      LookupFromFindsFirst(pm, elmName, start + 1, i, j);
    } else {
      FirstEntryFromFinds(pm[i].1, elmName, j);
    }
  }

  /** The lookup answers with the first match, whichever it is. */
  lemma FirstMatchUnique(pm: PlantMap, elmName: string, i: int, j: int)
    requires IsFirstMatch(pm, elmName, i, j)
    ensures ReverseLookup(pm, elmName) == Some(Match(pm[i].0, pm[i].1[j].weight))
  {
    LookupFromFindsFirst(pm, elmName, 0, i, j);
  }

  /** An element finds a plant exactly when the map names it somewhere. */
  lemma ReverseLookupFindsMappedNames(pm: PlantMap, elmName: string)
    ensures ReverseLookup(pm, elmName).Some? <==> elmName in RequiredGeneratorNames(pm)
  {
    if ReverseLookup(pm, elmName).Some? {
      var i, j :| IsFirstMatch(pm, elmName, i, j)
                  && ReverseLookup(pm, elmName).value == Match(pm[i].0, pm[i].1[j].weight);
      InFlatten(pm, pm[i].1[j]);
    } else if elmName in RequiredGeneratorNames(pm) {
      var e :| e in Flatten(pm) && e.elmName == elmName;
      InFlatten(pm, e);
      assert false;
    }
  }

  /** Redistribution keeps the plants in place and each entry's element name. */
  lemma {:induction false} RedistributeKeepsNames(pm: PlantMap, pm': PlantMap, i: int, j: int)
    requires Redistribute(pm) == Success(pm')
    requires 0 <= i < |pm| && 0 <= j < |pm[i].1|
    ensures |pm'| == |pm| && pm'[i].0 == pm[i].0
    ensures |pm'[i].1| == |pm[i].1| && pm'[i].1[j].elmName == pm[i].1[j].elmName
    ensures RescaledShare(pm'[i].1[j].weight, pm[i].1[j].weight, TotalWeight(pm[i].1))
  {
    assert Keys(pm')[i] == Keys(pm)[i];
    var before, after := pm[i].1, pm'[i].1;
    assert ScaledBy(before, after, TotalWeight(before)) by {
      assert Reweighted(before, after);
    }
  }

  /** Redistribution changes no element name, so a range of plants matches before it
      exactly when it matches after. */
  lemma {:induction false} RedistributeKeepsNoMatch(pm: PlantMap, pm': PlantMap, elmName: string, hi: int)
    requires Redistribute(pm) == Success(pm')
    requires 0 <= hi <= |pm|
    ensures |pm'| == |pm|
    ensures NoMatchIn(pm', elmName, 0, hi) <==> NoMatchIn(pm, elmName, 0, hi)
  {
    assert |Keys(pm')| == |Keys(pm)|;
    forall i0, j0 | 0 <= i0 < hi && 0 <= j0 < |pm[i0].1|
      ensures |pm'[i0].1| == |pm[i0].1| && pm'[i0].1[j0].elmName == pm[i0].1[j0].elmName
    {
      RedistributeKeepsNames(pm, pm', i0, j0);
    }
    forall i0 | 0 <= i0 < hi ensures |pm'[i0].1| == |pm[i0].1| {
      assert Reweighted(pm[i0].1, pm'[i0].1);
    }
  }

  /** `after` is the share `before` divided by the plant's raw total `total`. */
  ghost predicate RescaledShare(after: real, before: real, total: real) {
    after * total == before
  }

  /** After redistribution the first match is still entry `j` of plant `i`. */
  lemma {:induction false} FirstMatchAfterRedistribute(pm: PlantMap, pm': PlantMap, elmName: string, i: int, j: int)
    requires Redistribute(pm) == Success(pm')
    requires IsFirstMatch(pm, elmName, i, j)
    ensures |pm'| == |pm| && 0 <= j < |pm'[i].1|
    ensures ReverseLookup(pm', elmName) == Some(Match(pm[i].0, pm'[i].1[j].weight))
    ensures RescaledShare(pm'[i].1[j].weight, pm[i].1[j].weight, TotalWeight(pm[i].1))
  {
    RedistributeKeepsNames(pm, pm', i, j);
    RedistributeKeepsNoMatch(pm, pm', elmName, i);
    forall j' | 0 <= j' < j ensures pm'[i].1[j'].elmName != elmName {
      RedistributeKeepsNames(pm, pm', i, j');
    }
    FirstMatchUnique(pm', elmName, i, j);
  }

  /** Redistribution leaves the lookup's plant alone and hands it the rescaled share. */
  lemma {:induction false} ReverseLookupAfterRedistribute(pm: PlantMap, pm': PlantMap, elmName: string)
    requires Redistribute(pm) == Success(pm')
    ensures ReverseLookup(pm', elmName).Some? <==> ReverseLookup(pm, elmName).Some?
    ensures ReverseLookup(pm, elmName).Some? ==>
              exists i :: 0 <= i < |pm|
                && ReverseLookup(pm', elmName).value.plant == ReverseLookup(pm, elmName).value.plant == pm[i].0
                && RescaledShare(ReverseLookup(pm', elmName).value.weight,
                                 ReverseLookup(pm, elmName).value.weight, TotalWeight(pm[i].1))
  {
    RedistributeKeepsNoMatch(pm, pm', elmName, |pm|);
    var r := ReverseLookup(pm, elmName);
    if r.Some? {
      var i, j :| IsFirstMatch(pm, elmName, i, j) && r.value == Match(pm[i].0, pm[i].1[j].weight);
      FirstMatchAfterRedistribute(pm, pm', elmName, i, j);
      assert 0 <= i < |pm|
        && ReverseLookup(pm', elmName).value.plant == r.value.plant == pm[i].0
        && RescaledShare(ReverseLookup(pm', elmName).value.weight, r.value.weight, TotalWeight(pm[i].1));
    }
  }

  // ---------------------------------------------------------------------------
  // Setpoints

  /** `sddp_value * units_conversion * weight * attr_factor`. */
  function Setpoint(raw: real, conversion: real, weight: real, factor: real): real {
    raw * conversion * weight * factor
  }

  /** With `units_conversion = 1000.0 / duration_h`, the setpoint held for the whole block
      delivers a thousand times the plant's share of the block energy, in the class's unit. */
  lemma SetpointIsAveragePower(raw: real, durationH: real, weight: real, factor: real)
    requires durationH != 0.0
    ensures Setpoint(raw, 1000.0 / durationH, weight, factor) * durationH == 1000.0 * raw * weight * factor
  {
    var c := 1000.0 / durationH;
    assert c * durationH == 1000.0;
    calc {
      Setpoint(raw, c, weight, factor) * durationH;
      (raw * weight * factor) * (c * durationH);
      1000.0 * raw * weight * factor;
    }
  }

  /** The worked case: 50 units generated in a 2-hour block by a plant holding half of
      an element give a `pgini` of 12500, or 12.5 on a photovoltaic system. */
  lemma SetpointWorkedCase(pm: PlantMap, u: Unit, s: SddpScenario, generation: GenerationSeries, p: SddpPlant)
    requires u.elmClass in KnownClasses
    requires ReverseLookup(pm, u.name) == Some(Match(p, 0.5))
    requires generation(p.plantType, p.name, s) == Some(50.0)
    ensures DispatchUnit(pm, u, s, 1000.0 / 2.0, generation)
            == Success(SetAttribute(u.name, "pgini", if u.elmClass == "ElmPvsys" then 12.5 else 12500.0))
  {
    var setting := ClassSettingOf(u.elmClass).value;
    assert Setpoint(50.0, 1000.0 / 2.0, 0.5, setting.factor) == 12500.0 * setting.factor;
  }

  /** `a` is what the loop owes element `u` in scenario `s` with a block of `durationH`
      hours: nothing but a report when no plant names it; otherwise its `pgini` is set to
      the value that, held for the block, delivers the plant's generation times the entry's
      share, converted to the class's unit. */
  ghost predicate SetpointFor(pm: PlantMap, u: Unit, s: SddpScenario, durationH: real,
                              generation: GenerationSeries, a: Action)
  {
    match ReverseLookup(pm, u.name)
    case None => a == PlantNotFound(u.name)
    case Some(m) =>
      && generation(m.plant.plantType, m.plant.name, s).Some?
      && a.SetAttribute? && a.unit == u.name && a.attribute == "pgini"
      && a.value * durationH
         == 1000.0 * generation(m.plant.plantType, m.plant.name, s).value * m.weight * ClassFactor(u.elmClass)
  }

  /** Element `u` goes through the loop body without an exception: its class is known and,
      when it has a plant, the plant's generation can be read. */
  ghost predicate Dispatchable(pm: PlantMap, u: Unit, s: SddpScenario, generation: GenerationSeries) {
    && u.elmClass in KnownClasses
    && (ReverseLookup(pm, u.name).Some? ==>
          var m := ReverseLookup(pm, u.name).value;
          generation(m.plant.plantType, m.plant.name, s).Some?)
  }

  /** The loop body for one element: the class tables first (an unknown class fails even
      for an element without a plant), then the plant search, then the generation read. */
  function DispatchUnit(pm: PlantMap, u: Unit, s: SddpScenario, conversion: real,
                        generation: GenerationSeries): Result<Action, Error>
  {
    match ClassSettingOf(u.elmClass)
    case None => Failure(UnknownClass(u.elmClass))
    case Some(setting) =>
      match ReverseLookup(pm, u.name)
      case None => Success(PlantNotFound(u.name))
      case Some(m) =>
        match generation(m.plant.plantType, m.plant.name, s)
        case None => Failure(MissingGeneration(m.plant, s))
        case Some(raw) =>
          Success(SetAttribute(u.name, setting.attribute, Setpoint(raw, conversion, m.weight, setting.factor)))
  }

  /** One element's loop body fails exactly when it is not dispatchable, and otherwise
      does what `SetpointFor` asks. */
  lemma DispatchUnitMeets(pm: PlantMap, u: Unit, s: SddpScenario, durationH: real, generation: GenerationSeries)
    requires durationH != 0.0
    ensures DispatchUnit(pm, u, s, 1000.0 / durationH, generation).Success? <==> Dispatchable(pm, u, s, generation)
    ensures DispatchUnit(pm, u, s, 1000.0 / durationH, generation).Success? ==>
              SetpointFor(pm, u, s, durationH, generation, DispatchUnit(pm, u, s, 1000.0 / durationH, generation).value)
  {
    var conversion := 1000.0 / durationH;
    var r := DispatchUnit(pm, u, s, conversion, generation);
    match ClassSettingOf(u.elmClass)
    case None =>
      assert r.Failure?;
    case Some(setting) =>
      match ReverseLookup(pm, u.name)
      case None =>
        assert r == Success(PlantNotFound(u.name));
      case Some(m) =>
        match generation(m.plant.plantType, m.plant.name, s)
        case None =>
          assert r.Failure?;
        case Some(raw) =>
          SetpointIsAveragePower(raw, durationH, m.weight, setting.factor);
          assert r == Success(SetAttribute(u.name, setting.attribute, Setpoint(raw, conversion, m.weight, setting.factor)));
  }

  /** Which exception the loop body raises: the class tables are read first, so an element
      of an unknown class reports its class even when its plant's generation is missing;
      an element of a known class can only fail on the generation of the plant it maps to. */
  lemma DispatchUnitErrors(pm: PlantMap, u: Unit, s: SddpScenario, conversion: real, generation: GenerationSeries)
    ensures u.elmClass !in KnownClasses ==> DispatchUnit(pm, u, s, conversion, generation) == Failure(UnknownClass(u.elmClass))
    ensures u.elmClass in KnownClasses && DispatchUnit(pm, u, s, conversion, generation).Failure? ==>
              && ReverseLookup(pm, u.name).Some?
              && DispatchUnit(pm, u, s, conversion, generation).error == MissingGeneration(ReverseLookup(pm, u.name).value.plant, s)
  {
  }

  /** The element loop from element `k` on, with `step` as the loop body; the first
      exception ends it. */
  function DispatchFrom(units: seq<Unit>, step: Unit -> Result<Action, Error>, k: nat): (r: Result<seq<Action>, Error>)
    requires k <= |units|
    ensures r.Success? <==> forall i :: k <= i < |units| ==> step(units[i]).Success?
    ensures r.Success? ==> |r.value| == |units| - k
                           && forall i :: k <= i < |units| ==> step(units[i]) == Success(r.value[i - k])
    ensures r.Failure? ==> exists i :: k <= i < |units| && step(units[i]) == Failure(r.error)
                                       && forall i' :: k <= i' < i ==> step(units[i']).Success?
    decreases |units| - k
  {
    if k == |units| then Success([])
    else
      match step(units[k])
      case Failure(e) => Failure(e)
      case Success(a) =>
        match DispatchFrom(units, step, k + 1)
        case Failure(e) => Failure(e)
        case Success(rest) =>
          var actions := [a] + rest;
          assert forall i :: 1 <= i < |actions| ==> actions[i] == rest[i - 1];
          Success(actions)
  }

  /** The body of the scenario loop after the scenario is created and activated: read the
      block duration, compute `1000.0 / duration`, then run every element. */
  function DispatchScenario(pm: PlantMap, units: seq<Unit>, s: SddpScenario,
                            durations: DurationSeries, generation: GenerationSeries): (r: Result<seq<Action>, Error>)
    ensures durations(s).None? ==> r == Failure(MissingDuration(s))
    ensures durations(s) == Some(0.0) ==> r == Failure(ZeroDuration(s))
  {
    match durations(s)
    case None => Failure(MissingDuration(s))
    case Some(d) =>
      if d == 0.0 then Failure(ZeroDuration(s))
      else DispatchFrom(units, u => DispatchUnit(pm, u, s, 1000.0 / d, generation), 0)
  }

  /** A scenario finishes exactly when its duration is known and non-zero and every element
      is dispatchable; it then owes each element what `SetpointFor` says, in element order. */
  lemma DispatchScenarioMeets(pm: PlantMap, units: seq<Unit>, s: SddpScenario,
                              durations: DurationSeries, generation: GenerationSeries)
    ensures DispatchScenario(pm, units, s, durations, generation).Success?
            <==> && durations(s).Some? && durations(s).value != 0.0
                 && forall i :: 0 <= i < |units| ==> Dispatchable(pm, units[i], s, generation)
    ensures DispatchScenario(pm, units, s, durations, generation).Success? ==>
              && |DispatchScenario(pm, units, s, durations, generation).value| == |units|
              && forall i :: 0 <= i < |units| ==>
                   SetpointFor(pm, units[i], s, durations(s).value, generation,
                               DispatchScenario(pm, units, s, durations, generation).value[i])
  {
    var r := DispatchScenario(pm, units, s, durations, generation);
    if durations(s).Some? && durations(s).value != 0.0 {
      var d := durations(s).value;
      var step := u => DispatchUnit(pm, u, s, 1000.0 / d, generation);
      assert r == DispatchFrom(units, step, 0);
      forall i | 0 <= i < |units|
        ensures step(units[i]).Success? <==> Dispatchable(pm, units[i], s, generation)
        ensures step(units[i]).Success? ==> SetpointFor(pm, units[i], s, d, generation, step(units[i]).value)
      {
        DispatchUnitMeets(pm, units[i], s, d, generation);
      }
      if r.Success? {
        forall i | 0 <= i < |units| ensures SetpointFor(pm, units[i], s, d, generation, r.value[i]) {
          assert step(units[i]) == Success(r.value[i]);
        }
      }
    }
  }

  /** In a finished scenario, an element whose name the map holds gets its `pgini` set. */
  lemma ScenarioWritesMappedUnit(pm: PlantMap, units: seq<Unit>, s: SddpScenario,
                                 durations: DurationSeries, generation: GenerationSeries, u: int)
    requires DispatchScenario(pm, units, s, durations, generation).Success?
    requires 0 <= u < |units| && units[u].name in RequiredGeneratorNames(pm)
    ensures |DispatchScenario(pm, units, s, durations, generation).value| == |units|
    ensures var a := DispatchScenario(pm, units, s, durations, generation).value[u];
            a.SetAttribute? && a.unit == units[u].name && a.attribute == "pgini"
  {
    DispatchScenarioMeets(pm, units, s, durations, generation);
    ReverseLookupFindsMappedNames(pm, units[u].name);
  }

  /** A finished scenario over mapped elements writes nothing but `pgini` setpoints on
      those elements. */
  lemma ScenarioWritesOnlyMapped(pm: PlantMap, units: seq<Unit>, s: SddpScenario,
                                 durations: DurationSeries, generation: GenerationSeries, a: Action)
    requires forall u :: 0 <= u < |units| ==> units[u].name in RequiredGeneratorNames(pm)
    requires DispatchScenario(pm, units, s, durations, generation).Success?
    requires a in DispatchScenario(pm, units, s, durations, generation).value
    ensures exists u :: 0 <= u < |units| && a.SetAttribute? && a.unit == units[u].name && a.attribute == "pgini"
  {
    var actions := DispatchScenario(pm, units, s, durations, generation).value;
    DispatchScenarioMeets(pm, units, s, durations, generation);
    var u :| 0 <= u < |actions| && actions[u] == a;
    ScenarioWritesMappedUnit(pm, units, s, durations, generation, u);
  }

  /** A concrete case of the search order: rows (A, u1), (B, u2), (A, u2) group into
      A: [u1, u2] and B: [u2]; plant A is visited first, so element u2 is traced to A with
      the third row's weight, although the first row naming u2 belongs to B. */
  lemma {:induction false} LookupFollowsKeyOrder(r0: PlantRow, r1: PlantRow, r2: PlantRow)
    requires PlantOf(r0) == PlantOf(r2) && PlantOf(r1) != PlantOf(r0)
    requires EntryOf(r1).elmName == EntryOf(r2).elmName != EntryOf(r0).elmName
    ensures ReverseLookup(ReadPlantMap([r0, r1, r2]), EntryOf(r1).elmName)
            == Some(Match(PlantOf(r0), r2.weight))
  {
    var pm := [(PlantOf(r0), [EntryOf(r0), EntryOf(r2)]), (PlantOf(r1), [EntryOf(r1)])];
    GroupsThreeRows(r0, r1, r2);
    assert IsFirstMatch(pm, EntryOf(r1).elmName, 0, 1);
    FirstMatchUnique(pm, EntryOf(r1).elmName, 0, 1);
  }

  /** The grouping of the three rows above. */
  lemma {:induction false} GroupsThreeRows(r0: PlantRow, r1: PlantRow, r2: PlantRow)
    requires PlantOf(r0) == PlantOf(r2) && PlantOf(r1) != PlantOf(r0)
    ensures ReadPlantMap([r0, r1, r2])
            == [(PlantOf(r0), [EntryOf(r0), EntryOf(r2)]), (PlantOf(r1), [EntryOf(r1)])]
  {
    var a, b := PlantOf(r0), PlantOf(r1);
    var pm2: PlantMap := [(a, [EntryOf(r0)]), (b, [EntryOf(r1)])];
    GroupsTwoRows(r0, r1);
    assert [r0, r1, r2][..2] == [r0, r1];
    assert Get(pm2, a) == Some([EntryOf(r0)]);
    assert [EntryOf(r0)] + [EntryOf(r2)] == [EntryOf(r0), EntryOf(r2)];
    assert Put(pm2, a, [EntryOf(r0), EntryOf(r2)]) == [(a, [EntryOf(r0), EntryOf(r2)]), (b, [EntryOf(r1)])];
  }

  lemma {:induction false} GroupsTwoRows(r0: PlantRow, r1: PlantRow)
    requires PlantOf(r1) != PlantOf(r0)
    ensures ReadPlantMap([r0, r1]) == [(PlantOf(r0), [EntryOf(r0)]), (PlantOf(r1), [EntryOf(r1)])]
  {
    var a, b := PlantOf(r0), PlantOf(r1);
    var pm1: PlantMap := [(a, [EntryOf(r0)])];
    assert [r0, r1][..1] == [r0] && [r0][..0] == [];
    var empty: PlantMap := [];
    assert Get(empty, a) == None;
    assert ReadPlantMap([r0]) == pm1;
    assert Get(pm1, b) == None;
    assert Put(pm1, b, [EntryOf(r1)]) == [(a, [EntryOf(r0)]), (b, [EntryOf(r1)])];
  }
}
