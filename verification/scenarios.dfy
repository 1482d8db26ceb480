/** The scenario catalogue read from `scenarios_names.csv`: (stage, scenario, block)
    -> the name of the PowerFactory scenario to create for it. */
module Scenarios {
  import opened Wrappers
  import opened Text
  import opened OrderedDict

  /** An SDDP (stage, scenario, block) coordinate; equal when all three fields are equal. */
  datatype SddpScenario = SddpScenario(stage: int, scenario: int, block: int)

  /** A row of the catalogue, already split into its four columns and with the integers parsed. */
  datatype ScenarioRow = ScenarioRow(stage: int, scenario: int, block: int, name: string)

  /** Coordinate -> scenario name, in the order the coordinates were first given. */
  type ScenarioMap = Dict<SddpScenario, string>

  /** The coordinate a row names. */
  function ScenarioOf(row: ScenarioRow): SddpScenario {
    SddpScenario(row.stage, row.scenario, row.block)
  }

  /** The coordinate of every row, in row order. */
  function RowScenarios(rows: seq<ScenarioRow>): (ks: seq<SddpScenario>)
    ensures |ks| == |rows|
    ensures forall i :: 0 <= i < |rows| ==> ks[i] == ScenarioOf(rows[i])
  {
    seq(|rows|, i requires 0 <= i < |rows| => ScenarioOf(rows[i]))
  }

  /** `_read_scenario_map`, after the header row: `entries[scenario] = name.strip()` per row. */
  function ReadScenarioMap(rows: seq<ScenarioRow>): ScenarioMap {
    if |rows| == 0 then []
    else
      var last := rows[|rows| - 1];
      Put(ReadScenarioMap(rows[..|rows| - 1]), ScenarioOf(last), Trim(last.name))
  }

  /** Row `i` is the last row of the table with coordinate `k`. */
  ghost predicate IsLastRowFor(rows: seq<ScenarioRow>, k: SddpScenario, i: int) {
    && 0 <= i < |rows|
    && ScenarioOf(rows[i]) == k
    && forall j :: i < j < |rows| ==> ScenarioOf(rows[j]) != k
  }

  /** The catalogue holds exactly the coordinates of the rows, each once, and a coordinate
      given by several rows carries the name from the last of them. */
  lemma {:induction false} ScenarioMapLastWriteWins(rows: seq<ScenarioRow>)
    ensures Valid(ReadScenarioMap(rows))
    ensures forall k :: Get(ReadScenarioMap(rows), k).None? <==> k !in RowScenarios(rows)
    ensures forall k, i :: IsLastRowFor(rows, k, i) ==> Get(ReadScenarioMap(rows), k) == Some(Trim(rows[i].name))
    decreases |rows|
  {
    if |rows| > 0 {
      var init := rows[..|rows| - 1];
      var last := rows[|rows| - 1];
      var sm0 := ReadScenarioMap(init);
      ScenarioMapLastWriteWins(init);
      assert ReadScenarioMap(rows) == Put(sm0, ScenarioOf(last), Trim(last.name));
      PutValid(sm0, ScenarioOf(last), Trim(last.name));
      assert RowScenarios(rows) == RowScenarios(init) + [ScenarioOf(last)];
      forall k ensures Get(ReadScenarioMap(rows), k).None? <==> k !in RowScenarios(rows) {
        PutGet(sm0, ScenarioOf(last), Trim(last.name), k);
      }
      forall k, i | IsLastRowFor(rows, k, i)
        ensures Get(ReadScenarioMap(rows), k) == Some(Trim(rows[i].name))
      {
        PutGet(sm0, ScenarioOf(last), Trim(last.name), k);
        if i < |rows| - 1 {
          assert IsLastRowFor(init, k, i);
        }
      }
    }
  }

  /** Scenarios iterate in the order of the rows that first give them: overwriting a
      name does not move its coordinate. */
  lemma {:induction false} ScenarioMapKeyOrder(rows: seq<ScenarioRow>)
    ensures Keys(ReadScenarioMap(rows)) == Distinct(RowScenarios(rows))
    decreases |rows|
  {
    if |rows| > 0 {
      var init := rows[..|rows| - 1];
      var last := rows[|rows| - 1];
      ScenarioMapKeyOrder(init);
      PutKeys(ReadScenarioMap(init), ScenarioOf(last), Trim(last.name));
      assert RowScenarios(rows)[..|rows| - 1] == RowScenarios(init);
    }
  }
}
