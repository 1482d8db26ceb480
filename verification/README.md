# SDDP plant dispatch to PowerFactory scenarios — a Dafny model

`plant-dispatch/sddp_plant_dispatch.py` turns the results of an SDDP run into
PowerFactory operating scenarios. It reads two tables:

- `plant_elm_map.csv` binds each SDDP plant (system, type, name) to one or more
  PowerFactory elements, each with a weight;
- `scenarios_names.csv` names each (stage, scenario, block) coordinate.

Each plant's weights are then rescaled to add up to one. For every catalogued
coordinate, the converter creates and activates a scenario. For every mapped element
the application finds, it looks up the plant behind that element. It then sets the
element's `pgini` to the plant's generation × `1000 / block duration` × the element's
share × the class's unit factor, and saves the scenario.

This project restates that core as pure Dafny functions over immutable data and proves
what the script promises about it. The modules follow the script's structure:

| file | module | what it holds |
|---|---|---|
| `wrappers.dfy` | `Wrappers` | `Option` and `Result` |
| `text.dfy` | `Text` | `str.strip()` (Python's whitespace set) and `str.lower()`, and how they combine |
| `ordered_dict.dfy` | `OrderedDict` | the insertion-ordered Python `dict` as a list of pairs. Assigning to a present key keeps its position; a new key goes last |
| `plant_map.dfy` | `PlantMap` | `SddpPlant`, `PlantMapEntry`, `_read_plant_map`, `_get_required_plant_types`, `_get_required_powerfactory_generators_names` |
| `weights.dfy` | `Weights` | `_redistribute_weights` |
| `scenarios.dfy` | `Scenarios` | `SddpScenario` and `_read_scenario_map` |
| `tables.dfy` | `Tables` | `_PLANT_TYPE_OUTPUT_MAP`, `_DURATION_FILE`, `_ELM_CLASS_ATTRIBUTE_MAP`, `_ELM_CLASS_ATTRIBUTE_FACTOR_MAP` |
| `dispatch.dfy` | `Dispatch` | the reverse lookup, the setpoint, and the per-element and per-scenario loop bodies of `main` |
| `converter.dfy` | `Converter` | `_get_powerfactory_objects_by_full_name` and `main` from the loaded tables to the saved scenarios |

Rows arrive already split into cells, with the numbers parsed. Python exceptions become
`Failure` values of `Dispatch.Error`, and a run yields a `Report`: the scenarios saved
before the run ended, and the exception that ended it, if any. Floats are modelled as
reals.

Three external inputs are parameters:

- the SDDP result series: block durations, and generation per plant type, plant name
  and coordinate. These are total functions returning `None` where the script's lookup
  raises;
- PowerFactory's `GetCalcRelevantObjects`: a function from an element name to the class
  of the element found, if any;
- the iteration order of the generator-name set: a sequence `order`, since Python
  leaves it unspecified. The elements are kept in the order in which `order` first gives
  their names. Python iterates the whole set; the lemma that every found element is
  written assumes that `order` holds every mapped name.

Four behaviours of the code are easy to misread, and the model keeps them as written:

- **Reverse lookup order.** The code walks the plant map in dict order, which is the
  order in which each plant first appears, and then walks that plant's entries. An
  element named under several plants is therefore traced through the earliest plant
  that names it. A later row of an earlier plant beats an earlier row of a later plant.
  `Dispatch.LookupFollowsKeyOrder` proves this on a three-row table.
- **Zero weight total.** The code divides by the total, so only an exact zero raises
  `ZeroDivisionError`. A negative total rescales like any other.
- **Block duration.** With a Python `float` duration, only a zero duration fails, in
  `1000.0 / duration`. A negative duration gives negative setpoints.
- **Element class check.** The class tables are read before the plant search and the
  generation read. In a run every looked-up name comes from the map, so the plant is
  always found; what the order decides is which exception wins. An element of an unknown
  class reports `KeyError` on its class even when its plant's generation cannot be read.
  `Dispatch.DispatchUnitErrors` states this.

## Model

| member | source | states |
|---|---|---|
| Text.TrimShape | plant-dispatch/sddp_plant_dispatch.py:106-108 | `strip()` cuts a cell into a whitespace prefix, the result and a whitespace suffix, and the result is empty or neither starts nor ends with whitespace, which is exactly what Python's `str.strip()` returns |
| Text.NormalizeIgnoresCaseAndPadding | plant-dispatch/sddp_plant_dispatch.py:106-107 | two cells that differ only in letter case and in surrounding whitespace have the same stripped, lower-cased form |
| PlantMap.ReadPlantMapGroupsRows | plant-dispatch/sddp_plant_dispatch.py:99-118 | the map holds each plant once. A plant maps to exactly the entries of the rows that name it, in row order. A plant no row names is absent |
| PlantMap.ReadPlantMapKeyOrder | plant-dispatch/sddp_plant_dispatch.py:114-117 | the plants iterate in the order in which the rows first name them |
| PlantMap.ReadPlantMapLossless | plant-dispatch/sddp_plant_dispatch.py:104-117 | the entries of all plants together are a permutation of the entries of the rows: grouping loses and duplicates nothing |
| PlantMap.ReadPlantMapCount | plant-dispatch/sddp_plant_dispatch.py:104-117 | the map holds exactly one entry per row |
| PlantMap.SamePlantUpToCaseAndPadding | plant-dispatch/sddp_plant_dispatch.py:105-108 | two rows share one plant when their system and type cells differ only in case and padding and their name cells strip to the same text |
| PlantMap.NameCaseMatters | plant-dispatch/sddp_plant_dispatch.py:108 | the name cell is not lower-cased: `Gen` and `gen` are different plants |
| PlantMap.RequiredPlantTypesOfRows | plant-dispatch/sddp_plant_dispatch.py:144-148 | the required plant types are exactly the stripped, lower-cased type cells of the rows |
| PlantMap.RequiredGeneratorNamesOfRows | plant-dispatch/sddp_plant_dispatch.py:179-185 | the required element names are exactly the stripped element cells of the rows |
| Weights.Redistribute | plant-dispatch/sddp_plant_dispatch.py:136-141 | the pass succeeds iff no plant's weights total zero. It then keeps the plants, their order, their entries' plants and element names, and divides each weight by its plant's total, so each plant's weights add up to one |
| Weights.RedistributeFailsAtFirstZero | plant-dispatch/sddp_plant_dispatch.py:137-141 | the pass stops at the first plant, in iteration order, whose total is zero |
| Weights.ReweightedKeepsRatios | plant-dispatch/sddp_plant_dispatch.py:139-141 | rescaling keeps the ratio between any two shares of one plant |
| Weights.RedistributeThreeToOne | plant-dispatch/sddp_plant_dispatch.py:136-141 | raw weights 3 and 1 become 0.75 and 0.25 |
| Scenarios.ScenarioMapLastWriteWins | plant-dispatch/sddp_plant_dispatch.py:121-133 | the catalogue holds each coordinate of the rows once and no other. A coordinate that several rows give carries the stripped name of the last of them |
| Scenarios.ScenarioMapKeyOrder | plant-dispatch/sddp_plant_dispatch.py:126-132 | the coordinates iterate in the order in which the rows first give them. Renaming does not move a coordinate |
| Tables.ClassSettingOf | plant-dispatch/sddp_plant_dispatch.py:37-53 | a class has a setting iff it is one of the six known classes. The attribute is always `pgini`. The factor is 0.001 for `ElmPvsys` and 1.0 otherwise |
| Tables.OutputFileOf | plant-dispatch/sddp_plant_dispatch.py:26-35 | a plant type has a result file iff it is one of the six known types, and each reads its own file: `gerhid`, `gerter`, `gergnd`, `gerbat`, `cspgen` or `powinj` |
| Dispatch.ReverseLookup | plant-dispatch/sddp_plant_dispatch.py:281-290 | no plant is found iff no entry names the element. Otherwise the result is the plant and weight of the first such entry: the first plant in map order that has one, and within it the first entry |
| Dispatch.FirstMatchUnique | plant-dispatch/sddp_plant_dispatch.py:283-290 | for any entry that is the first match, the lookup returns that entry's plant and weight |
| Dispatch.ReverseLookupFindsMappedNames | plant-dispatch/sddp_plant_dispatch.py:281-292 | the lookup finds a plant iff the element's name is among the required element names, so "Plant not found" is reported only for names no row maps |
| Dispatch.ReverseLookupAfterRedistribute | plant-dispatch/sddp_plant_dispatch.py:283-287 | after rescaling, an element finds a plant iff it did before. It finds the same plant, and its weight times that plant's raw total is the raw weight found before |
| Dispatch.LookupFollowsKeyOrder | plant-dispatch/sddp_plant_dispatch.py:283-290 | with rows (A, u1), (B, u2), (A, u2), element u2 is traced to A with the third row's weight, not to B |
| Dispatch.SetpointIsAveragePower | plant-dispatch/sddp_plant_dispatch.py:308 | with the conversion `1000.0 / duration` of line 272, the setpoint times the duration is 1000 × generation × weight × factor |
| Dispatch.SetpointWorkedCase | plant-dispatch/sddp_plant_dispatch.py:276-311 | a generation of 50 in a 2-hour block at share 0.5 gives `pgini` = 12500, or 12.5 on `ElmPvsys` |
| Dispatch.DispatchUnitMeets | plant-dispatch/sddp_plant_dispatch.py:276-311 | one element's loop body fails iff its class is unknown or its plant's generation cannot be read. Otherwise an unmapped element is reported and a mapped one gets the setpoint above on `pgini` |
| Dispatch.DispatchUnitErrors | plant-dispatch/sddp_plant_dispatch.py:276-306 | an element of an unknown class fails with the class error, whatever its plant and generation. An element of a known class fails only when the generation of the plant the lookup finds cannot be read, and then with that plant |
| Dispatch.DispatchFrom | plant-dispatch/sddp_plant_dispatch.py:273-311 | the element loop succeeds iff every body succeeds, and then yields one action per element, in order. Otherwise it fails with the error of the first failing element |
| Dispatch.DispatchScenario | plant-dispatch/sddp_plant_dispatch.py:262-272 | a missing duration and a zero duration each end the scenario before any element is written |
| Dispatch.DispatchScenarioMeets | plant-dispatch/sddp_plant_dispatch.py:262-311 | a scenario's elements are all written iff its duration is known and non-zero and every element is dispatchable. Each element then gets what `SetpointFor` says |
| Dispatch.ScenarioWritesMappedUnit | plant-dispatch/sddp_plant_dispatch.py:283-311 | in a finished scenario, an element whose name the map holds has its `pgini` set |
| Converter.FoundUnits | plant-dispatch/sddp_plant_dispatch.py:188-194 | the elements kept are mapped names of `order`, without repeats, each with the class of the element the application found |
| Converter.FoundUnitsInOrder | plant-dispatch/sddp_plant_dispatch.py:188-194 | the kept names are exactly the names of `order` that are mapped and found, in the order in which `order` first gives them |
| Converter.FoundUnitsComplete | plant-dispatch/sddp_plant_dispatch.py:188-194 | every mapped name that the application finds is kept |
| Converter.RunFrom | plant-dispatch/sddp_plant_dispatch.py:254-317 | the scenarios are saved in catalogue order under their catalogue names, each with the writes its body produced. The first scenario whose body fails ends the run unsaved, and that failure is reported; a run without failure saves every scenario |
| Converter.RedistributeKeepsRequirements | plant-dispatch/sddp_plant_dispatch.py:229-234 | rescaling changes neither the required plant types nor the required element names |
| Converter.RunStopsAtZeroTotal | plant-dispatch/sddp_plant_dispatch.py:228-229 | if a plant's rows total zero, no scenario is saved and the run fails, naming the first such plant in order of first appearance |
| Converter.RunRejectsUnknownTypes | plant-dispatch/sddp_plant_dispatch.py:230-232 | once the weights load, a plant type without a result file ends the run before any scenario, naming the unknown types of the rows |
| Converter.RunSavesCatalogueInOrder | plant-dispatch/sddp_plant_dispatch.py:254-317 | whatever happens, the saved scenarios follow the catalogue's coordinate order, each under the stripped name of the last row for it. A run without failure saves all of them |
| Converter.RunWritesEveryFoundElement | plant-dispatch/sddp_plant_dispatch.py:234-311 | when `order` holds every mapped name, every saved scenario sets `pgini` on the element of every row that the application finds |
| Converter.RunWritesOnlyMappedElements | plant-dispatch/sddp_plant_dispatch.py:234-311 | every write in a saved scenario sets `pgini` on an element that some row maps and that the application found |

## Left out

- CSV parsing: the header skip, `float(row[3])` and `int(row[0..2])` with their `ValueError`s, and a short row's `IndexError`. The model starts from parsed rows.
- The result-file loaders (`_load_graf_data`, `_load_plant_types_generation`): file-extension probing, pandas versus the `psr.graf` readers, encodings, and a missing file's `None`. The series are parameters. The reader path reads the duration at scenario 1 of the coordinate, whereas the pandas path uses the full coordinate. Both are functions of the coordinate, so the duration parameter covers both, except at a zero duration (next line).
- PowerFactory calls: `GetApplication`, `ClearOutputWindow`, `ActivateProject`, `CreateObject`, `Activate` and `Deactivate`, `PrintInfo`. Also left out are the debug `print`s and `argparse` with its defaults.
- Floating point: weights, durations and setpoints are reals. Rounding in the sum, the division and the product is not modelled.
- SddpPlant equality: the source compares the hashes of the text `system,name,type`. Two plants whose joined text coincides (a comma inside a quoted cell), or whose hashes collide, are one key there and two here. SddpScenario equality is treated the same way.
- Text.Lower: only ASCII letters are lower-cased. Python's Unicode case mapping of other letters is not modelled.
- Dispatch.DispatchScenario: `ZeroDuration` models Python `float` division, which raises `ZeroDivisionError`. On the pandas path the duration is a numpy scalar, and `1000.0 / duration` at zero gives `inf` with a warning instead of raising. That backend then writes infinite or NaN setpoints and saves the scenario. Reals have no `inf`, so the model does not follow that path.
- Dispatch.DispatchScenario: a failure in the element loop leaves the writes already made on the activated but unsaved scenario. The model reports only the scenarios that were saved.
- Converter.RunRejectsUnknownTypes: the source raises `KeyError` on whichever unknown type set iteration reaches first. The model reports the set of all unknown types, because that order is unspecified.
- Converter.FoundUnits: the iteration order of the name set and the result of `GetCalcRelevantObjects` are parameters. Only the class of the first object returned is kept, which is all the loop reads. `Run` accepts any sequence as `order`, including one that omits mapped names, whereas Python iterates the whole set. Only `Converter.RunWritesEveryFoundElement` assumes that `order` is complete.
