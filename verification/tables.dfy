/** The fixed lookup tables of the converter: result file per plant type, and the
    attribute and unit factor written per PowerFactory element class. */
module Tables {
  import opened Wrappers

  /** `_PLANT_TYPE_OUTPUT_MAP`: plant type -> SDDP generation result file. */
  const PlantTypeOutput: map<string, string> := map[
    "hydro" := "gerhid",
    "thermal" := "gerter",
    "renewable" := "gergnd",
    "battery" := "gerbat",
    "csp" := "cspgen",
    "injection" := "powinj"
  ]

  /** `_DURATION_FILE`: the SDDP result file with the block durations in hours. */
  const DurationFile: string := "duraci"

  /** `_ELM_CLASS_ATTRIBUTE_MAP`: element class -> attribute that receives the setpoint. */
  const ElmClassAttribute: map<string, string> := map[
    "ElmSym" := "pgini",
    "ElmAsm" := "pgini",
    "ElmGenstat" := "pgini",
    "ElmAsmsc" := "pgini",
    "ElmPvsys" := "pgini",
    "ElmXnet" := "pgini"
  ]

  /** `_ELM_CLASS_ATTRIBUTE_FACTOR_MAP`: element class -> unit factor (MW for all but
      `ElmPvsys`, whose attribute takes a thousandth of the value). */
  const ElmClassFactor: map<string, real> := map[
    "ElmSym" := 1.0,
    "ElmAsm" := 1.0,
    "ElmGenstat" := 1.0,
    "ElmAsmsc" := 1.0,
    "ElmPvsys" := 0.001,
    "ElmXnet" := 1.0
  ]

  /** The element classes the converter can write to. */
  const KnownClasses: set<string> := {"ElmSym", "ElmAsm", "ElmGenstat", "ElmAsmsc", "ElmPvsys", "ElmXnet"}

  /** What to write on an element of a given class, and the factor to scale it by. */
  datatype ClassSetting = ClassSetting(attribute: string, factor: real)

  /** The unit factor of a known element class: photovoltaic systems take a thousandth,
      every other class takes the value as it is. */
  function ClassFactor(elmClass: string): real {
    if elmClass == "ElmPvsys" then 0.001 else 1.0
  }

  /** The two class lookups of the dispatch loop; `None` where either raises `KeyError`. */
  function ClassSettingOf(elmClass: string): (r: Option<ClassSetting>)
    ensures r.Some? <==> elmClass in KnownClasses
    ensures r.Some? ==> r.value.attribute == "pgini"
    ensures r.Some? ==> r.value.factor == ClassFactor(elmClass)
  {
    if elmClass in ElmClassAttribute && elmClass in ElmClassFactor
    then Some(ClassSetting(ElmClassAttribute[elmClass], ElmClassFactor[elmClass]))
    else None
  }

  /** The generation result file of a plant type; `None` where the lookup raises `KeyError`. */
  function OutputFileOf(plantType: string): (r: Option<string>)
    ensures r.Some? <==> plantType in {"hydro", "thermal", "renewable", "battery", "csp", "injection"}
    ensures r.Some? ==> (plantType, r.value) in {("hydro", "gerhid"), ("thermal", "gerter"), ("renewable", "gergnd"),
                                                  ("battery", "gerbat"), ("csp", "cspgen"), ("injection", "powinj")}
  {
    if plantType in PlantTypeOutput then Some(PlantTypeOutput[plantType]) else None
  }
}
