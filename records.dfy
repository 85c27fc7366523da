/** The per-KPI records that extractors, normalizers and the fusion step pass
  * to one another: Python dicts from field name to a loosely typed value,
  * gathered in a dict from KPI code to record. */
module Records {
  import opened Wrappers
  import opened Dicts
  import opened PyValues

  type Entry = Dict<PyVal>
  type Results = Dict<Entry>

  /** `entry.get(key)`. */
  function Get(e: Entry, key: string): PyVal {
    Field(e.vals, key)
  }

  /** `bool(entry)`: a dict is truthy when it has a key. */
  predicate NonEmpty(e: Entry) {
    e.vals != map[]
  }

  /** `float(entry.get(key, default))`: raises when the field holds a value
    * `float()` rejects, such as None. */
  function FloatOr(e: Entry, key: string, default: real): (r: Outcome<real>)
    ensures key !in e.vals ==> r == Ok(default)
    ensures key in e.vals && e.vals[key].PNum? ==> r == Ok(e.vals[key].x)
    ensures key in e.vals && e.vals[key].PNone? ==> r.Raised?
  {
    if key !in e.vals then Ok(default)
    else match ToFloat(e.vals[key])
      case Some(x) => Ok(x)
      case None => Raised
  }

  /** The three-field record every text extractor produces. */
  function RawRecord(rawValue: PyVal, rawUnit: PyVal, confidence: real): (e: Entry)
    ensures e.Valid()
    ensures e.keys == ["raw_value", "raw_unit", "confidence"]
    ensures Get(e, "raw_value") == rawValue && Get(e, "raw_unit") == rawUnit
    ensures Get(e, "confidence") == Num(confidence)
  {
    Dict(["raw_value", "raw_unit", "confidence"],
      map["raw_value" := rawValue, "raw_unit" := rawUnit, "confidence" := Num(confidence)])
  }

  /** The five-field record every normalizer but the regex one produces. */
  function NormRecord(rawValue: PyVal, rawUnit: PyVal, value: Option<real>, unit: Option<string>, confidence: real): (e: Entry)
    ensures e.Valid()
    ensures e.keys == ["raw_value", "raw_unit", "value", "unit", "confidence"]
    ensures Get(e, "raw_value") == rawValue && Get(e, "raw_unit") == rawUnit
    ensures Get(e, "value") == OptNum(value) && Get(e, "unit") == OptText(unit)
    ensures Get(e, "confidence") == Num(confidence)
  {
    Dict(["raw_value", "raw_unit", "value", "unit", "confidence"],
      map["raw_value" := rawValue, "raw_unit" := rawUnit, "value" := OptNum(value),
          "unit" := OptText(unit), "confidence" := Num(confidence)])
  }
}
