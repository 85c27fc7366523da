/** The normalizer for the regex extractor's hits: parse the value with
  * magnitude words, then convert the unit into the KPI's canonical unit, the
  * first unit the schema lists for it. */
module EsgRegexNormalizer {
  import opened Wrappers
  import opened Dicts
  import opened PyStr
  import opened PyValues
  import opened Records
  import opened Schema
  import opened UnitMatch
  import opened EsgNumericParser
  import PyFloat

  /** Known spellings, by comparison key, with the unit they convert into and
    * the factor that converts them. */
  const UnitConversions: map<string, (string, real)> := map[
    "tco2e" := ("tCO2e", 1.0),
    "tco2" := ("tCO2e", 1.0),
    "t_co2e" := ("tCO2e", 1.0),
    "tonsco2e" := ("tCO2e", 1.0),
    "tonnesco2e" := ("tCO2e", 1.0),
    "mwh" := ("MWh", 1.0),
    "kwh" := ("MWh", 0.001),
    "gwh" := ("MWh", 1000.0),
    "m3" := ("m3", 1.0),
    "m\U{b3}" := ("m3", 1.0),
    "cubicmeters" := ("m3", 1.0),
    "thousandm3" := ("m3", 1000.0),
    "millionm3" := ("m3", 1000000.0)
  ]

  /** `_normalize_unit`: the unit a hit ends up in and the factor its value
    * is multiplied by.  Raises where a truthy unit is not a string. */
  function NormalizeUnit(rawUnit: PyVal, canonical: Option<string>): (r: Outcome<(PyVal, real)>)
    ensures canonical.None? || canonical.value == [] ==> r == Ok((rawUnit, 1.0))
    ensures canonical.Some? && canonical.value != [] ==>
      (r.Raised? <==> Truthy(rawUnit) && !rawUnit.PStr?)
    ensures canonical.Some? && canonical.value != [] && r.Ok? ==> r.value.0 == PStr(canonical.value)
    ensures canonical.Some? && canonical.value != [] && r.Ok? && r.value.1 != 1.0 ==>
      && rawUnit.PStr? && NormJoined(rawUnit.s) in UnitConversions
      && NormJoined(UnitConversions[NormJoined(rawUnit.s)].0) == NormJoined(canonical.value)
      && r.value.1 == UnitConversions[NormJoined(rawUnit.s)].1
  {
    if canonical.None? || canonical.value == [] then Ok((rawUnit, 1.0))
    else
      var can := canonical.value;
      var canNorm := NormJoined(can);
      if !Truthy(rawUnit) then Ok((PStr(can), 1.0))
      else if !rawUnit.PStr? then Raised
      else
        var u := NormJoined(rawUnit.s);
        if u == canNorm then Ok((PStr(can), 1.0))
        else if u in UnitConversions && NormJoined(UnitConversions[u].0) == canNorm then
          Ok((PStr(can), UnitConversions[u].1))
        else Ok((PStr(can), 1.0))
  }

  /** A unit with the canonical unit's key is kept at factor 1. */
  lemma ExactUnitNoScaling(raw: string, can: string)
    requires raw != [] && can != [] && NormJoined(raw) == NormJoined(can)
    ensures NormalizeUnit(PStr(raw), Some(can)) == Ok((PStr(can), 1.0))
  {
  }

  /** A known alias of the canonical unit converts with its factor. */
  lemma AliasConverts(raw: string, can: string)
    requires raw != [] && can != []
    requires NormJoined(raw) != NormJoined(can)
    requires NormJoined(raw) in UnitConversions
    requires NormJoined(UnitConversions[NormJoined(raw)].0) == NormJoined(can)
    ensures NormalizeUnit(PStr(raw), Some(can)) == Ok((PStr(can), UnitConversions[NormJoined(raw)].1))
  {
  }

  /** An alias of another unit does not convert: "kWh" reported for a KPI
    * in tCO2e keeps its number and takes the canonical unit. */
  lemma ForeignAliasKeepsValue(raw: string, can: string)
    requires raw != [] && can != []
    requires NormJoined(raw) in UnitConversions
    requires NormJoined(UnitConversions[NormJoined(raw)].0) != NormJoined(can)
    ensures NormalizeUnit(PStr(raw), Some(can)) == Ok((PStr(can), 1.0))
  {
  }

  /** The energy conversions: kWh is a thousandth of a MWh, GWh a thousand. */
  lemma EnergyConversions()
    ensures NormalizeUnit(PStr("kWh"), Some("MWh")) == Ok((PStr("MWh"), 0.001))
    ensures NormalizeUnit(PStr("GWh"), Some("MWh")) == Ok((PStr("MWh"), 1000.0))
  {
    NormJoinedNoSpace("kWh");
    NormJoinedNoSpace("GWh");
    NormJoinedNoSpace("MWh");
    assert NormJoined("kWh") == "kwh";
    assert NormJoined("GWh") == "gwh";
    assert NormJoined("MWh") == "mwh";
    assert UnitConversions["kwh"] == ("MWh", 0.001);
    assert UnitConversions["gwh"] == ("MWh", 1000.0);
  }

  /** `units[0] if units else None`. */
  function Canonical(schema: KpiSchema, code: string): Option<string> {
    var units := UnitsOf(schema, code);
    if units != [] then Some(units[0]) else None
  }

  /** The value and unit one turn of the loop in `normalize_regex_result`
    * writes over the hit's own fields. */
  function RegexValueUnit(code: string, entry: Entry, schema: KpiSchema): Outcome<(PyVal, PyVal)> {
    var canonical := Canonical(schema, code);
    match TextArg(Get(entry, "raw_value"))
    case Raised => Raised
    case Ok(rawValue) =>
      var value := ParseScaledNumber(rawValue);
      if value.None? then Ok((PNone, OptText(canonical)))
      else
        var uf := NormalizeUnit(Get(entry, "raw_unit"), canonical);
        if uf.Raised? then Raised else Ok((Num(PyFloat.Mul(value.value, uf.value.1)), uf.value.0))
  }

  /** One turn of the loop in `normalize_regex_result`: `{**entry, "value": ..., "unit": ...}`. */
  function RegexEntry(code: string, entry: Entry, schema: KpiSchema): Outcome<Option<Entry>> {
    match RegexValueUnit(code, entry, schema)
    case Raised => Raised
    case Ok((value, unit)) => Ok(Some(entry.Put("value", value).Put("unit", unit)))
  }

  function RegexEntryFn(raw: Results, schema: KpiSchema): string -> Outcome<Option<Entry>> {
    k => if k in raw.vals then RegexEntry(k, raw.vals[k], schema) else Ok(None)
  }

  /** `normalize_regex_result`. */
  method NormalizeRegexResult(raw: Results, schema: KpiSchema) returns (r: Outcome<Results>)
    ensures r == BuildOutcome(raw.keys, RegexEntryFn(raw, schema))
  {
    var f := RegexEntryFn(raw, schema);
    var out: Results := Empty();
    var i := 0;
    while i < |raw.keys|
      invariant 0 <= i <= |raw.keys|
      invariant BuildOutcome(raw.keys[..i], f) == Ok(out)
    {
      var code := raw.keys[i];
      BuildOutcomeStep(raw.keys, i, f);
      var turn := if code in raw.vals then RegexEntry(code, raw.vals[code], schema) else Ok(None);
      match turn {
        case Raised =>
          BuildOutcomeRaised(raw.keys, i + 1, f);
          return Raised;
        case Ok(None) =>
        case Ok(Some(e)) =>
          out := out.Put(code, e);
      }
      i := i + 1;
    }
    assert raw.keys[..|raw.keys|] == raw.keys;
    r := Ok(out);
  }

  /** Text-like raw fields, as the regex extractor writes them: the loop then
    * cannot raise. */
  predicate TextFields(e: Entry) {
    (Get(e, "raw_value").PStr? || !Truthy(Get(e, "raw_value")))
    && (Get(e, "raw_unit").PStr? || !Truthy(Get(e, "raw_unit")))
  }

  /** A hit with text-like fields never raises. */
  lemma RegexEntryOk(code: string, e: Entry, schema: KpiSchema)
    requires TextFields(e)
    ensures RegexEntry(code, e, schema).Ok? && RegexEntry(code, e, schema).value.Some?
  {
  }

  /** Normalizing a hit sets its value and unit and keeps every other field. */
  lemma RegexEntryKeepsFields(code: string, e: Entry, schema: KpiSchema, f: string)
    requires RegexEntry(code, e, schema).Ok?
    requires f != "value" && f != "unit"
    ensures Get(RegexEntry(code, e, schema).value.value, f) == Get(e, f)
  {
  }

  /** A hit whose value does not parse gets the value None and the canonical
    * unit. */
  lemma RegexEntryUnparsed(code: string, e: Entry, schema: KpiSchema, text: Option<string>)
    requires TextArg(Get(e, "raw_value")) == Ok(text)
    requires ParseScaledNumber(text).None?
    ensures RegexValueUnit(code, e, schema) == Ok((PNone, OptText(Canonical(schema, code))))
  {
  }

  /** A parsed hit gets its value times the conversion factor, in the unit the
    * conversion gives. */
  lemma RegexEntryParsed(code: string, e: Entry, schema: KpiSchema, text: Option<string>, v: real, unit: PyVal, factor: real)
    requires TextArg(Get(e, "raw_value")) == Ok(text)
    requires ParseScaledNumber(text) == Some(v)
    requires NormalizeUnit(Get(e, "raw_unit"), Canonical(schema, code)) == Ok((unit, factor))
    ensures RegexValueUnit(code, e, schema) == Ok((Num(PyFloat.Mul(v, factor)), unit))
  {
  }

  /** The record a normalized hit becomes. */
  lemma RegexEntryRecord(code: string, e: Entry, schema: KpiSchema)
    requires RegexValueUnit(code, e, schema).Ok?
    ensures var (v, u) := RegexValueUnit(code, e, schema).value;
      && RegexEntry(code, e, schema).Ok? && RegexEntry(code, e, schema).value.Some?
      && Get(RegexEntry(code, e, schema).value.value, "value") == v
      && Get(RegexEntry(code, e, schema).value.value, "unit") == u
  {
  }

  /** Every hit gets an entry, under its own code and in the same order, as
    * RegexEntry and RegexEntryRecord describe. */
  lemma NormalizeRegexKeys(raw: Results, schema: KpiSchema)
    requires raw.Valid()
    requires forall k :: k in raw.vals ==> TextFields(raw.vals[k])
    ensures BuildOutcome(raw.keys, RegexEntryFn(raw, schema)).Ok?
    ensures var out := BuildOutcome(raw.keys, RegexEntryFn(raw, schema)).value;
      && out.Valid() && out.keys == raw.keys
      && forall k :: k in out.vals ==> RegexEntry(k, raw.vals[k], schema) == Ok(Some(out.vals[k]))
  {
    var f := RegexEntryFn(raw, schema);
    forall k | k in raw.keys ensures f(k).Ok? && f(k).value.Some? {
      RegexEntryOk(k, raw.vals[k], schema);
    }
    BuildOutcomeSpec(raw.keys, f);
    KeptOkAll(raw.keys, f);
  }
}
