/** The normalizer for the grid-table extractor's rows: keep a numeric value
  * the extractor already found or parse the raw text with the locale parser,
  * then settle on one of the KPI's allowed units. */
module EsgTableGridNormalizer {
  import opened Wrappers
  import opened Dicts
  import opened PyValues
  import opened Records
  import opened Schema
  import opened UnitMatch
  import opened EsgNumericParser

  /** Step 1: a reported number wins, else the raw text is parsed.  Raises
    * where the raw value is a truthy non-string. */
  function GridValue(reported: PyVal, rawValue: PyVal): (r: Outcome<Option<real>>)
    ensures IsNumber(reported) ==> r == Ok(ToFloat(reported)) && r.value.Some?
    ensures !IsNumber(reported) && rawValue.PStr? ==> r == Ok(ParseLocaleNumber(Some(rawValue.s)))
    ensures !IsNumber(reported) && !Truthy(rawValue) ==> r == Ok(None)
    ensures r.Raised? <==> !IsNumber(reported) && Truthy(rawValue) && !rawValue.PStr?
  {
    if IsNumber(reported) then Ok(ToFloat(reported))
    else match TextArg(rawValue)
      case Raised => Raised
      case Ok(text) => Ok(ParseLocaleNumber(text))
  }

  /** Step (a): the extractor's unit, when it is one of the allowed units. */
  function ReportedUnit(reported: PyVal, allowed: seq<string>): (r: Option<string>)
    ensures r.Some? <==> reported.PStr? && reported.s in allowed
    ensures r.Some? ==> r.value == reported.s
  {
    if reported.PStr? && reported.s in allowed then Some(reported.s) else None
  }

  /** Step 2 of `normalize_table_grid_result`: (a) the reported unit if
    * allowed, (b) the first allowed unit equal to the raw unit under
    * normalization, (c) the sole allowed unit, (d) the first allowed unit
    * when a value was found.  Only step (b) can raise, on a truthy non-string
    * raw unit. */
  function GridUnit(reported: PyVal, rawUnit: PyVal, allowed: seq<string>, hasValue: bool): (r: Outcome<Option<string>>)
    ensures r.Ok? && r.value.Some? ==> r.value.value in allowed
    ensures r.Raised? <==> ReportedUnit(reported, allowed).None? && Truthy(rawUnit) && !rawUnit.PStr?
    ensures r.Ok? && hasValue && allowed != [] ==> r.value.Some?
    ensures r.Ok? && |allowed| == 1 ==> r.value == Some(allowed[0])
  {
    var a := ReportedUnit(reported, allowed);
    if a.Some? then Ok(a)
    else if Truthy(rawUnit) && !rawUnit.PStr? then Raised
    else
      var b := if Truthy(rawUnit) then FirstNormMatch(NormSpaceless(rawUnit.s), allowed, NormSpaceless) else None;
      if b.Some? then Ok(b)
      else if |allowed| == 1 then Ok(Some(allowed[0]))
      else if hasValue && allowed != [] then Ok(Some(allowed[0]))
      else Ok(None)
  }

  /** Step 2 as the source writes it: `unit` updated step by step. */
  method ResolveGridUnit(reported: PyVal, rawUnit: PyVal, allowed: seq<string>, hasValue: bool) returns (r: Outcome<Option<string>>)
    ensures r == GridUnit(reported, rawUnit, allowed, hasValue)
  {
    var unit: Option<string> := None;
    if reported.PStr? && reported.s in allowed {
      unit := Some(reported.s);
    }
    if unit.None? && Truthy(rawUnit) {
      if !rawUnit.PStr? {
        return Raised;
      }
      unit := FindUnit(NormSpaceless(rawUnit.s), allowed, NormSpaceless);
    }
    if unit.None? && |allowed| == 1 {
      unit := Some(allowed[0]);
    }
    if unit.None? && hasValue && allowed != [] {
      unit := Some(allowed[0]);
    }
    r := Ok(unit);
  }

  /** One turn of the loop in `normalize_table_grid_result`: a falsy entry is
    * skipped, any other becomes the five-field record. */
  function GridEntry(code: string, e: Entry, schema: KpiSchema): Outcome<Option<Entry>> {
    if !NonEmpty(e) then Ok(None)
    else
      var conf := FloatOr(e, "confidence", 0.9);
      var value := GridValue(Get(e, "value"), Get(e, "raw_value"));
      if conf.Raised? || value.Raised? then Raised
      else
        var unit := GridUnit(Get(e, "unit"), Get(e, "raw_unit"), UnitsOf(schema, code), value.value.Some?);
        if unit.Raised? then Raised
        else Ok(Some(NormRecord(Get(e, "raw_value"), Get(e, "raw_unit"), value.value, unit.value, conf.value)))
  }

  function GridEntryFn(raw: Results, schema: KpiSchema): string -> Outcome<Option<Entry>> {
    k => if k in raw.vals then GridEntry(k, raw.vals[k], schema) else Ok(None)
  }

  /** `normalize_table_grid_result`. */
  method NormalizeTableGridResult(raw: Results, schema: KpiSchema) returns (r: Outcome<Results>)
    ensures r == BuildOutcome(raw.keys, GridEntryFn(raw, schema))
  {
    var f := GridEntryFn(raw, schema);
    var out: Results := Empty();
    var i := 0;
    while i < |raw.keys|
      invariant 0 <= i <= |raw.keys|
      invariant BuildOutcome(raw.keys[..i], f) == Ok(out)
    {
      var code := raw.keys[i];
      BuildOutcomeStep(raw.keys, i, f);
      if code in raw.vals && NonEmpty(raw.vals[code]) {
        var entry := raw.vals[code];
        var confidence := FloatOr(entry, "confidence", 0.9);
        var value := GridValue(Get(entry, "value"), Get(entry, "raw_value"));
        if confidence.Raised? || value.Raised? {
          BuildOutcomeRaised(raw.keys, i + 1, f);
          return Raised;
        }
        var unit := ResolveGridUnit(Get(entry, "unit"), Get(entry, "raw_unit"), UnitsOf(schema, code), value.value.Some?);
        if unit.Raised? {
          BuildOutcomeRaised(raw.keys, i + 1, f);
          return Raised;
        }
        out := out.Put(code, NormRecord(Get(entry, "raw_value"), Get(entry, "raw_unit"), value.value, unit.value, confidence.value));
      }
      i := i + 1;
    }
    assert raw.keys[..|raw.keys|] == raw.keys;
    r := Ok(out);
  }

  /** The reported unit takes precedence whenever it is allowed. */
  lemma ReportedUnitWins(reported: string, rawUnit: PyVal, allowed: seq<string>, hasValue: bool)
    requires reported in allowed
    ensures GridUnit(PStr(reported), rawUnit, allowed, hasValue) == Ok(Some(reported))
  {
  }

  /** Otherwise the raw unit's first normalized match comes next, even where
    * the schema lists several units. */
  lemma RawUnitMatchWins(reported: PyVal, rawUnit: string, allowed: seq<string>, hasValue: bool, u: string)
    requires ReportedUnit(reported, allowed).None? && rawUnit != []
    requires FirstNormMatch(NormSpaceless(rawUnit), allowed, NormSpaceless) == Some(u)
    ensures GridUnit(reported, PStr(rawUnit), allowed, hasValue) == Ok(Some(u))
  {
  }

  /** A row with no value and no recognisable unit under a KPI with several
    * units stays without a unit. */
  lemma NoValueNoUnit(reported: PyVal, rawUnit: PyVal, allowed: seq<string>)
    requires ReportedUnit(reported, allowed).None? && !Truthy(rawUnit) && |allowed| != 1
    ensures GridUnit(reported, rawUnit, allowed, false) == Ok(None)
  {
  }

  /** A falsy entry is dropped. */
  lemma GridEntrySkipsEmpty(code: string, e: Entry, schema: KpiSchema)
    requires !NonEmpty(e)
    ensures GridEntry(code, e, schema) == Ok(None)
  {
  }

  /** A non-empty entry that does not raise becomes a record that carries the
    * raw fields through, holds the step-1 value and the step-2 unit, and whose
    * confidence is the entry's own or 0.9. */
  lemma GridEntryRecord(code: string, e: Entry, schema: KpiSchema)
    requires NonEmpty(e) && GridEntry(code, e, schema).Ok?
    ensures GridEntry(code, e, schema).value.Some?
    ensures var n := GridEntry(code, e, schema).value.value;
      var value := GridValue(Get(e, "value"), Get(e, "raw_value")).value;
      && n.keys == ["raw_value", "raw_unit", "value", "unit", "confidence"]
      && Get(n, "raw_value") == Get(e, "raw_value") && Get(n, "raw_unit") == Get(e, "raw_unit")
      && Get(n, "value") == OptNum(value)
      && Get(n, "unit") == OptText(GridUnit(Get(e, "unit"), Get(e, "raw_unit"), UnitsOf(schema, code), value.Some?).value)
      && ("confidence" !in e.vals ==> Get(n, "confidence") == Num(0.9))
  {
  }

  /** Whenever the loop finishes, its output holds exactly the non-empty
    * entries, in input order, each with a unit that is None or allowed. */
  lemma NormalizeTableGridKeys(raw: Results, schema: KpiSchema)
    requires raw.Valid()
    requires BuildOutcome(raw.keys, GridEntryFn(raw, schema)).Ok?
    ensures var out := BuildOutcome(raw.keys, GridEntryFn(raw, schema)).value;
      && out.Valid()
      && out.keys == Where(raw.keys, k => k in raw.vals && NonEmpty(raw.vals[k]))
      && forall k :: k in out.vals ==>
        var u := Get(out.vals[k], "unit");
        u == PNone || (u.PStr? && u.s in UnitsOf(schema, k))
  {
    var f := GridEntryFn(raw, schema);
    BuildOutcomeSpec(raw.keys, f);
    KeptOkWhere(raw.keys, f, k => k in raw.vals && NonEmpty(raw.vals[k]));
  }
}
