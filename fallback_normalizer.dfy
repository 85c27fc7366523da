/** The normalizer shape that the plain-table, NLP and LLM normalizers share:
  * parse the raw value text, take the first allowed unit equal to the raw
  * unit under a comparison key, fall back to the sole allowed unit, and write
  * the five-field record.  The three differ in their parser, their key, their
  * default confidence and whether the raw unit is looked at when the schema
  * lists no unit. */
module FallbackNormalizer {
  import opened Wrappers
  import opened Dicts
  import opened PyValues
  import opened Records
  import opened Schema
  import opened UnitMatch

  datatype Rules = Rules(
    parse: Option<string> -> Option<real>,
    norm: string -> string,
    needAllowed: bool,
    defaultConfidence: real)

  /** The raw unit is looked at: it is truthy and, under the plain-table
    * rules, the schema lists some unit. */
  predicate LooksAtRawUnit(rawUnit: PyVal, allowed: seq<string>, rules: Rules) {
    Truthy(rawUnit) && (!rules.needAllowed || allowed != [])
  }

  /** The unit resolution: the first allowed unit whose key equals the raw
    * unit's, else the sole allowed unit, else None.  Raises where a looked-at
    * raw unit is not a string. */
  function FallbackUnit(rawUnit: PyVal, allowed: seq<string>, rules: Rules): (r: Outcome<Option<string>>)
    ensures r.Raised? <==> LooksAtRawUnit(rawUnit, allowed, rules) && !rawUnit.PStr?
    ensures r.Ok? && r.value.Some? ==> r.value.value in allowed
    ensures r.Ok? && |allowed| == 1 ==> r.value == Some(allowed[0])
    ensures r.Ok? && r.value.Some? && |allowed| != 1 ==>
      rawUnit.PStr? && rules.norm(r.value.value) == rules.norm(rawUnit.s)
  {
    if !LooksAtRawUnit(rawUnit, allowed, rules) then
      if |allowed| == 1 then Ok(Some(allowed[0])) else Ok(None)
    else if !rawUnit.PStr? then Raised
    else
      var m := FirstNormMatch(rules.norm(rawUnit.s), allowed, rules.norm);
      if m.Some? then Ok(m)
      else if |allowed| == 1 then Ok(Some(allowed[0]))
      else Ok(None)
  }

  /** The unit resolution as the sources write it: `unit` updated step by step. */
  method ResolveFallbackUnit(rawUnit: PyVal, allowed: seq<string>, rules: Rules) returns (r: Outcome<Option<string>>)
    ensures r == FallbackUnit(rawUnit, allowed, rules)
  {
    var unit: Option<string> := None;
    if LooksAtRawUnit(rawUnit, allowed, rules) {
      if !rawUnit.PStr? {
        return Raised;
      }
      unit := FindUnit(rules.norm(rawUnit.s), allowed, rules.norm);
    }
    if unit.None? && |allowed| == 1 {
      unit := Some(allowed[0]);
    }
    r := Ok(unit);
  }

  /** One turn of the normalizing loop: a falsy entry is skipped, any other
    * becomes the five-field record. */
  function FallbackEntry(code: string, e: Entry, schema: KpiSchema, rules: Rules): Outcome<Option<Entry>> {
    if !NonEmpty(e) then Ok(None)
    else
      var conf := FloatOr(e, "confidence", rules.defaultConfidence);
      var text := TextArg(Get(e, "raw_value"));
      if conf.Raised? || text.Raised? then Raised
      else
        var unit := FallbackUnit(Get(e, "raw_unit"), UnitsOf(schema, code), rules);
        if unit.Raised? then Raised
        else Ok(Some(NormRecord(Get(e, "raw_value"), Get(e, "raw_unit"), rules.parse(text.value), unit.value, conf.value)))
  }

  function FallbackEntryFn(raw: Results, schema: KpiSchema, rules: Rules): string -> Outcome<Option<Entry>> {
    k => if k in raw.vals then FallbackEntry(k, raw.vals[k], schema, rules) else Ok(None)
  }

  /** The normalizing loop over the extractor's results. */
  method NormalizeWith(raw: Results, schema: KpiSchema, rules: Rules) returns (r: Outcome<Results>)
    ensures r == BuildOutcome(raw.keys, FallbackEntryFn(raw, schema, rules))
  {
    var f := FallbackEntryFn(raw, schema, rules);
    var out: Results := Empty();
    var i := 0;
    while i < |raw.keys|
      invariant 0 <= i <= |raw.keys|
      invariant BuildOutcome(raw.keys[..i], f) == Ok(out)
    {
      var code := raw.keys[i];
      BuildOutcomeStep(raw.keys, i, f);
      if code in raw.vals && NonEmpty(raw.vals[code]) {
        var entry := raw.vals[code];
        var confidence := FloatOr(entry, "confidence", rules.defaultConfidence);
        var text := TextArg(Get(entry, "raw_value"));
        if confidence.Raised? || text.Raised? {
          BuildOutcomeRaised(raw.keys, i + 1, f);
          return Raised;
        }
        var value := rules.parse(text.value);
        var unit := ResolveFallbackUnit(Get(entry, "raw_unit"), UnitsOf(schema, code), rules);
        if unit.Raised? {
          BuildOutcomeRaised(raw.keys, i + 1, f);
          return Raised;
        }
        out := out.Put(code, NormRecord(Get(entry, "raw_value"), Get(entry, "raw_unit"), value, unit.value, confidence.value));
      }
      i := i + 1;
    }
    assert raw.keys[..|raw.keys|] == raw.keys;
    r := Ok(out);
  }

  /** A raw unit matching an allowed unit's key selects the first such unit,
    * even where the schema lists a single unit. */
  lemma RawUnitMatches(rawUnit: string, allowed: seq<string>, rules: Rules, u: string)
    requires rawUnit != []
    requires FirstNormMatch(rules.norm(rawUnit), allowed, rules.norm) == Some(u)
    ensures FallbackUnit(PStr(rawUnit), allowed, rules) == Ok(Some(u))
  {
  }

  /** A falsy entry is dropped. */
  lemma FallbackEntrySkipsEmpty(code: string, e: Entry, schema: KpiSchema, rules: Rules)
    requires !NonEmpty(e)
    ensures FallbackEntry(code, e, schema, rules) == Ok(None)
  {
  }

  /** A non-empty entry that does not raise becomes a record that carries the
    * raw fields through, holds the parsed value and the resolved unit, and
    * whose confidence is the entry's own or the default. */
  lemma FallbackEntryRecord(code: string, e: Entry, schema: KpiSchema, rules: Rules)
    requires NonEmpty(e) && FallbackEntry(code, e, schema, rules).Ok?
    ensures FallbackEntry(code, e, schema, rules).value.Some?
    ensures var n := FallbackEntry(code, e, schema, rules).value.value;
      && n.keys == ["raw_value", "raw_unit", "value", "unit", "confidence"]
      && Get(n, "raw_value") == Get(e, "raw_value") && Get(n, "raw_unit") == Get(e, "raw_unit")
      && Get(n, "value") == OptNum(rules.parse(TextArg(Get(e, "raw_value")).value))
      && Get(n, "unit") == OptText(FallbackUnit(Get(e, "raw_unit"), UnitsOf(schema, code), rules).value)
      && ("confidence" !in e.vals ==> Get(n, "confidence") == Num(rules.defaultConfidence))
  {
  }

  /** Whenever the loop finishes, its output holds exactly the non-empty
    * entries, in input order, each with a unit that is None or allowed. */
  lemma NormalizeWithKeys(raw: Results, schema: KpiSchema, rules: Rules)
    requires raw.Valid()
    requires BuildOutcome(raw.keys, FallbackEntryFn(raw, schema, rules)).Ok?
    ensures var out := BuildOutcome(raw.keys, FallbackEntryFn(raw, schema, rules)).value;
      && out.Valid()
      && out.keys == Where(raw.keys, k => k in raw.vals && NonEmpty(raw.vals[k]))
      && forall k :: k in out.vals ==>
        var u := Get(out.vals[k], "unit");
        u == PNone || (u.PStr? && u.s in UnitsOf(schema, k))
  {
    var f := FallbackEntryFn(raw, schema, rules);
    BuildOutcomeSpec(raw.keys, f);
    KeptOkWhere(raw.keys, f, k => k in raw.vals && NonEmpty(raw.vals[k]));
  }
}
