/** The regex extractor: for every KPI of the schema that lists units, the
  * first "<number> <unit>" occurrence in the whitespace-collapsed text. */
module EsgRegexExtractor {
  import opened Wrappers
  import opened Dicts
  import opened PyStr
  import opened PyValues
  import opened Records
  import opened Schema
  import opened NumberUnit

  /** The unit alternatives the cached pattern for `units` holds: the
    * `||`-joined key split back, empty parts dropped, repeats dropped. */
  function PatternUnits(units: seq<string>): (r: seq<string>)
    ensures forall u :: u in r <==> u in UnitsKeyParts(units) && u != []
    ensures forall i, j :: 0 <= i < j < |r| ==> r[i] != r[j]
  {
    Dedup(NonEmptyParts(UnitsKeyParts(units)))
  }

  /** Units without `|` come through the key unchanged: the pattern has
    * exactly the non-empty ones. */
  lemma PatternUnitsPlain(units: seq<string>)
    requires units != []
    requires forall u :: u in units ==> '|' !in u
    ensures forall u :: u in PatternUnits(units) <==> u in units && u != []
  {
    UnitsKeyRoundTrip(units);
  }

  /** The record for a match: the stripped value and unit groups and the
    * base confidence. */
  function HitRecord(t: string, h: Hit, base: real): Entry
    requires h.start <= h.ValueEnd() <= |t| && h.at + |h.unit| <= |t|
  {
    RawRecord(PStr(Strip(ValueGroup(t, h))), PStr(Strip(UnitGroup(t, h))), base)
  }

  /** `pattern.search(t)` turned into a record: the stripped groups of the
    * match found and the base confidence. */
  function MatchRecord(t: string, us: seq<string>, base: real): Option<Entry> {
    match SearchIn(t, us)
    case None => None
    case Some(h) => SearchInBounds(t, us); Some(HitRecord(t, h, base))
  }

  /** There is a record exactly when the pattern matches somewhere. */
  lemma MatchRecordIff(t: string, us: seq<string>, base: real)
    ensures MatchRecord(t, us, base).Some? <==> exists h :: Matches(t, us, h)
  {
    SearchSound(t, us);
    if h :| Matches(t, us, h) {
      SearchLeftmost(t, us, h);
    }
  }

  /** The record is that of a leftmost match. */
  lemma MatchRecordLeftmost(t: string, us: seq<string>, base: real)
    requires MatchRecord(t, us, base).Some?
    ensures
      exists h :: Matches(t, us, h)
        && (forall h' :: Matches(t, us, h') ==> h.start <= h'.start)
        && MatchRecord(t, us, base).value == HitRecord(t, h, base)
  {
    SearchFound(t, us);
  }

  /** The body of the loop for one KPI code, on the cleaned text. */
  function RegexEntry(cleaned: string, schema: KpiSchema, code: string, base: real): Option<Entry> {
    var units := UnitsOf(schema, code);
    if units == [] then None else MatchRecord(cleaned, PatternUnits(units), base)
  }

  function RegexFn(cleaned: string, schema: KpiSchema, base: real): string -> Option<Entry> {
    code => RegexEntry(cleaned, schema, code, base)
  }

  /** What `extract_kpis_regex` returns. */
  function ExtractSpec(text: string, schema: KpiSchema, base: real): Results {
    if text == [] then Empty() else Build(schema.keys, RegexFn(CollapseWs(text), schema, base))
  }

  /** `extract_kpis_regex(text, kpi_schema, base_confidence=base)`. */
  method ExtractKpisRegex(text: string, schema: KpiSchema, base: real) returns (r: Results)
    ensures r == ExtractSpec(text, schema, base)
  {
    if text == [] {
      return Empty();
    }
    var cleaned := CollapseWs(text);
    var f := RegexFn(cleaned, schema, base);
    r := Empty();
    var i := 0;
    while i < |schema.keys|
      invariant 0 <= i <= |schema.keys|
      invariant Build(schema.keys[..i], f) == r
    {
      var code := schema.keys[i];
      BuildStep(schema.keys, i, f);
      var units := UnitsOf(schema, code);
      if units != [] {
        var us := PatternUnits(units);
        var m := SearchIn(cleaned, us);
        if m.Some? {
          SearchInBounds(cleaned, us);
          var e := HitRecord(cleaned, m.value, base);
          assert f(code) == Some(e);
          r := r.Put(code, e);
        }
      }
      i := i + 1;
    }
    assert schema.keys[..|schema.keys|] == schema.keys;
  }

  /** A schema KPI is reported exactly when the text is not empty, the KPI
    * lists units and the pattern for them matches somewhere in the cleaned
    * text; the result keeps schema order. */
  lemma RegexReports(text: string, schema: KpiSchema, base: real, code: string)
    requires schema.Valid() && code in schema.keys
    ensures ExtractSpec(text, schema, base).Valid()
    ensures code in ExtractSpec(text, schema, base).vals <==>
      && text != [] && UnitsOf(schema, code) != []
      && exists h :: Matches(CollapseWs(text), PatternUnits(UnitsOf(schema, code)), h)
  {
    if text != [] {
      var cleaned := CollapseWs(text);
      BuildSpec(schema.keys, RegexFn(cleaned, schema, base));
      MatchRecordIff(cleaned, PatternUnits(UnitsOf(schema, code)), base);
    }
  }

  /** The loop body finds the record of the leftmost match of the pattern
    * for the KPI's units, with the base confidence. */
  lemma RegexEntryHit(cleaned: string, schema: KpiSchema, code: string, base: real)
    requires RegexEntry(cleaned, schema, code, base).Some?
    ensures UnitsOf(schema, code) != []
    ensures var us := PatternUnits(UnitsOf(schema, code));
      exists h :: Matches(cleaned, us, h)
        && (forall h' :: Matches(cleaned, us, h') ==> h.start <= h'.start)
        && RegexEntry(cleaned, schema, code, base).value == HitRecord(cleaned, h, base)
  {
    MatchRecordLeftmost(cleaned, PatternUnits(UnitsOf(schema, code)), base);
  }

  /** A reported KPI carries the record of the leftmost match of the
    * pattern for its units in the cleaned text, with the base confidence. */
  lemma RegexFirstHit(text: string, schema: KpiSchema, base: real, code: string)
    requires code in ExtractSpec(text, schema, base).vals
    ensures text != [] && UnitsOf(schema, code) != []
    ensures var cleaned := CollapseWs(text);
      var us := PatternUnits(UnitsOf(schema, code));
      exists h :: Matches(cleaned, us, h)
        && (forall h' :: Matches(cleaned, us, h') ==> h.start <= h'.start)
        && ExtractSpec(text, schema, base).vals[code] == HitRecord(cleaned, h, base)
  {
    var cleaned := CollapseWs(text);
    var e := ExtractSpec(text, schema, base).vals[code];
    assert text != [] && RegexEntry(cleaned, schema, code, base) == Some(e) by {
      BuildVals(schema.keys, RegexFn(cleaned, schema, base));
    }
    RegexEntryHit(cleaned, schema, code, base);
  }

  /** An empty text, or a KPI without units, yields nothing. */
  lemma RegexSkips(text: string, schema: KpiSchema, base: real, code: string)
    requires text == [] || UnitsOf(schema, code) == []
    ensures code !in ExtractSpec(text, schema, base).vals
  {
    if text != [] {
      BuildVals(schema.keys, RegexFn(CollapseWs(text), schema, base));
    }
  }
}
