/** The normalizer for the plain-table extractor's lines: locale parsing,
  * whitespace-free unit keys, and the raw unit looked at only when the
  * schema lists some unit. */
module EsgTablePlainNormalizer {
  import opened Wrappers
  import opened Dicts
  import opened PyStr
  import opened PyValues
  import opened Records
  import opened Schema
  import opened UnitMatch
  import opened EsgNumericParser
  import opened FallbackNormalizer

  const PlainRules: Rules := Rules(ParseLocaleNumber, NormJoined, true, 0.5)

  /** `normalize_table_plain_result`. */
  method NormalizeTablePlainResult(raw: Results, schema: KpiSchema) returns (r: Outcome<Results>)
    ensures r == BuildOutcome(raw.keys, FallbackEntryFn(raw, schema, PlainRules))
  {
    r := NormalizeWith(raw, schema, PlainRules);
  }

  /** Under a KPI without units the raw unit is never looked at, so it cannot
    * raise and the unit stays None. */
  lemma PlainIgnoresUnitWithoutSchemaUnits(rawUnit: PyVal)
    ensures FallbackUnit(rawUnit, [], PlainRules) == Ok(None)
  {
  }

  /** A line's value is the locale parse of its raw text, and its confidence
    * is 0.5 unless the extractor gave one. */
  lemma PlainEntryValue(code: string, e: Entry, schema: KpiSchema, text: string)
    requires Get(e, "raw_value") == PStr(text) && "confidence" !in e.vals
    requires FallbackEntry(code, e, schema, PlainRules).Ok?
    ensures FallbackEntry(code, e, schema, PlainRules).value.Some?
    ensures var n := FallbackEntry(code, e, schema, PlainRules).value.value;
      Get(n, "value") == OptNum(ParseLocaleNumber(Some(text))) && Get(n, "confidence") == Num(0.5)
  {
    assert "raw_value" in e.vals;
    FallbackEntryRecord(code, e, schema, PlainRules);
  }

  lemma SpacedCubicKey()
    ensures NormJoined("M \U{b3}") == "m3"
  {
    assert DropSpaces("M \U{b3}") == "M\U{b3}";
    assert Lower("M\U{b3}") == "m\U{b3}";
    assert MapChar("m\U{b3}", '\U{b3}', '3') == "m3";
  }

  lemma MixedUnitKeys()
    ensures NormJoined("tCO2e") == "tco2e" && NormJoined("m3") == "m3"
  {
    NormJoinedNoSpace("tCO2e");
    NormJoinedNoSpace("m3");
  }

  /** A unit written with inner spaces or as "M³" still matches "m3". */
  lemma PlainSpacedUnitMatches()
    ensures FallbackUnit(PStr("M \U{b3}"), ["tCO2e", "m3"], PlainRules) == Ok(Some("m3"))
  {
    SpacedCubicKey();
    MixedUnitKeys();
    assert MatchFrom("m3", ["tCO2e", "m3"], NormJoined, 1) == Some(1);
    assert FirstNormMatch("m3", ["tCO2e", "m3"], NormJoined) == Some("m3");
    RawUnitMatches("M \U{b3}", ["tCO2e", "m3"], PlainRules, "m3");
  }
}
