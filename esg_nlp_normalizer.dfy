/** The normalizer for the NLP extractor's sentence hits: magnitude-aware
  * parsing and space-free unit keys. */
module EsgNlpNormalizer {
  import opened Wrappers
  import opened Dicts
  import opened PyValues
  import opened Records
  import opened Schema
  import opened UnitMatch
  import opened EsgNumericParser
  import opened FallbackNormalizer

  const NlpRules: Rules := Rules(ParseScaledNumber, NormSpaceless, false, 0.65)

  /** `normalize_nlp_result`. */
  method NormalizeNlpResult(raw: Results, schema: KpiSchema) returns (r: Outcome<Results>)
    ensures r == BuildOutcome(raw.keys, FallbackEntryFn(raw, schema, NlpRules))
  {
    r := NormalizeWith(raw, schema, NlpRules);
  }

  /** A truthy raw unit is always looked at: a non-string one raises even
    * under a KPI without units. */
  lemma NlpNonTextUnitRaises(x: real, text: string)
    requires x != 0.0
    ensures FallbackUnit(PNum(x, text), [], NlpRules).Raised?
  {
  }

  /** A hit's value is the magnitude-aware parse of its raw text, and its
    * confidence is 0.65 unless the extractor gave one. */
  lemma NlpEntryValue(code: string, e: Entry, schema: KpiSchema, text: string)
    requires Get(e, "raw_value") == PStr(text) && "confidence" !in e.vals
    requires FallbackEntry(code, e, schema, NlpRules).Ok?
    ensures FallbackEntry(code, e, schema, NlpRules).value.Some?
    ensures var n := FallbackEntry(code, e, schema, NlpRules).value.value;
      Get(n, "value") == OptNum(ParseScaledNumber(Some(text))) && Get(n, "confidence") == Num(0.65)
  {
    assert "raw_value" in e.vals;
    FallbackEntryRecord(code, e, schema, NlpRules);
  }
}
