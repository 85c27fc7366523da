/** The normalizer for the LLM extractor's answers: magnitude-aware parsing
  * and space-free unit keys.  The key in the source replaces the two
  * characters "Â³" (superscript three mis-decoded as Latin-1) after
  * lower-casing, which cannot find them; the model keeps that key as
  * written beside the key its siblings use, which the normalizer here uses. */
module EsgLlmNormalizer {
  import opened Wrappers
  import opened Dicts
  import opened PyStr
  import opened PyValues
  import opened Records
  import opened Schema
  import opened UnitMatch
  import opened EsgNumericParser
  import opened FallbackNormalizer

  /** `u.lower().replace(" ", "").replace("Â³", "3")`, as written. */
  function LlmTokenAsWritten(u: string): string {
    Replace(RemoveAll(Lower(u), {' '}), "\U{c2}\U{b3}", "3")
  }

  /** The replacement never fires: lower-casing has already turned every
    * "Â" into "â", so the key leaves a superscript three in place. */
  lemma LlmTokenReplaceIsDead(u: string)
    ensures LlmTokenAsWritten(u) == RemoveAll(Lower(u), {' '})
  {
    var t := RemoveAll(Lower(u), {' '});
    RemoveAllNoUpper(Lower(u), {' '});
    assert IsUpper('\U{c2}');
    ReplaceAbsent(t, "\U{c2}\U{b3}", "3");
  }

  const LlmRulesAsWritten: Rules := Rules(ParseScaledNumber, LlmTokenAsWritten, false, 0.75)

  /** The rules with the key the grid-table and NLP normalizers use. */
  const LlmRules: Rules := Rules(ParseScaledNumber, NormSpaceless, false, 0.75)

  lemma CubicKeys()
    ensures LlmTokenAsWritten("m\U{b3}") == "m\U{b3}"
    ensures LlmTokenAsWritten("m3") == "m3" && LlmTokenAsWritten("ML") == "ml"
    ensures NormSpaceless("m\U{b3}") == "m3" && NormSpaceless("m3") == "m3"
  {
    LlmTokenReplaceIsDead("m\U{b3}");
    LlmTokenReplaceIsDead("m3");
    LlmTokenReplaceIsDead("ML");
  }

  /** An answer in "m³" for a KPI whose schema lists "m3" among several units
    * gets no unit under the key as written, and "m3" under the intended key. */
  lemma SuperscriptUnitMissed()
    ensures FallbackUnit(PStr("m\U{b3}"), ["m3", "ML"], LlmRulesAsWritten) == Ok(None)
    ensures FallbackUnit(PStr("m\U{b3}"), ["m3", "ML"], LlmRules) == Ok(Some("m3"))
  {
    CubicKeys();
    assert MatchFrom("m\U{b3}", ["m3", "ML"], LlmTokenAsWritten, 0) == None;
    assert FirstNormMatch("m\U{b3}", ["m3", "ML"], LlmTokenAsWritten) == None;
    assert MatchFrom("m3", ["m3", "ML"], NormSpaceless, 0) == Some(0);
    assert FirstNormMatch("m3", ["m3", "ML"], NormSpaceless) == Some("m3");
  }

  /** With the intended key, a superscript three compares equal to 3, so any
    * spelling the other normalizers accept is accepted here. */
  lemma LlmKeyReadsSuperscript(u: string, v: string)
    requires LlmTokenAsWritten(u) == LlmTokenAsWritten(v)
    ensures NormSpaceless(u) == NormSpaceless(v)
  {
    LlmTokenReplaceIsDead(u);
    LlmTokenReplaceIsDead(v);
  }

  /** `normalize_llm_result`, with the intended unit key. */
  method NormalizeLlmResult(raw: Results, schema: KpiSchema) returns (r: Outcome<Results>)
    ensures r == BuildOutcome(raw.keys, FallbackEntryFn(raw, schema, LlmRules))
  {
    r := NormalizeWith(raw, schema, LlmRules);
  }

  /** An answer's confidence is 0.75 unless the extractor gave one. */
  lemma LlmEntryDefaults(code: string, e: Entry, schema: KpiSchema)
    requires NonEmpty(e) && "confidence" !in e.vals
    requires FallbackEntry(code, e, schema, LlmRules).Ok?
    ensures FallbackEntry(code, e, schema, LlmRules).value.Some?
    ensures Get(FallbackEntry(code, e, schema, LlmRules).value.value, "confidence") == Num(0.75)
  {
    FallbackEntryRecord(code, e, schema, LlmRules);
  }
}
