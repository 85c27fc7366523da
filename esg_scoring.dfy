/** The diagnostic extraction score: a value term, a unit term and a prior
  * per source, multiplied with the base confidence and clamped to [0, 1]. */
module EsgScoring {
  import opened Wrappers
  import PyFloat

  datatype ScoreReport = ScoreReport(
    valueQuality: real,
    unitQuality: real,
    sourceWeight: real,
    baseConfidence: real,
    score: real)

  /** 1.0 when a value was parsed, else 0.0. */
  function ValueQuality(parsed: Option<real>): (q: real)
    ensures q == 1.0 <==> parsed.Some?
    ensures q == 0.0 <==> parsed.None?
  {
    if parsed.Some? then 1.0 else 0.0
  }

  /** 1.0 or 0.0 by membership when the schema lists units, 0.7 for any unit
    * when it lists none, 0.0 without a unit (an empty string is no unit). */
  function UnitQuality(unit: Option<string>, allowed: seq<string>): (q: real)
    ensures q == 1.0 <==> unit.Some? && unit.value != [] && unit.value in allowed
    ensures q == 0.7 <==> unit.Some? && unit.value != [] && allowed == []
    ensures q in {0.0, 0.7, 1.0}
  {
    var hasUnit := unit.Some? && unit.value != [];
    if hasUnit && allowed != [] then (if unit.value in allowed then 1.0 else 0.0)
    else if hasUnit then 0.7
    else 0.0
  }

  /** The prior for each known source; any other source weighs like "unknown". */
  const SourcePriors: map<string, real> := map[
    "table_grid" := 1.05,
    "table_plain" := 1.0,
    "regex" := 0.95,
    "nlp" := 0.9,
    "llm" := 0.85,
    "unknown" := 1.0
  ]

  function SourceWeight(source: string): (w: real)
    ensures source !in SourcePriors ==> w == 1.0
    ensures 0.85 <= w <= 1.05
  {
    if source in SourcePriors then SourcePriors[source] else SourcePriors["unknown"]
  }

  /** `max(0.0, min(1.0, x))`. */
  function Clamp01(x: real): (r: real)
    ensures 0.0 <= r <= 1.0
    ensures 0.0 <= x <= 1.0 ==> r == x
    ensures x > 1.0 ==> r == 1.0
    ensures x < 0.0 ==> r == 0.0
  {
    if x > 1.0 then 1.0 else if x < 0.0 then 0.0 else x
  }

  /** `0.7 * value_quality + 0.3 * unit_quality`. */
  function RawTerm(vq: real, uq: real): real {
    0.7 * vq + 0.3 * uq
  }

  /** `compute_extraction_score`. */
  function ComputeExtractionScore(parsed: Option<real>, unit: Option<string>, allowed: seq<string>,
                                  base: real, source: string): (r: ScoreReport)
    ensures 0.0 <= r.score <= 1.0
    ensures r.valueQuality == ValueQuality(parsed) && r.unitQuality == UnitQuality(unit, allowed)
    ensures r.sourceWeight == SourceWeight(source) && r.baseConfidence == base
  {
    var vq := ValueQuality(parsed);
    var uq := UnitQuality(unit, allowed);
    var w := SourceWeight(source);
    ScoreReport(vq, uq, w, base, Clamp01(PyFloat.Mul(PyFloat.Mul(base, RawTerm(vq, uq)), w)))
  }

  /** The weighted term lies in [0, 1]. */
  lemma RawTermBounds(parsed: Option<real>, unit: Option<string>, allowed: seq<string>)
    ensures 0.0 <= RawTerm(ValueQuality(parsed), UnitQuality(unit, allowed)) <= 1.0
  {
  }

  /** A value with an allowed unit scores the base confidence times the
    * source prior, capped at 1. */
  lemma FullMarks(v: real, unit: string, allowed: seq<string>, base: real, source: string)
    requires unit in allowed && unit != []
    ensures ComputeExtractionScore(Some(v), Some(unit), allowed, base, source).score
      == Clamp01(PyFloat.Mul(base, SourceWeight(source)))
  {
    assert RawTerm(1.0, 1.0) == 1.0;
  }

  /** Without a value or a unit there is nothing to score. */
  lemma NothingScoresZero(allowed: seq<string>, base: real, source: string)
    ensures ComputeExtractionScore(None, None, allowed, base, source).score == 0.0
  {
    assert RawTerm(0.0, 0.0) == 0.0;
    PyFloat.MulZero(base);
    PyFloat.MulZero(SourceWeight(source));
  }

  /** With everything else equal and a non-negative base confidence, a source
    * with a larger prior never scores lower. */
  lemma ScoreFollowsPrior(parsed: Option<real>, unit: Option<string>, allowed: seq<string>,
                          base: real, s1: string, s2: string)
    requires base >= 0.0 && SourceWeight(s1) <= SourceWeight(s2)
    ensures ComputeExtractionScore(parsed, unit, allowed, base, s1).score
      <= ComputeExtractionScore(parsed, unit, allowed, base, s2).score
  {
    var t := RawTerm(ValueQuality(parsed), UnitQuality(unit, allowed));
    RawTermBounds(parsed, unit, allowed);
    var b := PyFloat.Mul(base, t);
    assert b >= 0.0 by {
      PyFloat.MulNonNegative(base, t);
    }
    PyFloat.MulMonotone(b, SourceWeight(s1), SourceWeight(s2));
  }
}
