/** The canonical pipeline after its extractors and normalizers: score-based
  * fusion of the four deterministic sources with a fixed priority as the
  * tie-break, the language-model backfill of the KPIs still without a value,
  * and the conversion to one result per fused KPI. */
module EsgPipeline {
  import opened Wrappers
  import opened Dicts
  import opened PyValues
  import opened Records
  import opened Schema
  import opened LlmReplies
  import opened FallbackNormalizer
  import opened EsgLlmNormalizer
  import opened EsgLlmExtractor

  /** One source's claim on a KPI. */
  datatype Candidate = Candidate(source: string, entry: Entry, score: real, priority: int)

  /** The tie-break priorities of the deterministic sources. */
  const PriorityOrder: map<string, int> := map["table_grid" := 4, "table_plain" := 3, "regex" := 2, "nlp" := 1]

  /** The sources a candidate may come from, in strictly falling priority. */
  predicate Ranked(srcs: seq<(string, Results)>) {
    && (forall i :: 0 <= i < |srcs| ==> srcs[i].0 in PriorityOrder)
    && (forall i, j :: 0 <= i < j < |srcs| ==> PriorityOrder[srcs[i].0] > PriorityOrder[srcs[j].0])
  }

  lemma RankedPrefix(srcs: seq<(string, Results)>, k: nat)
    requires Ranked(srcs) && k <= |srcs|
    ensures Ranked(srcs[..k])
  {
  }

  /** The deterministic sources in the order candidates are collected. */
  function Sources(grid: Results, plain: Results, regex: Results, nlp: Results): (srcs: seq<(string, Results)>)
    ensures Ranked(srcs)
    ensures |srcs| == 4 && srcs[0].1 == grid && srcs[1].1 == plain && srcs[2].1 == regex && srcs[3].1 == nlp
  {
    [("table_grid", grid), ("table_plain", plain), ("regex", regex), ("nlp", nlp)]
  }

  /** `entry.get("_score", {}).get("score", 0.0)` as a number.  Raises where
    * `_score` is not a dict or its score is not a number. */
  function ScoreOf(e: Entry): (r: Outcome<real>)
    ensures "_score" !in e.vals ==> r == Ok(0.0)
    ensures r.Raised? <==> ("_score" in e.vals &&
      (!e.vals["_score"].PDict? || ("score" in e.vals["_score"].fields && !IsNumber(e.vals["_score"].fields["score"]))))
  {
    if "_score" !in e.vals then Ok(0.0)
    else match e.vals["_score"]
      case PDict(_, fields) =>
        if "score" !in fields then Ok(0.0)
        else if IsNumber(fields["score"]) then Ok(ToFloat(fields["score"]).value)
        else Raised
      case _ => Raised
  }

  /** The entry a source holds for a code, when it is truthy. */
  predicate Present(d: Results, code: string) {
    code in d.vals && NonEmpty(d.vals[code])
  }

  /** The candidate list for one code: a truthy entry of each source in turn. */
  function CandidatesFrom(code: string, srcs: seq<(string, Results)>): (r: Outcome<seq<Candidate>>)
    requires Ranked(srcs)
    ensures (forall i :: 0 <= i < |srcs| && Present(srcs[i].1, code) ==> ScoreOf(srcs[i].1.vals[code]).Ok?) ==> r.Ok?
    ensures r.Ok? ==> forall c :: c in r.value ==>
      && NonEmpty(c.entry) && ScoreOf(c.entry) == Ok(c.score)
      && c.source in PriorityOrder && c.priority == PriorityOrder[c.source]
      && exists i :: 0 <= i < |srcs| && srcs[i].0 == c.source && Present(srcs[i].1, code) && srcs[i].1.vals[code] == c.entry
  {
    if srcs == [] then Ok([])
    else
      var n := |srcs| - 1;
      var (name, d) := srcs[n];
      assert Ranked(srcs[..n]);
      match CandidatesFrom(code, srcs[..n])
      case Raised => Raised
      case Ok(prev) =>
        if !Present(d, code) then Ok(prev)
        else
          match ScoreOf(d.vals[code])
          case Raised => Raised
          case Ok(s) => Ok(prev + [Candidate(name, d.vals[code], s, PriorityOrder[name])])
  }

  /** `(a.score, a.priority) < (b.score, b.priority)`. */
  predicate RanksBelow(a: Candidate, b: Candidate) {
    a.score < b.score || (a.score == b.score && a.priority < b.priority)
  }

  /** `sorted(candidates, key=(score, priority), reverse=True)[0]`: the sort
    * is stable, so this is the first candidate whose key is the largest. */
  function PickBest(cs: seq<Candidate>): (b: Candidate)
    requires cs != []
    ensures b in cs
    ensures forall c :: c in cs ==> !RanksBelow(b, c)
    ensures exists i :: 0 <= i < |cs| && cs[i] == b && forall j :: 0 <= j < i ==> RanksBelow(cs[j], b)
  {
    if |cs| == 1 then cs[0]
    else
      var rest := PickBest(cs[1..]);
      assert forall c :: c in cs[1..] ==> c in cs;
      assert forall c :: c in cs ==> c == cs[0] || c in cs[1..];
      if RanksBelow(cs[0], rest) then
        assert exists i :: 1 <= i < |cs| && cs[i] == rest && forall j :: 0 <= j < i ==> RanksBelow(cs[j], rest) by {
          var k :| 0 <= k < |cs[1..]| && cs[1..][k] == rest && forall j :: 0 <= j < k ==> RanksBelow(cs[1..][j], rest);
          assert cs[k + 1] == rest;
          forall j | 0 <= j < k + 1 ensures RanksBelow(cs[j], rest) {
            if j > 0 { assert cs[j] == cs[1..][j - 1]; }
          }
        }
        rest
      else
        cs[0]
  }

  /** The record of a KPI no source found. */
  function NotReported(): (e: Entry)
    ensures e.Valid() && e.keys == ["value", "unit", "confidence", "source", "status"]
    ensures Get(e, "value") == PNone && Get(e, "unit") == PNone && Get(e, "confidence") == Num(0.0)
    ensures Get(e, "source") == PList([]) && Get(e, "status") == PStr("Not Reported")
  {
    Dict(["value", "unit", "confidence", "source", "status"],
      map["value" := PNone, "unit" := PNone, "confidence" := Num(0.0), "source" := PList([]), "status" := PStr("Not Reported")])
  }

  /** `{**entry, "source": [name]}`. */
  function Tagged(e: Entry, name: string): (t: Entry)
    ensures Get(t, "source") == PList([PStr(name)])
    ensures forall k :: k != "source" ==> Get(t, k) == Get(e, k)
    ensures e.Valid() ==> t.Valid()
  {
    e.Put("source", PList([PStr(name)]))
  }

  /** One turn of the loop in `fuse_all_sources`. */
  function FusedEntry(code: string, srcs: seq<(string, Results)>): Outcome<Entry>
    requires Ranked(srcs)
  {
    match CandidatesFrom(code, srcs)
    case Raised => Raised
    case Ok(cs) =>
      if cs == [] then Ok(NotReported())
      else
        var best := PickBest(cs);
        Ok(Tagged(best.entry, best.source))
  }

  function FusedFn(srcs: seq<(string, Results)>): string -> Outcome<Option<Entry>>
    requires Ranked(srcs)
  {
    code => match FusedEntry(code, srcs)
      case Raised => Raised
      case Ok(e) => Ok(Some(e))
  }

  /** `fuse_all_sources`; its `llm_norm` parameter is never read. */
  method FuseAllSources(regexNorm: Results, gridNorm: Results, plainNorm: Results, nlpNorm: Results,
                        llmNorm: Results, codes: seq<string>) returns (r: Outcome<Results>)
    ensures r == BuildOutcome(codes, FusedFn(Sources(gridNorm, plainNorm, regexNorm, nlpNorm)))
  {
    var srcs := Sources(gridNorm, plainNorm, regexNorm, nlpNorm);
    var f := FusedFn(srcs);
    var fused: Results := Empty();
    var i := 0;
    while i < |codes|
      invariant 0 <= i <= |codes|
      invariant BuildOutcome(codes[..i], f) == Ok(fused)
    {
      var code := codes[i];
      BuildOutcomeStep(codes, i, f);
      var cands := CollectCandidates(code, srcs);
      if cands.Raised? {
        BuildOutcomeRaised(codes, i + 1, f);
        return Raised;
      }
      var candidates := cands.value;
      if candidates == [] {
        fused := fused.Put(code, NotReported());
      } else {
        var best := PickBest(candidates);
        fused := fused.Put(code, Tagged(best.entry, best.source));
      }
      i := i + 1;
    }
    assert codes[..|codes|] == codes;
    r := Ok(fused);
  }

  /** The inner loop of `fuse_all_sources`, appending to `candidates`. */
  method CollectCandidates(code: string, srcs: seq<(string, Results)>) returns (r: Outcome<seq<Candidate>>)
    requires Ranked(srcs)
    ensures r == CandidatesFrom(code, srcs)
  {
    var candidates: seq<Candidate> := [];
    var j := 0;
    while j < |srcs|
      invariant 0 <= j <= |srcs|
      invariant Ranked(srcs[..j])
      invariant CandidatesFrom(code, srcs[..j]) == Ok(candidates)
    {
      var (name, d) := srcs[j];
      assert srcs[..j + 1][..j] == srcs[..j];
      assert Ranked(srcs[..j + 1]);
      if Present(d, code) {
        var score := ScoreOf(d.vals[code]);
        if score.Raised? {
          assert CandidatesFrom(code, srcs[..j + 1]).Raised?;
          CandidatesRaised(code, srcs, j + 1);
          return Raised;
        }
        candidates := candidates + [Candidate(name, d.vals[code], score.value, PriorityOrder[name])];
      }
      j := j + 1;
    }
    assert srcs[..|srcs|] == srcs;
    r := Ok(candidates);
  }

  /** A score that raises on a prefix of the sources raises for them all. */
  lemma {:induction false} CandidatesRaised(code: string, srcs: seq<(string, Results)>, j: nat)
    requires Ranked(srcs) && j <= |srcs|
    requires Ranked(srcs[..j]) && CandidatesFrom(code, srcs[..j]).Raised?
    ensures CandidatesFrom(code, srcs).Raised?
    decreases |srcs| - j
  {
    if j < |srcs| {
      RankedPrefix(srcs, j + 1);
      assert srcs[..j + 1][..j] == srcs[..j];
      RaisedExtends(code, srcs[..j + 1]);
      CandidatesRaised(code, srcs, j + 1);
    } else {
      assert srcs[..j] == srcs;
    }
  }

  /** A score that raises for all but the last source raises for them all. */
  lemma RaisedExtends(code: string, srcs: seq<(string, Results)>)
    requires Ranked(srcs) && srcs != [] && Ranked(srcs[..|srcs| - 1])
    requires CandidatesFrom(code, srcs[..|srcs| - 1]).Raised?
    ensures CandidatesFrom(code, srcs).Raised?
  {
  }

  /** Every KPI code gets exactly one fused entry, in code order. */
  lemma FuseEveryCode(codes: seq<string>, srcs: seq<(string, Results)>)
    requires Ranked(srcs) && Distinct(codes)
    requires BuildOutcome(codes, FusedFn(srcs)).Ok?
    ensures var fused := BuildOutcome(codes, FusedFn(srcs)).value;
      && fused.Valid() && fused.keys == codes
      && forall k :: k in codes ==> FusedEntry(k, srcs) == Ok(fused.vals[k])
  {
    var f := FusedFn(srcs);
    BuildOutcomeSpec(codes, f);
    KeptOkAll(codes, f);
  }

  /** A code no source holds a truthy entry for is "Not Reported", with no
    * value, no unit, confidence 0 and no source. */
  lemma NoCandidateNotReported(code: string, srcs: seq<(string, Results)>)
    requires Ranked(srcs)
    requires forall i :: 0 <= i < |srcs| ==> !Present(srcs[i].1, code)
    ensures FusedEntry(code, srcs) == Ok(NotReported())
  {
  }

  /** A code some source holds a truthy entry for takes the entry of a
    * candidate no other candidate ranks above, tagged with its source name
    * alone. */
  lemma WinnerTakesCode(code: string, srcs: seq<(string, Results)>, i: nat)
    requires Ranked(srcs) && i < |srcs| && Present(srcs[i].1, code)
    requires FusedEntry(code, srcs).Ok?
    ensures exists c :: (c in CandidatesFrom(code, srcs).value
      && FusedEntry(code, srcs) == Ok(Tagged(c.entry, c.source))
      && Get(FusedEntry(code, srcs).value, "source") == PList([PStr(c.source)])
      && forall d :: d in CandidatesFrom(code, srcs).value ==> !RanksBelow(c, d))
  {
    assert CandidatesFrom(code, srcs).Ok?;
    var ci := CandidateAt(code, srcs, i);
    var cs := CandidatesFrom(code, srcs).value;
    assert PickBest(cs) in cs;
  }

  /** Entries without a `_score`, which is what the normalizers produce, all
    * score 0, so the priority alone decides: the first source, in the order
    * table_grid, table_plain, regex, nlp, that holds a truthy entry wins. */
  lemma {:induction false} FirstPresentSourceWins(code: string, srcs: seq<(string, Results)>, k: nat)
    requires Ranked(srcs) && k < |srcs| && Present(srcs[k].1, code)
    requires forall i :: 0 <= i < |srcs| && Present(srcs[i].1, code) ==> "_score" !in srcs[i].1.vals[code].vals
    requires forall i :: 0 <= i < k ==> !Present(srcs[i].1, code)
    ensures FusedEntry(code, srcs) == Ok(Tagged(srcs[k].1.vals[code], srcs[k].0))
  {
    var ck := CandidateAt(code, srcs, k);
    var cs := CandidatesFrom(code, srcs).value;
    var b := PickBest(cs);
    var j := SourceOf(code, srcs, b);
    assert j >= k;
    assert !RanksBelow(b, ck);
    assert j <= k;
  }

  /** Every truthy entry of a source is among the candidates. */
  lemma {:induction false} CandidatesComplete(code: string, srcs: seq<(string, Results)>)
    requires Ranked(srcs) && CandidatesFrom(code, srcs).Ok?
    ensures forall i :: 0 <= i < |srcs| && Present(srcs[i].1, code) ==>
      exists c :: c in CandidatesFrom(code, srcs).value && c.source == srcs[i].0 && c.entry == srcs[i].1.vals[code]
    decreases |srcs|
  {
    if srcs != [] {
      var n := |srcs| - 1;
      assert Ranked(srcs[..n]);
      CandidatesComplete(code, srcs[..n]);
      var prev := CandidatesFrom(code, srcs[..n]).value;
      assert forall c :: c in prev ==> c in CandidatesFrom(code, srcs).value;
      forall i | 0 <= i < |srcs| && Present(srcs[i].1, code)
        ensures exists c :: c in CandidatesFrom(code, srcs).value && c.source == srcs[i].0 && c.entry == srcs[i].1.vals[code]
      {
        if i < n {
          assert srcs[..n][i] == srcs[i];
        } else {
          var c := CandidatesFrom(code, srcs).value[|prev|];
          assert c.source == srcs[i].0 && c.entry == srcs[i].1.vals[code];
        }
      }
    }
  }

  /** The candidate a source with a truthy entry contributes. */
  lemma CandidateAt(code: string, srcs: seq<(string, Results)>, i: nat) returns (c: Candidate)
    requires Ranked(srcs) && i < |srcs| && Present(srcs[i].1, code)
    requires CandidatesFrom(code, srcs).Ok?
    ensures c in CandidatesFrom(code, srcs).value && c.source == srcs[i].0 && c.entry == srcs[i].1.vals[code]
    ensures c.priority == PriorityOrder[srcs[i].0] && ScoreOf(c.entry) == Ok(c.score)
  {
    CandidatesComplete(code, srcs);
    c :| c in CandidatesFrom(code, srcs).value && c.source == srcs[i].0 && c.entry == srcs[i].1.vals[code];
  }

  /** The source a candidate comes from. */
  lemma SourceOf(code: string, srcs: seq<(string, Results)>, c: Candidate) returns (i: nat)
    requires Ranked(srcs) && CandidatesFrom(code, srcs).Ok? && c in CandidatesFrom(code, srcs).value
    ensures i < |srcs| && srcs[i].0 == c.source && Present(srcs[i].1, code) && srcs[i].1.vals[code] == c.entry
    ensures c.priority == PriorityOrder[srcs[i].0] && ScoreOf(c.entry) == Ok(c.score)
  {
    i :| 0 <= i < |srcs| && srcs[i].0 == c.source && Present(srcs[i].1, code) && srcs[i].1.vals[code] == c.entry;
  }

  /** For the four deterministic sources: a truthy table_grid entry without a
    * `_score` is the fused record, tagged "table_grid", whatever the other
    * sources hold, as long as none of them carries a `_score` either. */
  lemma GridWinsUnscored(code: string, grid: Results, plain: Results, regex: Results, nlp: Results)
    requires Present(grid, code)
    requires forall d :: d in [grid, plain, regex, nlp] && Present(d, code) ==> "_score" !in d.vals[code].vals
    ensures FusedEntry(code, Sources(grid, plain, regex, nlp)) == Ok(Tagged(grid.vals[code], "table_grid"))
  {
    var srcs := Sources(grid, plain, regex, nlp);
    forall i | 0 <= i < |srcs| && Present(srcs[i].1, code)
      ensures "_score" !in srcs[i].1.vals[code].vals
    {
      assert srcs[i].1 in [grid, plain, regex, nlp];
    }
    FirstPresentSourceWins(code, srcs, 0);
  }

  // ---------------------------------------------------------------------
  // The language-model backfill

  /** `fused.get(code, {}).get("value")`. */
  function FusedValue(fused: Results, code: string): PyVal {
    if code in fused.vals then Get(fused.vals[code], "value") else PNone
  }

  /** `missing_codes`: the codes, in order, whose fused value is None. */
  function MissingCodes(codes: seq<string>, fused: Results): (m: seq<string>)
    ensures forall k :: k in m <==> k in codes && FusedValue(fused, k) == PNone
  {
    Where(codes, k => FusedValue(fused, k) == PNone)
  }

  /** `subset_schema`: the schema restricted to the given codes. */
  function SubsetSchema(schema: KpiSchema, codes: seq<string>): KpiSchema {
    Build(codes, k => schema.Get(k))
  }

  /** The backfill source: the LLM extractor (its reply cleaned with the fence
    * stripping) and the LLM normalizer over the subset schema; an exception in
    * either gives `{}`. */
  function LlmBackfill(apiKey: Option<string>, reply: Reply, loads: string -> Option<PyVal>, subset: KpiSchema): Results {
    match ExtractSpec(apiKey, reply, loads, StripMarkdownFences, subset, 0.75)
    case Raised => Empty()
    case Ok(raw) =>
      match BuildOutcome(raw.keys, FallbackEntryFn(raw, subset, LlmRules))
      case Raised => Empty()
      case Ok(n) => n
  }

  /** One turn of the fill loop: a truthy LLM entry replaces a fused record
    * whose value is None, tagged "llm". */
  function FillOne(fused: Results, code: string, llm: Results): Results {
    if Present(llm, code) && FusedValue(fused, code) == PNone then fused.Put(code, Tagged(llm.vals[code], "llm"))
    else fused
  }

  /** The fill loop over the missing codes. */
  function Backfill(fused: Results, codes: seq<string>, llm: Results): Results {
    if codes == [] then fused
    else FillOne(Backfill(fused, codes[..|codes| - 1], llm), codes[|codes| - 1], llm)
  }

  /** The fill loop as the source writes it, updating `fused` in place. */
  method BackfillMissing(fused: Results, missing: seq<string>, llm: Results) returns (r: Results)
    ensures r == Backfill(fused, missing, llm)
  {
    r := fused;
    var i := 0;
    while i < |missing|
      invariant 0 <= i <= |missing|
      invariant r == Backfill(fused, missing[..i], llm)
    {
      var code := missing[i];
      assert missing[..i + 1][..i] == missing[..i];
      if code in llm.vals && NonEmpty(llm.vals[code]) {
        if FusedValue(r, code) == PNone {
          r := r.Put(code, Tagged(llm.vals[code], "llm"));
        }
      }
      i := i + 1;
    }
    assert missing[..|missing|] == missing;
  }

  /** The backfill never touches a code outside the loop. */
  lemma {:induction false} BackfillOutside(fused: Results, codes: seq<string>, llm: Results, code: string)
    requires code !in codes
    ensures Backfill(fused, codes, llm).Get(code) == fused.Get(code)
  {
    if codes != [] {
      BackfillOutside(fused, codes[..|codes| - 1], llm, code);
    }
  }

  /** The backfill never overwrites a value that is not None. */
  lemma {:induction false} BackfillKeepsFilled(fused: Results, codes: seq<string>, llm: Results, code: string)
    requires FusedValue(fused, code) != PNone
    ensures Backfill(fused, codes, llm).Get(code) == fused.Get(code)
  {
    if codes != [] {
      BackfillKeepsFilled(fused, codes[..|codes| - 1], llm, code);
    }
  }

  /** A failed backfill, which leaves `llm_norm = {}`, changes nothing. */
  lemma {:induction false} BackfillNothing(fused: Results, codes: seq<string>)
    ensures Backfill(fused, codes, Empty()) == fused
  {
    if codes != [] {
      BackfillNothing(fused, codes[..|codes| - 1]);
    }
  }

  /** A missing code with a truthy LLM entry ends up with that entry, tagged
    * "llm". */
  lemma {:induction false} BackfillFills(fused: Results, codes: seq<string>, llm: Results, code: string)
    requires Distinct(codes) && code in codes
    requires FusedValue(fused, code) == PNone && Present(llm, code)
    ensures Backfill(fused, codes, llm).Get(code) == Some(Tagged(llm.vals[code], "llm"))
  {
    var n := |codes| - 1;
    var prefix := codes[..n];
    var before := Backfill(fused, prefix, llm);
    if codes[n] == code {
      assert code !in prefix;
      BackfillOutside(fused, prefix, llm, code);
      assert FusedValue(before, code) == PNone;
    } else {
      assert code in prefix;
      BackfillFills(fused, prefix, llm, code);
    }
  }

  /** Filling codes the fused dict already holds keeps its key order. */
  lemma {:induction false} BackfillKeepsKeys(fused: Results, codes: seq<string>, llm: Results)
    requires forall k :: k in codes ==> k in fused.vals
    ensures Backfill(fused, codes, llm).keys == fused.keys
    ensures forall k :: k in Backfill(fused, codes, llm).vals <==> k in fused.vals
  {
    if codes != [] {
      BackfillKeepsKeys(fused, codes[..|codes| - 1], llm);
    }
  }

  // ---------------------------------------------------------------------
  // The results

  /** `KPIResult` as `run_on_pdf` fills it. */
  datatype KpiResult = KpiResult(code: string, value: PyVal, unit: PyVal, confidence: real, source: PyVal, status: PyVal)

  /** One result: `float(entry.get("confidence", 0.0))` may raise;
    * `entry.get("source") or []`; `entry.get("status", "Not Reported")`. */
  function ToKpiResult(code: string, e: Entry): (r: Outcome<KpiResult>)
    ensures r.Ok? ==> r.value.code == code && r.value.value == Get(e, "value") && r.value.unit == Get(e, "unit")
    ensures r.Ok? ==> ("status" !in e.vals ==> r.value.status == PStr("Not Reported"))
    ensures r.Ok? ==> (!Truthy(Get(e, "source")) ==> r.value.source == PList([]))
    ensures r.Raised? <==> FloatOr(e, "confidence", 0.0).Raised?
  {
    match FloatOr(e, "confidence", 0.0)
    case Raised => Raised
    case Ok(c) =>
      var source := if Truthy(Get(e, "source")) then Get(e, "source") else PList([]);
      var status := if "status" in e.vals then e.vals["status"] else PStr("Not Reported");
      Ok(KpiResult(code, Get(e, "value"), Get(e, "unit"), c, source, status))
  }

  /** The results for the given codes of `fused.items()`, in order. */
  function ResultsOf(ks: seq<string>, fused: Results): (r: Outcome<seq<KpiResult>>)
    requires forall k :: k in ks ==> k in fused.vals
    ensures r.Ok? ==> |r.value| == |ks| && forall i :: 0 <= i < |ks| ==> r.value[i].code == ks[i]
  {
    if ks == [] then Ok([])
    else
      match ResultsOf(ks[..|ks| - 1], fused)
      case Raised => Raised
      case Ok(prev) =>
        match ToKpiResult(ks[|ks| - 1], fused.vals[ks[|ks| - 1]])
        case Raised => Raised
        case Ok(res) => Ok(prev + [res])
  }

  /** The conversion loop, appending to `results`. */
  method ConvertResults(fused: Results) returns (r: Outcome<seq<KpiResult>>)
    requires fused.Valid()
    ensures r == ResultsOf(fused.keys, fused)
  {
    var results: seq<KpiResult> := [];
    var i := 0;
    while i < |fused.keys|
      invariant 0 <= i <= |fused.keys|
      invariant ResultsOf(fused.keys[..i], fused) == Ok(results)
    {
      var code := fused.keys[i];
      assert fused.keys[..i + 1][..i] == fused.keys[..i];
      var res := ToKpiResult(code, fused.vals[code]);
      if res.Raised? {
        ResultsRaised(fused, i + 1);
        return Raised;
      }
      results := results + [res.value];
      i := i + 1;
    }
    assert fused.keys[..|fused.keys|] == fused.keys;
    r := Ok(results);
  }

  /** A conversion that raises on a prefix of the keys raises for them all. */
  lemma {:induction false} ResultsRaised(fused: Results, j: nat)
    requires fused.Valid() && j <= |fused.keys|
    requires ResultsOf(fused.keys[..j], fused).Raised?
    ensures ResultsOf(fused.keys, fused).Raised?
  {
    PrefixRaised(fused.keys, fused, j);
    assert fused.keys[..|fused.keys|] == fused.keys;
  }

  lemma {:induction false} PrefixRaised(ks: seq<string>, fused: Results, j: nat)
    requires forall k :: k in ks ==> k in fused.vals
    requires j <= |ks| && ResultsOf(ks[..j], fused).Raised?
    ensures ResultsOf(ks, fused).Raised?
  {
    if j < |ks| {
      var n := |ks| - 1;
      assert ks[..n][..j] == ks[..j];
      PrefixRaised(ks[..n], fused, j);
    } else {
      assert ks[..j] == ks;
    }
  }

  /** The same results as values, for the specification of `run_on_pdf`. */
  function RunSpec(schema: KpiSchema, grid: Results, plain: Results, regex: Results, nlp: Results,
                   apiKey: Option<string>, reply: Reply, loads: string -> Option<PyVal>): Outcome<seq<KpiResult>>
    requires schema.Valid()
  {
    var codes := schema.keys;
    var srcs := Sources(grid, plain, regex, nlp);
    match BuildOutcome(codes, FusedFn(srcs))
    case Raised => Raised
    case Ok(fused) =>
      FuseEveryCode(codes, srcs);
      var missing := MissingCodes(codes, fused);
      var llm := LlmBackfill(apiKey, reply, loads, SubsetSchema(schema, missing));
      BackfillKeepsKeys(fused, missing, llm);
      var filled := if missing == [] then fused else Backfill(fused, missing, llm);
      ResultsOf(filled.keys, filled)
  }

  /** The LLM stage of `run_on_pdf`: extract the missing KPIs, then normalize
    * them; a failure of either leaves no LLM results. */
  method LlmNormalized(apiKey: Option<string>, reply: Reply, loads: string -> Option<PyVal>, subset: KpiSchema)
    returns (llmNorm: Results)
    ensures llmNorm == LlmBackfill(apiKey, reply, loads, subset)
  {
    var llmRaw := ExtractKpisLlm(apiKey, reply, loads, subset, 0.75);
    llmNorm := Empty();
    if llmRaw.Ok? {
      var n := NormalizeLlmResult(llmRaw.value, subset);
      if n.Ok? {
        llmNorm := n.value;
      }
    }
  }

  /** `run_on_pdf` after its extractors and normalizers: the four normalized
    * results, the chat service's reply and `json.loads` are parameters. */
  method RunOnPdf(schema: KpiSchema, grid: Results, plain: Results, regex: Results, nlp: Results,
                  apiKey: Option<string>, reply: Reply, loads: string -> Option<PyVal>)
    returns (r: Outcome<seq<KpiResult>>)
    requires schema.Valid()
    ensures r == RunSpec(schema, grid, plain, regex, nlp, apiKey, reply, loads)
  {
    var codes := schema.keys;
    var fusedOr := FuseAllSources(regex, grid, plain, nlp, Empty(), codes);
    if fusedOr.Raised? {
      return Raised;
    }
    var fused := fusedOr.value;
    FuseEveryCode(codes, Sources(grid, plain, regex, nlp));
    var missing := MissingCodes(codes, fused);
    if missing != [] {
      var llmNorm := LlmNormalized(apiKey, reply, loads, SubsetSchema(schema, missing));
      fused := BackfillMissing(fused, missing, llmNorm);
    }
    BackfillKeepsKeys(fusedOr.value, missing, LlmBackfill(apiKey, reply, loads, SubsetSchema(schema, missing)));
    r := ConvertResults(fused);
  }

  /** Whenever `run_on_pdf` returns, it returns one result per schema KPI, in
    * schema order. */
  lemma RunOneResultPerCode(schema: KpiSchema, grid: Results, plain: Results, regex: Results, nlp: Results,
                            apiKey: Option<string>, reply: Reply, loads: string -> Option<PyVal>)
    requires schema.Valid()
    requires RunSpec(schema, grid, plain, regex, nlp, apiKey, reply, loads).Ok?
    ensures var r := RunSpec(schema, grid, plain, regex, nlp, apiKey, reply, loads).value;
      |r| == |schema.keys| && forall i :: 0 <= i < |r| ==> r[i].code == schema.keys[i]
  {
    var srcs := Sources(grid, plain, regex, nlp);
    var fused := BuildOutcome(schema.keys, FusedFn(srcs)).value;
    FuseEveryCode(schema.keys, srcs);
    var missing := MissingCodes(schema.keys, fused);
    var llm := LlmBackfill(apiKey, reply, loads, SubsetSchema(schema, missing));
    BackfillKeepsKeys(fused, missing, llm);
    var filled := if missing == [] then fused else Backfill(fused, missing, llm);
    assert filled.keys == schema.keys;
    assert RunSpec(schema, grid, plain, regex, nlp, apiKey, reply, loads) == ResultsOf(filled.keys, filled);
  }
}
