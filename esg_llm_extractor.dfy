/** The LLM extractor's handling of the chat service's reply: every failure
  * before the JSON document is read gives `{}`; otherwise each schema KPI
  * whose answer has a raw value becomes a hit with the base confidence.  The
  * reply cleaning in the source strips backticks before it removes the
  * "```json" opener, so a fenced reply keeps its "json" tag and fails to
  * parse; the model keeps that cleaning as written beside the fence stripping
  * the user-facing extractor uses, which the extractor here uses. */
module EsgLlmExtractor {
  import opened Wrappers
  import opened Dicts
  import opened PyStr
  import opened PyValues
  import opened Records
  import opened Schema
  import opened LlmReplies

  /** `content.strip().strip("`").replace("```json", "").replace("```", "").strip()`,
    * as written. */
  function CleanedContent(content: string): string {
    Strip(Replace(Replace(StripChar(Strip(content), '`'), "```json", ""), "```", ""))
  }

  /** The parsed document, or None where the extractor returns `{}` before
    * its loop: no API key, an API error, a malformed response, an empty
    * content, or text `json.loads` rejects. */
  function ParsedReply(apiKey: Option<string>, reply: Reply, loads: string -> Option<PyVal>, clean: string -> string): (r: Option<PyVal>)
    ensures apiKey.None? || apiKey.value == [] || reply.ApiError? || reply.BadStructure? ==> r.None?
    ensures reply.Content? && (reply.content.None? || reply.content.value == []) ==> r.None?
    ensures r.Some? ==> reply.Content? && reply.content.Some? && r == loads(clean(reply.content.value))
  {
    if apiKey.None? || apiKey.value == [] then None
    else match reply
      case ApiError => None
      case BadStructure => None
      case Content(c) => if c.None? || c.value == [] then None else loads(clean(c.value))
  }

  /** One turn of the loop over the schema: `data.get(code, {})`, skipped when
    * its raw value is None.  Raises where the document or the answer is not
    * a JSON object. */
  function LlmEntry(data: PyVal, code: string, base: real): (r: Outcome<Option<Entry>>)
    ensures r.Raised? <==> !data.PDict? || (code in data.fields && !data.fields[code].PDict?)
    ensures r.Ok? && r.value.Some? ==>
      data.PDict? && code in data.fields && data.fields[code].PDict? &&
      var e := r.value.value;
      && e.keys == ["raw_value", "raw_unit", "confidence"]
      && Get(e, "raw_value") != PNone
      && Get(e, "raw_value") == Field(data.fields[code].fields, "raw_value")
      && Get(e, "raw_unit") == Field(data.fields[code].fields, "raw_unit")
      && Get(e, "confidence") == Num(base)
  {
    if !data.PDict? then Raised
    else
      var answer := if code in data.fields then data.fields[code] else PDict([], map[]);
      if !answer.PDict? then Raised
      else
        var rawValue := Field(answer.fields, "raw_value");
        if rawValue == PNone then Ok(None)
        else Ok(Some(AnswerRecord(rawValue, Field(answer.fields, "raw_unit"), base)))
  }

  /** `{"raw_value": ..., "raw_unit": ..., "confidence": ...}`. */
  function AnswerRecord(rawValue: PyVal, rawUnit: PyVal, confidence: real): (e: Entry)
    ensures e.Valid() && e.keys == ["raw_value", "raw_unit", "confidence"]
    ensures Get(e, "raw_value") == rawValue && Get(e, "raw_unit") == rawUnit
    ensures Get(e, "confidence") == Num(confidence)
  {
    Dict(["raw_value", "raw_unit", "confidence"],
      map["raw_value" := rawValue, "raw_unit" := rawUnit, "confidence" := Num(confidence)])
  }

  function LlmEntryFn(data: PyVal, base: real): string -> Outcome<Option<Entry>> {
    code => LlmEntry(data, code, base)
  }

  /** What `extract_kpis_llm` returns, with the reply cleaned by `clean`. */
  function ExtractSpec(apiKey: Option<string>, reply: Reply, loads: string -> Option<PyVal>, clean: string -> string,
                       schema: KpiSchema, base: real): Outcome<Results> {
    match ParsedReply(apiKey, reply, loads, clean)
    case None => Ok(Empty())
    case Some(data) => BuildOutcome(schema.keys, LlmEntryFn(data, base))
  }

  /** `extract_kpis_llm` with the fence stripping of `_strip_markdown_fences`;
    * the service and `json.loads` are the oracles reply and loads. */
  method ExtractKpisLlm(apiKey: Option<string>, reply: Reply, loads: string -> Option<PyVal>, schema: KpiSchema, base: real)
    returns (r: Outcome<Results>)
    ensures r == ExtractSpec(apiKey, reply, loads, StripMarkdownFences, schema, base)
  {
    var parsed := ParsedReply(apiKey, reply, loads, StripMarkdownFences);
    if parsed.None? {
      return Ok(Empty());
    }
    var data := parsed.value;
    var f := LlmEntryFn(data, base);
    var out: Results := Empty();
    var i := 0;
    while i < |schema.keys|
      invariant 0 <= i <= |schema.keys|
      invariant BuildOutcome(schema.keys[..i], f) == Ok(out)
    {
      var code := schema.keys[i];
      BuildOutcomeStep(schema.keys, i, f);
      if !data.PDict? {
        BuildOutcomeRaised(schema.keys, i + 1, f);
        return Raised;
      }
      var answer := if code in data.fields then data.fields[code] else PDict([], map[]);
      if !answer.PDict? {
        BuildOutcomeRaised(schema.keys, i + 1, f);
        return Raised;
      }
      var rawValue := Field(answer.fields, "raw_value");
      if rawValue != PNone {
        var e := AnswerRecord(rawValue, Field(answer.fields, "raw_unit"), base);
        assert f(code) == Ok(Some(e));
        out := out.Put(code, e);
      } else {
        assert f(code) == Ok(None);
      }
      i := i + 1;
    }
    assert schema.keys[..|schema.keys|] == schema.keys;
    r := Ok(out);
  }

  /** A parsed reply yields only schema codes, in schema order, each with a
    * raw value that is not None and the base confidence. */
  lemma ExtractedCodes(data: PyVal, schema: KpiSchema, base: real)
    requires schema.Valid()
    requires BuildOutcome(schema.keys, LlmEntryFn(data, base)).Ok?
    ensures var out := BuildOutcome(schema.keys, LlmEntryFn(data, base)).value;
      && out.Valid()
      && (forall k :: k in out.keys ==> k in schema.keys)
      && (forall k :: k in out.vals ==> Get(out.vals[k], "raw_value") != PNone && Get(out.vals[k], "confidence") == Num(base))
  {
    var f := LlmEntryFn(data, base);
    BuildOutcomeSpec(schema.keys, f);
  }

  /** A document that answers every schema KPI with an object yields a hit
    * for exactly the KPIs whose raw value is not None. */
  lemma ExtractedExactly(data: PyVal, schema: KpiSchema, base: real, code: string)
    requires schema.Valid() && data.PDict?
    requires forall k :: k in data.fields ==> data.fields[k].PDict?
    requires code in schema.keys
    ensures BuildOutcome(schema.keys, LlmEntryFn(data, base)).Ok?
    ensures code in BuildOutcome(schema.keys, LlmEntryFn(data, base)).value.vals
      <==> code in data.fields && Field(data.fields[code].fields, "raw_value") != PNone
  {
    BuildOutcomeSpec(schema.keys, LlmEntryFn(data, base));
  }

  lemma FencePeeled(b: string)
    ensures StripChar("```json\n" + b + "\n```", '`') == "json\n" + b + "\n"
  {
    var y := "json\n" + b + "\n";
    var x := y + "```";
    assert "```json\n" + b + "\n```" == "```" + x;
    LStripCharRun("```", x, '`');
    RStripCharRun(y, "```", '`');
  }

  lemma NoBacktick(b: string)
    requires '`' !in b
    ensures forall i :: 0 <= i < |"json\n" + b + "\n"| ==> ("json\n" + b + "\n")[i] != '`'
  {
    var y := "json\n" + b + "\n";
    forall i | 0 <= i < |y| ensures y[i] != '`' {
      if 5 <= i < 5 + |b| {
        assert y[i] == b[i - 5];
      }
    }
  }

  /** Once the backticks at both ends are gone, none is left to replace. */
  lemma CleanedWithoutBackticks(s: string, y: string)
    requires Strip(s) == s && StripChar(s, '`') == y
    requires forall i :: 0 <= i < |y| ==> y[i] != '`'
    ensures CleanedContent(s) == Strip(y)
  {
    ReplaceAbsent(y, "```json", "");
    ReplaceAbsent(y, "```", "");
  }

  lemma StripKeepsFirst(y: string)
    requires y != [] && !IsSpace(y[0])
    ensures Strip(y) != [] && Strip(y)[0] == y[0]
  {
    assert LStrip(y) == y;
  }

  /** The source's cleaning leaves the "json" tag of a fenced reply in front. */
  lemma FencedReplyKeepsTag(b: string)
    requires '`' !in b
    ensures CleanedContent("```json\n" + b + "\n```") != []
    ensures CleanedContent("```json\n" + b + "\n```")[0] == 'j'
  {
    FenceCleaned(b);
    TagLeadsStripped(CleanedContent("```json\n" + b + "\n```"), b);
  }

  lemma TagLeadsStripped(c: string, b: string)
    requires c == Strip("json\n" + b + "\n")
    ensures c != [] && c[0] == 'j'
  {
    var y := "json\n" + b + "\n";
    assert y[0] == 'j';
    StripKeepsFirst(y);
  }

  /** The source's cleaning of a fenced block strips the text between the fences. */
  lemma FenceCleaned(b: string)
    requires '`' !in b
    ensures CleanedContent("```json\n" + b + "\n```") == Strip("json\n" + b + "\n")
  {
    var s := "```json\n" + b + "\n```";
    assert s[0] == '`' && s[|s| - 1] == '`';
    StripTrimmed(s);
    FencePeeled(b);
    NoBacktick(b);
    CleanedWithoutBackticks(s, "json\n" + b + "\n");
  }

  /** A reply fenced as a "json" block never parses under the source's
    * cleaning, whatever the document inside, so the extractor returns `{}`. */
  lemma FencedReplyDropped(key: string, b: string, loads: string -> Option<PyVal>)
    requires key != [] && RejectsNonJson(loads) && '`' !in b
    ensures ParsedReply(Some(key), Content(Some("```json\n" + b + "\n```")), loads, CleanedContent).None?
  {
    FencedReplyKeepsTag(b);
    TaggedTextRejected(CleanedContent("```json\n" + b + "\n```"), loads);
  }

  lemma TaggedTextRejected(c: string, loads: string -> Option<PyVal>)
    requires RejectsNonJson(loads) && c != [] && c[0] == 'j'
    ensures loads(c).None?
  {
    assert LStrip(c) == c;
  }

  /** Under the fence stripping the same reply yields its document. */
  lemma FencedReplyParsed(key: string, b: string, loads: string -> Option<PyVal>)
    requires key != []
    requires b != [] && !IsSpace(b[0]) && !IsSpace(b[|b| - 1]) && '`' !in b
    ensures ParsedReply(Some(key), Content(Some("```json\n" + b + "\n```")), loads, StripMarkdownFences) == loads(b)
  {
    FencedJsonUnwrapped(b);
  }

  /** A bare document, the form the service's answer is asked for, is cleaned
    * to itself either way. */
  lemma BareReplyKept(b: string)
    requires b != [] && !IsSpace(b[0]) && !IsSpace(b[|b| - 1]) && '`' !in b
    ensures CleanedContent(b) == b && StripMarkdownFences(b) == b
  {
    StripTrimmed(b);
    LStripCharRun("", b, '`');
    RStripCharRun(b, "", '`');
    assert "" + b == b && b + "" == b;
    CleanedWithoutBackticks(b, b);
    BareJsonKept(b);
  }
}
