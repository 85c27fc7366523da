/** The sentence-window extractor: for every KPI, the first sentence that
  * mentions one of its synonyms and whose window (the sentence and the next
  * one) holds a "<number> <unit>" match. */
module EsgNlpExtractor {
  import opened Wrappers
  import opened Dicts
  import opened PyStr
  import opened PyValues
  import opened Records
  import opened Schema
  import opened NumberUnit
  import Search
  import EsgRegexExtractor

  // ---------------------------------------------------------------------
  // Sentences

  /** `[.!?]`. */
  predicate IsStop(c: char) {
    c == '.' || c == '!' || c == '?'
  }

  /** `re.split(r"(?<=[.!?])\s+|\n+", c)` on whitespace-collapsed text c,
    * where every whitespace run is one space and no newline is left: the
    * chunk starting at `from`, scanned from i on, and the chunks after it. */
  function Chunks(c: string, from: nat, i: nat): (r: seq<string>)
    requires from <= i <= |c|
    decreases |c| - i
    ensures |r| >= 1
  {
    if i == |c| then [c[from..]]
    else if c[i] == ' ' && i > 0 && IsStop(c[i - 1]) then [c[from..i]] + Chunks(c, i + 1, i + 1)
    else Chunks(c, from, i + 1)
  }

  /** Joining the chunks with the spaces the split removed gives the text
    * back. */
  lemma {:induction false} ChunksJoin(c: string, from: nat, i: nat)
    requires from <= i <= |c|
    decreases |c| - i
    ensures Join(" ", Chunks(c, from, i)) == c[from..]
  {
    if i < |c| {
      if c[i] == ' ' && i > 0 && IsStop(c[i - 1]) {
        var rest := Chunks(c, i + 1, i + 1);
        assert Chunks(c, from, i) == [c[from..i]] + rest;
        JoinCons(" ", c[from..i], rest);
        ChunksJoin(c, i + 1, i + 1);
        assert c[from..] == c[from..i] + " " + c[i + 1..] by {
          assert c[from..] == c[from..i] + c[i..];
          assert c[i..] == [c[i]] + c[i + 1..];
        }
      } else {
        ChunksJoin(c, from, i + 1);
      }
    }
  }

  /** Every chunk but the last is non-empty and ends with a sentence stop. */
  lemma {:induction false} ChunksEndAtStops(c: string, from: nat, i: nat)
    requires from <= i <= |c|
    requires from < i || from == 0 || c[from - 1] == ' '
    decreases |c| - i
    ensures forall k :: 0 <= k < |Chunks(c, from, i)| - 1 ==>
      Chunks(c, from, i)[k] != [] && IsStop(Chunks(c, from, i)[k][|Chunks(c, from, i)[k]| - 1])
  {
    if i < |c| {
      if c[i] == ' ' && i > 0 && IsStop(c[i - 1]) {
        ChunksEndAtStops(c, i + 1, i + 1);
      } else {
        ChunksEndAtStops(c, from, i + 1);
      }
    }
  }

  /** No space inside s follows a sentence stop: the split point of the
    * pattern does not occur within s. */
  predicate NoInnerStop(s: string) {
    forall j :: 0 < j < |s| ==> !(s[j] == ' ' && IsStop(s[j - 1]))
  }

  /** No chunk holds a split point, so the split cuts at every one. */
  lemma {:induction false} ChunksNoInnerStop(c: string, from: nat, i: nat)
    requires from <= i <= |c|
    requires forall j :: from < j < i ==> !(c[j] == ' ' && IsStop(c[j - 1]))
    decreases |c| - i
    ensures forall k :: 0 <= k < |Chunks(c, from, i)| ==> NoInnerStop(Chunks(c, from, i)[k])
  {
    if i == |c| {
      var t := c[from..];
      forall j | 0 < j < |t| ensures !(t[j] == ' ' && IsStop(t[j - 1])) {
        assert t[j] == c[from + j] && t[j - 1] == c[from + j - 1];
      }
    } else if c[i] == ' ' && i > 0 && IsStop(c[i - 1]) {
      var t := c[from..i];
      forall j | 0 < j < |t| ensures !(t[j] == ' ' && IsStop(t[j - 1])) {
        assert t[j] == c[from + j] && t[j - 1] == c[from + j - 1];
      }
      ChunksNoInnerStop(c, i + 1, i + 1);
      var rest := Chunks(c, i + 1, i + 1);
      assert Chunks(c, from, i) == [t] + rest;
    } else {
      ChunksNoInnerStop(c, from, i + 1);
    }
  }

  /** `[c.strip() for c in chunks if c.strip()]`: every chunk stripped, the
    * blank ones dropped. */
  function StrippedNonBlank(chunks: seq<string>): (r: seq<string>)
    ensures |r| <= |chunks|
    ensures forall k :: 0 <= k < |r| ==> r[k] != [] && Strip(r[k]) == r[k]
    ensures forall x :: x in r ==> exists j :: 0 <= j < |chunks| && x == Strip(chunks[j])
    ensures forall j :: 0 <= j < |chunks| && Strip(chunks[j]) != [] ==> Strip(chunks[j]) in r
  {
    StrippedParts(chunks);
    MapKeep(Strip, chunks)
  }

  lemma StrippedParts(chunks: seq<string>)
    ensures forall x :: x in MapKeep(Strip, chunks) ==> exists j :: 0 <= j < |chunks| && x == Strip(chunks[j])
    ensures forall j :: 0 <= j < |chunks| && Strip(chunks[j]) != [] ==> Strip(chunks[j]) in MapKeep(Strip, chunks)
    ensures forall k :: 0 <= k < |MapKeep(Strip, chunks)| ==> Strip(MapKeep(Strip, chunks)[k]) == MapKeep(Strip, chunks)[k]
  {
    var r := MapKeep(Strip, chunks);
    forall x | x in MapKeep(Strip, chunks)
      ensures Strip(x) == x && exists j :: 0 <= j < |chunks| && x == Strip(chunks[j])
    {
      MapKeepFrom(Strip, chunks, x);
      var s :| s in chunks && x == Strip(s);
      StripIdempotent(s);
      var j :| 0 <= j < |chunks| && chunks[j] == s;
    }
    forall k | 0 <= k < |r| ensures Strip(r[k]) == r[k] {
      assert r[k] in r;
    }
    forall j | 0 <= j < |chunks| && Strip(chunks[j]) != []
      ensures Strip(chunks[j]) in MapKeep(Strip, chunks)
    {
      MapKeepHas(Strip, chunks, chunks[j]);
    }
  }

  /** `_split_into_sentences(text)`. */
  function Sentences(text: string): seq<string> {
    var c := CollapseWs(text);
    StrippedNonBlank(Chunks(c, 0, 0))
  }

  /** Chunks of whitespace-collapsed text are slices of it, so they hold
    * no whitespace run either. */
  lemma {:induction false} ChunksNoSpaceRun(c: string, from: nat, i: nat)
    requires from <= i <= |c| && NoSpaceRun(c)
    decreases |c| - i
    ensures forall x :: x in Chunks(c, from, i) ==> NoSpaceRun(x)
  {
    if i == |c| {
      NoSpaceRunSlice(c, from, |c|);
      assert c[from..] == c[from..|c|];
    } else if c[i] == ' ' && i > 0 && IsStop(c[i - 1]) {
      NoSpaceRunSlice(c, from, i);
      ChunksNoSpaceRun(c, i + 1, i + 1);
    } else {
      ChunksNoSpaceRun(c, from, i + 1);
    }
  }

  /** Every sentence is non-blank, stripped, and has no two whitespace
    * characters in a row: the split runs on whitespace-collapsed text. */
  lemma SentencesSqueezed(text: string)
    ensures forall k :: 0 <= k < |Sentences(text)| ==>
      Sentences(text)[k] != [] && Strip(Sentences(text)[k]) == Sentences(text)[k] && NoSpaceRun(Sentences(text)[k])
  {
    var c := CollapseWs(text);
    var chunks := Chunks(c, 0, 0);
    ChunksNoSpaceRun(c, 0, 0);
    forall k | 0 <= k < |Sentences(text)| ensures NoSpaceRun(Sentences(text)[k]) {
      var x := Sentences(text)[k];
      assert x in StrippedNonBlank(chunks);
      var j :| 0 <= j < |chunks| && x == Strip(chunks[j]);
      assert chunks[j] in chunks;
      NoSpaceRunStrip(chunks[j]);
    }
  }

  // ---------------------------------------------------------------------
  // Synonyms and windows

  /** `[s.lower() for s in ss]`. */
  function LowerAll(ss: seq<string>): (r: seq<string>)
    ensures |r| == |ss| && forall k :: 0 <= k < |ss| ==> r[k] == Lower(ss[k])
  {
    seq(|ss|, k requires 0 <= k < |ss| => Lower(ss[k]))
  }

  /** `_build_kpi_synonyms(kpi_schema)[code]`: the schema's synonyms, or the
    * code with underscores as spaces, lower-cased. */
  function SynonymsFor(schema: KpiSchema, code: string): seq<string> {
    var given := SynonymsOf(schema, code);
    LowerAll(if given != [] then given else [MapChar(code, '_', ' ')])
  }

  /** A KPI always has a synonym to look for: its own code when the schema
    * lists none. */
  lemma SynonymsNonEmpty(schema: KpiSchema, code: string)
    ensures SynonymsFor(schema, code) != []
    ensures SynonymsOf(schema, code) == [] ==> SynonymsFor(schema, code) == [Lower(MapChar(code, '_', ' '))]
    ensures SynonymsOf(schema, code) != [] ==> |SynonymsFor(schema, code)| == |SynonymsOf(schema, code)|
  {
  }

  /** `any(syn in sent_lower for syn in synonyms)`. */
  predicate Mentions(sentLower: string, syns: seq<string>) {
    exists k :: 0 <= k < |syns| && Contains(sentLower, syns[k])
  }

  /** The sentence at i and the next one, if any, whitespace-collapsed. */
  function Window(ss: seq<string>, i: nat): string
    requires i < |ss|
  {
    CollapseWs(ss[i] + (if i + 1 < |ss| then " " + ss[i + 1] else ""))
  }

  /** The inner loop's body for sentence i: a record when the sentence
    * mentions a synonym and its window matches the pattern. */
  function SentenceHit(ss: seq<string>, syns: seq<string>, us: seq<string>, base: real, i: nat): Option<Entry> {
    if i < |ss| && Mentions(Lower(ss[i]), syns) then EsgRegexExtractor.MatchRecord(Window(ss, i), us, base)
    else None
  }

  function SentenceHitFn(ss: seq<string>, syns: seq<string>, us: seq<string>, base: real): nat -> Option<Entry> {
    (i: nat) => SentenceHit(ss, syns, us, base, i)
  }

  /** The first sentence's record, scanning in order (the loop's `break`). */
  function FirstHit(ss: seq<string>, syns: seq<string>, us: seq<string>, base: real): Option<Entry> {
    match Search.FirstSome(SentenceHitFn(ss, syns, us, base), 0, |ss|)
    case None => None
    case Some(p) => Some(p.1)
  }

  /** The outer loop's body for one KPI code. */
  function NlpEntry(ss: seq<string>, schema: KpiSchema, code: string, base: real): Option<Entry> {
    var units := UnitsOf(schema, code);
    var syns := SynonymsFor(schema, code);
    if units == [] || syns == [] then None else FirstHit(ss, syns, UnitsKeyParts(units), base)
  }

  function NlpFn(ss: seq<string>, schema: KpiSchema, base: real): string -> Option<Entry> {
    code => NlpEntry(ss, schema, code, base)
  }

  /** What `extract_kpis_nlp` returns. */
  function ExtractSpec(text: string, schema: KpiSchema, base: real): Results {
    var ss := Sentences(text);
    if ss == [] then Empty() else Build(schema.keys, NlpFn(ss, schema, base))
  }

  /** Whether the lower-cased sentence contains one of the synonyms. */
  method MentionsAny(lowered: string, syns: seq<string>) returns (b: bool)
    ensures b == Mentions(lowered, syns)
  {
    b := false;
    var k := 0;
    while k < |syns| && !b
      invariant 0 <= k <= |syns|
      invariant b <==> exists m :: 0 <= m < k && Contains(lowered, syns[m])
    {
      b := Contains(lowered, syns[k]);
      k := k + 1;
    }
  }

  /** The scan over the sentences for one KPI. */
  method ScanSentences(ss: seq<string>, syns: seq<string>, us: seq<string>, base: real) returns (found: Option<Entry>)
    ensures found == FirstHit(ss, syns, us, base)
  {
    var f := SentenceHitFn(ss, syns, us, base);
    var i := 0;
    while i < |ss|
      invariant 0 <= i <= |ss|
      invariant Search.FirstSome(f, 0, |ss|) == Search.FirstSome(f, i, |ss|)
    {
      var mentioned := MentionsAny(Lower(ss[i]), syns);
      if mentioned {
        var w := Window(ss, i);
        var m := SearchIn(w, us);
        if m.Some? {
          SearchInBounds(w, us);
          found := Some(EsgRegexExtractor.HitRecord(w, m.value, base));
          assert f(i) == found;
          return;
        }
      }
      assert f(i).None?;
      i := i + 1;
    }
    found := None;
  }

  /** `extract_kpis_nlp(text, kpi_schema, base_confidence=base)`. */
  method ExtractKpisNlp(text: string, schema: KpiSchema, base: real) returns (r: Results)
    ensures r == ExtractSpec(text, schema, base)
  {
    var ss := Sentences(text);
    if ss == [] {
      return Empty();
    }
    var f := NlpFn(ss, schema, base);
    r := Empty();
    var i := 0;
    while i < |schema.keys|
      invariant 0 <= i <= |schema.keys|
      invariant Build(schema.keys[..i], f) == r
    {
      var code := schema.keys[i];
      BuildStep(schema.keys, i, f);
      var units := UnitsOf(schema, code);
      var syns := SynonymsFor(schema, code);
      if units != [] && syns != [] {
        var found := ScanSentences(ss, syns, UnitsKeyParts(units), base);
        if found.Some? {
          r := r.Put(code, found.value);
        }
      }
      i := i + 1;
    }
    assert schema.keys[..|schema.keys|] == schema.keys;
  }

  /** Sentence i qualifies: it mentions a synonym and its window holds a
    * match of the pattern. */
  ghost predicate Qualifies(ss: seq<string>, syns: seq<string>, us: seq<string>, i: nat) {
    i < |ss| && Mentions(Lower(ss[i]), syns) && exists h :: Matches(Window(ss, i), us, h)
  }

  /** The loop body yields a record for sentence i exactly when the sentence
    * qualifies, and it is the record of the match in the sentence's window. */
  lemma SentenceHitIff(ss: seq<string>, syns: seq<string>, us: seq<string>, base: real, i: nat)
    ensures SentenceHit(ss, syns, us, base, i).Some? <==> Qualifies(ss, syns, us, i)
    ensures SentenceHit(ss, syns, us, base, i).Some? ==>
      SentenceHit(ss, syns, us, base, i) == EsgRegexExtractor.MatchRecord(Window(ss, i), us, base)
  {
    if i < |ss| && Mentions(Lower(ss[i]), syns) {
      EsgRegexExtractor.MatchRecordIff(Window(ss, i), us, base);
    }
  }

  /** A record the scan finds comes from the first qualifying sentence. */
  lemma FirstHitFound(ss: seq<string>, syns: seq<string>, us: seq<string>, base: real)
    requires FirstHit(ss, syns, us, base).Some?
    ensures
      exists i :: 0 <= i < |ss| && Qualifies(ss, syns, us, i)
        && (forall j :: 0 <= j < i ==> !Qualifies(ss, syns, us, j))
        && FirstHit(ss, syns, us, base) == EsgRegexExtractor.MatchRecord(Window(ss, i), us, base)
  {
    var f := SentenceHitFn(ss, syns, us, base);
    var i := Search.FirstSome(f, 0, |ss|).value.0;
    assert f(i).Some?;
    SentenceHitIff(ss, syns, us, base, i);
    forall j | 0 <= j < i ensures !Qualifies(ss, syns, us, j) {
      SentenceHitIff(ss, syns, us, base, j);
      assert f(j).None?;
    }
  }

  /** The scan finds nothing only when no sentence qualifies. */
  lemma FirstHitMissing(ss: seq<string>, syns: seq<string>, us: seq<string>, base: real)
    requires FirstHit(ss, syns, us, base).None?
    ensures forall j :: 0 <= j < |ss| ==> !Qualifies(ss, syns, us, j)
  {
    var f := SentenceHitFn(ss, syns, us, base);
    forall j | 0 <= j < |ss| ensures !Qualifies(ss, syns, us, j) {
      SentenceHitIff(ss, syns, us, base, j);
      assert f(j).None?;
    }
  }

  /** A KPI's scan finds a record exactly when some sentence qualifies; the
    * record comes from the first qualifying sentence. */
  lemma FirstHitSpec(ss: seq<string>, syns: seq<string>, us: seq<string>, base: real)
    ensures FirstHit(ss, syns, us, base).Some? <==> exists i :: 0 <= i < |ss| && Qualifies(ss, syns, us, i)
    ensures FirstHit(ss, syns, us, base).Some? ==>
      exists i :: 0 <= i < |ss| && Qualifies(ss, syns, us, i)
        && (forall j :: 0 <= j < i ==> !Qualifies(ss, syns, us, j))
        && FirstHit(ss, syns, us, base) == EsgRegexExtractor.MatchRecord(Window(ss, i), us, base)
  {
    if FirstHit(ss, syns, us, base).Some? {
      FirstHitFound(ss, syns, us, base);
    } else {
      FirstHitMissing(ss, syns, us, base);
    }
  }

  /** A schema KPI is reported exactly when the text has a sentence, the KPI
    * lists units, and some sentence mentions one of its synonyms with a
    * "<number> <unit>" match in its window. */
  lemma NlpReports(text: string, schema: KpiSchema, base: real, code: string)
    requires schema.Valid() && code in schema.keys
    ensures ExtractSpec(text, schema, base).Valid()
    ensures code in ExtractSpec(text, schema, base).vals <==>
      && Sentences(text) != [] && UnitsOf(schema, code) != []
      && exists i :: 0 <= i < |Sentences(text)|
           && Qualifies(Sentences(text), SynonymsFor(schema, code), UnitsKeyParts(UnitsOf(schema, code)), i)
  {
    var ss := Sentences(text);
    if ss != [] {
      BuildSpec(schema.keys, NlpFn(ss, schema, base));
      SynonymsNonEmpty(schema, code);
      FirstHitSpec(ss, SynonymsFor(schema, code), UnitsKeyParts(UnitsOf(schema, code)), base);
    }
  }

  /** A reported KPI carries the record of the match in the window of the
    * first qualifying sentence; MatchRecordLeftmost says that it holds the
    * stripped groups of the leftmost match and the base confidence. */
  lemma NlpFirstSentence(text: string, schema: KpiSchema, base: real, code: string)
    requires code in ExtractSpec(text, schema, base).vals
    ensures Sentences(text) != [] && UnitsOf(schema, code) != []
    ensures var ss := Sentences(text);
      var syns := SynonymsFor(schema, code);
      var us := UnitsKeyParts(UnitsOf(schema, code));
      exists i :: 0 <= i < |ss| && Qualifies(ss, syns, us, i)
        && (forall j :: 0 <= j < i ==> !Qualifies(ss, syns, us, j))
        && Some(ExtractSpec(text, schema, base).vals[code]) == EsgRegexExtractor.MatchRecord(Window(ss, i), us, base)
  {
    var ss := Sentences(text);
    var e := ExtractSpec(text, schema, base).vals[code];
    var syns := SynonymsFor(schema, code);
    var us := UnitsKeyParts(UnitsOf(schema, code));
    assert ss != [] && UnitsOf(schema, code) != [] && FirstHit(ss, syns, us, base) == Some(e) by {
      BuildVals(schema.keys, NlpFn(ss, schema, base));
    }
    FirstHitSpec(ss, syns, us, base);
  }

  /** A text without sentences, or a KPI without units, yields nothing. */
  lemma NlpSkips(text: string, schema: KpiSchema, base: real, code: string)
    requires Sentences(text) == [] || UnitsOf(schema, code) == []
    ensures code !in ExtractSpec(text, schema, base).vals
  {
    if Sentences(text) != [] {
      BuildVals(schema.keys, NlpFn(Sentences(text), schema, base));
    }
  }
}
