/** The plain-text table extractor: the page text is split into stripped
  * lines, and every line that looks like a table row and is not a narrative
  * sentence gives each KPI it names, and that has no record yet, the number
  * that ends the line. */
module EsgTablePlainExtractor {
  import opened Wrappers
  import opened Dicts
  import opened PyStr
  import opened PyValues
  import opened Records
  import opened Schema
  import Search
  import EsgNlpExtractor

  // ---------------------------------------------------------------------
  // Lines

  /** The line boundaries of `str.splitlines()`. */
  predicate IsLineBreak(c: char) {
    c == '\n' || c == '\r' || c == '\U{0b}' || c == '\U{0c}' || ('\U{1c}' <= c <= '\U{1e}')
    || c == '\U{85}' || c == '\U{2028}' || c == '\U{2029}'
  }

  predicate NoBreak(x: string) {
    forall j :: 0 <= j < |x| ==> !IsLineBreak(x[j])
  }

  predicate AllSpace(x: string) {
    forall j :: 0 <= j < |x| ==> IsSpace(x[j])
  }

  /** `s.splitlines()` on s[from..], scanned from i on: a "\r\n" pair is one
    * break, and a break at the very end opens no further line. */
  function SplitFrom(s: string, from: nat, i: nat): (r: seq<string>)
    requires from <= i <= |s| && NoBreak(s[from..i])
    decreases |s| - i
    ensures forall k :: 0 <= k < |r| ==> NoBreak(r[k])
  {
    if i == |s| then (if from < |s| then [s[from..]] else [])
    else if IsLineBreak(s[i]) then
      var next := if s[i] == '\r' && i + 1 < |s| && s[i + 1] == '\n' then i + 2 else i + 1;
      [s[from..i]] + SplitFrom(s, next, next)
    else
      assert s[from..i + 1] == s[from..i] + [s[i]];
      SplitFrom(s, from, i + 1)
  }

  /** `text.splitlines()`: no line holds a line break. */
  function SplitLines(text: string): (r: seq<string>)
    ensures forall k :: 0 <= k < |r| ==> NoBreak(r[k])
  {
    SplitFrom(text, 0, 0)
  }

  /** `[ln.strip() for ln in text.splitlines() if ln.strip()]`. */
  function Lines(text: string): (r: seq<string>)
    ensures forall k :: 0 <= k < |r| ==> r[k] != [] && Strip(r[k]) == r[k]
  {
    EsgNlpExtractor.StrippedNonBlank(SplitLines(text))
  }

  /** The lines of blank text are blank. */
  lemma {:induction false} SplitFromBlank(s: string, from: nat, i: nat)
    requires from <= i <= |s| && NoBreak(s[from..i]) && AllSpace(s)
    decreases |s| - i
    ensures forall k :: 0 <= k < |SplitFrom(s, from, i)| ==> AllSpace(SplitFrom(s, from, i)[k])
  {
    if i < |s| {
      if IsLineBreak(s[i]) {
        var next := if s[i] == '\r' && i + 1 < |s| && s[i + 1] == '\n' then i + 2 else i + 1;
        SplitFromBlank(s, next, next);
      } else {
        assert s[from..i + 1] == s[from..i] + [s[i]];
        SplitFromBlank(s, from, i + 1);
      }
    }
  }

  /** Stripping blank text leaves nothing. */
  lemma StripBlank(x: string)
    requires AllSpace(x)
    ensures Strip(x) == []
  {
  }

  /** Text made of whitespace only has no line: the parse gives `{}`. */
  lemma BlankTextNoLines(text: string)
    requires AllSpace(text)
    ensures Lines(text) == []
  {
    var ls := SplitLines(text);
    SplitFromBlank(text, 0, 0);
    var r := Lines(text);
    if r != [] {
      assert r[0] in r;
      var j :| 0 <= j < |ls| && r[0] == Strip(ls[j]);
      StripBlank(ls[j]);
      assert false;
    }
  }

  // ---------------------------------------------------------------------
  // Which lines are read

  /** `"c" in s` for a one-character string is membership of c. */
  lemma ContainsChar(s: string, c: char)
    ensures Contains(s, [c]) <==> c in s
  {
    if c in s {
      var j :| 0 <= j < |s| && s[j] == c;
      assert s[j..j + 1] == [c];
      ContainsAt(s, [c], j);
    }
    if Contains(s, [c]) {
      var j := Find(s, [c]);
      assert s[j..j + 1] == [c];
      assert s[j] == c;
    }
  }

  function SpaceRunFn(line: string): nat -> bool {
    (i: nat) => i + 1 < |line| && SpaceRunAt(line, i)
  }

  /** `_is_table_plain_like(line)`. */
  predicate TableLike(line: string) {
    Contains(line, "|")
    || Search.FirstFrom(SpaceRunFn(line), 0, |line|).Some?
    || (Contains(line, "(") && Contains(line, ")"))
  }

  /** A line looks like a table row exactly when it has a '|', two
    * whitespace characters in a row, or both parentheses. */
  lemma TableLikeIff(line: string)
    ensures TableLike(line) <==> '|' in line || !NoSpaceRun(line) || ('(' in line && ')' in line)
  {
    ContainsChar(line, '|');
    ContainsChar(line, '(');
    ContainsChar(line, ')');
    var p := SpaceRunFn(line);
    if !NoSpaceRun(line) {
      var i :| 0 <= i < |line| - 1 && SpaceRunAt(line, i);
      assert p(i);
    }
    if Search.FirstFrom(p, 0, |line|).Some? {
      var i := Search.FirstFrom(p, 0, |line|).value;
      assert p(i);
    }
  }

  const NarrativeWords: seq<string> := ["reported", "announced", "increased", "decreased", "reached"]

  /** `\b` + w + `\b` matches at position i of s. */
  predicate WordAt(s: string, i: int, w: string) {
    OccursAt(s, w, i) && BoundaryAt(s, i) && BoundaryAt(s, i + |w|)
  }

  /** `re.search(r"\b(reported|announced|increased|decreased|reached)\b", lowered)`. */
  predicate Narrative(lowered: string) {
    exists k, i :: 0 <= k < |NarrativeWords| && 0 <= i <= |lowered| && WordAt(lowered, i, NarrativeWords[k])
  }

  /** A word followed by a currency sign ends there: the sign is not a word
    * character, so the line reads as narrative. */
  lemma NarrativeBeforeCurrency()
    ensures Narrative("emissions reached\U{20ac} 5")
  {
    var s := "emissions reached\U{20ac} 5";
    assert s[10..17] == "reached";
    assert WordAt(s, 10, NarrativeWords[4]);
  }

  /** The two `continue`s that skip a whole line. */
  predicate Skipped(line: string) {
    Narrative(Lower(line)) || !TableLike(line)
  }

  // ---------------------------------------------------------------------
  // The number at the end of a line

  /** `[\d,.\s]`. */
  predicate NumClass(c: char) {
    IsDigit(c) || c == ',' || c == '.' || IsSpace(c)
  }

  predicate NumTail(line: string, j: nat) {
    forall k :: j <= k < |line| ==> NumClass(line[k])
  }

  /** `(-?\d[\d,.\s]*)\s*$` matches at position i: a digit, or a minus sign
    * and a digit, with nothing but digits, commas, dots and whitespace after
    * it. */
  predicate NumberAt(line: string, i: nat) {
    i < |line| &&
    ((IsDigit(line[i]) && NumTail(line, i + 1))
     || (line[i] == '-' && i + 1 < |line| && IsDigit(line[i + 1]) && NumTail(line, i + 2)))
  }

  function NumberAtFn(line: string): nat -> bool {
    (i: nat) => NumberAt(line, i)
  }

  /** `number_pattern.search(line)` and `m.group(1).strip()`: the greedy
    * class takes every character up to the end, so the group is the whole
    * rest of the line from the leftmost match. */
  function TrailingNumber(line: string): Option<string> {
    match Search.FirstFrom(NumberAtFn(line), 0, |line|)
    case None => None
    case Some(i) => Some(Strip(line[i..]))
  }

  /** A line has a trailing number exactly when the pattern matches at some
    * position; the number is the rest of the line from the leftmost such
    * position. */
  lemma TrailingNumberSpec(line: string)
    ensures TrailingNumber(line).Some? <==> exists i :: 0 <= i < |line| && NumberAt(line, i)
    ensures TrailingNumber(line).Some? ==>
      exists i :: (0 <= i < |line| && NumberAt(line, i) && (forall j :: 0 <= j < i ==> !NumberAt(line, j))
        && TrailingNumber(line).value == Strip(line[i..]))
  {
    var p := NumberAtFn(line);
    var f := Search.FirstFrom(p, 0, |line|);
    if exists i :: 0 <= i < |line| && NumberAt(line, i) {
      var i :| 0 <= i < |line| && NumberAt(line, i);
      assert p(i);
    }
    if f.Some? {
      var i := f.value;
      assert p(i);
      forall j | 0 <= j < i ensures !NumberAt(line, j) {
        assert !p(j);
      }
    }
  }

  /** The number starts with a minus sign or a digit and holds nothing but
    * digits, commas, dots and whitespace after that. */
  lemma TrailingNumberShape(line: string)
    requires TrailingNumber(line).Some?
    ensures var v := TrailingNumber(line).value;
      v != [] && (v[0] == '-' || IsDigit(v[0])) && forall k :: 1 <= k < |v| ==> NumClass(v[k])
  {
    var p := NumberAtFn(line);
    var i := Search.FirstFrom(p, 0, |line|).value;
    assert p(i);
    var t := line[i..];
    assert NumberAt(line, i);
    StripKeepsHead(t);
    var v := Strip(t);
    assert LStrip(t) == t;
    assert v == t[..|v|];
    forall k | 1 <= k < |v| ensures NumClass(v[k]) {
      assert v[k] == line[i + k];
    }
  }

  // ---------------------------------------------------------------------
  // The unit on a line

  /** `_normalize_unit_token(u)`: lower-cased, with no space and '³' as '3'. */
  function UnitToken(u: string): (r: string)
    ensures forall j :: 0 <= j < |r| ==> r[j] != ' ' && r[j] != '\U{b3}'
  {
    MapChar(RemoveAll(Lower(u), {' '}), '\U{b3}', '3')
  }

  function UnitHitFn(units: seq<string>, compact: string): nat -> bool {
    (j: nat) => j < |units| && Contains(compact, UnitToken(units[j]))
  }

  /** The unit loop with its `break`: the first unit whose token occurs in
    * the line with its spaces removed. */
  function FirstUnitIn(units: seq<string>, compact: string): Option<string> {
    match Search.FirstFrom(UnitHitFn(units, compact), 0, |units|)
    case None => None
    case Some(j) => Some(units[j])
  }

  /** No unit is found exactly when no unit's token occurs; a found unit is
    * the first whose token occurs. */
  lemma FirstUnitInSpec(units: seq<string>, compact: string)
    ensures FirstUnitIn(units, compact).None? <==>
      forall j :: 0 <= j < |units| ==> !Contains(compact, UnitToken(units[j]))
    ensures FirstUnitIn(units, compact).Some? ==>
      exists j :: 0 <= j < |units| && units[j] == FirstUnitIn(units, compact).value
        && Contains(compact, UnitToken(units[j]))
        && (forall m :: 0 <= m < j ==> !Contains(compact, UnitToken(units[m])))
  {
    var p := UnitHitFn(units, compact);
    var f := Search.FirstFrom(p, 0, |units|);
    if f.Some? {
      assert p(f.value);
      forall m | 0 <= m < f.value ensures !Contains(compact, UnitToken(units[m])) {
        assert !p(m);
      }
    } else {
      forall j | 0 <= j < |units| ensures !Contains(compact, UnitToken(units[j])) {
        assert !p(j);
      }
    }
  }

  /** The unit loop over the KPI's units. */
  method FindUnitIn(units: seq<string>, compact: string) returns (r: Option<string>)
    ensures r == FirstUnitIn(units, compact)
  {
    var p := UnitHitFn(units, compact);
    var j := 0;
    while j < |units|
      invariant 0 <= j <= |units|
      invariant Search.FirstFrom(p, 0, |units|) == Search.FirstFrom(p, j, |units|)
    {
      if Contains(compact, UnitToken(units[j])) {
        assert p(j);
        return Some(units[j]);
      }
      assert !p(j);
      j := j + 1;
    }
    r := None;
  }

  // ---------------------------------------------------------------------
  // Records

  /** The record the code loop stores for code on a line that is read, if
    * any: the line must name one of the KPI's synonyms and end in a number. */
  function LineEntry(line: string, schema: KpiSchema, code: string): Option<Entry> {
    var lowered := Lower(line);
    if !EsgNlpExtractor.Mentions(lowered, EsgNlpExtractor.SynonymsFor(schema, code)) then None
    else match TrailingNumber(line)
      case None => None
      case Some(v) =>
        Some(RawRecord(PStr(v), OptText(FirstUnitIn(UnitsOf(schema, code), RemoveAll(lowered, {' '}))), 0.85))
  }

  /** A line yields a record for a KPI exactly when its lower-cased text
    * names a synonym and the line ends in a number; the record holds that
    * number, the first unit found on the line (or None) and confidence
    * 0.85. */
  lemma LineEntryIff(line: string, schema: KpiSchema, code: string)
    ensures LineEntry(line, schema, code).Some? <==>
      EsgNlpExtractor.Mentions(Lower(line), EsgNlpExtractor.SynonymsFor(schema, code))
      && exists i :: 0 <= i < |line| && NumberAt(line, i)
    ensures LineEntry(line, schema, code).Some? ==>
      var e := LineEntry(line, schema, code).value;
      e.Valid() && e.keys == ["raw_value", "raw_unit", "confidence"]
      && Get(e, "raw_value") == PStr(TrailingNumber(line).value)
      && Get(e, "raw_unit") == OptText(FirstUnitIn(UnitsOf(schema, code), RemoveAll(Lower(line), {' '})))
      && Get(e, "confidence") == Num(0.85)
  {
    TrailingNumberSpec(line);
  }

  // ---------------------------------------------------------------------
  // The parse

  /** `results` after the first n lines: every line that `read` accepts
    * gives each code of ks that has no record yet the record `rec(line)`
    * yields for it, if any. */
  function Fold<V>(lines: seq<string>, n: nat, read: string -> bool, ks: seq<string>,
                   rec: string -> string -> Option<V>): Dict<V>
    requires n <= |lines|
  {
    if n == 0 then Empty()
    else
      var d := Fold(lines, n - 1, read, ks, rec);
      var line := lines[n - 1];
      if read(line) then AbsorbFrom(d, ks, rec(line)) else d
  }

  /** Line i is read and yields a record for code. */
  predicate Hit<V>(lines: seq<string>, read: string -> bool, rec: string -> string -> Option<V>, code: string, i: nat) {
    i < |lines| && read(lines[i]) && rec(lines[i])(code).Some?
  }

  function HitFn<V>(lines: seq<string>, read: string -> bool, rec: string -> string -> Option<V>, code: string): nat -> bool {
    (i: nat) => Hit(lines, read, rec, code, i)
  }

  /** After n lines, code has a record exactly when it is one of ks and one
    * of those lines yields a record for it; the record is the one of the
    * first such line. */
  lemma {:induction false} FoldSpec<V>(lines: seq<string>, n: nat, read: string -> bool, ks: seq<string>,
                                       rec: string -> string -> Option<V>, code: string)
    requires n <= |lines|
    ensures var first := Search.FirstFrom(HitFn(lines, read, rec, code), 0, n);
      && (code in Fold(lines, n, read, ks, rec).vals <==> code in ks && first.Some?)
      && (code in Fold(lines, n, read, ks, rec).vals ==>
            Some(Fold(lines, n, read, ks, rec).vals[code]) == rec(lines[first.value])(code))
  {
    if n > 0 {
      var p := HitFn(lines, read, rec, code);
      FoldSpec(lines, n - 1, read, ks, rec, code);
      Search.FirstFromExtend(p, n - 1);
      var d := Fold(lines, n - 1, read, ks, rec);
      var line := lines[n - 1];
      if read(line) {
        AbsorbFromSpec(d, ks, rec(line));
      }
    }
  }

  /** The first-hit rule over all the lines. */
  lemma FoldReports<V>(lines: seq<string>, read: string -> bool, ks: seq<string>,
                       rec: string -> string -> Option<V>, code: string)
    ensures code in Fold(lines, |lines|, read, ks, rec).vals <==>
      code in ks && exists i :: 0 <= i < |lines| && Hit(lines, read, rec, code, i)
    ensures code in Fold(lines, |lines|, read, ks, rec).vals ==>
      exists i :: (0 <= i < |lines| && Hit(lines, read, rec, code, i)
        && (forall j :: 0 <= j < i ==> !Hit(lines, read, rec, code, j))
        && Some(Fold(lines, |lines|, read, ks, rec).vals[code]) == rec(lines[i])(code))
  {
    var p := HitFn(lines, read, rec, code);
    var f := Search.FirstFrom(p, 0, |lines|);
    FoldSpec(lines, |lines|, read, ks, rec, code);
    if exists i :: 0 <= i < |lines| && Hit(lines, read, rec, code, i) {
      var i :| 0 <= i < |lines| && Hit(lines, read, rec, code, i);
      assert p(i);
    }
    if f.Some? {
      assert p(f.value);
      forall j | 0 <= j < f.value ensures !Hit(lines, read, rec, code, j) {
        assert !p(j);
      }
    }
  }

  /** The line filter: the two `continue`s that skip a whole line. */
  const Read: string -> bool := line => !Skipped(line)

  /** The code loop's record for a line. */
  function RecFn(schema: KpiSchema): string -> string -> Option<Entry> {
    line => code => LineEntry(line, schema, code)
  }

  /** What `_parse_table_plain_text(text, kpi_schema)` returns. */
  function ParseSpec(text: string, schema: KpiSchema): Results {
    var lines := Lines(text);
    if lines == [] then Empty() else Fold(lines, |lines|, Read, schema.keys, RecFn(schema))
  }

  /** Line i is read (it looks like a table row and is not narrative) and
    * yields a record for code. */
  predicate LineHit(lines: seq<string>, schema: KpiSchema, code: string, i: nat) {
    i < |lines| && !Skipped(lines[i]) && LineEntry(lines[i], schema, code).Some?
  }

  /** A KPI is reported exactly when it is in the schema and some line that
    * looks like a table row, is not narrative, names one of its synonyms
    * and ends in a number; its record is the one of the first such line. */
  lemma PlainReports(text: string, schema: KpiSchema, code: string)
    ensures code in ParseSpec(text, schema).vals <==>
      code in schema.keys && exists i :: 0 <= i < |Lines(text)| && LineHit(Lines(text), schema, code, i)
    ensures code in ParseSpec(text, schema).vals ==>
      exists i :: (0 <= i < |Lines(text)| && LineHit(Lines(text), schema, code, i)
        && (forall j :: 0 <= j < i ==> !LineHit(Lines(text), schema, code, j))
        && Some(ParseSpec(text, schema).vals[code]) == LineEntry(Lines(text)[i], schema, code))
  {
    var lines := Lines(text);
    var rec := RecFn(schema);
    assert forall i: nat :: Hit(lines, Read, rec, code, i) == LineHit(lines, schema, code, i);
    FoldReports(lines, Read, schema.keys, rec, code);
  }

  /** Narrative and non-tabular lines are skipped: the line a record comes
    * from looks like a table row and has none of the narrative verbs. */
  lemma PlainLineRead(text: string, schema: KpiSchema, code: string)
    requires code in ParseSpec(text, schema).vals
    ensures exists i :: (0 <= i < |Lines(text)| && TableLike(Lines(text)[i]) && !Narrative(Lower(Lines(text)[i]))
      && Some(ParseSpec(text, schema).vals[code]) == LineEntry(Lines(text)[i], schema, code))
  {
    PlainReports(text, schema, code);
  }

  /** Whitespace-only text gives `{}`. */
  lemma BlankTextEmpty(text: string, schema: KpiSchema)
    requires AllSpace(text)
    ensures ParseSpec(text, schema) == Empty()
  {
    BlankTextNoLines(text);
  }

  /** The code loop for one line that is read. */
  method ScanCodes(acc: Results, line: string, schema: KpiSchema) returns (r: Results)
    ensures r == AbsorbFrom(acc, schema.keys, RecFn(schema)(line))
  {
    var f := RecFn(schema)(line);
    var lowered := Lower(line);
    var compact := RemoveAll(lowered, {' '});
    r := acc;
    var i := 0;
    while i < |schema.keys|
      invariant 0 <= i <= |schema.keys|
      invariant r == AbsorbFrom(acc, schema.keys[..i], f)
    {
      var code := schema.keys[i];
      AbsorbFromStep(acc, schema.keys, f, i);
      if code !in r.vals {
        var mentioned := EsgNlpExtractor.MentionsAny(lowered, EsgNlpExtractor.SynonymsFor(schema, code));
        if mentioned {
          var rawUnit := FindUnitIn(UnitsOf(schema, code), compact);
          var m := TrailingNumber(line);
          if m.Some? {
            r := r.Put(code, RawRecord(PStr(m.value), OptText(rawUnit), 0.85));
          }
        }
      }
      i := i + 1;
    }
    assert schema.keys[..|schema.keys|] == schema.keys;
  }

  /** `_parse_table_plain_text(text, kpi_schema)`. */
  method ParseTablePlainText(text: string, schema: KpiSchema) returns (r: Results)
    ensures r == ParseSpec(text, schema)
  {
    var lines := Lines(text);
    if lines == [] {
      return Empty();
    }
    var rec := RecFn(schema);
    r := Empty();
    var n := 0;
    while n < |lines|
      invariant 0 <= n <= |lines|
      invariant r == Fold(lines, n, Read, schema.keys, rec)
    {
      var line := lines[n];
      var skip := Narrative(Lower(line)) || !TableLike(line);
      assert Read(line) == !skip;
      ghost var next := Fold(lines, n + 1, Read, schema.keys, rec);
      assert next == if Read(line) then AbsorbFrom(r, schema.keys, rec(line)) else r;
      if !skip {
        ghost var prev := r;
        r := ScanCodes(r, line, schema);
        assert r == AbsorbFrom(prev, schema.keys, rec(line));
      }
      assert r == next;
      n := n + 1;
      assert r == Fold(lines, n, Read, schema.keys, rec);
    }
  }

  // ---------------------------------------------------------------------
  // The PDF entry point

  /** `[page.extract_text() or "" for page in pdf.pages]`. */
  function PageTexts(pages: seq<Option<string>>): (r: seq<string>)
    ensures |r| == |pages|
    ensures forall k :: 0 <= k < |pages| ==> r[k] == (if pages[k].Some? then pages[k].value else [])
  {
    seq(|pages|, k requires 0 <= k < |pages| => if pages[k].Some? then pages[k].value else [])
  }

  /** `"\n".join(pages).strip()`. */
  function FullText(pages: seq<Option<string>>): string {
    Strip(Join("\n", PageTexts(pages)))
  }

  /** What `extract_kpis_tables_plain(pdf_path, kpi_schema)` returns, given
    * the text of each page (None for a page without text), or None when the
    * path is not a file or the reader fails. */
  function PlainSpec(pages: Option<seq<Option<string>>>, schema: KpiSchema): Results {
    match pages
    case None => Empty()
    case Some(ps) =>
      var full := FullText(ps);
      if full == [] then Empty() else ParseSpec(full, schema)
  }

  /** `extract_kpis_tables_plain(pdf_path, kpi_schema)`. */
  method ExtractKpisTablesPlain(pages: Option<seq<Option<string>>>, schema: KpiSchema) returns (r: Results)
    ensures r == PlainSpec(pages, schema)
  {
    if pages.None? {
      return Empty();
    }
    var full := FullText(pages.value);
    if full == [] {
      return Empty();
    }
    r := ParseTablePlainText(full, schema);
  }

  /** A failed read gives `{}`, and otherwise the result is the parse of the
    * pages' joined text: the guard against empty text only restates that
    * empty text has no line. */
  lemma PlainPagesParse(pages: Option<seq<Option<string>>>, schema: KpiSchema)
    ensures PlainSpec(pages, schema) == if pages.None? then Empty() else ParseSpec(FullText(pages.value), schema)
  {
    if pages.Some? && FullText(pages.value) == [] {
      BlankTextEmpty(FullText(pages.value), schema);
    }
  }
}
