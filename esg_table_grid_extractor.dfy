/** The grid-table extractor: in every table the PDF reader finds, the header
  * row says which columns hold the KPI label, the unit and the value; every
  * later row whose label contains a synonym of a KPI becomes that KPI's
  * record, a later row replacing an earlier one.  Across tables the first
  * table to report a KPI wins.  The second generation's
  * `table_extractor_v3.py` is the same algorithm. */
module EsgTableGridExtractor {
  import opened Wrappers
  import opened Dicts
  import opened PyStr
  import opened PyValues
  import opened Records
  import opened Schema
  import opened UnitMatch
  import Search

  // ---------------------------------------------------------------------
  // Text normalization

  /** `[a-z0-9]`. */
  predicate IsAlnum(c: char) {
    ('a' <= c <= 'z') || IsDigit(c)
  }

  /** A character of the block of combining diacritical marks, U+0300 to
    * U+036F: all of Unicode category Mn. */
  predicate IsCombining(c: char) {
    '\U{300}' <= c <= '\U{36f}'
  }

  /** The letter canonical decomposition (NFD) leaves in front of its
    * combining mark, for the lower-case Latin-1 letters that decompose. */
  function BaseLetter(c: char): char {
    if '\U{e0}' <= c <= '\U{e5}' then 'a'
    else if c == '\U{e7}' then 'c'
    else if '\U{e8}' <= c <= '\U{eb}' then 'e'
    else if '\U{ec}' <= c <= '\U{ef}' then 'i'
    else if c == '\U{f1}' then 'n'
    else if '\U{f2}' <= c <= '\U{f6}' then 'o'
    else if '\U{f9}' <= c <= '\U{fc}' then 'u'
    else if c == '\U{fd}' || c == '\U{ff}' then 'y'
    else c
  }

  /** `unicodedata.normalize("NFD", s)` with the category Mn characters
    * dropped: accented letters lose their accent. */
  function Unaccented(s: string): (r: string)
    ensures |r| <= |s|
  {
    if s == [] then [] else (if IsCombining(s[0]) then [] else [BaseLetter(s[0])]) + Unaccented(s[1..])
  }

  /** The characters `re.sub(r"[^a-z0-9]+", ...)` replaces, from the front of s. */
  function SkipOthers(s: string): (r: string)
    ensures |r| <= |s| && r == s[|s| - |r|..]
    ensures r == [] || IsAlnum(r[0])
  {
    if s != [] && !IsAlnum(s[0]) then SkipOthers(s[1..]) else s
  }

  /** Two spaces in a row end at i. */
  predicate SpacePairAt(t: string, i: int)
    requires 0 < i < |t|
  {
    t[i - 1] == ' ' && t[i] == ' '
  }

  /** Only `[a-z0-9]` and single spaces. */
  predicate Squeezed(t: string) {
    && (forall i :: 0 <= i < |t| ==> IsAlnum(t[i]) || t[i] == ' ')
    && (forall i :: 0 < i < |t| ==> !SpacePairAt(t, i))
  }

  /** Squeezed, and no space at either end: what `_norm_text` returns. */
  predicate Clean(t: string) {
    Squeezed(t) && (t == [] || (t[0] != ' ' && t[|t| - 1] != ' '))
  }

  lemma AlnumNotSpace(c: char)
    requires IsAlnum(c)
    ensures !IsSpace(c) && !IsUpper(c) && !IsCombining(c) && BaseLetter(c) == c
  {
  }

  lemma SqueezedCons(c: char, t: string)
    requires Squeezed(t) && (IsAlnum(c) || c == ' ')
    requires c == ' ' ==> t == [] || t[0] != ' '
    ensures Squeezed([c] + t)
  {
    var u := [c] + t;
    forall i | 0 <= i < |u| ensures IsAlnum(u[i]) || u[i] == ' ' {
      if i > 0 {
        assert u[i] == t[i - 1];
      }
    }
    forall i | 0 < i < |u| ensures !SpacePairAt(u, i) {
      if i > 1 {
        assert u[i - 1] == t[i - 2] && u[i] == t[i - 1];
        assert !SpacePairAt(t, i - 1);
      }
    }
  }

  /** A slice of squeezed text is squeezed. */
  lemma SqueezedSlice(t: string, a: nat, b: nat)
    requires Squeezed(t) && a <= b <= |t|
    ensures Squeezed(t[a..b])
  {
    var u := t[a..b];
    forall i | 0 <= i < |u| ensures IsAlnum(u[i]) || u[i] == ' ' {
      assert u[i] == t[a + i];
    }
    forall i | 0 < i < |u| ensures !SpacePairAt(u, i) {
      assert u[i - 1] == t[a + i - 1] && u[i] == t[a + i];
      assert !SpacePairAt(t, a + i);
    }
  }

  lemma SqueezedTail(t: string)
    requires Squeezed(t) && t != []
    ensures Squeezed(t[1..])
  {
    SqueezedSlice(t, 1, |t|);
    assert t[1..|t|] == t[1..];
  }

  /** `re.sub(r"[^a-z0-9]+", " ", s)`. */
  function AlnumRuns(s: string): (r: string)
    decreases |s|
    ensures Squeezed(r)
    ensures s != [] ==> r != [] && (r[0] == ' ' <==> !IsAlnum(s[0]))
  {
    if s == [] then []
    else if IsAlnum(s[0]) then
      var r := AlnumRuns(s[1..]);
      SqueezedCons(s[0], r);
      [s[0]] + r
    else
      var rest := SkipOthers(s[1..]);
      var r := AlnumRuns(rest);
      SqueezedCons(' ', r);
      [' '] + r
  }

  /** `_norm_text(s)`: stripped, lower-cased, without accents, every run of
    * characters other than `[a-z0-9]` one space, whitespace runs collapsed
    * and the ends stripped. */
  function NormText(s: string): (r: string)
    ensures s == [] ==> r == []
    ensures Clean(r)
  {
    if s == [] then []
    else
      var t := AlnumRuns(Unaccented(Lower(Strip(s))));
      CollapseSqueezed(t);
      StripSqueezed(t);
      Strip(CollapseWs(t))
  }

  lemma CollapseAlnumHead(t: string)
    requires t != [] && IsAlnum(t[0])
    ensures CollapseWs(t) == [t[0]] + CollapseWs(t[1..])
  {
    AlnumNotSpace(t[0]);
  }

  lemma CollapseSpaceHead(t: string)
    requires Squeezed(t) && t != [] && t[0] == ' '
    ensures CollapseWs(t) == [' '] + CollapseWs(t[1..])
  {
    if |t| > 1 {
      assert !SpacePairAt(t, 1);
      AlnumNotSpace(t[1]);
    }
    assert LStrip(t) == LStrip(t[1..]);
    assert LStrip(t[1..]) == t[1..];
  }

  /** Whitespace collapsing leaves squeezed text alone. */
  lemma {:induction false} CollapseSqueezed(t: string)
    requires Squeezed(t)
    ensures CollapseWs(t) == t
  {
    if t != [] {
      SqueezedTail(t);
      CollapseSqueezed(t[1..]);
      if t[0] == ' ' {
        CollapseSpaceHead(t);
      } else {
        CollapseAlnumHead(t);
      }
      ConsSplit(t);
    }
  }

  /** Stripping squeezed text gives text in normal form: it keeps a slice
    * and drops the spaces at the ends. */
  lemma StripSqueezed(t: string)
    requires Squeezed(t)
    ensures Clean(Strip(t))
  {
    var l := LStrip(t);
    SqueezedSlice(t, |t| - |l|, |t|);
    assert t[|t| - |l|..|t|] == l;
    var r := RStrip(l);
    SqueezedSlice(l, 0, |r|);
    assert l[0..|r|] == r;
    assert Strip(t) == r;
    if r != [] {
      assert r[0] == l[0];
      assert IsSpace(' ');
    }
  }

  /** Text already in normal form comes out of `_norm_text` unchanged. */
  lemma NormTextClean(t: string)
    requires Clean(t)
    ensures NormText(t) == t
  {
    if t != [] {
      AlnumNotSpace(t[0]);
      AlnumNotSpace(t[|t| - 1]);
      assert LStrip(t) == t;
      assert RStrip(t) == t;
      forall i | 0 <= i < |t| ensures !IsUpper(t[i]) {
        if t[i] != ' ' {
          AlnumNotSpace(t[i]);
        }
      }
      LowerNoUpper(t);
      UnaccentedAscii(t);
      AlnumRunsSqueezed(t);
      CollapseSqueezed(t);
    }
  }

  /** `_norm_text` is idempotent. */
  lemma NormTextIdempotent(s: string)
    ensures NormText(NormText(s)) == NormText(s)
  {
    NormTextClean(NormText(s));
  }

  lemma {:induction false} UnaccentedAscii(t: string)
    requires Squeezed(t)
    ensures Unaccented(t) == t
  {
    if t != [] {
      SqueezedTail(t);
      UnaccentedAscii(t[1..]);
      if t[0] != ' ' {
        AlnumNotSpace(t[0]);
      }
      ConsSplit(t);
    }
  }

  lemma AlnumRunsAlnumHead(t: string)
    requires t != [] && IsAlnum(t[0])
    ensures AlnumRuns(t) == [t[0]] + AlnumRuns(t[1..])
  {
  }

  lemma AlnumRunsSpaceHead(t: string)
    requires Squeezed(t) && t != [] && !IsAlnum(t[0])
    ensures t[0] == ' ' && AlnumRuns(t) == [' '] + AlnumRuns(t[1..])
  {
    if |t| > 1 {
      assert !SpacePairAt(t, 1);
    }
    assert SkipOthers(t[1..]) == t[1..];
  }

  lemma {:induction false} AlnumRunsSqueezed(t: string)
    requires Squeezed(t)
    ensures AlnumRuns(t) == t
  {
    if t != [] {
      SqueezedTail(t);
      AlnumRunsSqueezed(t[1..]);
      if IsAlnum(t[0]) {
        AlnumRunsAlnumHead(t);
      } else {
        AlnumRunsSpaceHead(t);
      }
      ConsSplit(t);
    }
  }

  // ---------------------------------------------------------------------
  // Synonyms

  /** `_HARDCODED`: label texts in English, German and French for the three
    * KPIs the project reports. */
  const Hardcoded: map<string, seq<string>> := map[
    "total_ghg_emissions" := ["total ghg emissions", "ghg emissions total",
                              "treibhausgasemissionen gesamt", "emissions totales de ges"],
    "energy_consumption" := ["total energy consumption", "energy consumption total",
                             "gesamtenergieverbrauch", "consommation totale d energie"],
    "water_withdrawal" := ["total water withdrawal", "water withdrawal total",
                           "gesamtwasserentnahme", "prelevement total d eau"]]

  /** `_HARDCODED.get(code, [])`. */
  function HardcodedFor(code: string): seq<string> {
    if code in Hardcoded then Hardcoded[code] else []
  }

  /** `[_norm_text(s) for s in ss if _norm_text(s)]`. */
  function NormAll(ss: seq<string>): (r: seq<string>)
    ensures |r| <= |ss|
    ensures forall k :: 0 <= k < |r| ==> r[k] != []
  {
    MapKeep(NormText, ss)
  }

  /** `_build_synonyms(kpi_schema)[code]`: the schema's synonyms, or the code
    * with underscores as spaces, then the hard-coded ones, all normalized. */
  function GridSynonyms(schema: KpiSchema, code: string): seq<string> {
    var given := SynonymsOf(schema, code);
    NormAll((if given != [] then given else [MapChar(code, '_', ' ')]) + HardcodedFor(code))
  }

  /** Every synonym is in normal form. */
  lemma NormAllClean(ss: seq<string>)
    ensures forall x :: x in NormAll(ss) ==> Clean(x)
  {
    forall x | x in NormAll(ss) ensures Clean(x) {
      MapKeepFrom(NormText, ss, x);
    }
  }

  /** Normalizing keeps the synonyms that are already in normal form. */
  lemma NormAllKeepsClean(ss: seq<string>, s: string)
    requires s in ss && s != [] && Clean(s)
    ensures s in NormAll(ss)
  {
    NormTextClean(s);
    MapKeepHas(NormText, ss, s);
  }

  /** Every hard-coded label text of a KPI, normalized, is one of its
    * synonyms, whatever the schema lists. */
  lemma HardcodedSynonyms(schema: KpiSchema, code: string, s: string)
    requires s in HardcodedFor(code) && NormText(s) != []
    ensures NormText(s) in GridSynonyms(schema, code)
  {
    var given := SynonymsOf(schema, code);
    var base := if given != [] then given else [MapChar(code, '_', ' ')];
    MapKeepAppend(NormText, base, HardcodedFor(code));
    MapKeepHas(NormText, HardcodedFor(code), s);
  }

  // ---------------------------------------------------------------------
  // Header detection

  const KpiCues: seq<string> := ["kpi", "metric", "kennzahl", "indicateur", "indicator"]
  const UnitCues: seq<string> := ["unit", "einheit", "unite"]
  const ValueCues: seq<string> := ["wert", "valeur", "value"]

  /** `any(t in h for t in cues)`. */
  predicate HasCue(h: string, cues: seq<string>) {
    exists k :: 0 <= k < |cues| && Contains(h, cues[k])
  }

  /** `re.match(r"20\d{2}$", h)`: "20", two digits, then the end or a final
    * newline. */
  predicate IsYear(h: string) {
    && |h| >= 4 && h[0] == '2' && h[1] == '0' && IsDigit(h[2]) && IsDigit(h[3])
    && (|h| == 4 || (|h| == 5 && h[4] == '\n'))
  }

  /** A header cell: pdfplumber gives None for an empty cell. */
  type Cell = Option<string>
  type Row = seq<Cell>
  type Table = seq<Row>

  /** `cell or ""`. */
  function CellText(c: Cell): string {
    if c.Some? then c.value else ""
  }

  /** The three column variables of `_detect_cols`, None until set. */
  datatype Scan = Scan(kpi: Option<nat>, unit: Option<nat>, value: Option<nat>)

  /** What the loop body tests of one normalized header cell. */
  datatype CellCues = CellCues(kpi: bool, unit: bool, value: bool, year: bool)

  function CuesOf(h: string): CellCues {
    CellCues(HasCue(h, KpiCues), HasCue(h, UnitCues), HasCue(h, ValueCues), IsYear(h))
  }

  /** The tests on `[_norm_text(h) for h in header]`. */
  function HeaderCues(header: Row): (cs: seq<CellCues>)
    ensures |cs| == |header|
    ensures forall i :: 0 <= i < |header| ==> cs[i] == CuesOf(NormText(CellText(header[i])))
  {
    seq(|header|, i requires 0 <= i < |header| => CuesOf(NormText(CellText(header[i]))))
  }

  /** One pass of the loop over the normalized header, at cell i. */
  function ScanStep(st: Scan, i: nat, c: CellCues): Scan {
    var kpi := if c.kpi then Some(i) else st.kpi;
    var unit := if c.unit then Some(i) else st.unit;
    var value := if c.value then Some(i) else st.value;
    Scan(kpi, unit, if c.year && value.None? then Some(i) else value)
  }

  /** The three variables after the loop over the cells. */
  function ScanHeader(cs: seq<CellCues>): Scan {
    if cs == [] then Scan(None, None, None)
    else ScanStep(ScanHeader(cs[..|cs| - 1]), |cs| - 1, cs[|cs| - 1])
  }

  /** The column indexes: `value` is -1 for an empty header, which Python
    * reads as the last cell of a row. */
  datatype Columns = Columns(kpi: int, unit: int, value: int)

  predicate ColumnsOk(c: Columns) {
    c.kpi >= 0 && c.unit >= 0 && c.value >= -1
  }

  /** The defaults of `_detect_cols`: kpi 0, unit 1 (0 for a one-cell
    * header), value 2 (the last cell for a shorter header). */
  function Defaults(st: Scan, n: nat): (c: Columns)
    ensures ColumnsOk(c)
  {
    Columns(
      if st.kpi.Some? then st.kpi.value else 0,
      if st.unit.Some? then st.unit.value else if n > 1 then 1 else 0,
      if st.value.Some? then st.value.value else if n > 2 then 2 else n - 1)
  }

  /** `_detect_cols(header)`. */
  function Cols(header: Row): (c: Columns)
    ensures ColumnsOk(c)
  {
    Defaults(ScanHeader(HeaderCues(header)), |header|)
  }

  /** Prefixes of the header loop. */
  lemma ScanHeaderStep(cs: seq<CellCues>, i: nat)
    requires i < |cs|
    ensures ScanHeader(cs[..i + 1]) == ScanStep(ScanHeader(cs[..i]), i, cs[i])
  {
    assert cs[..i + 1][..i] == cs[..i];
  }

  /** The loop of `_detect_cols` over the tests on the header cells. */
  method ScanCells(cs: seq<CellCues>) returns (kpi: Option<nat>, unit: Option<nat>, value: Option<nat>)
    ensures Scan(kpi, unit, value) == ScanHeader(cs)
  {
    kpi, unit, value := None, None, None;
    var i := 0;
    while i < |cs|
      invariant 0 <= i <= |cs|
      invariant Scan(kpi, unit, value) == ScanHeader(cs[..i])
    {
      ScanHeaderStep(cs, i);
      if cs[i].kpi {
        kpi := Some(i);
      }
      if cs[i].unit {
        unit := Some(i);
      }
      if cs[i].value {
        value := Some(i);
      }
      if cs[i].year && value.None? {
        value := Some(i);
      }
      i := i + 1;
    }
    assert cs[..i] == cs;
  }

  /** `_detect_cols(header)`. */
  method DetectCols(header: Row) returns (c: Columns)
    ensures c == Cols(header)
  {
    var kpi, unit, value := ScanCells(HeaderCues(header));
    var n := |header|;
    c := Columns(
      if kpi.Some? then kpi.value else 0,
      if unit.Some? then unit.value else if n > 1 then 1 else 0,
      if value.Some? then value.value else if n > 2 then 2 else n - 1);
  }

  /** The kinds of cue a header cell can carry. */
  datatype Cue = KpiCue | UnitCue | ValueCue | YearCue

  predicate Has(c: CellCues, w: Cue) {
    match w
    case KpiCue => c.kpi
    case UnitCue => c.unit
    case ValueCue => c.value
    case YearCue => c.year
  }

  /** Some cell carries the cue. */
  predicate AnyCue(cs: seq<CellCues>, w: Cue) {
    exists i :: 0 <= i < |cs| && Has(cs[i], w)
  }

  /** Cell i is the last cell carrying the cue. */
  predicate IsLast(cs: seq<CellCues>, w: Cue, i: int) {
    0 <= i < |cs| && Has(cs[i], w) && forall j :: i < j < |cs| ==> !Has(cs[j], w)
  }

  /** Cell i is the first cell carrying the cue. */
  predicate IsFirst(cs: seq<CellCues>, w: Cue, i: int) {
    0 <= i < |cs| && Has(cs[i], w) && forall j :: 0 <= j < i ==> !Has(cs[j], w)
  }

  /** The kpi and unit columns found are the last cells with their cues. */
  lemma {:induction false} ScanLastCues(cs: seq<CellCues>)
    ensures ScanHeader(cs).kpi.Some? <==> AnyCue(cs, KpiCue)
    ensures ScanHeader(cs).kpi.Some? ==> IsLast(cs, KpiCue, ScanHeader(cs).kpi.value)
    ensures ScanHeader(cs).unit.Some? <==> AnyCue(cs, UnitCue)
    ensures ScanHeader(cs).unit.Some? ==> IsLast(cs, UnitCue, ScanHeader(cs).unit.value)
  {
    if cs != [] {
      var p := cs[..|cs| - 1];
      ScanLastCues(p);
      assert forall i :: 0 <= i < |p| ==> p[i] == cs[i];
    }
  }

  /** The value column found is the last cell with a value cue; without one,
    * the first year cell: a year cell counts only while no value column is
    * known. */
  lemma {:induction false} ScanValue(cs: seq<CellCues>)
    ensures AnyCue(cs, ValueCue) ==> ScanHeader(cs).value.Some? && IsLast(cs, ValueCue, ScanHeader(cs).value.value)
    ensures !AnyCue(cs, ValueCue) ==>
      && (ScanHeader(cs).value.Some? <==> AnyCue(cs, YearCue))
      && (ScanHeader(cs).value.Some? ==> IsFirst(cs, YearCue, ScanHeader(cs).value.value))
  {
    if cs != [] {
      var p := cs[..|cs| - 1];
      ScanValue(p);
      assert forall i :: 0 <= i < |p| ==> p[i] == cs[i];
    }
  }

  /** The kpi column is the last header cell naming a KPI, else the first. */
  lemma KpiColumn(header: Row)
    ensures AnyCue(HeaderCues(header), KpiCue) ==> IsLast(HeaderCues(header), KpiCue, Cols(header).kpi)
    ensures !AnyCue(HeaderCues(header), KpiCue) ==> Cols(header).kpi == 0
  {
    ScanLastCues(HeaderCues(header));
  }

  /** The unit column is the last header cell naming a unit, else the second
    * (the first in a one-cell header). */
  lemma UnitColumn(header: Row)
    ensures AnyCue(HeaderCues(header), UnitCue) ==> IsLast(HeaderCues(header), UnitCue, Cols(header).unit)
    ensures !AnyCue(HeaderCues(header), UnitCue) ==> Cols(header).unit == if |header| > 1 then 1 else 0
  {
    ScanLastCues(HeaderCues(header));
  }

  /** The value column is the last header cell naming a value; without one
    * the first year cell; without either the third cell, or the last one in
    * a shorter header. */
  lemma ValueColumn(header: Row)
    ensures AnyCue(HeaderCues(header), ValueCue) ==> IsLast(HeaderCues(header), ValueCue, Cols(header).value)
    ensures !AnyCue(HeaderCues(header), ValueCue) && AnyCue(HeaderCues(header), YearCue) ==>
      IsFirst(HeaderCues(header), YearCue, Cols(header).value)
    ensures !AnyCue(HeaderCues(header), ValueCue) && !AnyCue(HeaderCues(header), YearCue) ==>
      Cols(header).value == if |header| > 2 then 2 else |header| - 1
  {
    ScanValue(HeaderCues(header));
  }

  // ---------------------------------------------------------------------
  // Units

  /** The group of `re.search(r"\(([^)]+)\)", s)` spans s[i+1..j]: an
    * opening parenthesis at i, at least one character, and at j the first
    * closing parenthesis after i. */
  predicate GroupAt(s: string, i: int, j: int) {
    0 <= i && i + 1 < j < |s| && s[i] == '(' && s[j] == ')' && forall k :: i < k < j ==> s[k] != ')'
  }

  /** The group of a match starting at i, if one starts there. */
  function GroupFrom(s: string, i: nat): Option<string> {
    if i < |s| && s[i] == '(' then
      var j := FindFrom(s, ")", i + 1);
      if j > i + 1 then Some(s[i + 1..j]) else None
    else None
  }

  function GroupFn(s: string): nat -> Option<string> {
    (i: nat) => GroupFrom(s, i)
  }

  /** `m.group(1)` of the leftmost match, if any. */
  function ParenGroup(s: string): Option<string> {
    match Search.FirstSome(GroupFn(s), 0, |s|)
    case Some(p) => Some(p.1)
    case None => None
  }

  /** A match starts at i exactly when a group spans s[i+1..j] for some j,
    * and the group found is that one. */
  lemma GroupFromIff(s: string, i: nat)
    ensures GroupFrom(s, i).Some? <==> exists j :: GroupAt(s, i, j)
    ensures GroupFrom(s, i).Some? ==> exists j :: GroupAt(s, i, j) && GroupFrom(s, i).value == s[i + 1..j]
  {
    if i < |s| && s[i] == '(' {
      var j := FindFrom(s, ")", i + 1);
      if j > i + 1 {
        assert s[j..j + 1] == [s[j]];
        forall k | i < k < j ensures s[k] != ')' {
          assert !OccursAt(s, ")", k);
          assert s[k..k + 1] == [s[k]];
        }
        assert GroupAt(s, i, j);
      } else if j < 0 {
        forall j' | GroupAt(s, i, j') ensures false {
          assert s[j'..j' + 1] == [s[j']];
          assert OccursAt(s, ")", j');
        }
      } else {
        assert s[j..j + 1] == [s[j]];
      }
    }
  }

  /** `re.search(r"\(([^)]+)\)", s)` finds the leftmost group. */
  lemma ParenGroupSpec(s: string)
    ensures ParenGroup(s).Some? <==> exists i, j :: GroupAt(s, i, j)
    ensures ParenGroup(s).Some? ==> exists i, j :: (GroupAt(s, i, j) && ParenGroup(s).value == s[i + 1..j]
      && forall i', j' :: GroupAt(s, i', j') ==> i <= i')
  {
    var f := GroupFn(s);
    var r := Search.FirstSome(f, 0, |s|);
    if r.Some? {
      var i := r.value.0;
      GroupFromIff(s, i);
      forall i', j' | GroupAt(s, i', j') ensures i <= i' {
        if i' < i {
          assert f(i').None?;
          GroupFromIff(s, i');
        }
      }
    } else {
      forall i, j | GroupAt(s, i, j) ensures false {
        assert f(i).None?;
        GroupFromIff(s, i);
      }
    }
  }

  /** The unit `_extract_table_grid` reads: the unit cell when it is
    * non-empty and has no digit, else the stripped parenthesized group of
    * the label, if any. */
  function RawUnit(unitCell: string, name: string): (r: Option<string>)
    ensures unitCell != [] && !HasDigit(unitCell) ==> r == Some(unitCell)
  {
    var fromCell := if unitCell != [] && !HasDigit(unitCell) then Some(unitCell) else None;
    if fromCell.Some? then fromCell
    else match ParenGroup(name)
      case Some(g) => Some(Strip(g))
      case None => None
  }

  /** A unit cell that is empty or holds a digit gives way to the leftmost
    * parenthesized group of the label. */
  lemma RawUnitFromLabel(unitCell: string, name: string)
    requires unitCell == [] || HasDigit(unitCell)
    ensures RawUnit(unitCell, name).Some? <==> exists i, j :: GroupAt(name, i, j)
    ensures RawUnit(unitCell, name).Some? ==> exists i, j :: (GroupAt(name, i, j)
      && RawUnit(unitCell, name).value == Strip(name[i + 1..j])
      && forall i', j' :: GroupAt(name, i', j') ==> i <= i')
  {
    ParenGroupSpec(name);
  }

  /** The record's raw unit and unit. */
  datatype UnitPair = UnitPair(raw: Option<string>, unit: Option<string>)

  /** The unit resolution of `_extract_table_grid`: the first allowed unit
    * equal to the raw unit under `_norm_unit`; failing that, a KPI with one
    * allowed unit takes it, as unit and as raw unit. */
  function ResolveUnit(raw: Option<string>, allowed: seq<string>): (p: UnitPair)
    ensures p.unit.Some? ==> p.unit.value in allowed
    ensures |allowed| == 1 ==> p.unit == Some(allowed[0])
    ensures raw.Some? && raw.value != [] && (exists j :: 0 <= j < |allowed| && NormSpaceless(allowed[j]) == NormSpaceless(raw.value)) ==>
      p.raw == raw && p.unit.Some? && NormSpaceless(p.unit.value) == NormSpaceless(raw.value)
    ensures p.unit.None? ==> p.raw == raw && |allowed| != 1
  {
    var matched := if raw.Some? && raw.value != [] then FirstNormMatch(NormSpaceless(raw.value), allowed, NormSpaceless) else None;
    if matched.None? && |allowed| == 1 then UnitPair(Some(allowed[0]), Some(allowed[0]))
    else UnitPair(raw, matched)
  }

  /** Without a matching raw unit, a KPI with one allowed unit reports it
    * as raw unit and unit; one with several reports no unit. */
  lemma UnitFallback(raw: Option<string>, allowed: seq<string>)
    requires raw.None? || raw.value == [] || forall j :: 0 <= j < |allowed| ==> NormSpaceless(allowed[j]) != NormSpaceless(raw.value)
    ensures |allowed| == 1 ==> ResolveUnit(raw, allowed) == UnitPair(Some(allowed[0]), Some(allowed[0]))
    ensures |allowed| != 1 ==> ResolveUnit(raw, allowed) == UnitPair(raw, None)
  {
  }

  // ---------------------------------------------------------------------
  // Rows

  /** The record of a matched row: the value text goes into both value
    * fields for the normalizer to parse; confidence 0.9. */
  function GridRecord(valueText: string, units: UnitPair): (e: Entry)
    ensures e.Valid()
    ensures e.keys == ["raw_value", "raw_unit", "value", "unit", "confidence"]
    ensures Get(e, "raw_value") == PStr(valueText) && Get(e, "value") == PStr(valueText)
    ensures Get(e, "raw_unit") == OptText(units.raw) && Get(e, "unit") == OptText(units.unit)
    ensures Get(e, "confidence") == Num(0.9)
  {
    Dict(["raw_value", "raw_unit", "value", "unit", "confidence"],
      map["raw_value" := PStr(valueText), "raw_unit" := OptText(units.raw), "value" := PStr(valueText),
          "unit" := OptText(units.unit), "confidence" := Num(0.9)])
  }

  /** `row[i]`, with Python's reading of -1 as the last cell. */
  function CellAt(row: Row, i: int): string
    requires -|row| <= i < |row|
  {
    CellText(if i < 0 then row[|row| + i] else row[i])
  }

  /** The row has every column the header named. */
  predicate LongEnough(row: Row, col: Columns) {
    row != [] && col.kpi < |row| && col.unit < |row| && col.value < |row|
  }

  /** Whether the normalized label contains one of the synonyms. */
  predicate LabelHas(name: string, syns: seq<string>) {
    exists k :: 0 <= k < |syns| && Contains(name, syns[k])
  }

  /** One synonym list per schema code, in schema order. */
  predicate SynsFor(schema: KpiSchema, syns: seq<seq<string>>) {
    |syns| == |schema.keys|
  }

  /** KPI i of the schema has a synonym in the label. */
  predicate Names(syns: seq<seq<string>>, name: string, i: nat)
    requires i < |syns|
  {
    LabelHas(name, syns[i])
  }

  function CodeFn(syns: seq<seq<string>>, name: string): nat -> bool {
    (i: nat) => i < |syns| && Names(syns, name, i)
  }

  /** The first KPI, in schema order, with a synonym in the label. */
  function MatchedCode(schema: KpiSchema, syns: seq<seq<string>>, name: string): Option<string>
    requires SynsFor(schema, syns)
  {
    match Search.FirstFrom(CodeFn(syns, name), 0, |syns|)
    case Some(i) => Some(schema.keys[i])
    case None => None
  }

  datatype Hit = Hit(code: string, entry: Entry)

  /** The record of a row whose label matched code. */
  function CodeHit(code: string, name: string, unitCell: string, valueText: string, schema: KpiSchema): Hit {
    Hit(code, GridRecord(valueText, ResolveUnit(RawUnit(unitCell, name), UnitsOf(schema, code))))
  }

  /** The loop body from the stripped label, unit and value cells on. */
  function CellsHit(name: string, unitCell: string, valueText: string, schema: KpiSchema, syns: seq<seq<string>>): Option<Hit>
    requires SynsFor(schema, syns)
  {
    if name == [] || valueText == [] then None
    else match MatchedCode(schema, syns, NormText(name))
      case None => None
      case Some(code) => if code == [] then None else Some(CodeHit(code, name, unitCell, valueText, schema))
  }

  /** The body of the row loop: None where it continues. */
  function RowHit(row: Row, col: Columns, schema: KpiSchema, syns: seq<seq<string>>): Option<Hit>
    requires ColumnsOk(col) && SynsFor(schema, syns)
  {
    if !LongEnough(row, col) then None
    else CellsHit(Strip(CellAt(row, col.kpi)), Strip(CellAt(row, col.unit)), Strip(CellAt(row, col.value)), schema, syns)
  }

  /** The synonym loop of the row body, with its `break`. */
  method MatchCode(schema: KpiSchema, syns: seq<seq<string>>, name: string) returns (matched: Option<string>)
    requires SynsFor(schema, syns)
    ensures matched == MatchedCode(schema, syns, name)
  {
    var p := CodeFn(syns, name);
    var i := 0;
    while i < |syns|
      invariant 0 <= i <= |syns|
      invariant Search.FirstFrom(p, 0, |syns|) == Search.FirstFrom(p, i, |syns|)
    {
      if LabelHas(name, syns[i]) {
        assert p(i);
        return Some(schema.keys[i]);
      }
      i := i + 1;
    }
    return None;
  }

  /** The raw unit steps of the row body. */
  method ReadRawUnit(unitCell: string, name: string) returns (raw: Option<string>)
    ensures raw == RawUnit(unitCell, name)
  {
    raw := if unitCell != [] then Some(unitCell) else None;
    if raw.Some? && HasDigit(raw.value) {
      raw := None;
    }
    if raw.None? {
      var m := ParenGroup(name);
      if m.Some? {
        raw := Some(Strip(m.value));
      }
    }
  }

  /** The row body from the stripped cells on. */
  method ProcessCells(name: string, unitCell: string, valueText: string, schema: KpiSchema, syns: seq<seq<string>>)
    returns (hit: Option<Hit>)
    requires SynsFor(schema, syns)
    ensures hit == CellsHit(name, unitCell, valueText, schema, syns)
  {
    if name == [] || valueText == [] {
      return None;
    }
    var matched := MatchCode(schema, syns, NormText(name));
    if matched.None? || matched.value == [] {
      return None;
    }
    var raw := ReadRawUnit(unitCell, name);
    var units := ResolveUnit(raw, UnitsOf(schema, matched.value));
    hit := Some(Hit(matched.value, GridRecord(valueText, units)));
  }

  /** One row of `_extract_table_grid`, with its `continue`s as returns of
    * None. */
  method ProcessRow(row: Row, col: Columns, schema: KpiSchema, syns: seq<seq<string>>) returns (hit: Option<Hit>)
    requires ColumnsOk(col) && SynsFor(schema, syns)
    ensures hit == RowHit(row, col, schema, syns)
  {
    if !LongEnough(row, col) {
      return None;
    }
    hit := ProcessCells(Strip(CellAt(row, col.kpi)), Strip(CellAt(row, col.unit)), Strip(CellAt(row, col.value)), schema, syns);
  }

  /** The loop body's outcome for every row after the header. */
  function RowHits(body: seq<Row>, col: Columns, schema: KpiSchema, syns: seq<seq<string>>): (hs: seq<Option<Hit>>)
    requires ColumnsOk(col) && SynsFor(schema, syns)
    ensures |hs| == |body| && forall j :: 0 <= j < |body| ==> hs[j] == RowHit(body[j], col, schema, syns)
  {
    seq(|body|, j requires 0 <= j < |body| => RowHit(body[j], col, schema, syns))
  }

  /** `results[code] = record` for the hits in order: a later hit of a KPI
    * replaces the earlier record, keeping its place. */
  function FoldHits(hs: seq<Option<Hit>>): (r: Results)
    ensures r.Valid()
  {
    if hs == [] then Empty()
    else
      var acc := FoldHits(hs[..|hs| - 1]);
      match hs[|hs| - 1]
      case None => acc
      case Some(h) => acc.Put(h.code, h.entry)
  }

  lemma FoldHitsStep(hs: seq<Option<Hit>>, i: nat)
    requires i < |hs|
    ensures FoldHits(hs[..i + 1]) == match hs[i]
      case None => FoldHits(hs[..i])
      case Some(h) => FoldHits(hs[..i]).Put(h.code, h.entry)
  {
    assert hs[..i + 1][..i] == hs[..i];
  }

  /** `_extract_table_grid(rows, syns, units)`. */
  function TableHits(rows: Table, schema: KpiSchema, syns: seq<seq<string>>): (r: Results)
    requires SynsFor(schema, syns)
    ensures r.Valid()
  {
    if |rows| < 2 then Empty() else FoldHits(RowHits(rows[1..], Cols(rows[0]), schema, syns))
  }

  /** `_extract_table_grid`. */
  method ExtractTableGrid(rows: Table, schema: KpiSchema, syns: seq<seq<string>>) returns (r: Results)
    requires SynsFor(schema, syns)
    ensures r == TableHits(rows, schema, syns)
  {
    if |rows| < 2 {
      return Empty();
    }
    var col := DetectCols(rows[0]);
    ghost var hs := RowHits(rows[1..], col, schema, syns);
    r := Empty();
    var i := 1;
    while i < |rows|
      invariant 1 <= i <= |rows|
      invariant r == FoldHits(hs[..i - 1])
    {
      var hit := ProcessRow(rows[i], col, schema, syns);
      assert hit == hs[i - 1];
      FoldHitsStep(hs, i - 1);
      if hit.Some? {
        r := r.Put(hit.value.code, hit.value.entry);
      }
      i := i + 1;
    }
    assert hs[..i - 1] == hs;
  }

  /** Hit j reports code. */
  predicate Reports(hs: seq<Option<Hit>>, j: int, code: string) {
    0 <= j < |hs| && hs[j].Some? && hs[j].value.code == code
  }

  /** The last hit that reports code. */
  function LastReport(hs: seq<Option<Hit>>, code: string): (r: Option<nat>)
    ensures r.Some? ==> Reports(hs, r.value, code) && forall j :: r.value < j < |hs| ==> !Reports(hs, j, code)
    ensures r.None? ==> forall j :: 0 <= j < |hs| ==> !Reports(hs, j, code)
  {
    if hs == [] then None
    else if Reports(hs, |hs| - 1, code) then Some(|hs| - 1)
    else
      var r := LastReport(hs[..|hs| - 1], code);
      assert forall j :: 0 <= j < |hs| - 1 ==> (Reports(hs[..|hs| - 1], j, code) <==> Reports(hs, j, code));
      r
  }

  /** A KPI is in the result exactly when some row reports it, and its
    * record is the one of the last such row. */
  lemma {:induction false} LastHitWins(hs: seq<Option<Hit>>, code: string)
    ensures code in FoldHits(hs).vals <==> LastReport(hs, code).Some?
    ensures code in FoldHits(hs).vals ==> FoldHits(hs).vals[code] == hs[LastReport(hs, code).value].value.entry
  {
    if hs != [] {
      var p := hs[..|hs| - 1];
      LastHitWins(p, code);
      if !Reports(hs, |hs| - 1, code) {
        assert forall j :: 0 <= j < |p| ==> p[j] == hs[j];
      }
    }
  }

  /** The KPI a label names: the first in schema order one of whose
    * synonyms the normalized label contains. */
  lemma MatchedCodeSpec(schema: KpiSchema, syns: seq<seq<string>>, name: string)
    requires SynsFor(schema, syns)
    ensures var m := MatchedCode(schema, syns, name);
      && (m.None? <==> forall i :: 0 <= i < |syns| ==> !Names(syns, name, i))
      && (m.Some? ==> exists i :: (0 <= i < |syns| && m.value == schema.keys[i] && Names(syns, name, i)
            && forall i' :: 0 <= i' < i ==> !Names(syns, name, i')))
  {
    var p := CodeFn(syns, name);
    var r := Search.FirstFrom(p, 0, |syns|);
    assert forall i: nat :: p(i) == (i < |syns| && Names(syns, name, i));
    if r.Some? {
      var i := r.value;
      assert Names(syns, name, i);
      assert forall i' :: 0 <= i' < i ==> !Names(syns, name, i');
    }
  }

  /** The stripped cells give a record exactly when label and value are
    * non-empty and the label names a KPI whose code is not empty. */
  lemma CellsHitIff(name: string, unitCell: string, valueText: string, schema: KpiSchema, syns: seq<seq<string>>)
    requires SynsFor(schema, syns)
    ensures var h := CellsHit(name, unitCell, valueText, schema, syns);
      var m := MatchedCode(schema, syns, NormText(name));
      && (h.Some? <==> name != [] && valueText != [] && m.Some? && m.value != [])
      && (h.Some? ==> h == Some(CodeHit(m.value, name, unitCell, valueText, schema)))
  {
  }

  /** A row's record: the stripped value text as raw value and value, a
    * unit that is None or allowed (the sole allowed unit when there is
    * one), confidence 0.9. */
  lemma CodeHitRecord(code: string, name: string, unitCell: string, valueText: string, schema: KpiSchema)
    ensures var e := CodeHit(code, name, unitCell, valueText, schema).entry;
      var allowed := UnitsOf(schema, code);
      && Get(e, "raw_value") == PStr(valueText) == Get(e, "value")
      && Get(e, "confidence") == Num(0.9)
      && (Get(e, "unit") == PNone || (Get(e, "unit").PStr? && Get(e, "unit").s in allowed))
      && (|allowed| == 1 ==> Get(e, "unit") == PStr(allowed[0]))
  {
  }

  // ---------------------------------------------------------------------
  // Aggregation over tables

  /** The hits of every table, in reading order. */
  function AllTableHits(tables: seq<Table>, schema: KpiSchema, syns: seq<seq<string>>): (ds: seq<Results>)
    requires SynsFor(schema, syns)
    ensures |ds| == |tables| && forall t :: 0 <= t < |tables| ==> ds[t] == TableHits(tables[t], schema, syns)
  {
    seq(|tables|, t requires 0 <= t < |tables| => TableHits(tables[t], schema, syns))
  }

  /** The first-hit merge of every result in order. */
  function AbsorbAll(ds: seq<Results>): (r: Results)
    requires forall t :: 0 <= t < |ds| ==> ds[t].Valid()
    ensures r.Valid()
  {
    if ds == [] then Empty() else Absorb(AbsorbAll(ds[..|ds| - 1]), ds[|ds| - 1])
  }

  lemma AbsorbAllStep(ds: seq<Results>, t: nat)
    requires forall t :: 0 <= t < |ds| ==> ds[t].Valid()
    requires t < |ds|
    ensures AbsorbAll(ds[..t + 1]) == Absorb(AbsorbAll(ds[..t]), ds[t])
  {
    assert ds[..t + 1][..t] == ds[..t];
  }

  /** `_build_synonyms(kpi_schema)`: the normalized synonym list of every
    * KPI, in schema order. */
  function BuildSynonyms(schema: KpiSchema): (syns: seq<seq<string>>)
    ensures SynsFor(schema, syns)
    ensures forall i :: 0 <= i < |syns| ==> syns[i] == GridSynonyms(schema, schema.keys[i])
  {
    seq(|schema.keys|, i requires 0 <= i < |schema.keys| => GridSynonyms(schema, schema.keys[i]))
  }

  /** `_build_synonyms`. */
  method MakeSynonyms(schema: KpiSchema) returns (syns: seq<seq<string>>)
    ensures syns == BuildSynonyms(schema)
  {
    syns := [];
    var i := 0;
    while i < |schema.keys|
      invariant 0 <= i <= |schema.keys|
      invariant syns == BuildSynonyms(schema)[..i]
    {
      ghost var all := BuildSynonyms(schema);
      TakeStep(all, i);
      var next := GridSynonyms(schema, schema.keys[i]);
      assert next == all[i];
      syns := syns + [next];
      i := i + 1;
    }
  }

  /** The first-hit loop over one table's hits: `if code not in aggregated:
    * aggregated[code] = entry`. */
  method AbsorbInto(acc: Results, hits: Results) returns (r: Results)
    requires hits.Valid()
    ensures r == Absorb(acc, hits)
  {
    r := acc;
    var k := 0;
    while k < |hits.keys|
      invariant 0 <= k <= |hits.keys|
      invariant r == AbsorbKeys(acc, hits.keys[..k], hits.vals)
    {
      AbsorbKeysStep(acc, hits.keys, hits.vals, k);
      var code := hits.keys[k];
      if code !in r.vals {
        r := r.Put(code, hits.vals[code]);
      }
      k := k + 1;
    }
    assert hits.keys[..k] == hits.keys;
  }

  /** `extract_kpis_tables_grid`: the tables the reader found, page by page,
    * or None where the reader failed, which yields an empty result. */
  function GridSpec(tables: Option<seq<Table>>, schema: KpiSchema): Results {
    if tables.None? then Empty() else AbsorbAll(AllTableHits(tables.value, schema, BuildSynonyms(schema)))
  }

  /** `extract_kpis_tables_grid`. */
  method ExtractKpisTablesGrid(tables: Option<seq<Table>>, schema: KpiSchema) returns (r: Results)
    ensures r == GridSpec(tables, schema)
  {
    var syns := MakeSynonyms(schema);
    if tables.None? {
      return Empty();
    }
    var ts := tables.value;
    ghost var ds := AllTableHits(ts, schema, syns);
    r := Empty();
    var t := 0;
    while t < |ts|
      invariant 0 <= t <= |ts|
      invariant r == AbsorbAll(ds[..t])
    {
      AbsorbAllStep(ds, t);
      if ts[t] != [] {
        var hits := ExtractTableGrid(ts[t], schema, syns);
        assert hits == ds[t];
        r := AbsorbInto(r, hits);
      } else {
        assert ds[t] == Empty();
      }
      t := t + 1;
    }
    assert ds[..t] == ds;
  }

  /** The first result that holds code. */
  function FirstResult(ds: seq<Results>, code: string): (r: Option<nat>)
    ensures r.Some? ==> r.value < |ds| && code in ds[r.value].vals
    ensures r.Some? ==> forall t :: 0 <= t < r.value ==> code !in ds[t].vals
    ensures r.None? ==> forall t :: 0 <= t < |ds| ==> code !in ds[t].vals
  {
    if ds == [] then None
    else
      var r := FirstResult(ds[..|ds| - 1], code);
      assert forall t :: 0 <= t < |ds| - 1 ==> ds[..|ds| - 1][t] == ds[t];
      if r.Some? then r else if code in ds[|ds| - 1].vals then Some(|ds| - 1) else None
  }

  /** A KPI is in the merge exactly when some result holds it, and its
    * record is the one of the first such result. */
  lemma {:induction false} FirstResultWins(ds: seq<Results>, code: string)
    requires forall t :: 0 <= t < |ds| ==> ds[t].Valid()
    ensures code in AbsorbAll(ds).vals <==> FirstResult(ds, code).Some?
    ensures code in AbsorbAll(ds).vals ==> AbsorbAll(ds).vals[code] == ds[FirstResult(ds, code).value].vals[code]
  {
    if ds != [] {
      var p := ds[..|ds| - 1];
      var last := ds[|ds| - 1];
      assert forall t :: 0 <= t < |p| ==> p[t] == ds[t];
      FirstResultWins(p, code);
      AbsorbKeysSpec(AbsorbAll(p), last.keys, last.vals);
    }
  }
}
