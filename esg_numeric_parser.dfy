/** src/esg/utils/numeric_parser.py: the locale-aware number parser and the
  * magnitude-word parser built on it. */
module EsgNumericParser {
  import opened Wrappers
  import opened PyStr
  import opened PyFloat

  /** `SPACE_CHARS`: ASCII space, no-break space, figure space, narrow no-break space. */
  const SpaceChars: seq<char> := [' ', '\U{a0}', '\U{2007}', '\U{202f}']

  /** s with every character of SpaceChars replaced by an ASCII space. */
  function SpacesNormalized(s: string): (r: string)
    ensures |r| == |s|
    ensures forall i :: 0 <= i < |s| ==> r[i] == (if s[i] in SpaceChars then ' ' else s[i])
  {
    seq(|s|, i requires 0 <= i < |s| => if s[i] in SpaceChars then ' ' else s[i])
  }

  /** `_normalize_spaces`: one `replace` pass per space variant. */
  method NormalizeSpaces(s: string) returns (r: string)
    ensures r == SpacesNormalized(s)
  {
    r := s;
    var i := 0;
    while i < |SpaceChars|
      invariant 0 <= i <= |SpaceChars|
      invariant |r| == |s|
      invariant forall j :: 0 <= j < |s| ==> r[j] == (if s[j] in SpaceChars[..i] then ' ' else s[j])
    {
      r := MapChar(r, SpaceChars[i], ' ');
      i := i + 1;
    }
  }

  /** After normalization only the ASCII space is left of the four variants,
    * and normalizing again changes nothing. */
  lemma SpacesNormalizedSpec(s: string)
    ensures forall i :: 0 <= i < |s| ==> SpacesNormalized(s)[i] !in SpaceChars[1..]
    ensures SpacesNormalized(SpacesNormalized(s)) == SpacesNormalized(s)
  {
  }

  /** A regex anchored by `$`, which also matches before one final newline. */
  predicate EndAnchored(t: string, p: string -> bool) {
    p(t) || (t != [] && t[|t| - 1] == '\n' && p(t[..|t| - 1]))
  }

  /** `\d{1,3}([<seps>]\d{3})*`, read from the right. */
  predicate ThousandsForm(t: string, seps: set<char>)
    decreases |t|
  {
    (1 <= |t| <= 3 && AllDigits(t))
    || (|t| >= 5 && t[|t| - 4] in seps && AllDigits(t[|t| - 3..]) && ThousandsForm(t[..|t| - 4], seps))
  }

  /** `\d{1,3}([<seps>]\d{3})+`: at least one group. */
  predicate Grouped(t: string, seps: set<char>) {
    |t| >= 4 && ThousandsForm(t, seps)
  }

  /** `\d+`. */
  predicate IntegerForm(t: string) {
    t != [] && AllDigits(t)
  }

  /** The length of the longest all-digit prefix of t. */
  function DigitRun(t: string): (k: nat)
    ensures k <= |t| && AllDigits(t[..k])
    ensures k < |t| ==> !IsDigit(t[k])
  {
    if t == [] || !IsDigit(t[0]) then 0 else 1 + DigitRun(t[1..])
  }

  /** `\d+[.,]\d+`. */
  predicate DecimalForm(t: string) {
    var k := DigitRun(t);
    1 <= k < |t| - 1 && t[k] in {'.', ','} && AllDigits(t[k + 1..])
  }

  /** The five cases of `parse_locale_number` (numeric_parser.py:49-84), on a
    * stripped, space-normalized string.  The same chain is used by the
    * esg_v2 table and sentence normalizers. */
  function LocaleCases(s: string): Option<real> {
    var noSpace := RemoveAll(s, {' '});
    if EndAnchored(noSpace, t => Grouped(t, {'.', ','})) then Float(RemoveAll(noSpace, {'.', ','}))
    else if EndAnchored(s, t => Grouped(t, {' '})) then Float(RemoveAll(s, {' '}))
    else if EndAnchored(noSpace, IntegerForm) then Float(noSpace)
    else if EndAnchored(noSpace, DecimalForm) then Float(MapChar(noSpace, ',', '.'))
    else Float(RemoveAll(s, {' ', ',', '.'}))
  }

  /** `parse_locale_number`. */
  function ParseLocaleNumber(num: Option<string>): (r: Option<real>)
    ensures num.None? || Strip(num.value) == [] ==> r.None?
  {
    if num.None? || num.value == [] then None
    else
      var s := SpacesNormalized(Strip(num.value));
      if s == [] then None else LocaleCases(RStripChar(s, '.'))
  }

  /** The magnitude `parse_scaled_number` applies, chosen in this order. */
  function ScaleOf(s: string): real {
    if Contains(s, "million") then 1000000.0
    else if Contains(s, "billion") then 1000000000.0
    else if Contains(s, "thousand") then 1000.0
    else if EndsWith(s, "k") then 1000.0
    else 1.0
  }

  /** `re.sub(r"(million|billion|thousand|k)", "", s)`. */
  function RemoveScaleWords(s: string): string
    decreases |s|
  {
    if s == [] then []
    else if s[0] == 'm' && StartsWith(s, "million") then RemoveScaleWords(s[7..])
    else if s[0] == 'b' && StartsWith(s, "billion") then RemoveScaleWords(s[7..])
    else if s[0] == 't' && StartsWith(s, "thousand") then RemoveScaleWords(s[8..])
    else if s[0] == 'k' then RemoveScaleWords(s[1..])
    else [s[0]] + RemoveScaleWords(s[1..])
  }

  /** The text `parse_scaled_number` inspects: stripped, lower-cased, space-normalized. */
  function ScaledText(raw: string): string {
    SpacesNormalized(Strip(Lower(raw)))
  }

  /** A parse multiplied by a magnitude. */
  function Scaled(v: Option<real>, m: real): Option<real> {
    match v
    case None => None
    case Some(x) => Some(PyFloat.Mul(x, m))
  }

  /** `parse_scaled_number`. */
  function ParseScaledNumber(raw: Option<string>): Option<real> {
    if raw.None? || raw.value == [] then None
    else
      var s := ScaledText(raw.value);
      if s == [] then None
      else Scaled(ParseLocaleNumber(Some(RemoveScaleWords(s))), ScaleOf(s))
  }

  /** The locale parser on a string that stripping, normalizing and
    * point-trimming leave alone is the case chain. */
  lemma ParseLocaleUnfold(x: string)
    requires x != [] && Strip(x) == x && SpacesNormalized(x) == x && RStripChar(x, '.') == x
    ensures ParseLocaleNumber(Some(x)) == LocaleCases(x)
  {
  }

  /** Every scaled parse is the locale parse of the text with magnitude words
    * removed, times the magnitude. */
  lemma ScaledStructure(raw: string)
    ensures ParseScaledNumber(Some(raw)) ==
      Scaled(ParseLocaleNumber(Some(RemoveScaleWords(ScaledText(raw)))), ScaleOf(ScaledText(raw)))
  {
    if raw == [] {
      assert ScaledText(raw) == [];
    }
  }

  // ---- Properties of the locale parser ----

  function NormChar(c: char): char {
    if c in SpaceChars then ' ' else c
  }

  lemma NormalizedIsMapped(s: string)
    ensures SpacesNormalized(s) == Mapped(s, NormChar)
    ensures SpacePreserving(NormChar)
  {
  }

  /** No-break, figure and narrow no-break spaces parse exactly like ASCII spaces. */
  lemma NbspParsesLikeSpace(s: string)
    ensures ParseLocaleNumber(Some(SpacesNormalized(s))) == ParseLocaleNumber(Some(s))
  {
    NormalizedIsMapped(s);
    NormalizedIsMapped(Strip(s));
    NormalizedIsMapped(Strip(SpacesNormalized(s)));
    StripMapped(s, NormChar);
    SpacesNormalizedSpec(Strip(s));
  }

  function Pad3(r: nat): (s: string)
    requires r < 1000
    ensures |s| == 3 && AllDigits(s) && DigitsValue(s) == r
  {
    var s := [DigitChar(r / 100), DigitChar(r / 10 % 10), DigitChar(r % 10)];
    assert s[..2][..1] == [s[0]] && s[..2] == [s[0], s[1]];
    assert DigitsValue([s[0]]) == r / 100 by {
      assert [s[0]][..0] == [];
    }
    s
  }

  /** n in base ten with sep between groups of three digits: "1,200,000". */
  function GroupedDigits(n: nat, sep: char): (s: string)
    ensures s != [] && IsDigit(s[0]) && IsDigit(s[|s| - 1])
    ensures forall i :: 0 <= i < |s| ==> IsDigit(s[i]) || s[i] == sep
  {
    if n < 1000 then NatToDigits(n) else GroupedDigits(n / 1000, sep) + [sep] + Pad3(n % 1000)
  }

  lemma NatToDigitsShort(n: nat)
    requires n < 1000
    ensures |NatToDigits(n)| <= 3
  {
    if n >= 10 {
      NatToDigitsShort(n / 10);
      if n / 10 >= 10 {
        assert n / 100 < 10;
        assert n / 10 / 10 == n / 100;
      }
    }
  }

  lemma {:induction false} GroupedDigitsForm(n: nat, sep: char, seps: set<char>)
    requires sep in seps
    ensures ThousandsForm(GroupedDigits(n, sep), seps)
    ensures |GroupedDigits(n, sep)| >= 4 <==> n >= 1000
    decreases n
  {
    if n < 1000 {
      NatToDigitsShort(n);
    } else {
      var h := GroupedDigits(n / 1000, sep);
      var t := h + [sep] + Pad3(n % 1000);
      GroupedDigitsForm(n / 1000, sep, seps);
      assert t[..|t| - 4] == h;
      assert t[|t| - 4] == sep;
      assert t[|t| - 3..] == Pad3(n % 1000);
    }
  }

  lemma {:induction false} GroupedDigitsValue(n: nat, sep: char, cs: set<char>)
    requires sep in cs
    requires forall c :: c in cs ==> !IsDigit(c)
    ensures IntegerForm(RemoveAll(GroupedDigits(n, sep), cs))
    ensures DigitsValue(RemoveAll(GroupedDigits(n, sep), cs)) == n
    decreases n
  {
    if n < 1000 {
      RemoveAllNone(NatToDigits(n), cs);
    } else {
      var h := GroupedDigits(n / 1000, sep);
      var p := Pad3(n % 1000);
      GroupedDigitsValue(n / 1000, sep, cs);
      RemoveGroupSeparator(h, sep, p, cs);
      GroupValue(RemoveAll(h, cs), n);
    }
  }

  /** Removing the separators of `h<sep>ddd` leaves the cleaned head and the group. */
  lemma RemoveGroupSeparator(h: string, sep: char, p: string, cs: set<char>)
    requires sep in cs && AllDigits(p)
    requires forall c :: c in cs ==> !IsDigit(c)
    ensures RemoveAll(h + [sep] + p, cs) == RemoveAll(h, cs) + p
  {
    RemoveAllAppend(h + [sep], p, cs);
    RemoveAllAppend(h, [sep], cs);
    RemoveAllNone(p, cs);
    assert RemoveAll([sep], cs) == [];
  }

  /** The digits of n / 1000 followed by the padded group n % 1000 read as n. */
  lemma GroupValue(hr: string, n: nat)
    requires n >= 1000 && IntegerForm(hr) && DigitsValue(hr) == n / 1000
    ensures IntegerForm(hr + Pad3(n % 1000))
    ensures DigitsValue(hr + Pad3(n % 1000)) == n
  {
    DigitsValueAppend(hr, Pad3(n % 1000));
  }

  /** Without any separator character a thousands form has a single group. */
  lemma ThousandsNeedSeparator(t: string, seps: set<char>)
    requires forall i :: 0 <= i < |t| ==> t[i] !in seps
    ensures ThousandsForm(t, seps) ==> |t| <= 3
  {
  }

  /** A digit string takes case 3 and reads as the number it denotes. */
  lemma LocaleCasesDigits(d: string)
    requires IntegerForm(d)
    ensures LocaleCases(d) == Some(DigitsValue(d) as real)
  {
    RemoveAllNone(d, {' '});
    ThousandsNeedSeparator(d, {'.', ','});
    ThousandsNeedSeparator(d, {' '});
    FloatOfDigits(d);
  }

  lemma LocaleCasesGrouped(n: nat, sep: char)
    requires sep in {',', '.', ' '}
    ensures LocaleCases(GroupedDigits(n, sep)) == Some(n as real)
  {
    var s := GroupedDigits(n, sep);
    if n < 1000 {
      LocaleCasesDigits(s);
    } else if sep == ' ' {
      var d := RemoveAll(s, {' '});
      GroupedDigitsValue(n, ' ', {' '});
      ThousandsNeedSeparator(d, {'.', ','});
      GroupedDigitsForm(n, ' ', {' '});
      FloatOfDigits(d);
    } else {
      RemoveAllNone(s, {' '});
      GroupedDigitsForm(n, sep, {'.', ','});
      GroupedDigitsValue(n, sep, {'.', ','});
      FloatOfDigits(RemoveAll(s, {'.', ','}));
    }
  }

  /** "1,200,000", "1.200.000", "1 200 000" and "123,400" read as whole numbers. */
  lemma GroupedThousandsParse(n: nat, sep: char)
    requires sep in {',', '.', ' '}
    ensures ParseLocaleNumber(Some(GroupedDigits(n, sep))) == Some(n as real)
  {
    GroupedText(GroupedDigits(n, sep));
    LocaleCasesGrouped(n, sep);
  }

  /** Digits and separators, with a digit at both ends, go straight to the
    * five cases. */
  lemma GroupedText(s: string)
    requires s != [] && IsDigit(s[0]) && IsDigit(s[|s| - 1])
    requires forall i :: 0 <= i < |s| ==> IsDigit(s[i]) || s[i] in {',', '.', ' '}
    ensures ParseLocaleNumber(Some(s)) == LocaleCases(s)
  {
    assert SpacesNormalized(s) == s by { NoSpaceVariants(s); }
    assert RStripChar(s, '.') == s;
    StripDigits(s);
    ParseTrimmed(s);
  }

  /** Text with no space variants is its own normalization. */
  lemma NoSpaceVariants(t: string)
    requires forall i :: 0 <= i < |t| ==> t[i] == ' ' || t[i] !in SpaceChars
    ensures SpacesNormalized(t) == t
  {
  }

  /** On stripped, normalized text the parser drops trailing points and
    * runs its five cases. */
  lemma ParseTrimmed(t: string)
    requires t != [] && Strip(t) == t && SpacesNormalized(t) == t
    ensures ParseLocaleNumber(Some(t)) == LocaleCases(RStripChar(t, '.'))
  {
  }

  /** A trailing point after digits and separators is dropped before the
    * five cases run. */
  lemma TrailingPointText(s: string)
    requires s != [] && IsDigit(s[0]) && IsDigit(s[|s| - 1])
    requires forall i :: 0 <= i < |s| ==> IsDigit(s[i]) || s[i] in {',', '.', ' '}
    ensures ParseLocaleNumber(Some(s + ".")) == LocaleCases(s)
  {
    var t := s + ".";
    assert SpacesNormalized(t) == t by {
      forall i | 0 <= i < |t| ensures t[i] == ' ' || t[i] !in SpaceChars {
        if i < |s| { assert t[i] == s[i]; }
      }
      NoSpaceVariants(t);
    }
    assert RStripChar(t, '.') == s by {
      assert t[..|t| - 1] == s;
      assert RStripChar(s, '.') == s;
    }
    assert t[0] == s[0];
    StripDigits(t);
    ParseTrimmed(t);
  }

  /** Trailing points are removed first: "1200000." reads as 1200000. */
  lemma TrailingPointParse(n: nat, sep: char)
    requires sep in {',', '.', ' '}
    ensures ParseLocaleNumber(Some(GroupedDigits(n, sep) + ".")) == Some(n as real)
  {
    TrailingPointText(GroupedDigits(n, sep));
    LocaleCasesGrouped(n, sep);
  }

  lemma {:induction false} DigitRunPrefix(a: string, rest: string)
    requires AllDigits(a)
    requires rest == [] || !IsDigit(rest[0])
    ensures DigitRun(a + rest) == |a|
    decreases |a|
  {
    if a == [] {
      assert a + rest == rest;
    } else {
      assert (a + rest)[1..] == a[1..] + rest;
      DigitRunPrefix(a[1..], rest);
    }
  }

  lemma NotGroupedDecimal(a: string, b: string, sep: char)
    requires IntegerForm(a) && IntegerForm(b) && sep in {',', '.'}
    requires |b| != 3 || |a| > 3
    ensures !Grouped(a + [sep] + b, {'.', ','})
  {
    var s := a + [sep] + b;
    if |b| >= 4 {
      assert s[|s| - 4] == b[|b| - 4];
    } else if |b| == 3 {
      assert s[..|s| - 4] == a;
      ThousandsNeedSeparator(a, {'.', ','});
    } else {
      var t := s[|s| - 3..];
      assert |s| - 3 <= |a|;
      assert t[|a| - (|s| - 3)] == s[|a|] == sep;
    }
  }

  lemma DecimalBranch(s: string)
    requires RemoveAll(s, {' '}) == s
    requires !EndAnchored(s, t => Grouped(t, {'.', ','}))
    requires !EndAnchored(s, t => Grouped(t, {' '}))
    requires !EndAnchored(s, IntegerForm)
    requires DecimalForm(s)
    ensures LocaleCases(s) == Float(MapChar(s, ',', '.'))
  {
  }

  /** A string that does not end in a newline is end-anchored only as itself. */
  lemma EndAnchoredNoNewline(t: string, p: string -> bool)
    requires t != [] && t[|t| - 1] != '\n'
    ensures EndAnchored(t, p) == p(t)
  {
  }

  /** `a<sep>b` holds no space, so it is not a space-grouped number. */
  lemma DecimalNoSpace(a: string, b: string, sep: char)
    requires IntegerForm(a) && IntegerForm(b) && sep in {',', '.'}
    ensures RemoveAll(a + [sep] + b, {' '}) == a + [sep] + b
    ensures !Grouped(a + [sep] + b, {' '})
  {
    var s := a + [sep] + b;
    forall i | 0 <= i < |s| ensures s[i] != ' ' {
      if i < |a| { assert s[i] == a[i]; } else if i > |a| { assert s[i] == b[i - |a| - 1]; }
    }
    RemoveAllNone(s, {' '});
    ThousandsNeedSeparator(s, {' '});
  }

  /** `a<sep>b` is a decimal and not an integer. */
  lemma DecimalNotInteger(a: string, b: string, sep: char)
    requires IntegerForm(a) && IntegerForm(b) && sep in {',', '.'}
    ensures !IntegerForm(a + [sep] + b) && DecimalForm(a + [sep] + b)
  {
    var s := a + [sep] + b;
    assert s[|a|] == sep;
    DigitRunPrefix(a, [sep] + b);
    assert s == a + ([sep] + b);
    assert s[|a| + 1..] == b;
  }

  lemma DecimalGuards(a: string, b: string, sep: char)
    requires IntegerForm(a) && IntegerForm(b) && sep in {',', '.'}
    requires |b| != 3 || |a| > 3
    ensures var s := a + [sep] + b;
      && RemoveAll(s, {' '}) == s
      && !EndAnchored(s, t => Grouped(t, {'.', ','}))
      && !EndAnchored(s, t => Grouped(t, {' '}))
      && !EndAnchored(s, IntegerForm)
      && DecimalForm(s)
  {
    var s := a + [sep] + b;
    assert s[|s| - 1] == b[|b| - 1];
    DecimalNoSpace(a, b, sep);
    NotGroupedDecimal(a, b, sep);
    DecimalNotInteger(a, b, sep);
    EndAnchoredNoNewline(s, t => Grouped(t, {'.', ','}));
    EndAnchoredNoNewline(s, t => Grouped(t, {' '}));
    EndAnchoredNoNewline(s, IntegerForm);
  }

  lemma MapCharDecimal(a: string, b: string, sep: char)
    requires AllDigits(a) && AllDigits(b) && sep in {',', '.'}
    ensures MapChar(a + [sep] + b, ',', '.') == a + "." + b
  {
    var s := a + [sep] + b;
    var r := MapChar(s, ',', '.');
    var e := a + "." + b;
    forall i | 0 <= i < |s| ensures r[i] == e[i] {
      if i < |a| {
        assert s[i] == a[i] && e[i] == a[i];
      } else if i == |a| {
        assert s[i] == sep && e[i] == '.';
      } else {
        assert s[i] == b[i - |a| - 1] && e[i] == b[i - |a| - 1];
      }
    }
  }

  lemma DecimalCases(a: string, b: string, sep: char)
    requires IntegerForm(a) && IntegerForm(b) && sep in {',', '.'}
    requires |b| != 3 || |a| > 3
    ensures LocaleCases(a + [sep] + b) == Some(DecimalValue(a, b))
  {
    var s := a + [sep] + b;
    DecimalGuards(a, b, sep);
    DecimalBranch(s);
    MapCharDecimal(a, b, sep);
    FloatOfDecimal(a, b);
  }

  /** A single separator whose tail is not a three-digit group after a head of
    * at most three digits is a decimal point: "123,45" reads as 123.45. */
  lemma DecimalSeparatorParse(a: string, b: string, sep: char)
    requires IntegerForm(a) && IntegerForm(b) && sep in {',', '.'}
    requires |b| != 3 || |a| > 3
    ensures ParseLocaleNumber(Some(a + [sep] + b)) == Some(DecimalValue(a, b))
  {
    var s := a + [sep] + b;
    assert s[0] == a[0] && s[|s| - 1] == b[|b| - 1];
    StripDigits(s);
    assert SpacesNormalized(s) == s by {
      forall i | 0 <= i < |s| ensures s[i] !in SpaceChars {
        if i < |a| { assert s[i] == a[i]; } else if i > |a| { assert s[i] == b[i - |a| - 1]; }
      }
    }
    assert RStripChar(s, '.') == s;
    ParseLocaleUnfold(s);
    DecimalCases(a, b, sep);
  }

  // ---- Properties of the scaled parser ----

  /** Text made only of digits, whitespace, commas and points. */
  predicate PlainNumberText(c: string) {
    forall i :: 0 <= i < |c| ==> IsDigit(c[i]) || IsSpace(c[i]) || c[i] == ',' || c[i] == '.'
  }

  lemma {:induction false} RemoveScaleWordsPlain(c: string, y: string)
    requires PlainNumberText(c)
    ensures RemoveScaleWords(c + y) == c + RemoveScaleWords(y)
    decreases |c|
  {
    if c == [] {
      assert c + y == y;
    } else {
      assert (c + y)[1..] == c[1..] + y;
      assert (c + y)[0] == c[0];
      RemoveScaleWordsPlain(c[1..], y);
    }
  }

  /** Blank text is not a number, with or without a magnitude. */
  lemma ScaledBlankIsNone(raw: string)
    requires Strip(raw) == []
    ensures ParseScaledNumber(Some(raw)) == None
  {
    LowerIsMapped(raw);
    LowerCharSpace();
    StripMapped(raw, LowerChar);
  }

  lemma PlainScaleFacts(s: string)
    requires PlainNumberText(s)
    ensures RemoveScaleWords(s) == s && ScaleOf(s) == 1.0
  {
    RemoveScaleWordsPlain(s, []);
    assert s + [] == s;
    NotContainsWithoutFirst(s, "million");
    NotContainsWithoutFirst(s, "billion");
    NotContainsWithoutFirst(s, "thousand");
    if s != [] {
      assert s[|s| - 1] != 'k';
    }
  }

  lemma ParseLocaleStrip(c: string)
    ensures ParseLocaleNumber(Some(Strip(c))) == ParseLocaleNumber(Some(c))
  {
    StripIdempotent(c);
  }

  lemma PlainNormalized(c: string)
    requires PlainNumberText(c)
    ensures PlainNumberText(SpacesNormalized(Strip(c)))
  {
    var off := StripOffset(c);
  }

  lemma PlainScaledNonBlank(c: string)
    requires PlainNumberText(c) && Lower(c) == c
    requires SpacesNormalized(Strip(c)) != []
    ensures ParseScaledNumber(Some(c)) == ParseLocaleNumber(Some(SpacesNormalized(Strip(c))))
  {
    var s := SpacesNormalized(Strip(c));
    assert ScaledText(c) == s;
    PlainNormalized(c);
    PlainScaleFacts(s);
    ScaledStructure(c);
  }

  lemma PlainIsLower(c: string)
    requires PlainNumberText(c)
    ensures Lower(c) == c
  {
    LowerNoUpper(c);
  }

  lemma BlankScaledText(c: string)
    requires Lower(c) == c && SpacesNormalized(Strip(c)) == []
    ensures ParseScaledNumber(Some(c)) == None
    ensures ParseLocaleNumber(Some(SpacesNormalized(Strip(c)))) == None
  {
    assert ScaledText(c) == [];
  }

  /** Without magnitude letters the scaled parser is the locale parser. */
  lemma PlainScaledIsLocale(c: string)
    requires PlainNumberText(c)
    ensures ParseScaledNumber(Some(c)) == ParseLocaleNumber(Some(c))
  {
    PlainIsLower(c);
    ParseLocaleStrip(c);
    NbspParsesLikeSpace(Strip(c));
    if SpacesNormalized(Strip(c)) != [] {
      PlainScaledNonBlank(c);
    } else {
      BlankScaledText(c);
    }
  }

  /** The multiplier a magnitude word stands for. */
  function WordScale(w: string): real {
    if w == "million" then 1000000.0 else if w == "billion" then 1000000000.0 else 1000.0
  }

  lemma ParseWithTrailingSpace(c: string)
    requires c != [] && IsDigit(c[0])
    ensures ParseLocaleNumber(Some(SpacesNormalized(c) + " ")) == ParseLocaleNumber(Some(c))
  {
    var nc := SpacesNormalized(c);
    var u := nc + " ";
    StripTrailingSpace(nc);
    ParseSameStrip(u, nc);
    NbspParsesLikeSpace(c);
  }

  /** The parse depends only on the stripped text. */
  lemma ParseSameStrip(a: string, b: string)
    requires a != [] && b != [] && Strip(a) == Strip(b)
    ensures ParseLocaleNumber(Some(a)) == ParseLocaleNumber(Some(b))
  {
  }

  lemma ScaleOfWord(nc: string, w: string)
    requires PlainNumberText(nc)
    requires w in ["million", "billion", "thousand"]
    ensures ScaleOf(nc + " " + w) == WordScale(w)
  {
    var s := nc + " " + w;
    forall i | 0 <= i < |s|
      ensures s[i] != 'm' || w == "million"
      ensures s[i] != 'b' || w == "billion"
    {
      if i < |nc| { assert s[i] == nc[i]; } else if i > |nc| { assert s[i] == w[i - |nc| - 1]; }
    }
    assert OccursAt(s, w, |nc| + 1);
    ContainsAt(s, w, |nc| + 1);
    if w != "million" {
      NotContainsWithoutFirst(s, "million");
    }
    if w == "thousand" {
      NotContainsWithoutFirst(s, "billion");
    }
  }

  lemma WordText(c: string, w: string)
    requires c != [] && IsDigit(c[0]) && PlainNumberText(c)
    requires w in ["million", "billion", "thousand"]
    ensures ScaledText(c + " " + w) == SpacesNormalized(c) + " " + w
  {
    var raw := c + " " + w;
    WordTextTrimmed(c, w);
    WordTextNormalized(c, w);
    assert ScaledText(raw) == SpacesNormalized(raw);
  }

  /** A plain number followed by a magnitude word is lower-case and stripped. */
  lemma WordTextTrimmed(c: string, w: string)
    requires c != [] && IsDigit(c[0]) && PlainNumberText(c)
    requires w in ["million", "billion", "thousand"]
    ensures Strip(Lower(c + " " + w)) == c + " " + w
  {
    var raw := c + " " + w;
    LowerNoUpper(raw);
    assert raw[0] == c[0] && raw[|raw| - 1] == w[|w| - 1];
    StripDigits(raw);
  }

  lemma WordTextNormalized(c: string, w: string)
    requires w in ["million", "billion", "thousand"]
    ensures SpacesNormalized(c + " " + w) == SpacesNormalized(c) + " " + w
  {
  }

  lemma WordTextRemoved(nc: string, w: string)
    requires PlainNumberText(nc)
    requires w in ["million", "billion", "thousand"]
    ensures RemoveScaleWords(nc + " " + w) == nc + " "
  {
    assert PlainNumberText(nc + " ");
    RemoveScaleWordsPlain(nc + " ", w);
    assert RemoveScaleWords(w) == [];
    assert nc + " " + w == (nc + " ") + w;
    assert nc + " " + [] == nc + " ";
  }

  /** A magnitude word after a plain number multiplies that number's parse. */
  lemma ScaleWordParse(c: string, w: string)
    requires c != [] && IsDigit(c[0]) && PlainNumberText(c)
    requires w in ["million", "billion", "thousand"]
    ensures ParseScaledNumber(Some(c + " " + w)) == Scaled(ParseLocaleNumber(Some(c)), WordScale(w))
  {
    var nc := SpacesNormalized(c);
    WordText(c, w);
    assert PlainNumberText(nc);
    WordTextRemoved(nc, w);
    ScaleOfWord(nc, w);
    ScaledStructure(c + " " + w);
    ParseWithTrailingSpace(c);
  }

  /** A trailing "k" multiplies the parse of the number before it by a thousand. */
  lemma ScaleKParse(c: string)
    requires c != [] && IsDigit(c[0]) && PlainNumberText(c)
    ensures ParseScaledNumber(Some(c + "k")) == Scaled(ParseLocaleNumber(Some(c)), 1000.0)
  {
    var raw := c + "k";
    LowerNoUpper(raw);
    assert raw[0] == c[0] && raw[|raw| - 1] == 'k';
    StripDigits(raw);
    var nc := SpacesNormalized(c);
    var s := SpacesNormalized(raw);
    assert s == nc + "k";
    RemoveScaleWordsPlain(nc, "k");
    assert RemoveScaleWords("k") == [];
    assert RemoveScaleWords(s) == nc;
    NotContainsWithoutFirst(s, "million");
    NotContainsWithoutFirst(s, "billion");
    NotContainsWithoutFirst(s, "thousand");
    assert ScaleOf(s) == 1000.0;
    assert ScaledText(raw) == s;
    ScaledStructure(raw);
    NbspParsesLikeSpace(c);
  }
}
