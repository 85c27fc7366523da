/** The number-and-unit pattern the regex and sentence extractors compile,
  *
  *   (?P<value>[0-9][0-9,\.\s]*(?:million|thousand|k)?)\s*(?P<unit>u1|u2|...)
  *
  * with `re.IGNORECASE`, searched the way Python's backtracking engine does:
  * the leftmost start position first; at a start, the longest separator run
  * first, then the scale words in order and then none, then the longest
  * blank run, then the units in order. */
module NumberUnit {
  import opened Wrappers
  import opened PyStr
  import Search

  /** `[0-9,\.\s]`. */
  predicate SepChar(c: char) {
    IsDigit(c) || c == ',' || c == '.' || IsSpace(c)
  }

  /** The alternatives of `(?:million|thousand|k)?`, in order; 3 and above
    * stand for the empty one. */
  function ScaleWord(k: nat): string {
    if k == 0 then "million" else if k == 1 then "thousand" else if k == 2 then "k" else ""
  }

  function ScaleLen(k: nat): nat {
    |ScaleWord(k)|
  }

  /** One way the pattern matches: the first digit at `start`, `run`
    * separator characters after it, the scale alternative `scale`, then
    * whitespace up to position `at`, where `unit` matches. */
  datatype Hit = Hit(start: nat, run: nat, scale: nat, at: nat, unit: string) {
    function ValueEnd(): nat {
      start + 1 + run + ScaleLen(scale)
    }
  }

  /** `\s*(?P<unit>...)` matches from q: blanks up to `at`, then the unit u. */
  predicate UnitPart(t: string, units: seq<string>, q: nat, at: nat, u: string) {
    && q <= at <= |t|
    && (forall i :: q <= i < at ==> IsSpace(t[i]))
    && u in units && MatchCIAt(t, at, u)
  }

  /** What follows the separator run matches from p: the scale alternative
    * sc, then the unit part. */
  predicate RestPart(t: string, units: seq<string>, p: nat, sc: nat, at: nat, u: string) {
    sc <= 3 && MatchCIAt(t, p, ScaleWord(sc)) && UnitPart(t, units, p + ScaleLen(sc), at, u)
  }

  /** h is a match of the pattern in t. */
  predicate Matches(t: string, units: seq<string>, h: Hit) {
    && h.start < |t| && IsDigit(t[h.start])
    && h.start + 1 + h.run <= |t|
    && (forall i :: h.start + 1 <= i < h.start + 1 + h.run ==> SepChar(t[i]))
    && RestPart(t, units, h.start + 1 + h.run, h.scale, h.at, h.unit)
  }

  /** The length of the longest run of p-characters from position i. */
  function RunFrom(t: string, i: nat, p: char -> bool): (n: nat)
    requires i <= |t|
    decreases |t| - i
    ensures i + n <= |t|
    ensures forall j :: i <= j < i + n ==> p(t[j])
    ensures i + n < |t| ==> !p(t[i + n])
  {
    if i < |t| && p(t[i]) then 1 + RunFrom(t, i + 1, p) else 0
  }

  /** The first alternative of the unit group that matches at position i. */
  function FirstUnit(t: string, i: nat, units: seq<string>): (r: Option<string>)
    ensures r.Some? ==> r.value in units && MatchCIAt(t, i, r.value)
    ensures r.None? <==> forall u :: u in units ==> !MatchCIAt(t, i, u)
  {
    if units == [] then None
    else
      var prev := FirstUnit(t, i, units[..|units| - 1]);
      if prev.Some? then prev
      else if MatchCIAt(t, i, units[|units| - 1]) then Some(units[|units| - 1])
      else None
  }

  /** `\s*` then the unit group from q: the longest blank run first, given
    * back one character at a time; the unit's position and the unit. */
  function AfterBlanks(t: string, q: nat, units: seq<string>): Option<(nat, string)> {
    if q <= |t| then Search.LastSome(UnitsAt(t, units), q, q + RunFrom(t, q, IsSpace)) else None
  }

  /** The unit group tried at each position. */
  function UnitsAt(t: string, units: seq<string>): nat -> Option<string> {
    (j: nat) => FirstUnit(t, j, units)
  }

  /** The scale alternative s matches at p (the empty one always does). */
  predicate ScaleAt(t: string, p: nat, s: nat) {
    s <= 3 && MatchCIAt(t, p, ScaleWord(s))
  }

  /** The rest of the pattern after the scale alternative s at p. */
  function AfterScale(t: string, p: nat, units: seq<string>): nat -> Option<(nat, string)> {
    s => if ScaleAt(t, p, s) then AfterBlanks(t, p + ScaleLen(s), units) else None
  }

  /** The scale alternatives in order, each followed by the rest of the
    * pattern, from p: the scale, the unit's position and the unit. */
  function AfterRun(t: string, p: nat, units: seq<string>): Option<(nat, (nat, string))> {
    Search.FirstSome(AfterScale(t, p, units), 0, 4)
  }

  /** The rest of the pattern tried after each separator run end. */
  function RestAt(t: string, units: seq<string>): nat -> Option<(nat, (nat, string))> {
    (p: nat) => AfterRun(t, p, units)
  }

  /** The end of the longest separator run from st + 1 after which the rest
    * of the pattern matches, with what the rest matched there. */
  function LongestRest(t: string, st: nat, units: seq<string>): (r: Option<(nat, (nat, (nat, string)))>)
    requires st < |t|
    ensures r.Some? ==> && st + 1 <= r.value.0 <= st + 1 + RunFrom(t, st + 1, SepChar)
                        && AfterRun(t, r.value.0, units) == Some(r.value.1)
    ensures forall p :: st + 1 <= p <= st + 1 + RunFrom(t, st + 1, SepChar) && AfterRun(t, p, units).Some? ==>
      r.Some? && p <= r.value.0
  {
    var r := Search.LastSome(RestAt(t, units), st + 1, st + 1 + RunFrom(t, st + 1, SepChar));
    assert forall p :: RestAt(t, units)(p) == AfterRun(t, p, units);
    r
  }

  /** The match at start position st, the way the engine finds it: the
    * separator run is the longest one after which the rest matches. */
  function MatchAt(t: string, st: nat, units: seq<string>): Option<Hit> {
    if st < |t| && IsDigit(t[st]) then HitOf(st, LongestRest(t, st, units)) else None
  }

  /** The hit starting at st whose separator run ends where the rest r was
    * found. */
  function HitOf(st: nat, r: Option<(nat, (nat, (nat, string)))>): (h: Option<Hit>)
    requires r.Some? ==> st + 1 <= r.value.0
    ensures h.Some? <==> r.Some?
    ensures r.Some? ==> && h.value.start == st && h.value.start + 1 + h.value.run == r.value.0
                        && h.value.scale == r.value.1.0 && h.value.at == r.value.1.1.0
                        && h.value.unit == r.value.1.1.1
  {
    if r.None? then None else Some(Hit(st, r.value.0 - st - 1, r.value.1.0, r.value.1.1.0, r.value.1.1.1))
  }

  lemma AfterBlanksSound(t: string, q: nat, units: seq<string>)
    ensures AfterBlanks(t, q, units).Some? ==>
      UnitPart(t, units, q, AfterBlanks(t, q, units).value.0, AfterBlanks(t, q, units).value.1)
  {
    if AfterBlanks(t, q, units).Some? {
      var c := AfterBlanks(t, q, units).value;
      assert c.0 <= q + RunFrom(t, q, IsSpace);
      assert UnitsAt(t, units)(c.0) == Some(c.1);
    }
  }

  lemma AfterBlanksComplete(t: string, q: nat, units: seq<string>, at: nat, u: string)
    requires UnitPart(t, units, q, at, u)
    ensures AfterBlanks(t, q, units).Some?
  {
    assert UnitsAt(t, units)(at).Some?;
  }

  lemma AfterRunSound(t: string, p: nat, units: seq<string>)
    ensures AfterRun(t, p, units).Some? ==> var x := AfterRun(t, p, units).value;
      RestPart(t, units, p, x.0, x.1.0, x.1.1)
  {
    if AfterRun(t, p, units).Some? {
      var x := AfterRun(t, p, units).value;
      assert AfterScale(t, p, units)(x.0) == Some(x.1);
      assert ScaleAt(t, p, x.0);
      AfterBlanksSound(t, p + ScaleLen(x.0), units);
    }
  }

  lemma AfterRunComplete(t: string, p: nat, units: seq<string>, sc: nat, at: nat, u: string)
    requires RestPart(t, units, p, sc, at, u)
    ensures AfterRun(t, p, units).Some?
  {
    var f := AfterScale(t, p, units);
    assert f(sc).Some? by {
      AfterBlanksComplete(t, p + ScaleLen(sc), units, at, u);
    }
    assert 0 <= sc < 4;
  }

  /** A digit at st, a run of separators up to p and a matching rest make a
    * match. */
  lemma MatchOfParts(t: string, units: seq<string>, h: Hit, p: nat)
    requires h.start < |t| && IsDigit(t[h.start]) && h.start + 1 + h.run == p <= |t|
    requires forall i :: h.start + 1 <= i < p ==> SepChar(t[i])
    requires RestPart(t, units, p, h.scale, h.at, h.unit)
    ensures Matches(t, units, h)
  {
  }

  /** What the engine finds at a start is a match starting there. */
  lemma MatchAtSound(t: string, st: nat, units: seq<string>)
    ensures MatchAt(t, st, units).Some? ==>
      MatchAt(t, st, units).value.start == st && Matches(t, units, MatchAt(t, st, units).value)
  {
    if st < |t| && IsDigit(t[st]) {
      var r := LongestRest(t, st, units);
      if r.Some? {
        var p := r.value.0;
        AfterRunSound(t, p, units);
        MatchOfParts(t, units, MatchAt(t, st, units).value, p);
      }
    }
  }

  /** The start positions where the engine finds a match. */
  function StartsAt(t: string, units: seq<string>): nat -> bool {
    (j: nat) => MatchAt(t, j, units).Some?
  }

  /** `pattern.search(t)`: the match at the leftmost start that has one. */
  function SearchIn(t: string, units: seq<string>): Option<Hit> {
    match Search.FirstFrom(StartsAt(t, units), 0, |t|)
    case None => None
    case Some(j) => MatchAt(t, j, units)
  }

  /** What `pattern.search` finds is a match. */
  lemma SearchSound(t: string, units: seq<string>)
    ensures SearchIn(t, units).Some? ==> Matches(t, units, SearchIn(t, units).value)
  {
    var j := Search.FirstFrom(StartsAt(t, units), 0, |t|);
    if j.Some? {
      MatchAtSound(t, j.value, units);
    }
  }

  /** Every way the pattern can match at a start is found there, and the
    * engine's match has the longest separator run of them. */
  lemma MatchAtComplete(t: string, units: seq<string>, h: Hit)
    requires Matches(t, units, h)
    ensures MatchAt(t, h.start, units).Some?
    ensures h.run <= MatchAt(t, h.start, units).value.run
  {
    var p := h.start + 1 + h.run;
    AfterRunComplete(t, p, units, h.scale, h.at, h.unit);
  }

  /** `pattern.search` finds a match whenever there is one; no match starts
    * before the one it finds, and of the matches at its start it has the
    * longest separator run. */
  lemma SearchLeftmost(t: string, units: seq<string>, h: Hit)
    requires Matches(t, units, h)
    ensures SearchIn(t, units).Some?
    ensures SearchIn(t, units).value.start <= h.start
    ensures SearchIn(t, units).value.start == h.start ==> h.run <= SearchIn(t, units).value.run
  {
    MatchAtComplete(t, units, h);
    assert StartsAt(t, units)(h.start);
    var j := Search.FirstFrom(StartsAt(t, units), 0, |t|);
    MatchAtSound(t, j.value, units);
  }

  /** A pattern without units never matches. */
  lemma NoUnitsNoMatch(t: string)
    ensures SearchIn(t, []) == None
  {
    SearchSound(t, []);
  }

  /** The `value` group: from the first digit to the end of the scale word. */
  function ValueGroup(t: string, h: Hit): string
    requires h.start <= h.ValueEnd() <= |t|
  {
    t[h.start..h.ValueEnd()]
  }

  /** The `unit` group. */
  function UnitGroup(t: string, h: Hit): string
    requires h.at + |h.unit| <= |t|
  {
    t[h.at..h.at + |h.unit|]
  }

  /** The stripped value group starts with the match's first digit, and the
    * unit group spells its unit up to case. */
  lemma GroupsOfMatch(t: string, units: seq<string>, h: Hit)
    requires Matches(t, units, h)
    ensures Strip(ValueGroup(t, h)) != [] && Strip(ValueGroup(t, h))[0] == t[h.start]
    ensures Lower(UnitGroup(t, h)) == Lower(h.unit)
  {
    var v := ValueGroup(t, h);
    assert v[0] == t[h.start];
    StripKeepsHead(v);
    MatchCIAtLower(t, h.at, h.unit);
  }

  /** What `pattern.search` finds lies inside the text. */
  lemma SearchInBounds(t: string, units: seq<string>)
    requires SearchIn(t, units).Some?
    ensures var h := SearchIn(t, units).value;
      h.start <= h.ValueEnd() <= |t| && h.at + |h.unit| <= |t|
  {
    SearchSound(t, units);
  }

  /** What `pattern.search` finds: a match, none starts before it, its
    * stripped value starts with a digit and its unit group spells its unit
    * up to case. */
  lemma SearchFound(t: string, units: seq<string>)
    requires SearchIn(t, units).Some?
    ensures var h := SearchIn(t, units).value;
      && Matches(t, units, h)
      && (forall h' :: Matches(t, units, h') ==> h.start <= h'.start)
      && Strip(ValueGroup(t, h)) != [] && IsDigit(Strip(ValueGroup(t, h))[0])
      && Lower(UnitGroup(t, h)) == Lower(h.unit)
  {
    SearchSound(t, units);
    var h := SearchIn(t, units).value;
    GroupsOfMatch(t, units, h);
    forall h' | Matches(t, units, h') ensures h.start <= h'.start {
      SearchLeftmost(t, units, h');
    }
  }

  // ---------------------------------------------------------------------
  // The unit list as the pattern builders see it

  /** `[u for u in parts if u]`. */
  function NonEmptyParts(parts: seq<string>): (r: seq<string>)
    ensures forall u :: u in r <==> u in parts && u != []
  {
    if parts == [] then []
    else NonEmptyParts(parts[..|parts| - 1]) + (if parts[|parts| - 1] != [] then [parts[|parts| - 1]] else [])
  }

  /** `list(dict.fromkeys(parts))`: first occurrences, in order. */
  function Dedup(parts: seq<string>): (r: seq<string>)
    ensures forall u :: u in r <==> u in parts
    ensures forall i, j :: 0 <= i < j < |r| ==> r[i] != r[j]
  {
    if parts == [] then []
    else
      var d := Dedup(parts[..|parts| - 1]);
      var u := parts[|parts| - 1];
      if u in d then d else d + [u]
  }

  /** Dropping repeated units changes no match: the first matching unit is
    * the same. */
  lemma {:induction false} DedupSameUnit(t: string, i: nat, parts: seq<string>)
    ensures FirstUnit(t, i, Dedup(parts)) == FirstUnit(t, i, parts)
  {
    if parts != [] {
      var n := |parts| - 1;
      DedupSameUnit(t, i, parts[..n]);
      var d := Dedup(parts[..n]);
      if parts[n] !in d {
        assert (d + [parts[n]])[..|d|] == d;
      }
    }
  }

  /** The `||`-joined key split back: without `|` in any unit it is the unit
    * list again. */
  function UnitsKeyParts(units: seq<string>): seq<string> {
    SplitOn(Join("||", units), "||")
  }

  lemma {:induction false} UnitsKeyRoundTrip(units: seq<string>)
    requires units != []
    requires forall u :: u in units ==> '|' !in u
    ensures UnitsKeyParts(units) == units
  {
    var s := Join("||", units);
    if |units| == 1 {
      assert s == units[0];
      NoSeparator(s);
    } else {
      var rest := Join("||", units[1..]);
      assert s == units[0] + "||" + rest;
      FirstSeparator(units[0], rest);
      assert s[..|units[0]|] == units[0];
      assert s[|units[0]| + 2..] == rest;
      UnitsKeyRoundTrip(units[1..]);
      assert units == [units[0]] + units[1..];
    }
  }

  lemma NoSeparator(u: string)
    requires '|' !in u
    ensures Find(u, "||") == -1
  {
    forall j | 0 <= j && j + 2 <= |u| ensures !OccursAt(u, "||", j) {
      assert u[j..j + 2][0] == u[j];
    }
  }

  lemma FirstSeparator(u: string, rest: string)
    requires '|' !in u
    ensures Find(u + "||" + rest, "||") == |u|
  {
    var s := u + "||" + rest;
    assert OccursAt(s, "||", |u|);
    forall j | 0 <= j < |u| ensures !OccursAt(s, "||", j) {
      assert s[j] == u[j];
    }
  }
}
