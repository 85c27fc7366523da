/** Python `str` operations and the character classes of Python's `re`
  * module, on `seq<char>`.  Character tables cover ASCII and Latin-1;
  * beyond Latin-1 they are approximations (see README). */
module PyStr {
  import opened Wrappers

  /** `str.isspace()`; also the class `\s` of a `str` pattern. */
  predicate IsSpace(c: char) {
    c == ' ' || ('\t' <= c <= '\r') || ('\U{1c}' <= c <= '\U{1f}') || c == '\U{85}' || c == '\U{a0}'
    || c == '\U{1680}' || ('\U{2000}' <= c <= '\U{200a}') || c == '\U{2028}' || c == '\U{2029}'
    || c == '\U{202f}' || c == '\U{205f}' || c == '\U{3000}'
  }

  /** `\d`, restricted to ASCII digits. */
  predicate IsDigit(c: char) {
    '0' <= c <= '9'
  }

  predicate IsUpper(c: char) {
    ('A' <= c <= 'Z') || ('\U{c0}' <= c <= '\U{de}' && c != '\U{d7}')
  }

  predicate IsLower(c: char) {
    ('a' <= c <= 'z') || ('\U{df}' <= c <= '\U{ff}' && c != '\U{f7}')
  }

  /** A cased character, as `str.title()` sees it. */
  predicate IsCased(c: char) {
    IsUpper(c) || IsLower(c)
  }

  /** `\w`: letters, digits (also super- and subscript digits) and `_`.
    * Exact up to U+00FF; from U+0100 on every character counts except
    * whitespace, general punctuation and format characters (U+2010-U+206F),
    * currency signs (U+20A0-U+20CF), arrows and mathematical operators
    * (U+2190-U+22FF). */
  predicate IsWordChar(c: char) {
    ('a' <= c <= 'z') || ('A' <= c <= 'Z') || IsDigit(c) || c == '_'
    || c == '\U{aa}' || c == '\U{b2}' || c == '\U{b3}' || c == '\U{b5}' || c == '\U{b9}' || c == '\U{ba}'
    || ('\U{bc}' <= c <= '\U{be}') || ('\U{c0}' <= c <= '\U{ff}' && c != '\U{d7}' && c != '\U{f7}')
    || ('\U{100}' <= c && !IsSpace(c) && !('\U{2010}' <= c <= '\U{206f}')
        && !('\U{20a0}' <= c <= '\U{20cf}') && !('\U{2190}' <= c <= '\U{22ff}'))
  }

  function LowerChar(c: char): (d: char)
    ensures !IsUpper(d)
  {
    if IsUpper(c) then (c as int + 32) as char else c
  }

  function UpperChar(c: char): char {
    if c == '\U{ff}' then '\U{178}'
    else if IsLower(c) && c != '\U{df}' then (c as int - 32) as char
    else c
  }

  /** `str.lower()`. */
  function Lower(s: string): (r: string)
    ensures |r| == |s|
    ensures forall i :: 0 <= i < |s| ==> r[i] == LowerChar(s[i])
  {
    seq(|s|, i requires 0 <= i < |s| => LowerChar(s[i]))
  }

  /** `str.title()`: a cased character is upper-cased when the one before it
    * is not cased, lower-cased otherwise. */
  function Title(s: string): (r: string)
    ensures |r| == |s|
  {
    seq(|s|, i requires 0 <= i < |s| =>
      if !IsCased(s[i]) then s[i]
      else if i > 0 && IsCased(s[i - 1]) then LowerChar(s[i])
      else UpperChar(s[i]))
  }

  /** Every character of s satisfies p. */
  predicate All(s: string, p: char -> bool) {
    forall i :: 0 <= i < |s| ==> p(s[i])
  }

  predicate AllDigits(s: string) {
    forall i :: 0 <= i < |s| ==> IsDigit(s[i])
  }

  predicate HasDigit(s: string) {
    exists i :: 0 <= i < |s| && IsDigit(s[i])
  }

  /** `str.lstrip()`. */
  function LStrip(s: string): (r: string)
    ensures |r| <= |s| && r == s[|s| - |r|..]
    ensures r == [] || !IsSpace(r[0])
    ensures forall i :: 0 <= i < |s| - |r| ==> IsSpace(s[i])
  {
    if s != [] && IsSpace(s[0]) then LStrip(s[1..]) else s
  }

  /** `str.rstrip()`. */
  function RStrip(s: string): (r: string)
    ensures |r| <= |s| && r == s[..|r|]
    ensures r == [] || !IsSpace(r[|r| - 1])
    ensures forall i :: |r| <= i < |s| ==> IsSpace(s[i])
  {
    if s != [] && IsSpace(s[|s| - 1]) then RStrip(s[..|s| - 1]) else s
  }

  /** `str.strip()`. */
  function Strip(s: string): (r: string)
    ensures r == [] || (!IsSpace(r[0]) && !IsSpace(r[|r| - 1]))
  {
    RStrip(LStrip(s))
  }

  /** Stripping text that does not start with whitespace keeps its first
    * character in front. */
  lemma StripKeepsHead(v: string)
    requires v != [] && !IsSpace(v[0])
    ensures Strip(v) != [] && Strip(v)[0] == v[0]
  {
    assert LStrip(v) == v;
  }

  /** A space appended to text that starts with no whitespace is stripped
    * off again. */
  lemma StripTrailingSpace(s: string)
    requires s != [] && !IsSpace(s[0])
    ensures Strip(s + " ") == Strip(s)
  {
    var u := s + " ";
    assert LStrip(u) == u;
    assert u[..|u| - 1] == s;
    assert RStrip(u) == RStrip(s);
    assert LStrip(s) == s;
  }

  /** `str.rstrip(c)` for a single character c. */
  function RStripChar(s: string, c: char): (r: string)
    ensures |r| <= |s| && r == s[..|r|]
    ensures r == [] || r[|r| - 1] != c
  {
    if s != [] && s[|s| - 1] == c then RStripChar(s[..|s| - 1], c) else s
  }

  /** `str.lstrip(c)` for a single character c. */
  function LStripChar(s: string, c: char): (r: string)
    ensures |r| <= |s| && r == s[|s| - |r|..]
  {
    if s != [] && s[0] == c then LStripChar(s[1..], c) else s
  }

  /** `str.strip(c)` for a single character c. */
  function StripChar(s: string, c: char): string {
    RStripChar(LStripChar(s, c), c)
  }

  /** `str.replace(a, b)` where a and b are single characters. */
  function MapChar(s: string, a: char, b: char): (r: string)
    ensures |r| == |s|
    ensures forall i :: 0 <= i < |s| ==> r[i] == (if s[i] == a then b else s[i])
  {
    seq(|s|, i requires 0 <= i < |s| => if s[i] == a then b else s[i])
  }

  /** Deletes every character of cs: `str.replace(c, "")` for one character,
    * `re.sub("[...]", "", s)` for a class. */
  function RemoveAll(s: string, cs: set<char>): (r: string)
    ensures |r| <= |s|
    ensures forall i :: 0 <= i < |r| ==> r[i] !in cs
  {
    if s == [] then []
    else if s[0] in cs then RemoveAll(s[1..], cs)
    else [s[0]] + RemoveAll(s[1..], cs)
  }

  /** `str.replace(old, new)`: leftmost, non-overlapping occurrences. */
  function Replace(s: string, pat: string, rep: string): string
    requires |pat| > 0
    decreases |s|
  {
    if |s| < |pat| then s
    else if s[..|pat|] == pat then rep + Replace(s[|pat|..], pat, rep)
    else [s[0]] + Replace(s[1..], pat, rep)
  }

  /** `str.replace(old, new, 1)`. */
  function ReplaceFirst(s: string, pat: string, rep: string): string
    requires |pat| > 0
  {
    var k := Find(s, pat);
    if k < 0 then s else s[..k] + rep + s[k + |pat|..]
  }

  predicate StartsWith(s: string, p: string) {
    |p| <= |s| && s[..|p|] == p
  }

  predicate EndsWith(s: string, p: string) {
    |p| <= |s| && s[|s| - |p|..] == p
  }

  /** sub occurs in s at position j. */
  predicate OccursAt(s: string, sub: string, j: int) {
    0 <= j && j + |sub| <= |s| && s[j..j + |sub|] == sub
  }

  function FindFrom(s: string, sub: string, i: nat): (r: int)
    requires i <= |s|
    decreases |s| - i
    ensures r == -1 || (i <= r && OccursAt(s, sub, r))
    ensures r >= 0 ==> forall j :: i <= j < r ==> !OccursAt(s, sub, j)
    ensures r == -1 ==> forall j :: i <= j ==> !OccursAt(s, sub, j)
  {
    if i + |sub| > |s| then -1
    else if s[i..i + |sub|] == sub then i
    else FindFrom(s, sub, i + 1)
  }

  /** `str.find(sub)`: the leftmost occurrence, or -1. */
  function Find(s: string, sub: string): (r: int)
    ensures r == -1 || OccursAt(s, sub, r)
    ensures r >= 0 ==> forall j :: 0 <= j < r ==> !OccursAt(s, sub, j)
    ensures r == -1 ==> forall j :: !OccursAt(s, sub, j)
  {
    FindFrom(s, sub, 0)
  }

  /** `sub in s`. */
  predicate Contains(s: string, sub: string) {
    Find(s, sub) >= 0
  }

  lemma ContainsAt(s: string, sub: string, j: int)
    requires OccursAt(s, sub, j)
    ensures Contains(s, sub)
  {
  }

  /** `str.rfind(sub)`: the rightmost occurrence, or -1. */
  function RFind(s: string, sub: string): (r: int)
    ensures r == -1 || OccursAt(s, sub, r)
    ensures r >= 0 ==> forall j :: r < j ==> !OccursAt(s, sub, j)
    ensures r == -1 ==> forall j :: !OccursAt(s, sub, j)
  {
    RFindBelow(s, sub, |s|)
  }

  function RFindBelow(s: string, sub: string, i: int): (r: int)
    requires i <= |s|
    decreases i + 1
    ensures r == -1 || (r <= i && OccursAt(s, sub, r))
    ensures r >= 0 ==> forall j :: r < j <= i ==> !OccursAt(s, sub, j)
    ensures r == -1 ==> forall j :: j <= i ==> !OccursAt(s, sub, j)
  {
    if i < 0 then -1
    else if OccursAt(s, sub, i) then i
    else RFindBelow(s, sub, i - 1)
  }

  /** `sep.join(parts)`. */
  function Join(sep: string, parts: seq<string>): string {
    if parts == [] then []
    else if |parts| == 1 then parts[0]
    else parts[0] + sep + Join(sep, parts[1..])
  }

  /** Joining a part in front of non-empty parts puts one separator
    * between them. */
  lemma JoinCons(sep: string, a: string, rest: seq<string>)
    requires rest != []
    ensures Join(sep, [a] + rest) == a + sep + Join(sep, rest)
  {
    assert ([a] + rest)[1..] == rest;
  }

  /** `"".join(s.split())`: s with every whitespace character removed. */
  function DropSpaces(s: string): (r: string)
    ensures |r| <= |s|
    ensures forall i :: 0 <= i < |r| ==> !IsSpace(r[i])
  {
    if s == [] then [] else (if IsSpace(s[0]) then [] else [s[0]]) + DropSpaces(s[1..])
  }

  /** `s.split(sep)` for a non-empty separator. */
  function SplitOn(s: string, sep: string): (r: seq<string>)
    requires |sep| > 0
    decreases |s|
    ensures |r| >= 1
  {
    var k := Find(s, sep);
    if k < 0 then [s] else [s[..k]] + SplitOn(s[k + |sep|..], sep)
  }

  /** Whitespace at i and at i + 1. */
  predicate SpaceRunAt(r: string, i: int)
    requires 0 <= i < |r| - 1
  {
    IsSpace(r[i]) && IsSpace(r[i + 1])
  }

  /** `re.sub(r"\s+", " ", s)`: every run of whitespace becomes one space. */
  function CollapseWs(s: string): (r: string)
    decreases |s|
    ensures forall i :: 0 <= i < |r| ==> (IsSpace(r[i]) ==> r[i] == ' ')
    ensures forall i :: 0 <= i < |r| - 1 ==> !SpaceRunAt(r, i)
    ensures s != [] ==> r != [] && (IsSpace(s[0]) <==> IsSpace(r[0]))
  {
    if s == [] then []
    else if IsSpace(s[0]) then
      var rest := LStrip(s);
      assert rest == [] || !IsSpace(rest[0]);
      var t := CollapseWs(rest);
      var r := [' '] + t;
      assert forall i :: 0 < i < |r| - 1 ==> SpaceRunAt(r, i) == SpaceRunAt(t, i - 1);
      r
    else
      var t := CollapseWs(s[1..]);
      var r := [s[0]] + t;
      assert forall i :: 0 < i < |r| - 1 ==> SpaceRunAt(r, i) == SpaceRunAt(t, i - 1);
      r
  }

  /** Case-insensitive match of the literal w at position i (`re.IGNORECASE`). */
  predicate MatchCIAt(s: string, i: int, w: string)
    decreases |w|
  {
    && 0 <= i && i + |w| <= |s|
    && (w == [] || (LowerChar(s[i]) == LowerChar(w[0]) && MatchCIAt(s, i + 1, w[1..])))
  }

  /** A case-insensitive match is equality after lower-casing. */
  lemma {:induction false} MatchCIAtLower(s: string, i: int, w: string)
    requires MatchCIAt(s, i, w)
    ensures Lower(s[i..i + |w|]) == Lower(w)
    decreases |w|
  {
    if w != [] {
      MatchCIAtLower(s, i + 1, w[1..]);
      assert Lower(s[i..i + |w|]) == [LowerChar(s[i])] + Lower(s[i + 1..i + |w|]);
      assert Lower(w) == [LowerChar(w[0])] + Lower(w[1..]);
    }
  }

  /** `\b` at position i. */
  predicate BoundaryAt(s: string, i: int)
    requires 0 <= i <= |s|
  {
    (i > 0 && IsWordChar(s[i - 1])) != (i < |s| && IsWordChar(s[i]))
  }

  /** `\b` + re.escape(w) + `\b` matches at position i, ignoring case. */
  predicate WordCIAt(s: string, i: int, w: string) {
    MatchCIAt(s, i, w) && BoundaryAt(s, i) && BoundaryAt(s, i + |w|)
  }

  /** `re.search(r"\b" + re.escape(w) + r"\b", s, re.IGNORECASE)` succeeds. */
  predicate ContainsWordCI(s: string, w: string) {
    exists i :: 0 <= i <= |s| && WordCIAt(s, i, w)
  }

  /** f keeps whitespace whitespace and everything else non-whitespace. */
  predicate SpacePreserving(f: char -> char) {
    forall c :: IsSpace(f(c)) <==> IsSpace(c)
  }

  /** s with f applied to each character. */
  function Mapped(s: string, f: char -> char): (r: string)
    ensures |r| == |s|
    ensures forall i :: 0 <= i < |s| ==> r[i] == f(s[i])
  {
    seq(|s|, i requires 0 <= i < |s| => f(s[i]))
  }

  lemma {:induction false} LStripMapped(s: string, f: char -> char)
    requires SpacePreserving(f)
    ensures LStrip(Mapped(s, f)) == Mapped(LStrip(s), f)
    decreases |s|
  {
    if s != [] {
      assert Mapped(s, f)[1..] == Mapped(s[1..], f);
      assert IsSpace(f(s[0])) <==> IsSpace(s[0]);
      if IsSpace(s[0]) {
        LStripMapped(s[1..], f);
      }
    }
  }

  lemma {:induction false} RStripMapped(s: string, f: char -> char)
    requires SpacePreserving(f)
    ensures RStrip(Mapped(s, f)) == Mapped(RStrip(s), f)
    decreases |s|
  {
    if s != [] {
      assert Mapped(s, f)[..|s| - 1] == Mapped(s[..|s| - 1], f);
      assert IsSpace(f(s[|s| - 1])) <==> IsSpace(s[|s| - 1]);
      if IsSpace(s[|s| - 1]) {
        RStripMapped(s[..|s| - 1], f);
      }
    }
  }

  /** Stripping commutes with a whitespace-preserving character map. */
  lemma StripMapped(s: string, f: char -> char)
    requires SpacePreserving(f)
    ensures Strip(Mapped(s, f)) == Mapped(Strip(s), f)
  {
    LStripMapped(s, f);
    RStripMapped(LStrip(s), f);
  }

  lemma StripIdempotent(s: string)
    ensures Strip(Strip(s)) == Strip(s)
  {
    var t := Strip(s);
    if t != [] {
      assert LStrip(t) == t;
      assert RStrip(t) == t;
    }
  }

  lemma LowerCharSpace()
    ensures SpacePreserving(LowerChar)
  {
  }

  lemma LowerIsMapped(s: string)
    ensures Lower(s) == Mapped(s, LowerChar)
  {
  }

  /** Lower-casing changes nothing in a string without upper-case letters. */
  lemma LowerNoUpper(s: string)
    requires forall i :: 0 <= i < |s| ==> !IsUpper(s[i])
    ensures Lower(s) == s
  {
  }

  lemma {:induction false} RemoveAllAppend(a: string, b: string, cs: set<char>)
    ensures RemoveAll(a + b, cs) == RemoveAll(a, cs) + RemoveAll(b, cs)
    decreases |a|
  {
    if a != [] {
      assert (a + b)[1..] == a[1..] + b;
      RemoveAllAppend(a[1..], b, cs);
    } else {
      assert a + b == b;
    }
  }

  lemma {:induction false} RemoveAllNone(s: string, cs: set<char>)
    requires forall i :: 0 <= i < |s| ==> s[i] !in cs
    ensures RemoveAll(s, cs) == s
    decreases |s|
  {
    if s != [] {
      RemoveAllNone(s[1..], cs);
    }
  }

  /** `lstrip(c)` removes a run of c and stops at the first other character. */
  lemma {:induction false} LStripCharRun(p: string, x: string, c: char)
    requires forall i :: 0 <= i < |p| ==> p[i] == c
    requires x == [] || x[0] != c
    ensures LStripChar(p + x, c) == x
    decreases |p|
  {
    if p != [] {
      assert (p + x)[1..] == p[1..] + x;
      LStripCharRun(p[1..], x, c);
    } else {
      assert p + x == x;
    }
  }

  /** `rstrip(c)` removes a run of c and stops at the last other character. */
  lemma {:induction false} RStripCharRun(x: string, p: string, c: char)
    requires forall i :: 0 <= i < |p| ==> p[i] == c
    requires x == [] || x[|x| - 1] != c
    ensures RStripChar(x + p, c) == x
    decreases |p|
  {
    if p != [] {
      assert (x + p)[..|x + p| - 1] == x + p[..|p| - 1];
      RStripCharRun(x, p[..|p| - 1], c);
    } else {
      assert x + p == x;
    }
  }

  /** Replacing a pattern whose first character does not occur changes nothing. */
  lemma {:induction false} ReplaceAbsent(s: string, pat: string, rep: string)
    requires |pat| > 0
    requires forall i :: 0 <= i < |s| ==> s[i] != pat[0]
    ensures Replace(s, pat, rep) == s
    decreases |s|
  {
    if |s| >= |pat| {
      assert s[..|pat|][0] == s[0];
      ReplaceAbsent(s[1..], pat, rep);
    }
  }

  /** Deleting characters keeps a string free of upper-case letters. */
  lemma {:induction false} RemoveAllNoUpper(s: string, cs: set<char>)
    requires forall i :: 0 <= i < |s| ==> !IsUpper(s[i])
    ensures forall i :: 0 <= i < |RemoveAll(s, cs)| ==> !IsUpper(RemoveAll(s, cs)[i])
    decreases |s|
  {
    if s != [] {
      RemoveAllNoUpper(s[1..], cs);
    }
  }

  /** A string lacking the first character of w does not contain w. */
  lemma NotContainsWithoutFirst(s: string, w: string)
    requires |w| > 0
    requires forall i :: 0 <= i < |s| ==> s[i] != w[0]
    ensures !Contains(s, w)
  {
    forall j | 0 <= j && j + |w| <= |s|
      ensures !OccursAt(s, w, j)
    {
      assert s[j..j + |w|][0] == s[j];
    }
  }

  /** Where the stripped string starts inside the original. */
  function StripOffset(s: string): (a: nat)
    ensures a + |Strip(s)| <= |s| && Strip(s) == s[a..a + |Strip(s)|]
  {
    var l := LStrip(s);
    assert Strip(s) == l[..|Strip(s)|];
    |s| - |l|
  }

  // ---------------------------------------------------------------------
  // Lists of strings

  /** `[f(s) for s in ss if f(s)]`. */
  function MapKeep(f: string -> string, ss: seq<string>): (r: seq<string>)
    ensures |r| <= |ss|
    ensures forall k :: 0 <= k < |r| ==> r[k] != []
  {
    if ss == [] then []
    else
      var h := f(ss[0]);
      (if h != [] then [h] else []) + MapKeep(f, ss[1..])
  }

  /** Every kept text is the image of one of the inputs. */
  lemma {:induction false} MapKeepFrom(f: string -> string, ss: seq<string>, x: string)
    requires x in MapKeep(f, ss)
    ensures exists s :: s in ss && x == f(s)
  {
    if f(ss[0]) != x {
      MapKeepFrom(f, ss[1..], x);
      var s :| s in ss[1..] && x == f(s);
      assert s in ss;
    }
  }

  /** Every input whose image is not empty has its image kept. */
  lemma {:induction false} MapKeepHas(f: string -> string, ss: seq<string>, s: string)
    requires s in ss && f(s) != []
    ensures f(s) in MapKeep(f, ss)
  {
    if ss[0] != s {
      MapKeepHas(f, ss[1..], s);
    }
  }

  lemma ConsAppend<T>(a: seq<T>, b: seq<T>)
    requires a != []
    ensures (a + b)[0] == a[0] && (a + b)[1..] == a[1..] + b
  {
  }

  lemma {:induction false} MapKeepAppend(f: string -> string, a: seq<string>, b: seq<string>)
    ensures MapKeep(f, a + b) == MapKeep(f, a) + MapKeep(f, b)
  {
    if a == [] {
      assert a + b == b;
    } else {
      var h := f(a[0]);
      var hs := if h != [] then [h] else [];
      ConsAppend(a, b);
      MapKeepAppend(f, a[1..], b);
      calc {
        MapKeep(f, a + b);
        hs + MapKeep(f, a[1..] + b);
        hs + (MapKeep(f, a[1..]) + MapKeep(f, b));
        (hs + MapKeep(f, a[1..])) + MapKeep(f, b);
        MapKeep(f, a) + MapKeep(f, b);
      }
    }
  }

  lemma ConsSplit<T>(t: seq<T>)
    requires t != []
    ensures t == [t[0]] + t[1..]
  {
  }

  lemma TakeStep<T>(s: seq<T>, i: nat)
    requires i < |s|
    ensures s[..i + 1] == s[..i] + [s[i]]
  {
  }

  /** No two adjacent whitespace characters. */
  predicate NoSpaceRun(s: string) {
    forall i :: 0 <= i < |s| - 1 ==> !SpaceRunAt(s, i)
  }

  /** A slice of text without whitespace runs has none either. */
  lemma NoSpaceRunSlice(s: string, a: nat, b: nat)
    requires a <= b <= |s| && NoSpaceRun(s)
    ensures NoSpaceRun(s[a..b])
  {
    var t := s[a..b];
    forall i | 0 <= i < |t| - 1 ensures !SpaceRunAt(t, i) {
      assert SpaceRunAt(t, i) == SpaceRunAt(s, a + i);
    }
  }

  /** Stripping text without whitespace runs leaves none. */
  lemma NoSpaceRunStrip(s: string)
    requires NoSpaceRun(s)
    ensures NoSpaceRun(Strip(s))
  {
    var a := StripOffset(s);
    NoSpaceRunSlice(s, a, a + |Strip(s)|);
  }
}
