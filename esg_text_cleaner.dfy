/** The text cleaner of the `esg_system` package: NUL characters are
  * removed, whitespace runs collapse to one space, a hyphen broken across a
  * line is joined to the next word, and the result is stripped. */
module EsgTextCleaner {
  import opened PyStr

  /** A hyphen followed by whitespace at position i. */
  predicate HyphenBreakAt(s: string, i: int)
    requires 0 <= i < |s| - 1
  {
    s[i] == '-' && IsSpace(s[i + 1])
  }

  predicate NoHyphenBreak(s: string) {
    forall i :: 0 <= i < |s| - 1 ==> !HyphenBreakAt(s, i)
  }

  /** Every whitespace character is an ASCII space. */
  predicate PlainSpaces(s: string) {
    forall i :: 0 <= i < |s| ==> IsSpace(s[i]) ==> s[i] == ' '
  }

  /** `re.sub(r"-\s+", "", s)`: scanning from the left, every hyphen that is
    * followed by whitespace is removed with that whitespace. */
  function JoinHyphens(s: string): (r: string)
    decreases |s|
  {
    if s == [] then []
    else if |s| > 1 && HyphenBreakAt(s, 0) then JoinHyphens(LStrip(s[1..]))
    else [s[0]] + JoinHyphens(s[1..])
  }

  /** `clean_text(text)`. */
  function CleanText(text: string): string {
    Strip(JoinHyphens(CollapseWs(RemoveAll(text, {'\0'}))))
  }

  // ---------------------------------------------------------------------
  // What each step keeps

  /** A suffix left by `lstrip` holds only characters of the text. */
  lemma LStripChars(s: string)
    ensures forall c :: c in LStrip(s) ==> c in s
  {
    var l := LStrip(s);
    assert l == s[|s| - |l|..];
  }

  /** Collapsing whitespace adds no character but the space. */
  lemma {:induction false} CollapseChars(s: string)
    decreases |s|
    ensures forall c :: c in CollapseWs(s) && c != ' ' ==> c in s
  {
    if s != [] {
      if IsSpace(s[0]) {
        var rest := LStrip(s);
        CollapseChars(rest);
        LStripChars(s);
      } else {
        CollapseChars(s[1..]);
        assert CollapseWs(s) == [s[0]] + CollapseWs(s[1..]);
      }
    }
  }

  /** Joining hyphens adds no character. */
  lemma {:induction false} JoinChars(s: string)
    decreases |s|
    ensures forall c :: c in JoinHyphens(s) ==> c in s
  {
    if s != [] {
      if |s| > 1 && HyphenBreakAt(s, 0) {
        var rest := LStrip(s[1..]);
        JoinChars(rest);
        LStripChars(s[1..]);
      } else {
        JoinChars(s[1..]);
        assert JoinHyphens(s) == [s[0]] + JoinHyphens(s[1..]);
      }
    }
  }

  /** Text that does not start with whitespace is joined to text that does
    * not either. */
  lemma JoinHead(s: string)
    requires s == [] || !IsSpace(s[0])
    ensures JoinHyphens(s) == [] || !IsSpace(JoinHyphens(s)[0])
    decreases |s|
  {
    if s != [] && |s| > 1 && HyphenBreakAt(s, 0) {
      JoinHead(LStrip(s[1..]));
    }
  }

  /** No hyphen followed by whitespace survives the join, whatever the
    * text. */
  lemma {:induction false} JoinNoBreak(s: string)
    decreases |s|
    ensures NoHyphenBreak(JoinHyphens(s))
  {
    if s != [] {
      if |s| > 1 && HyphenBreakAt(s, 0) {
        JoinNoBreak(LStrip(s[1..]));
      } else {
        var t := JoinHyphens(s[1..]);
        var r := [s[0]] + t;
        JoinNoBreak(s[1..]);
        if s[0] == '-' && |s| > 1 {
          JoinHead(s[1..]);
        }
        assert forall i :: 0 < i < |r| - 1 ==> HyphenBreakAt(r, i) == HyphenBreakAt(t, i - 1);
      }
    }
  }

  /** Joining hyphens in text without whitespace runs leaves none. */
  lemma {:induction false} JoinNoSpaceRun(s: string)
    requires NoSpaceRun(s)
    decreases |s|
    ensures NoSpaceRun(JoinHyphens(s))
  {
    if s != [] {
      if |s| > 1 && HyphenBreakAt(s, 0) {
        var a := |s[1..]| - |LStrip(s[1..])|;
        NoSpaceRunSlice(s, 1 + a, |s|);
        assert LStrip(s[1..]) == s[1 + a..] == s[1 + a..|s|];
        JoinNoSpaceRun(LStrip(s[1..]));
      } else {
        NoSpaceRunSlice(s, 1, |s|);
        assert s[1..|s|] == s[1..];
        JoinNoSpaceRun(s[1..]);
        var t := JoinHyphens(s[1..]);
        var r := [s[0]] + t;
        if IsSpace(s[0]) && |s| > 1 {
          assert !SpaceRunAt(s, 0);
          JoinHead(s[1..]);
        }
        assert forall i :: 0 < i < |r| - 1 ==> SpaceRunAt(r, i) == SpaceRunAt(t, i - 1);
      }
    }
  }

  /** A slice of text without hyphen breaks has none either. */
  lemma NoHyphenBreakSlice(s: string, a: nat, b: nat)
    requires a <= b <= |s| && NoHyphenBreak(s)
    ensures NoHyphenBreak(s[a..b])
  {
    var t := s[a..b];
    forall i | 0 <= i < |t| - 1 ensures !HyphenBreakAt(t, i) {
      assert HyphenBreakAt(t, i) == HyphenBreakAt(s, a + i);
    }
  }

  // ---------------------------------------------------------------------
  // What the cleaner promises

  /** The steps after the NUL removal add no character but the space. */
  lemma CleanChars(text: string)
    ensures forall x :: x in CleanText(text) && x != ' ' ==> x in RemoveAll(text, {'\0'})
  {
    var a := RemoveAll(text, {'\0'});
    var b := CollapseWs(a);
    var c := JoinHyphens(b);
    var o := StripOffset(c);
    assert CleanText(text) == c[o..o + |CleanText(text)|];
    CollapseChars(a);
    JoinChars(b);
  }

  /** The cleaned text holds no NUL character. */
  lemma CleanNoNul(text: string)
    ensures '\0' !in CleanText(text)
  {
    CleanChars(text);
    assert '\0' !in RemoveAll(text, {'\0'});
  }

  /** Joining and stripping text whose only whitespace is the ASCII space
    * keeps it so. */
  lemma JoinStripPlain(b: string)
    requires PlainSpaces(b)
    ensures PlainSpaces(Strip(JoinHyphens(b)))
  {
    var c := JoinHyphens(b);
    var r := Strip(c);
    var o := StripOffset(c);
    JoinChars(b);
    forall i | 0 <= i < |r| && IsSpace(r[i]) ensures r[i] == ' ' {
      assert r[i] == c[o + i];
      assert r[i] in b;
      var k :| 0 <= k < |b| && b[k] == r[i];
    }
  }

  /** The only whitespace in the cleaned text is the ASCII space. */
  lemma CleanPlainSpaces(text: string)
    ensures PlainSpaces(CleanText(text))
  {
    JoinStripPlain(CollapseWs(RemoveAll(text, {'\0'})));
  }

  /** Joining and stripping text without whitespace runs leaves neither a
    * whitespace run nor a hyphen break. */
  lemma JoinStripNoRuns(b: string)
    requires NoSpaceRun(b)
    ensures NoSpaceRun(Strip(JoinHyphens(b))) && NoHyphenBreak(Strip(JoinHyphens(b)))
  {
    var c := JoinHyphens(b);
    var o := StripOffset(c);
    JoinNoSpaceRun(b);
    NoSpaceRunStrip(c);
    JoinNoBreak(b);
    NoHyphenBreakSlice(c, o, o + |Strip(c)|);
  }

  /** The cleaned text has no two whitespace characters in a row and no
    * hyphen followed by whitespace. */
  lemma CleanNoRuns(text: string)
    ensures NoSpaceRun(CleanText(text)) && NoHyphenBreak(CleanText(text))
  {
    JoinStripNoRuns(CollapseWs(RemoveAll(text, {'\0'})));
  }

  /** The cleaned text holds no NUL character, its only whitespace is single
    * ASCII spaces between other characters, and no hyphen is followed by
    * whitespace. */
  lemma CleanTextSpec(text: string)
    ensures var r := CleanText(text);
      && '\0' !in r
      && PlainSpaces(r)
      && NoSpaceRun(r)
      && NoHyphenBreak(r)
      && Strip(r) == r
  {
    CleanNoNul(text);
    CleanPlainSpaces(text);
    CleanNoRuns(text);
    StripIdempotent(JoinHyphens(CollapseWs(RemoveAll(text, {'\0'}))));
  }

  // ---------------------------------------------------------------------
  // Cleaning twice

  lemma {:induction false} RemoveAllAbsent(s: string, c: char)
    requires c !in s
    ensures RemoveAll(s, {c}) == s
  {
    if s != [] {
      RemoveAllAbsent(s[1..], c);
    }
  }

  /** Text whose only whitespace is single spaces is already collapsed. */
  lemma {:induction false} CollapseFixed(s: string)
    requires PlainSpaces(s) && NoSpaceRun(s)
    decreases |s|
    ensures CollapseWs(s) == s
  {
    if s != [] {
      NoSpaceRunSlice(s, 1, |s|);
      var t := s[1..];
      assert s[1..|s|] == t;
      assert PlainSpaces(t) by {
        forall i | 0 <= i < |t| && IsSpace(t[i]) ensures t[i] == ' ' {
          assert t[i] == s[i + 1];
        }
      }
      CollapseFixed(t);
      if IsSpace(s[0]) {
        if t != [] {
          assert !SpaceRunAt(s, 0);
          assert !IsSpace(t[0]);
        }
        assert LStrip(s) == t;
        assert s == [' '] + t;
      } else {
        assert s == [s[0]] + t;
      }
    }
  }

  /** Text without hyphen breaks is left alone by the join. */
  lemma {:induction false} JoinFixed(s: string)
    requires NoHyphenBreak(s)
    decreases |s|
    ensures JoinHyphens(s) == s
  {
    if s != [] {
      if |s| > 1 {
        assert !HyphenBreakAt(s, 0);
      }
      NoHyphenBreakSlice(s, 1, |s|);
      assert s[1..|s|] == s[1..];
      JoinFixed(s[1..]);
      assert s == [s[0]] + s[1..];
    }
  }

  /** Cleaning is idempotent: cleaned text comes out of the cleaner
    * unchanged. */
  lemma CleanTextIdempotent(text: string)
    ensures CleanText(CleanText(text)) == CleanText(text)
  {
    var r := CleanText(text);
    CleanTextSpec(text);
    RemoveAllAbsent(r, '\0');
    CollapseFixed(r);
    JoinFixed(r);
  }
}
