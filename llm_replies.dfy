/** What the language-model extractors receive back: the chat service is an
  * oracle whose reply is an error or a message content, and `json.loads` is
  * an oracle from text to a parsed value.  Of JSON the model knows only the
  * characters a JSON text can start with. */
module LlmReplies {
  import opened Wrappers
  import opened PyStr
  import opened PyValues

  /** One call to the chat service: it raised, its response lacked the
    * expected structure, or it carried a message content (possibly None). */
  datatype Reply = ApiError | BadStructure | Content(content: Option<string>)

  /** A character a JSON document may start with, `NaN` and `Infinity`
    * included as Python's `json.loads` accepts them. */
  predicate JsonStartChar(c: char) {
    c == '{' || c == '[' || c == '"' || c == '-' || ('0' <= c <= '9') || c == 't' || c == 'f' || c == 'n'
    || c == 'N' || c == 'I'
  }

  /** The JSON oracle accepts nothing whose first non-blank character cannot
    * start a JSON document. */
  ghost predicate RejectsNonJson(loads: string -> Option<PyVal>) {
    forall s :: loads(s).Some? ==> LStrip(s) != [] && JsonStartChar(LStrip(s)[0])
  }

  /** `_strip_markdown_fences`: without a leading fence only the surrounding
    * whitespace goes; with one, the fence, an optional "json" tag in any case
    * and everything from the last fence on go too. */
  function StripMarkdownFences(s: string): (r: string)
    ensures !StartsWith(Strip(s), "```") ==> r == Strip(s)
  {
    var s0 := Strip(s);
    if !StartsWith(s0, "```") then s0 else Strip(CutLastFence(AfterOpenFence(s0)))
  }

  /** The text after a leading fence and its optional "json" tag. */
  function AfterOpenFence(s0: string): string
    requires StartsWith(s0, "```")
  {
    var s1 := LStrip(s0[3..]);
    if StartsWith(Lower(s1), "json") then LStrip(s1[4..]) else s1
  }

  /** The text before the last fence, if any. */
  function CutLastFence(s2: string): string {
    var k := RFind(s2, "```");
    if k != -1 then s2[..k] else s2
  }

  /** A string without whitespace at either end is its own strip. */
  lemma StripTrimmed(s: string)
    requires s != [] && !IsSpace(s[0]) && !IsSpace(s[|s| - 1])
    ensures LStrip(s) == s && RStrip(s) == s && Strip(s) == s
  {
  }

  /** Stripping a trailing newline off trimmed text gives the text. */
  lemma StripNewline(b: string)
    requires b != [] && !IsSpace(b[0]) && !IsSpace(b[|b| - 1])
    ensures Strip(b + "\n") == b
  {
    var t := b + "\n";
    assert LStrip(t) == t;
    assert t[..|t| - 1] == b;
    StripTrimmed(b);
  }

  /** Only the closing fence holds backticks. */
  lemma LastFence(b: string)
    requires '`' !in b
    ensures RFind(b + "\n```", "```") == |b| + 1
  {
    var t := b + "\n```";
    assert OccursAt(t, "```", |b| + 1);
    forall j | |b| + 1 < j
      ensures !OccursAt(t, "```", j)
    {
    }
  }

  /** After a fence tagged "json", the rest without its leading blanks. */
  lemma OpenJsonFence(rest: string)
    ensures AfterOpenFence("```json" + rest) == LStrip(rest)
  {
    var s1 := ("```json" + rest)[3..];
    assert s1 == "json" + rest;
    assert LStrip(s1) == s1;
    LowerPrefix(s1, "json");
    assert s1[4..] == rest;
  }

  lemma LStripNewline(b: string)
    requires b != [] && !IsSpace(b[0])
    ensures LStrip("\n" + b + "\n```") == b + "\n```"
  {
    var t := b + "\n```";
    assert "\n" + b + "\n```" == "\n" + t;
    assert ("\n" + t)[1..] == t;
    assert t[0] == b[0];
  }

  /** The opening fence of a "json" block and the blanks after it go. */
  lemma OpenFenceOfBlock(b: string)
    requires b != [] && !IsSpace(b[0])
    ensures StartsWith("```json\n" + b + "\n```", "```")
    ensures AfterOpenFence("```json\n" + b + "\n```") == b + "\n```"
  {
    var rest := "\n" + b + "\n```";
    assert "```json\n" + b + "\n```" == "```json" + rest;
    OpenJsonFence(rest);
    LStripNewline(b);
  }

  /** The closing fence and everything after it go. */
  lemma CloseFenceOfBlock(b: string)
    requires '`' !in b
    ensures CutLastFence(b + "\n```") == b + "\n"
  {
    LastFence(b);
    assert (b + "\n```")[..|b| + 1] == b + "\n";
  }

  /** A reply fenced as a "json" block yields the document inside. */
  lemma FencedJsonUnwrapped(b: string)
    requires b != [] && !IsSpace(b[0]) && !IsSpace(b[|b| - 1]) && '`' !in b
    ensures StripMarkdownFences("```json\n" + b + "\n```") == b
  {
    var s := "```json\n" + b + "\n```";
    assert s[0] == '`' && s[|s| - 1] == '`';
    StripTrimmed(s);
    OpenFenceOfBlock(b);
    CloseFenceOfBlock(b);
    StripNewline(b);
  }

  /** A reply that is the bare document is only stripped. */
  lemma BareJsonKept(b: string)
    requires b != [] && !IsSpace(b[0]) && !IsSpace(b[|b| - 1]) && b[0] != '`'
    ensures StripMarkdownFences(b) == b
  {
    StripTrimmed(b);
  }

  /** Lower-casing keeps a lower-case prefix. */
  lemma LowerPrefix(s: string, p: string)
    requires StartsWith(s, p) && forall i :: 0 <= i < |p| ==> !IsUpper(p[i])
    ensures StartsWith(Lower(s), p)
  {
    assert forall i :: 0 <= i < |p| ==> Lower(s)[i] == LowerChar(s[i]);
  }
}
