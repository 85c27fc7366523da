/** Unit tokens and the "first allowed unit equal under normalization" loop
  * that the table, NLP and LLM normalizers share. */
module UnitMatch {
  import opened Wrappers
  import opened PyStr

  /** `"".join(u.split()).lower().replace("³", "3")`: the regex and plain-table
    * normalizers' comparison key. */
  function NormJoined(u: string): string {
    MapChar(Lower(DropSpaces(u)), '\U{b3}', '3')
  }

  /** `u.lower().replace(" ", "").replace("³", "3")`: the grid-table and NLP
    * normalizers' comparison key, which removes only the ASCII space. */
  function NormSpaceless(u: string): string {
    MapChar(RemoveAll(Lower(u), {' '}), '\U{b3}', '3')
  }

  /** A comparison key in canonical form: no whitespace, no upper-case letter,
    * no superscript three. */
  predicate Canonical(t: string) {
    forall i :: 0 <= i < |t| ==> !IsSpace(t[i]) && !IsUpper(t[i]) && t[i] != '\U{b3}'
  }

  lemma {:induction false} DropSpacesNone(s: string)
    requires forall i :: 0 <= i < |s| ==> !IsSpace(s[i])
    ensures DropSpaces(s) == s
  {
    if s != [] {
      DropSpacesNone(s[1..]);
      assert s == [s[0]] + s[1..];
    }
  }

  lemma NormJoinedCanonical(u: string)
    ensures Canonical(NormJoined(u))
  {
    var t := NormJoined(u);
    forall i | 0 <= i < |t| ensures !IsSpace(t[i]) && !IsUpper(t[i]) && t[i] != '\U{b3}' {
      assert !IsSpace(DropSpaces(u)[i]);
    }
  }

  /** Without whitespace, the key is the lower-cased text with ³ read as 3. */
  lemma NormJoinedNoSpace(u: string)
    requires forall i :: 0 <= i < |u| ==> !IsSpace(u[i])
    ensures NormJoined(u) == MapChar(Lower(u), '\U{b3}', '3')
  {
    DropSpacesNone(u);
  }

  /** A canonical key is its own key. */
  lemma CanonicalFixed(t: string)
    requires Canonical(t)
    ensures NormJoined(t) == t && NormSpaceless(t) == t
  {
    DropSpacesNone(t);
    LowerNoUpper(t);
    RemoveAllNone(t, {' '});
  }

  /** Normalizing twice is normalizing once. */
  lemma NormJoinedIdempotent(u: string)
    ensures NormJoined(NormJoined(u)) == NormJoined(u)
  {
    NormJoinedCanonical(u);
    CanonicalFixed(NormJoined(u));
  }

  /** "m³", "M3" and "m 3" all compare equal to "m3". */
  lemma CubicMetreSpellings()
    ensures NormJoined("m\U{b3}") == NormJoined("M3") == NormJoined("m 3") == "m3"
    ensures NormSpaceless("m\U{b3}") == NormSpaceless("M 3") == "m3"
  {
    JoinedSuperscript();
    JoinedUpper();
    JoinedSpaced();
    SpacelessSuperscript();
    SpacelessSpaced();
  }

  lemma JoinedSuperscript()
    ensures NormJoined("m\U{b3}") == "m3"
  {
  }

  lemma JoinedUpper()
    ensures NormJoined("M3") == "m3"
  {
  }

  lemma JoinedSpaced()
    ensures NormJoined("m 3") == "m3"
  {
    assert DropSpaces("m 3") == "m3";
  }

  lemma SpacelessSuperscript()
    ensures NormSpaceless("m\U{b3}") == "m3"
  {
  }

  lemma SpacelessSpaced()
    ensures NormSpaceless("M 3") == "m3"
  {
    assert RemoveAll("M 3", {' '}) == "M3";
  }

  /** The position of the first unit of allowed, from i on, whose key under
    * norm is key. */
  function MatchFrom(key: string, allowed: seq<string>, norm: string -> string, i: nat): (r: Option<nat>)
    requires i <= |allowed|
    decreases |allowed| - i
    ensures r.Some? ==> i <= r.value < |allowed| && norm(allowed[r.value]) == key
    ensures r.Some? ==> forall j :: i <= j < r.value ==> norm(allowed[j]) != key
    ensures r.None? ==> forall j :: i <= j < |allowed| ==> norm(allowed[j]) != key
  {
    if i == |allowed| then None
    else if norm(allowed[i]) == key then Some(i)
    else MatchFrom(key, allowed, norm, i + 1)
  }

  /** The first unit of allowed whose key under norm is key. */
  function FirstNormMatch(key: string, allowed: seq<string>, norm: string -> string): (r: Option<string>)
    ensures r.Some? ==> r.value in allowed && norm(r.value) == key
    ensures r.None? <==> forall j :: 0 <= j < |allowed| ==> norm(allowed[j]) != key
  {
    match MatchFrom(key, allowed, norm, 0)
    case Some(i) => Some(allowed[i])
    case None => None
  }

  /** No unit before the one found matches. */
  lemma FirstNormMatchIsFirst(key: string, allowed: seq<string>, norm: string -> string, j: nat)
    requires j < |allowed| && norm(allowed[j]) == key
    ensures FirstNormMatch(key, allowed, norm).Some?
    ensures FirstNormMatch(key, allowed, norm).value in allowed[..j + 1]
  {
    var i := MatchFrom(key, allowed, norm, 0).value;
    assert i <= j;
    assert allowed[i] == allowed[..j + 1][i];
  }

  /** `for u in allowed: if norm(u) == key: unit = u; break`. */
  method FindUnit(key: string, allowed: seq<string>, norm: string -> string) returns (unit: Option<string>)
    ensures unit == FirstNormMatch(key, allowed, norm)
  {
    unit := None;
    var i := 0;
    while i < |allowed|
      invariant 0 <= i <= |allowed|
      invariant MatchFrom(key, allowed, norm, 0) == MatchFrom(key, allowed, norm, i)
    {
      if norm(allowed[i]) == key {
        unit := Some(allowed[i]);
        break;
      }
      i := i + 1;
    }
  }
}
