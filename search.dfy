/** Searches over a range of positions: the shape of every `re.search`, of
  * every greedy quantifier giving back one character at a time, and of
  * every "first element that qualifies" loop in the model. */
module Search {
  import opened Wrappers

  /** The first position in [i, n) satisfying p, if any. */
  function FirstFrom(p: nat -> bool, i: nat, n: nat): (r: Option<nat>)
    decreases n - i
    ensures r.Some? ==> i <= r.value < n && p(r.value)
    ensures r.Some? ==> forall j :: i <= j < r.value ==> !p(j)
    ensures r.None? ==> forall j :: i <= j < n ==> !p(j)
  {
    if i >= n then None
    else if p(i) then Some(i)
    else FirstFrom(p, i + 1, n)
  }

  /** The first position in [i, n) where f yields something, with what it
    * yields there. */
  function FirstSome<T>(f: nat -> Option<T>, i: nat, n: nat): (r: Option<(nat, T)>)
    decreases n - i
    ensures r.Some? ==> i <= r.value.0 < n && f(r.value.0) == Some(r.value.1)
    ensures r.Some? ==> forall j :: i <= j < r.value.0 ==> f(j).None?
    ensures r.None? ==> forall j :: i <= j < n ==> f(j).None?
  {
    if i >= n then None
    else if f(i).Some? then Some((i, f(i).value))
    else FirstSome(f, i + 1, n)
  }

  /** The last position in [lo, e] where f yields something, with what it
    * yields there: positions are tried from e downwards. */
  function LastSome<T>(f: nat -> Option<T>, lo: nat, e: nat): (r: Option<(nat, T)>)
    requires lo <= e
    decreases e - lo
    ensures r.Some? ==> lo <= r.value.0 <= e && f(r.value.0) == Some(r.value.1)
    ensures r.Some? ==> forall j :: r.value.0 < j <= e ==> f(j).None?
    ensures r.None? ==> forall j :: lo <= j <= e ==> f(j).None?
  {
    if f(e).Some? then Some((e, f(e).value))
    else if e == lo then None
    else LastSome(f, lo, e - 1)
  }

  /** Growing the range by one position: a first position already found
    * stays first, and otherwise the new position is first when it
    * qualifies. */
  lemma FirstFromExtend(p: nat -> bool, n: nat)
    ensures FirstFrom(p, 0, n + 1) ==
      if FirstFrom(p, 0, n).Some? then FirstFrom(p, 0, n) else if p(n) then Some(n) else None
  {
    var a := FirstFrom(p, 0, n);
    var b := FirstFrom(p, 0, n + 1);
    if a.Some? {
      assert p(a.value);
      assert b.Some?;
      assert !(b.value < a.value);
    } else if p(n) {
      assert b.Some?;
    } else {
      assert b.None?;
    }
  }
}
