/** Python dicts with string keys: the keys in insertion order and a map
  * from key to value. */
module Dicts {
  import opened Wrappers

  predicate Distinct(s: seq<string>) {
    forall i, j :: 0 <= i < j < |s| ==> s[i] != s[j]
  }

  datatype Dict<V> = Dict(keys: seq<string>, vals: map<string, V>) {
    /** The keys are distinct and are exactly the map's domain. */
    ghost predicate Valid() {
      Distinct(keys) && (forall k :: k in vals <==> k in keys)
    }

    /** `d.get(k)`. */
    function Get(k: string): Option<V> {
      if k in vals then Some(vals[k]) else None
    }

    /** `d[k] = v`: a new key goes last, an existing key keeps its place. */
    function Put(k: string, v: V): (d: Dict<V>)
      ensures Valid() ==> d.Valid()
      ensures d.vals == vals[k := v]
      ensures k in vals ==> d.keys == keys
      ensures k !in vals ==> d.keys == keys + [k]
    {
      if k in vals then Dict(keys, vals[k := v]) else Dict(keys + [k], vals[k := v])
    }
  }

  function Empty<V>(): (d: Dict<V>)
    ensures d.Valid() && d.keys == [] && d.vals == map[]
  {
    Dict([], map[])
  }

  /** The elements of ks for which f gives a value, in order. */
  function Kept<V>(ks: seq<string>, f: string -> Option<V>): seq<string> {
    if ks == [] then []
    else Kept(ks[..|ks| - 1], f) + (if f(ks[|ks| - 1]).Some? then [ks[|ks| - 1]] else [])
  }

  /** `out = {}` followed by `out[k] = f(k)` for every k of ks where f(k) is not None. */
  function Build<V>(ks: seq<string>, f: string -> Option<V>): Dict<V> {
    if ks == [] then Empty()
    else
      var d := Build(ks[..|ks| - 1], f);
      var k := ks[|ks| - 1];
      match f(k)
      case None => d
      case Some(v) => d.Put(k, v)
  }

  lemma {:induction false} KeptIn<V>(ks: seq<string>, f: string -> Option<V>)
    ensures forall k :: k in Kept(ks, f) <==> k in ks && f(k).Some?
  {
    if ks != [] {
      KeptIn(ks[..|ks| - 1], f);
      assert ks == ks[..|ks| - 1] + [ks[|ks| - 1]];
    }
  }

  /** Build holds exactly the keys of ks that f accepts, each with f's value. */
  lemma {:induction false} BuildVals<V>(ks: seq<string>, f: string -> Option<V>)
    ensures forall k :: k in Build(ks, f).vals <==> k in ks && f(k).Some?
    ensures forall k :: k in Build(ks, f).vals ==> f(k) == Some(Build(ks, f).vals[k])
  {
    if ks != [] {
      BuildVals(ks[..|ks| - 1], f);
      assert ks == ks[..|ks| - 1] + [ks[|ks| - 1]];
    }
  }

  /** Build over distinct keys: the result holds exactly the keys f accepts,
    * in the order of ks, each with f's value. */
  lemma {:induction false} BuildSpec<V>(ks: seq<string>, f: string -> Option<V>)
    requires Distinct(ks)
    ensures Build(ks, f).Valid()
    ensures Build(ks, f).keys == Kept(ks, f)
    ensures forall k :: k in Build(ks, f).vals <==> k in ks && f(k).Some?
    ensures forall k :: k in Build(ks, f).vals ==> f(k) == Some(Build(ks, f).vals[k])
  {
    if ks != [] {
      var ks' := ks[..|ks| - 1];
      var k := ks[|ks| - 1];
      BuildSpec(ks', f);
      assert ks == ks' + [k];
      assert k !in ks';
    }
  }

  /** The keys of ks for which f succeeds with a value, in order. */
  function KeptOk<V>(ks: seq<string>, f: string -> Outcome<Option<V>>): seq<string> {
    if ks == [] then []
    else
      var k := ks[|ks| - 1];
      KeptOk(ks[..|ks| - 1], f) + (if f(k).Ok? && f(k).value.Some? then [k] else [])
  }

  /** `out = {}` followed by a loop over ks whose body may raise, may skip the
    * key (`continue`) or may set `out[k]`. */
  function BuildOutcome<V>(ks: seq<string>, f: string -> Outcome<Option<V>>): Outcome<Dict<V>> {
    if ks == [] then Ok(Empty())
    else
      var k := ks[|ks| - 1];
      match BuildOutcome(ks[..|ks| - 1], f)
      case Raised => Raised
      case Ok(d) =>
        match f(k)
        case Raised => Raised
        case Ok(None) => Ok(d)
        case Ok(Some(v)) => Ok(d.Put(k, v))
  }

  /** The loop finishes exactly when no key's body raises; its result holds,
    * in the order of ks, exactly the keys whose body gives a value. */
  lemma BuildOutcomeSpec<V>(ks: seq<string>, f: string -> Outcome<Option<V>>)
    requires Distinct(ks)
    ensures BuildOutcome(ks, f).Ok? <==> forall k :: k in ks ==> f(k).Ok?
    ensures BuildOutcome(ks, f).Ok? ==> var d := BuildOutcome(ks, f).value;
      && d.Valid()
      && d.keys == KeptOk(ks, f)
      && (forall k :: k in d.vals <==> k in ks && f(k).Ok? && f(k).value.Some?)
      && (forall k :: k in d.vals ==> f(k) == Ok(Some(d.vals[k])))
  {
    BuildOutcomeOk(ks, f);
    BuildOutcomeContents(ks, f);
  }

  lemma {:induction false} BuildOutcomeOk<V>(ks: seq<string>, f: string -> Outcome<Option<V>>)
    ensures BuildOutcome(ks, f).Ok? <==> forall k :: k in ks ==> f(k).Ok?
  {
    if ks != [] {
      var ks' := ks[..|ks| - 1];
      var k := ks[|ks| - 1];
      BuildOutcomeOk(ks', f);
      assert ks == ks' + [k];
      assert forall j :: j in ks <==> j in ks' || j == k;
    }
  }

  lemma {:induction false} BuildOutcomeContents<V>(ks: seq<string>, f: string -> Outcome<Option<V>>)
    requires Distinct(ks)
    ensures BuildOutcome(ks, f).Ok? ==> var d := BuildOutcome(ks, f).value;
      && d.Valid()
      && d.keys == KeptOk(ks, f)
      && (forall k :: k in d.vals <==> k in ks && f(k).Ok? && f(k).value.Some?)
      && (forall k :: k in d.vals ==> f(k) == Ok(Some(d.vals[k])))
  {
    if ks != [] {
      var ks' := ks[..|ks| - 1];
      var k := ks[|ks| - 1];
      BuildOutcomeContents(ks', f);
      assert ks == ks' + [k];
      assert k !in ks';
      assert forall j :: j in ks <==> j in ks' || j == k;
      match BuildOutcome(ks', f)
      case Raised =>
      case Ok(d) =>
        match f(k)
        case Raised =>
        case Ok(None) =>
        case Ok(Some(v)) =>
          assert d.Put(k, v).vals == d.vals[k := v];
    }
  }

  /** Prefixes of the loop: the invariant of every loop that builds a dict. */
  lemma BuildOutcomeStep<V>(ks: seq<string>, i: nat, f: string -> Outcome<Option<V>>)
    requires i < |ks|
    ensures BuildOutcome(ks[..i + 1], f) == match BuildOutcome(ks[..i], f)
      case Raised => Raised
      case Ok(d) => (match f(ks[i])
        case Raised => Raised
        case Ok(None) => Ok(d)
        case Ok(Some(v)) => Ok(d.Put(ks[i], v)))
  {
    assert ks[..i + 1][..i] == ks[..i];
  }

  /** Once one body raises, the whole loop raises. */
  lemma {:induction false} BuildOutcomeRaised<V>(ks: seq<string>, i: nat, f: string -> Outcome<Option<V>>)
    requires i <= |ks| && BuildOutcome(ks[..i], f).Raised?
    ensures BuildOutcome(ks, f).Raised?
    decreases |ks| - i
  {
    if i < |ks| {
      BuildOutcomeStep(ks, i, f);
      BuildOutcomeRaised(ks, i + 1, f);
    } else {
      assert ks[..i] == ks;
    }
  }

  /** When every body gives a value, every key is kept. */
  lemma {:induction false} KeptOkAll<V>(ks: seq<string>, f: string -> Outcome<Option<V>>)
    requires forall k :: k in ks ==> f(k).Ok? && f(k).value.Some?
    ensures KeptOk(ks, f) == ks
  {
    if ks != [] {
      KeptOkAll(ks[..|ks| - 1], f);
      assert ks == ks[..|ks| - 1] + [ks[|ks| - 1]];
    }
  }

  /** The elements of ks that satisfy p, in order. */
  function Where(ks: seq<string>, p: string -> bool): (r: seq<string>)
    ensures forall k :: k in r <==> k in ks && p(k)
  {
    if ks == [] then []
    else Where(ks[..|ks| - 1], p) + (if p(ks[|ks| - 1]) then [ks[|ks| - 1]] else [])
  }

  /** When every body succeeds and gives a value exactly for the keys p
    * accepts, the loop keeps exactly those keys. */
  lemma {:induction false} KeptOkWhere<V>(ks: seq<string>, f: string -> Outcome<Option<V>>, p: string -> bool)
    requires forall k :: k in ks ==> f(k).Ok? && (f(k).value.Some? <==> p(k))
    ensures KeptOk(ks, f) == Where(ks, p)
  {
    if ks != [] {
      KeptOkWhere(ks[..|ks| - 1], f, p);
      assert ks[|ks| - 1] in ks;
    }
  }

  /** Prefixes of a loop that sets `out[k]` for every key. */
  lemma BuildStep<V>(ks: seq<string>, i: nat, f: string -> Option<V>)
    requires i < |ks|
    ensures Build(ks[..i + 1], f) == match f(ks[i])
      case None => Build(ks[..i], f)
      case Some(v) => Build(ks[..i], f).Put(ks[i], v)
  {
    assert ks[..i + 1][..i] == ks[..i];
  }

  /** When f gives a value for every key, every key is kept. */
  lemma {:induction false} KeptAll<V>(ks: seq<string>, f: string -> Option<V>)
    requires forall k :: k in ks ==> f(k).Some?
    ensures Kept(ks, f) == ks
  {
    if ks != [] {
      KeptAll(ks[..|ks| - 1], f);
      assert ks == ks[..|ks| - 1] + [ks[|ks| - 1]];
    }
  }

  /** `for k, v in d.items(): if k not in acc: acc[k] = v`, over the keys ks
    * of d taken in order: a key acc already holds keeps its value. */
  function AbsorbKeys<V>(acc: Dict<V>, ks: seq<string>, vals: map<string, V>): (r: Dict<V>)
    requires forall k :: k in ks ==> k in vals
    ensures acc.Valid() ==> r.Valid()
  {
    if ks == [] then acc
    else
      var a := AbsorbKeys(acc, ks[..|ks| - 1], vals);
      var k := ks[|ks| - 1];
      if k in a.vals then a else a.Put(k, vals[k])
  }

  /** The first-hit merge of d into acc. */
  function Absorb<V>(acc: Dict<V>, d: Dict<V>): (r: Dict<V>)
    requires d.Valid()
    ensures acc.Valid() ==> r.Valid()
  {
    AbsorbKeys(acc, d.keys, d.vals)
  }

  /** After the merge a key is present when either side had it, and the
    * value acc already held wins over d's. */
  lemma {:induction false} AbsorbKeysSpec<V>(acc: Dict<V>, ks: seq<string>, vals: map<string, V>)
    requires forall k :: k in ks ==> k in vals
    ensures forall k :: k in AbsorbKeys(acc, ks, vals).vals <==> k in acc.vals || k in ks
    ensures forall k :: k in acc.vals ==> AbsorbKeys(acc, ks, vals).vals[k] == acc.vals[k]
    ensures forall k :: k !in acc.vals && k in ks ==> AbsorbKeys(acc, ks, vals).vals[k] == vals[k]
  {
    if ks != [] {
      var ks' := ks[..|ks| - 1];
      AbsorbKeysSpec(acc, ks', vals);
      assert ks == ks' + [ks[|ks| - 1]];
      assert forall j :: j in ks <==> j in ks' || j == ks[|ks| - 1];
    }
  }

  /** Prefixes of the merge loop over ks. */
  lemma AbsorbKeysStep<V>(acc: Dict<V>, ks: seq<string>, vals: map<string, V>, i: nat)
    requires forall k :: k in ks ==> k in vals
    requires i < |ks|
    ensures AbsorbKeys(acc, ks[..i + 1], vals) ==
      var a := AbsorbKeys(acc, ks[..i], vals);
      if ks[i] in a.vals then a else a.Put(ks[i], vals[ks[i]])
  {
    assert ks[..i + 1][..i] == ks[..i];
  }

  /** `for k in ks: if k in acc: continue; ...; acc[k] = f(k)` where the loop
    * body stores f(k) when it is not None: a key acc already holds keeps its
    * value. */
  function AbsorbFrom<V>(acc: Dict<V>, ks: seq<string>, f: string -> Option<V>): (r: Dict<V>)
    ensures acc.Valid() ==> r.Valid()
  {
    if ks == [] then acc
    else
      var a := AbsorbFrom(acc, ks[..|ks| - 1], f);
      var k := ks[|ks| - 1];
      if k in a.vals then a
      else match f(k)
        case None => a
        case Some(v) => a.Put(k, v)
  }

  /** After the loop a key is present when acc had it or f gives it a value;
    * the value acc already held wins. */
  lemma {:induction false} AbsorbFromSpec<V>(acc: Dict<V>, ks: seq<string>, f: string -> Option<V>)
    ensures forall k :: k in AbsorbFrom(acc, ks, f).vals <==> k in acc.vals || (k in ks && f(k).Some?)
    ensures forall k :: k in acc.vals ==> AbsorbFrom(acc, ks, f).vals[k] == acc.vals[k]
    ensures forall k :: k !in acc.vals && k in ks && f(k).Some? ==> AbsorbFrom(acc, ks, f).vals[k] == f(k).value
  {
    if ks != [] {
      var ks' := ks[..|ks| - 1];
      AbsorbFromSpec(acc, ks', f);
      assert ks == ks' + [ks[|ks| - 1]];
      assert forall j :: j in ks <==> j in ks' || j == ks[|ks| - 1];
    }
  }

  /** Prefixes of the loop over ks. */
  lemma AbsorbFromStep<V>(acc: Dict<V>, ks: seq<string>, f: string -> Option<V>, i: nat)
    requires i < |ks|
    ensures AbsorbFrom(acc, ks[..i + 1], f) ==
      var a := AbsorbFrom(acc, ks[..i], f);
      if ks[i] in a.vals then a
      else match f(ks[i])
        case None => a
        case Some(v) => a.Put(ks[i], v)
  {
    assert ks[..i + 1][..i] == ks[..i];
  }
}
