/** Loosely typed Python values, as found in JSON documents and in dicts
  * whose fields are not fixed. */
module PyValues {
  import opened Wrappers
  import opened PyStr
  import PyFloat

  /** A Python value.  A number carries the text `str()` prints for it; a
    * dict carries its keys in insertion order. */
  datatype PyVal =
    | PNone
    | PBool(b: bool)
    | PNum(x: real, text: string)
    | PStr(s: string)
    | PList(items: seq<PyVal>)
    | PDict(keys: seq<string>, fields: map<string, PyVal>)
    | POther(text: string)

  /** A float the program computes.  Its printed form (Python's shortest
    * round-trip repr) is not modelled: no modelled operation prints one. */
  function Num(x: real): PyVal {
    PNum(x, [])
  }

  /** An optional string as a Python value. */
  function OptText(o: Option<string>): PyVal {
    if o.Some? then PStr(o.value) else PNone
  }

  /** An optional float as a Python value. */
  function OptNum(o: Option<real>): PyVal {
    if o.Some? then Num(o.value) else PNone
  }

  /** `bool(v)`. */
  predicate Truthy(v: PyVal) {
    match v
    case PNone => false
    case PBool(b) => b
    case PNum(x, _) => x != 0.0
    case PStr(s) => s != []
    case PList(items) => items != []
    case PDict(keys, fields) => fields != map[]
    case POther(_) => true
  }

  /** `d.get(key)` on a dict's fields. */
  function Field(fields: map<string, PyVal>, key: string): PyVal {
    if key in fields then fields[key] else PNone
  }

  /** `isinstance(v, (int, float))`; `bool` is a subclass of `int`. */
  predicate IsNumber(v: PyVal) {
    v.PNum? || v.PBool?
  }

  /** `float(v)`, or None where `float()` raises. */
  function ToFloat(v: PyVal): Option<real> {
    match v
    case PNum(x, _) => Some(x)
    case PBool(b) => Some(if b then 1.0 else 0.0)
    case PStr(s) => PyFloat.Float(s)
    case _ => None
  }

  /** An argument typed `Optional[str]` that the callee tests with `if not
    * raw: return None` before calling a `str` method on it: a falsy value
    * counts as None, and a truthy non-string raises. */
  function TextArg(v: PyVal): (r: Outcome<Option<string>>)
    ensures v.PStr? ==> r == Ok(Some(v.s))
    ensures !Truthy(v) && !v.PStr? ==> r == Ok(None)
    ensures Truthy(v) && !v.PStr? ==> r.Raised?
  {
    if v.PStr? then Ok(Some(v.s)) else if !Truthy(v) then Ok(None) else Raised
  }

  /** `str(v)`; string literals inside containers are quoted without escaping. */
  function Str(v: PyVal): string
    decreases v, 1
  {
    match v
    case PNone => "None"
    case PBool(b) => if b then "True" else "False"
    case PNum(_, text) => text
    case PStr(s) => s
    case PList(items) => "[" + ReprAll(v, items) + "]"
    case PDict(_, _) => "{...}"
    case POther(text) => text
  }

  function Repr(v: PyVal): string
    decreases v, 2
  {
    if v.PStr? then "'" + v.s + "'" else Str(v)
  }

  function ReprAll(parent: PyVal, items: seq<PyVal>): string
    requires forall i :: 0 <= i < |items| ==> items[i] < parent
    decreases parent, 0, |items|
  {
    if items == [] then []
    else if |items| == 1 then Repr(items[0])
    else Repr(items[0]) + ", " + ReprAll(parent, items[1..])
  }
}
