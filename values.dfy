/** Values of the registration form dictionaries.

    The intake pages hand the engine nested Python dictionaries whose leaves are
    strings or booleans. A dictionary is kept in insertion order, because the
    confirmation page lists entries in that order. */
module Values {

  datatype Option<+T> = None | Some(value: T)

  /** A leaf of a form dictionary: a Python `str` or a `bool`. */
  datatype Value = Text(s: string) | Flag(b: bool)

  /** Python truthiness of a leaf. */
  predicate Truthy(v: Value) {
    match v
    case Text(s) => s != ""
    case Flag(b) => b
  }

  /** What an f-string substitutes for the leaf (`str(v)`). */
  function Show(v: Value): string {
    match v
    case Text(s) => s
    case Flag(b) => if b then "True" else "False"
  }

  /** A Python dict, in insertion order. */
  type Dict = seq<(string, Value)>

  function Lookup(d: Dict, k: string): Option<Value> {
    if d == [] then None
    else if d[0].0 == k then Some(d[0].1)
    else Lookup(d[1..], k)
  }

  /** `d.get(k, default)` */
  function Get(d: Dict, k: string, default: Value): Value {
    match Lookup(d, k)
    case Some(v) => v
    case None => default
  }

  /** `d[k] = v`: an existing key keeps its place, a new key goes last. */
  function Put(d: Dict, k: string, v: Value): (r: Dict)
    ensures Lookup(r, k) == Some(v)
    ensures forall k' :: k' != k ==> Lookup(r, k') == Lookup(d, k')
    ensures Lookup(d, k).None? ==> r == d + [(k, v)]
    ensures Lookup(d, k).Some? ==> |r| == |d|
  {
    if d == [] then [(k, v)]
    else if d[0].0 == k then [(k, v)] + d[1..]
    else [d[0]] + Put(d[1..], k, v)
  }
}
