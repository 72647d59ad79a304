/**
 * JSON-like values: request bodies, the caller-supplied payload of a medical
 * record, and the values of the dictionaries stored in blocks.  Numbers are
 * integers; floating point is not modelled.
 */
module JsonData {
  import opened Wrappers

  datatype Json =
    | JNull
    | JBool(b: bool)
    | JNum(n: int)
    | JStr(s: string)
    | JArr(items: seq<Json>)
    | JObj(fields: map<string, Json>)

  /** Python's `d.get(key, default)` on a JSON object. */
  function Get(d: map<string, Json>, key: string, default: Json): (r: Json)
    ensures key in d ==> r == d[key]
    ensures key !in d ==> r == default
  {
    if key in d then d[key] else default
  }

  /** Whether Python can put the value in a set: lists and dicts are unhashable. */
  predicate Hashable(v: Json) {
    !v.JArr? && !v.JObj?
  }

  /** The number Python sees in a bool or an integer: `True == 1` and `False == 0`. */
  function NumericValue(v: Json): (r: Option<int>)
    ensures r.Some? <==> v.JBool? || v.JNum?
    ensures v.JNum? ==> r == Some(v.n)
    ensures v.JBool? ==> r == Some(if v.b then 1 else 0)
  {
    match v
    case JBool(b) => Some(if b then 1 else 0)
    case JNum(n) => Some(n)
    case _ => None
  }

  /** Python's `==` on hashable values: equal values, or a bool and the integer it equals. */
  predicate PyEqual(x: Json, y: Json) {
    x == y || (NumericValue(x).Some? && NumericValue(x) == NumericValue(y))
  }

  /**
   * Python's `s.add(x)`: when the set already holds a value equal to `x`
   * (possibly `1` for `True`), the set keeps its own element unchanged.
   */
  function SetAdd(s: set<Json>, x: Json): (r: set<Json>)
    ensures s <= r <= s + {x}
    ensures exists y :: y in r && PyEqual(x, y)
    ensures r == s <==> exists y :: y in s && PyEqual(x, y)
  {
    if exists y :: y in s && PyEqual(x, y) then s else s + {x}
  }

  /** No two distinct members are equal in Python's sense, as in every Python set. */
  ghost predicate PySetShaped(s: set<Json>) {
    forall x, y :: x in s && y in s && PyEqual(x, y) ==> x == y
  }

  /** Adding keeps a set free of Python-equal duplicates. */
  lemma SetAddKeepsShape(s: set<Json>, x: Json)
    requires PySetShaped(s)
    ensures PySetShaped(SetAdd(s, x))
  {
  }
}
