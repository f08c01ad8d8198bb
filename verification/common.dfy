/** Value types shared by every part of the model: optional values, results,
    JSON object fields as `dict.get` sees them, JSON scalars, and the
    insertion-ordered dictionaries the route handlers fill in loops. */
module Common {

  datatype Option<T> = None | Some(value: T)

  datatype Result<T, E> = Ok(value: T) | Err(error: E)

  /** One key of a JSON object: missing, present with `null`, or present with a value.
      `dict.get(k, default)` yields the default only for `Absent`; a `Null` field
      yields Python's `None`. */
  datatype Field<T> = Absent | Null | Present(value: T)

  /** A list field read with `dict.get(k, [])`: a missing key, `null` and `[]` all
      produce no items (the first is the default, the second is falsy). */
  function ListOrEmpty<T>(f: Field<seq<T>>): (r: seq<T>)
    ensures f.Present? ==> r == f.value
    ensures !f.Present? ==> r == []
  {
    if f.Present? then f.value else []
  }

  /** JSON scalar values (a token claim, a chat body, an evaluation score). */
  datatype Json = JNull | JBool(b: bool) | JInt(i: int) | JNum(r: real) | JStr(s: string)

  /** A JSON object: (key, value) pairs in insertion order. */
  type Record = seq<(string, Json)>

  /** Python truthiness of a JSON scalar. */
  predicate Truthy(v: Json)
  {
    match v
    case JNull => false
    case JBool(b) => b
    case JInt(i) => i != 0
    case JNum(r) => r != 0.0
    case JStr(s) => s != ""
  }

  /** A request string read with `data.get(k)` is "given" when it is not `None` and not empty. */
  predicate Given(s: Option<string>)
  {
    s.Some? && s.value != ""
  }

  /** The keys of an insertion-ordered dictionary, in order. */
  function Keys<K, V>(d: seq<(K, V)>): (ks: seq<K>)
    ensures |ks| == |d|
    ensures forall i :: 0 <= i < |d| ==> ks[i] == d[i].0
  {
    if d == [] then [] else [d[0].0] + Keys(d[1..])
  }

  /** `d.get(k)`: the value stored under `k`, if any. */
  function Get<K(==), V>(d: seq<(K, V)>, k: K): (r: Option<V>)
    ensures r.Some? <==> k in Keys(d)
  {
    if d == [] then None
    else if d[0].0 == k then Some(d[0].1)
    else Get(d[1..], k)
  }

  /** `d[k] = v` on a Python dict: an existing key keeps its place and gets the new
      value; a new key goes at the end. */
  function Put<K(==,!new), V>(d: seq<(K, V)>, k: K, v: V): (r: seq<(K, V)>)
    ensures Get(r, k) == Some(v)
    ensures forall k' :: k' != k ==> Get(r, k') == Get(d, k')
    ensures k in Keys(d) ==> Keys(r) == Keys(d)
    ensures k !in Keys(d) ==> Keys(r) == Keys(d) + [k]
  {
    if d == [] then [(k, v)]
    else if d[0].0 == k then
      var r := [(k, v)] + d[1..];
      assert r[1..] == d[1..];
      r
    else
      var rest := Put(d[1..], k, v);
      var r := [d[0]] + rest;
      assert r[0] == d[0] && r[1..] == rest;
      assert k in Keys(d) <==> k in Keys(d[1..]);
      r
  }
}
