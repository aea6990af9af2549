/** Values produced by `json.loads`, with the parts of Python's object protocol the tools rely on:
    truthiness, `str()`, `dict.get` and `isinstance` tests. */
module Json {
  import opened Wrappers
  import opened Text

  /** A decoded JSON value. Objects keep their keys in document order; `JFloat` carries
      the value and the text Python's `repr` prints for it. */
  datatype Json =
    | JNull
    | JBool(b: bool)
    | JInt(i: int)
    | JFloat(r: real, repr: string)
    | JStr(s: string)
    | JList(items: seq<Json>)
    | JObj(entries: seq<(string, Json)>)

  /** Python's `bool(value)`. */
  predicate Truthy(j: Json) {
    match j
    case JNull => false
    case JBool(b) => b
    case JInt(i) => i != 0
    case JFloat(r, _) => r != 0.0
    case JStr(s) => s != ""
    case JList(items) => items != []
    case JObj(entries) => entries != []
  }

  /** `isinstance(value, (int, float))`; `bool` is a subclass of `int` in Python. */
  predicate IsNumber(j: Json) {
    j.JBool? || j.JInt? || j.JFloat?
  }

  /** `isinstance(value, dict)`. */
  predicate IsMapping(j: Json) { j.JObj? }

  /** The keys of an object, in order. */
  function Keys(entries: seq<(string, Json)>): (r: seq<string>)
    ensures |r| == |entries|
    ensures forall i :: 0 <= i < |r| ==> r[i] == entries[i].0
  {
    if entries == [] then [] else [entries[0].0] + Keys(entries[1..])
  }

  /** `json.loads` keeps one binding per key. */
  predicate DistinctKeys(entries: seq<(string, Json)>) {
    forall i, j :: 0 <= i < j < |entries| ==> entries[i].0 != entries[j].0
  }

  /** `d.get(key)` on a decoded object: the value bound to `key`, if any. */
  function Get(entries: seq<(string, Json)>, key: string): (r: Option<Json>)
    ensures r.None? <==> forall i :: 0 <= i < |entries| ==> entries[i].0 != key
    ensures r.Some? ==> exists i :: 0 <= i < |entries| && entries[i] == (key, r.value)
  {
    if entries == [] then None
    else if entries[0].0 == key then Some(entries[0].1)
    else Get(entries[1..], key)
  }

  /** `d.get(key, default)`. */
  function GetOr(entries: seq<(string, Json)>, key: string, default: Json): Json {
    Get(entries, key).GetOr(default)
  }

  /** `value.get(key, default)` on any value; non-objects yield the default. */
  function Field(j: Json, key: string, default: Json): Json {
    if j.JObj? then GetOr(j.entries, key, default) else default
  }

  /** Python's `str()` of a bool. */
  function BoolText(b: bool): string { if b then "True" else "False" }

  /** Python's `str(value)`. Strings print as themselves; containers print their `repr`. */
  function PyStr(j: Json): string {
    match j
    case JStr(s) => s
    case _ => Repr(j)
  }

  /** Python's `repr(value)`; strings are quoted with `'` (escaping inside strings is not modelled). */
  function Repr(j: Json): string {
    match j
    case JNull => "None"
    case JBool(b) => BoolText(b)
    case JInt(i) => IntToString(i)
    case JFloat(_, text) => text
    case JStr(s) => "'" + s + "'"
    case JList(items) =>
      "[" + Join(seq(|items|, i requires 0 <= i < |items| => Repr(items[i])), ", ") + "]"
    case JObj(entries) =>
      "{" + Join(seq(|entries|, i requires 0 <= i < |entries| =>
                   "'" + entries[i].0 + "': " + Repr(entries[i].1)), ", ") + "}"
  }
}
