/** JavaScript values as the data-access layer receives them, and plain
    JavaScript objects as ordered lists of (key, value) entries, so that
    key order and the difference between `null` and an absent key are
    explicit. */
module Values {
  import opened Optional
  import Decimal

  /** A scalar JavaScript value. An absent key (`undefined`) is not a
      Value: it is the `None` of a lookup. */
  datatype Value = Null | Str(s: string) | Bool(b: bool) | Int(i: int)

  /** A JavaScript object: entries in insertion order (the order of
      `Object.keys` and `Object.values` for non-numeric keys). */
  type JsObject = seq<(string, Value)>

  /** JavaScript truthiness: `null`, `""`, `false` and `0` are falsy. */
  predicate Truthy(v: Value) {
    match v
    case Null => false
    case Str(s) => s != ""
    case Bool(b) => b
    case Int(i) => i != 0
  }

  /** Truthiness of a possibly absent value (`undefined` is falsy). */
  predicate Given(v: Option<Value>) {
    v.Some? && Truthy(v.value)
  }

  /** An object's keys are distinct, as they are in every JavaScript object. */
  predicate DistinctKeys<V>(o: seq<(string, V)>) {
    forall i, j :: 0 <= i < j < |o| ==> o[i].0 != o[j].0
  }

  /** `Object.keys(o)`. */
  function Keys<V>(o: seq<(string, V)>): (ks: seq<string>)
    ensures |ks| == |o|
    ensures forall i :: 0 <= i < |o| ==> ks[i] == o[i].0
  {
    seq(|o|, i requires 0 <= i < |o| => o[i].0)
  }

  /** `o[key]`: the value of the first entry with that key, if any. */
  function Get<V>(o: seq<(string, V)>, key: string): (r: Option<V>)
    ensures r.Some? <==> key in Keys(o)
    ensures forall i :: 0 <= i < |o| && o[i].0 == key && DistinctKeys(o) ==> r == Some(o[i].1)
  {
    if |o| == 0 then None
    else if o[0].0 == key then Some(o[0].1)
    else Get(o[1..], key)
  }

  /** The text of a value as node-postgres sends it for a parameter and as a
      template literal prints it (`String(v)`). */
  function ValueText(v: Value): (t: string)
    ensures Truthy(v) ==> t != ""
  {
    match v
    case Null => "null"
    case Str(s) => s
    case Bool(b) => if b then "true" else "false"
    case Int(i) => Decimal.IntToString(i)
  }

  /** The text a stored value reads as in a text column; `None` is SQL NULL. */
  function TextOf(v: Value): (t: Option<string>)
    ensures t.None? <==> v.Null?
  {
    if v.Null? then None else Some(ValueText(v))
  }
}
