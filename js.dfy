/**
 * The JavaScript values that flow through the scripts: rows read from the
 * NocoDB API, attachment descriptors and payloads sent to PocketBase.
 * Numbers are finite reals (JSON cannot carry NaN or Infinity), and the parts
 * of the runtime that are not modelled — `Number(string)`, number-to-string
 * formatting and `JSON.parse` — are parameters bundled in `Host`.
 */
module Js {
  import opened Wrappers
  import Strings

  datatype Value =
    | Undef
    | Null
    | Bool(b: bool)
    | Num(n: real)
    | Str(s: string)
    | Arr(items: seq<Value>)
    | Obj(fields: map<string, Value>)

  /** A plain object, such as a row or a payload. */
  type Record = map<string, Value>

  /**
   * The unmodelled runtime: `parse` is `Number(s)` on a string (None when the
   * result is NaN or infinite), `format` is `String(n)` on a number and
   * `json` is `JSON.parse` (None when it throws).
   */
  datatype Host = Host(parse: string -> Option<real>, format: real -> string, json: string -> Option<Value>)

  /** JavaScript truthiness. */
  predicate Truthy(v: Value) {
    match v
    case Undef => false
    case Null => false
    case Bool(b) => b
    case Num(n) => n != 0.0
    case Str(s) => s != ""
    case Arr(_) => true
    case Obj(_) => true
  }

  /** `row.key`: a missing key reads as `undefined`. */
  function Get(r: Record, key: string): (v: Value)
    ensures key !in r ==> v == Undef
  {
    if key in r then r[key] else Undef
  }

  /**
   * `v.key` on a value that is not null or undefined: only objects have the
   * fields modelled here.
   */
  function Prop(v: Value, key: string): Value {
    if v.Obj? then Get(v.fields, key) else Undef
  }

  /** `String(v)`. */
  function ToStr(host: Host, v: Value): string
    decreases v, 1
  {
    match v
    case Undef => "undefined"
    case Null => "null"
    case Bool(b) => if b then "true" else "false"
    case Num(n) => host.format(n)
    case Str(s) => s
    case Arr(items) => JoinElements(host, v, 0)
    case Obj(_) => "[object Object]"
  }

  /**
   * `Array.prototype.toString` on the elements of `arr` from `from` on:
   * joined with commas, null and undefined written as nothing.
   */
  function JoinElements(host: Host, arr: Value, from: nat): string
    requires arr.Arr? && from <= |arr.items|
    decreases arr, 0, |arr.items| - from
  {
    if from == |arr.items| then ""
    else
      var item := arr.items[from];
      var first := if item.Null? || item.Undef? then "" else ToStr(host, item);
      if from + 1 == |arr.items| then first else first + "," + JoinElements(host, arr, from + 1)
  }

  /** `Number(v)`, with None standing for NaN or an infinite result. */
  function ToNumber(host: Host, v: Value): Option<real> {
    match v
    case Undef => None
    case Null => Some(0.0)
    case Bool(b) => Some(if b then 1.0 else 0.0)
    case Num(n) => Some(n)
    case Str(s) => host.parse(s)
    case Arr(_) => host.parse(ToStr(host, v))
    case Obj(_) => host.parse(ToStr(host, v))
  }

  /** `a || b || ...`: the first truthy value, else the last one. */
  function FirstTruthy(vs: seq<Value>): (r: Value)
    requires vs != []
    ensures Truthy(r) <==> exists i :: 0 <= i < |vs| && Truthy(vs[i])
    ensures Truthy(r) ==> exists i :: 0 <= i < |vs| && vs[i] == r && forall j :: 0 <= j < i ==> !Truthy(vs[j])
  {
    if |vs| == 1 || Truthy(vs[0]) then vs[0]
    else
      var r := FirstTruthy(vs[1..]);
      assert forall i :: 1 <= i < |vs| ==> vs[i] == vs[1..][i - 1];
      r
  }

  lemma FirstTruthyPair(a: Value, b: Value)
    ensures FirstTruthy([a, b]) == if Truthy(a) then a else b
  {
    assert [a, b][1..] == [b];
  }

  lemma FirstTruthyTriple(a: Value, b: Value, c: Value)
    ensures FirstTruthy([a, b, c]) == if Truthy(a) then a else if Truthy(b) then b else c
  {
    assert [a, b, c][1..] == [b, c];
    FirstTruthyPair(b, c);
  }

  function StrOrUndef(v: Option<string>): Value {
    if v.Some? then Str(v.value) else Undef
  }
}
