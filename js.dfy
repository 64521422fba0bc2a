/**
 * The loosely typed JavaScript values that cross the HTTP boundary: error objects,
 * response bodies and configuration entries.  Only the operators the core applies to
 * them are defined here: optional-chaining property access, truthiness, `??`, `typeof`
 * tests, `in`, and the string conversion used by `String(v)` and template literals.
 *
 * Numbers are integers (NaN and fractions are not modelled).  An object is the list of
 * its own enumerable properties in the order `Object.keys` reports them.
 */
module Js {
  import opened Text

  datatype Value =
    | Undefined
    | Null
    | Bool(b: bool)
    | Num(n: int)
    | Str(s: string)
    | Arr(elems: seq<Value>)
    | Obj(fields: seq<(string, Value)>)

  /** `v === null || v === undefined` */
  predicate IsNullish(v: Value) {
    v.Undefined? || v.Null?
  }

  /** JavaScript truthiness: `false`, `0`, `""`, `null` and `undefined` are falsy. */
  predicate Truthy(v: Value) {
    match v
    case Undefined => false
    case Null => false
    case Bool(b) => b
    case Num(n) => n != 0
    case Str(s) => s != ""
    case Arr(_) => true
    case Obj(_) => true
  }

  /** `typeof v === "object"` (true of `null`, arrays and plain objects). */
  predicate IsObjectType(v: Value) {
    v.Null? || v.Arr? || v.Obj?
  }

  /** `a ?? b` */
  function Coalesce(a: Value, b: Value): (r: Value)
    ensures !IsNullish(a) ==> r == a
    ensures IsNullish(a) ==> r == b
  {
    if IsNullish(a) then b else a
  }

  /** `a || b` */
  function OrElse(a: Value, b: Value): (r: Value)
    ensures Truthy(a) ==> r == a
    ensures !Truthy(a) ==> r == b
  {
    if Truthy(a) then a else b
  }

  /** The value of the first field named `key`, or `undefined` when there is none. */
  function Lookup(fields: seq<(string, Value)>, key: string): (r: Value)
    ensures (forall k :: 0 <= k < |fields| ==> fields[k].0 != key) ==> r == Undefined
    ensures r != Undefined ==> exists k :: 0 <= k < |fields| && fields[k].0 == key && fields[k].1 == r
  {
    if fields == [] then Undefined
    else if fields[0].0 == key then fields[0].1
    else Lookup(fields[1..], key)
  }

  /** `key in v` for an object `v` (own properties only; no prototype property is named here). */
  predicate HasKey(v: Value, key: string) {
    v.Obj? && exists k :: 0 <= k < |v.fields| && v.fields[k].0 == key
  }

  /**
   * `v?.[key]` for a named (non-index) property: `undefined` on `null`/`undefined` and on
   * primitives and arrays, which have no such own property.
   */
  function Member(v: Value, key: string): (r: Value)
    ensures !v.Obj? ==> r == Undefined
    ensures r != Undefined ==> HasKey(v, key)
  {
    if v.Obj? then Lookup(v.fields, key) else Undefined
  }

  /** `v?.[0]`: the first element of an array, the first character of a string, property "0" of an object. */
  function First(v: Value): (r: Value)
    ensures v.Arr? && v.elems != [] ==> r == v.elems[0]
    ensures v.Str? && v.s != [] ==> r == Str([v.s[0]])
    ensures (v.Arr? && v.elems == []) || (v.Str? && v.s == []) || v.Undefined? || v.Null? ==> r == Undefined
  {
    match v
    case Arr(e) => if e == [] then Undefined else e[0]
    case Str(s) => if s == [] then Undefined else Str([s[0]])
    case Obj(f) => Lookup(f, "0")
    case _ => Undefined
  }

  /**
   * `String(v)`, also what a template literal `${v}` inserts.  Arrays join their elements
   * with "," (null and undefined elements become ""); plain objects print as "[object Object]".
   */
  function ToJsString(v: Value): string
  {
    match v
    case Undefined => "undefined"
    case Null => "null"
    case Bool(b) => if b then "true" else "false"
    case Num(n) => IntToDecimal(n)
    case Str(s) => s
    case Arr(e) => JoinElements(e)
    case Obj(_) => "[object Object]"
  }

  function JoinElements(e: seq<Value>): string
    decreases e
  {
    if e == [] then ""
    else
      var head := if IsNullish(e[0]) then "" else ToJsString(e[0]);
      if |e| == 1 then head else head + "," + JoinElements(e[1..])
  }
}
