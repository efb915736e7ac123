/**
 * Parsed JSON as the scripts see it, with JavaScript's truthiness, the
 * value-returning `||`, `&&` and `??` operators, property reads and `String(v)`.
 * Numbers are modelled as integers (no fractions, no NaN).
 */
module Js {
  import opened Text

  datatype Value =
    | Undefined
    | Null
    | Bool(b: bool)
    | Num(n: int)
    | Str(s: string)
    | Arr(elems: seq<Value>)
    | Obj(fields: map<string, Value>)

  /** `Boolean(v)`: false for undefined, null, false, 0 and the empty string. */
  predicate Truthy(v: Value) {
    match v
    case Undefined => false
    case Null => false
    case Bool(b) => b
    case Num(n) => n != 0
    case Str(s) => s != ""
    case Arr(_) => true
    case Obj(_) => true
  }

  /** `a || b` */
  function Or(a: Value, b: Value): (r: Value)
    ensures Truthy(a) ==> r == a
    ensures !Truthy(a) ==> r == b
  {
    if Truthy(a) then a else b
  }

  /** `a && b` */
  function And(a: Value, b: Value): (r: Value)
    ensures Truthy(a) ==> r == b
    ensures !Truthy(a) ==> r == a
  {
    if Truthy(a) then b else a
  }

  predicate IsNullish(v: Value) { v == Undefined || v == Null }

  /** `a ?? b` */
  function Coalesce(a: Value, b: Value): (r: Value)
    ensures !IsNullish(a) ==> r == a
    ensures IsNullish(a) ==> r == b
  {
    if IsNullish(a) then b else a
  }

  /** An own property of an object. */
  predicate HasOwn(v: Value, field: string) {
    v.Obj? && field in v.fields
  }

  /**
   * A property read `v.field` or `v?.field`; a missing property and any
   * property of a non-object read as undefined.  (Reading a property of null
   * throws in JavaScript; callers that can meet null say so themselves.)
   */
  function Get(v: Value, field: string): (r: Value)
    ensures HasOwn(v, field) ==> r == v.fields[field]
    ensures !HasOwn(v, field) ==> r == Undefined
  {
    if HasOwn(v, field) then v.fields[field] else Undefined
  }

  function DigitChar(d: nat): (c: char)
    requires d < 10
    ensures IsDigit(c)
  {
    ('0' as int + d) as char
  }

  /** The decimal notation of a natural number. */
  function NatToString(n: nat): (r: string)
    ensures |r| >= 1
    ensures forall i :: 0 <= i < |r| ==> IsDigit(r[i])
  {
    if n < 10 then [DigitChar(n)] else NatToString(n / 10) + [DigitChar(n % 10)]
  }

  function IntToString(n: int): (r: string)
    ensures r != []
  {
    if n < 0 then "-" + NatToString(-n) else NatToString(n)
  }

  /** `String(v)`; arrays are joined with commas, null and undefined elements as empty. */
  function ToJsString(v: Value): string {
    match v
    case Undefined => "undefined"
    case Null => "null"
    case Bool(b) => if b then "true" else "false"
    case Num(n) => IntToString(n)
    case Str(s) => s
    case Arr(es) => JoinElements(es)
    case Obj(_) => "[object Object]"
  }

  function JoinElements(es: seq<Value>): string
    decreases es, 0
  {
    if es == [] then []
    else
      var first := if IsNullish(es[0]) then "" else ToJsString(es[0]);
      if |es| == 1 then first else first + "," + JoinElements(es[1..])
  }

  /** Every value other than an array stringifies to a non-empty string. */
  lemma ToJsStringNonEmpty(v: Value)
    requires !v.Arr?
    ensures ToJsString(v) != [] <==> !(v.Str? && v.s == [])
  {
  }

  /** The empty array is truthy but stringifies to the empty string. */
  lemma EmptyArrayTruthyButEmpty()
    ensures Truthy(Arr([])) && ToJsString(Arr([])) == []
  {
  }
}
