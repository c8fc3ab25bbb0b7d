/** The JavaScript values that reach the pages from JSON responses, with the
    operators the pages apply to them: truthiness and `||`, `??`, strict
    equality `===`, `Number(v)` and `String(v)`. */
module JsValues {
  import opened Text
  import opened Numbers

  datatype Option<+T> = None | Some(value: T) {
    function GetOr(default: T): T {
      match this
      case Some(v) => v
      case None => default
    }
  }

  /** A value as parsed from JSON. `Object` is a plain object: `ref` stands
      for its identity (two parsed objects are never the same object) and
      `oid` for its `$oid` member (`Undefined` when it has none). */
  datatype Value =
    | Undefined
    | Null
    | Bool(b: bool)
    | Number(n: Num)
    | Str(s: string)
    | Object(ref: nat, oid: Value)

  /** Truthiness: `false`, `0`, `NaN`, `""`, `null` and `undefined` are falsy. */
  predicate Truthy(v: Value) {
    match v
    case Undefined => false
    case Null => false
    case Bool(b) => b
    case Number(n) => !n.NaN? && n != Int(0)
    case Str(s) => s != ""
    case Object(_, _) => true
  }

  /** `a || b` */
  function Or(a: Value, b: Value): (r: Value)
    ensures Truthy(r) <==> Truthy(a) || Truthy(b)
    ensures Truthy(a) ==> r == a
  {
    if Truthy(a) then a else b
  }

  /** `a || b` on an optional string (an absent value or `""` is falsy). */
  function OrText(a: Option<string>, b: string): (r: string)
    ensures a.Some? && a.value != "" ==> r == a.value
    ensures a.None? || a.value == "" ==> r == b
  {
    match a
    case Some(s) => if s != "" then s else b
    case None => b
  }

  predicate Nullish(v: Value) {
    v.Undefined? || v.Null?
  }

  /** `a ?? b` */
  function Coalesce(a: Value, b: Value): (r: Value)
    ensures !Nullish(a) ==> r == a
    ensures Nullish(a) ==> r == b
  {
    if Nullish(a) then b else a
  }

  /** `a === b`: `NaN` equals nothing, objects are equal only to themselves. */
  predicate StrictEq(a: Value, b: Value) {
    match (a, b)
    case (Undefined, Undefined) => true
    case (Null, Null) => true
    case (Bool(x), Bool(y)) => x == y
    case (Number(x), Number(y)) => !x.NaN? && x == y
    case (Str(x), Str(y)) => x == y
    case (Object(x, _), Object(y, _)) => x == y
    case _ => false
  }

  /** Every truthy value is strictly equal to itself (only `NaN` is not,
      and it is falsy). */
  lemma StrictEqReflexive(v: Value)
    requires Truthy(v)
    ensures StrictEq(v, v)
  {
  }

  /** `Number(v)` */
  function ToNumber(v: Value): (r: Num)
    ensures v.Number? ==> r == v.n
    ensures v.Null? ==> r == Int(0)
    ensures v.Undefined? || v.Object? ==> r == NaN
    ensures v.Str? ==> r == ParseNumber(v.s)
    ensures v.Bool? ==> r == Int(if v.b then 1 else 0)
  {
    match v
    case Undefined => NaN
    case Null => Int(0)
    case Bool(b) => Int(if b then 1 else 0)
    case Number(n) => n
    case Str(s) => ParseNumber(s)
    case Object(_, _) => NaN
  }

  /** `String(v)`; a plain object prints as "[object Object]". */
  function ToStr(v: Value): string {
    match v
    case Undefined => "undefined"
    case Null => "null"
    case Bool(b) => if b then "true" else "false"
    case Number(n) => NumToString(n)
    case Str(s) => s
    case Object(_, _) => "[object Object]"
  }

  /** `Number(String(n))` gives back every number. */
  lemma NumberOfPrintedNumber(n: Num)
    ensures ToNumber(Str(NumToString(n))) == n
  {
    match n
    case NaN =>
      NaNTextIsNotANumber();
    case Int(i) =>
      ParsePrintedInt(i);
    case Dec(neg, whole, frac) =>
      ParsePrintedDecimal(neg, whole, frac);
  }

  lemma NaNTextIsNotANumber()
    ensures ParseNumber("NaN") == NaN
  {
    ParseRejectsNonNumeral("NaN");
  }
}
