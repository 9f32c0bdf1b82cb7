/** The values a handler reads out of a parsed JSON request body. */
module JsValues {

  /** `Undefined` is a field the body does not carry. Arrays and objects are
      one opaque `Composite` value: it is truthy, it is never a string or a
      number, and as a `parentIndex` it is deliberately treated as naming no
      node (JavaScript would convert it to a string key first). Numbers are
      exact reals: IEEE-754 rounding, NaN and the infinities are not
      modelled. */
  datatype Value =
    | Undefined
    | Null
    | Bool(b: bool)
    | Num(n: real)
    | Str(s: string)
    | Composite

  /** The falsy values of ECMA-262 (2023 edition), section 7.1.2 (ToBoolean)
      that a parsed body can hold: `undefined`, `null`, `false`, `0` and `""`.
      NaN and `-0` do not arise with exact reals. */
  const Falsy: set<Value> := {Undefined, Null, Bool(false), Num(0.0), Str("")}

  /** JavaScript's ToBoolean, decided per kind of value. */
  predicate Truthy(v: Value) {
    match v
    case Undefined => false
    case Null => false
    case Bool(b) => b
    case Num(n) => n != 0.0
    case Str(s) => |s| > 0
    case Composite => true
  }

  /** Truthiness agrees with the table of falsy values: a value is falsy
      exactly when it is one of them. */
  lemma TruthyAgreesWithFalsyTable(v: Value)
    ensures Truthy(v) <==> v !in Falsy
  {
  }
}
