/**
 * The JavaScript values the mediator registry stores, passes around and
 * tests for truthiness. Only what the registry observes is kept: whether a
 * value is nullish, whether it is truthy, which own properties an object
 * has, and what calling a function does (return a value or throw one).
 */
module JsValues {

  datatype Option<+T> = None | Some(value: T)

  /** What calling a function does: it returns a value or throws one. */
  datatype Outcome = Returns(result: Value) | Throws(error: Value)

  /**
   * A JavaScript value. Booleans, numbers, strings, symbols and bigints are
   * folded into `Primitive`, which keeps only their truthiness; objects keep
   * a heap reference and their own properties; a function keeps a heap
   * reference and the outcome of calling it.
   */
  datatype Value =
    | Undefined
    | Null
    | Primitive(truthy: bool)
    | Object(ref: nat, props: map<string, Value>)
    | Function(ref: nat, outcome: Outcome)

  /** `undefined` and `null`: reading a property of either throws a TypeError. */
  predicate Nullish(v: Value) {
    v.Undefined? || v.Null?
  }

  /** The truthiness test behind `!x` and `x || y`. */
  predicate Truthy(v: Value) {
    match v
    case Undefined => false
    case Null => false
    case Primitive(t) => t
    case Object(_, _) => true
    case Function(_, _) => true
  }

  /** Property read `v[key]` on a value that is not nullish. */
  function Property(v: Value, key: string): Value
    requires !Nullish(v)
  {
    if v.Object? && key in v.props then v.props[key] else Undefined
  }

  /**
   * `typeof v[key] === 'function'` for a value that is not nullish. Only an
   * object can carry a handler, and every object is truthy.
   */
  predicate HasMethod(v: Value, key: string)
    requires !Nullish(v)
    ensures HasMethod(v, key) ==> v.Object? && key in v.props && v.props[key].Function? && Truthy(v)
  {
    Property(v, key).Function?
  }
}
