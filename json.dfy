/**
 * The untyped request payloads the controllers inspect with `typeof`,
 * `Array.isArray` and truthiness tests, as JavaScript values.
 */
module Json {
  import opened Base

  /**
   * A JavaScript value as it can appear in a parsed JSON request body;
   * `Undefined` stands for an absent property. Numbers are modelled as
   * reals: NaN and the infinities are not represented.
   */
  datatype Value =
    | Undefined
    | Null
    | Bool(b: bool)
    | Num(n: real)
    | Str(s: string)
    | Arr(items: seq<Value>)
    | Obj(fields: map<string, Value>)

  /** JavaScript truthiness: what `!v` negates. */
  predicate Truthy(v: Value) {
    match v
    case Undefined => false
    case Null => false
    case Bool(b) => b
    case Num(n) => n != 0.0
    case Str(s) => s != ""
    case Arr(_) => true
    case Obj(_) => true
  }

  /**
   * Property access `v.key`: a TypeError (caught by the handler and
   * answered with 500) on `null` and `undefined`; `undefined` for a missing
   * property. The keys the controllers read ("questionText", "options",
   * "marks", "optionText", "isCorrect") are not properties of any
   * primitive or of `Array.prototype`/`Object.prototype`.
   */
  function Get(v: Value, key: string): (r: Result<Value>)
    ensures r.Err? <==> v.Undefined? || v.Null?
    ensures r.Err? ==> r.error == ServerError
    ensures r.Ok? && v.Obj? && key in v.fields ==> r.value == v.fields[key]
    ensures r.Ok? && !(v.Obj? && key in v.fields) ==> r.value == Undefined
  {
    match v
    case Undefined => Err(ServerError)
    case Null => Err(ServerError)
    case Obj(m) => Ok(if key in m then m[key] else Undefined)
    case _ => Ok(Undefined)
  }

  /** `!x || typeof x !== "string"` is false exactly for a non-empty string. */
  predicate IsNonEmptyString(v: Value) {
    Truthy(v) && v.Str?
  }

  /** `typeof x !== "number" || x <= 0` is false exactly for a positive number. */
  predicate IsPositiveNumber(v: Value) {
    v.Num? && v.n > 0.0
  }

  /** `typeof x !== "number" || x < 0` is false exactly for a non-negative number. */
  predicate IsNonNegativeNumber(v: Value) {
    v.Num? && v.n >= 0.0
  }

  /** `Array.isArray(x) && x.length > 0`. */
  predicate IsNonEmptyArray(v: Value) {
    v.Arr? && |v.items| > 0
  }
}
