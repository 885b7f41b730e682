/** Raw values submitted for a conversion form, and the two ways the converters
    turn them into numbers: Python's `float(v)` and the tolerant `float(v or 0.00)`. */
module FieldValues {
  import opened Wrappers
  import opened DecimalText

  /** A raw form value: JSON null / Python `None`, a number, or a string. */
  datatype Value = Null | Number(x: real) | Text(s: string)

  /** What `float()` raises: TypeError for `None`, ValueError for a bad literal. */
  datatype FloatError = NotStringOrNumber | InvalidLiteral(literal: string)

  type Inputs = map<string, Value>

  /** `inputs.get(key)`: an absent key reads as `None`. */
  function Get(inputs: Inputs, key: string): (v: Value)
    ensures key !in inputs ==> v == Null
    ensures key in inputs ==> v == inputs[key]
  {
    if key in inputs then inputs[key] else Null
  }

  /** `float(v)`. */
  function Float(v: Value): (r: Result<real, FloatError>)
    ensures v.Null? ==> r == Failure(NotStringOrNumber)
    ensures v.Number? ==> r == Success(v.x)
    ensures v.Text? ==> r.Success? == ParseFloat(v.s).Some?
    ensures r.Failure? && v.Text? ==> r.error == InvalidLiteral(v.s)
    ensures r.Success? && v.Text? ==> ParseFloat(v.s) == Some(r.value)
  {
    match v
    case Null => Failure(NotStringOrNumber)
    case Number(x) => Success(x)
    case Text(s) =>
      match ParseFloat(s)
      case Some(x) => Success(x)
      case None => Failure(InvalidLiteral(s))
  }

  /** Python truthiness of a raw value. */
  predicate Truthy(v: Value) {
    match v
    case Null => false
    case Number(x) => x != 0.0
    case Text(s) => |s| > 0
  }

  /** `float(v or 0.00)`: every falsy value reads as zero. */
  function FloatOrZero(v: Value): (r: Result<real, FloatError>)
    ensures !Truthy(v) ==> r == Success(0.0)
    ensures Truthy(v) ==> r == Float(v)
    ensures r.Failure? <==> v.Text? && |v.s| > 0 && ParseFloat(v.s).None?
  {
    Float(if Truthy(v) then v else Number(0.0))
  }
}
