/**
 * The JavaScript scalar values that EXIF tags and translated EXIF data carry,
 * with JavaScript's truthiness and its `String(value)` conversion (which is
 * what template literals and `toString()` produce for these values).
 */
module JsValue {
  import opened Wrappers
  import opened Text

  /** Numbers are integral: fractional numbers and NaN are not modelled. */
  datatype Scalar = Null | Bool(b: bool) | Num(n: int) | Str(s: string)

  /** `!!value`: `null`, `false`, `0` and `""` are the falsy scalars. */
  predicate Truthy(v: Scalar)
  {
    match v
    case Null => false
    case Bool(b) => b
    case Num(n) => n != 0
    case Str(s) => s != ""
  }

  /** `String(value)`; a string is its own text and a number is its decimal text. */
  function ToText(v: Scalar): (t: string)
    ensures v.Str? ==> t == v.s
    ensures v.Num? ==> ParseInt(t) == Some(v.n)
  {
    match v
    case Null => "null"
    case Bool(b) => if b then "true" else "false"
    case Num(n) => IntTextRoundTrip(n); IntText(n)
    case Str(s) => s
  }
}
