/** The values a metadata record holds, and Python's `str()` of each. */
module Values {
  import opened Strings
  import opened Dicts

  /** A record value: `str`, `int`, `bool`, `float` (carried as its Python text, since floating point is
      not modelled), `None`, or any other object (bytes, tuples, lists, rationals), carried as its `str()` text. */
  datatype Value = Str(s: string) | Int(i: int) | Bool(b: bool) | Float(text: string) | NoneValue | Other(text: string)

  /** A metadata record as the readers return it: string keys in reporting order. */
  type Record = Dict<string, Value>

  /** Python `str(v)` (and `f"{v}"`). */
  function Show(v: Value): string {
    match v
    case Str(s) => s
    case Int(i) => IntToString(i)
    case Bool(b) => if b then "True" else "False"
    case Float(t) => t
    case NoneValue => "None"
    case Other(t) => t
  }

  /** `isinstance(v, (int, float, str))`; `bool` is a subclass of `int`. */
  predicate IsScalar(v: Value) {
    v.Str? || v.Int? || v.Bool? || v.Float?
  }
}
