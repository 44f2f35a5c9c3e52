/** Shared value types: optional values, and the JavaScript truthiness tests the handlers use. */
module Common {

  /** A request field or a parsed number that may be absent. `None` stands for
      `undefined`, `null`, or the NaN that `parseFloat`/`parseInt` return on
      text that is not a number. */
  datatype Option<T> = None | Some(value: T)

  /** A JSON request field as a destructuring default sees it: left out of
      the body, sent as `null` (which is also what `JSON.stringify` makes of
      NaN), or sent with a value. Only a field left out takes the default. */
  datatype Field<T> = Absent | Null | Value(value: T)

  /** `!x` is false for a number field: it is present, is a number and is not 0. */
  predicate TruthyReal(x: Option<real>) {
    x.Some? && x.value != 0.0
  }

  predicate TruthyInt(x: Option<int>) {
    x.Some? && x.value != 0
  }

  /** `!s` is false for a text field: it is present and not the empty string. */
  predicate TruthyText(s: Option<string>) {
    s.Some? && s.value != ""
  }

  function Max(a: real, b: real): (m: real)
    ensures m >= a && m >= b && (m == a || m == b)
  {
    if a >= b then a else b
  }
}
