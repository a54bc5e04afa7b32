/** JavaScript values that the product form's logic produces or inspects. */
module JsValues {

  /** A value that may be `undefined`. */
  datatype Option<+T> = None | Some(value: T) {

    /** The value, or `default` where JavaScript would apply a default parameter. */
    function GetOr(default: T): T {
      if Some? then value else default
    }
  }

  /** The outcome of evaluating an expression that may throw a `TypeError`. */
  datatype Completion<+T> = Normal(value: T) | TypeError

  /** What `Number(...)` yields on the arguments this model meets. */
  datatype JsNumber =
    | Finite(value: nat)        // a non-negative integer, held exactly
    | UndefinedNaN              // the NaN of `Number(undefined)`
    | NotDecimal(text: string)  // `Number` of a string that is neither empty nor plain decimal
                                // digits, left unevaluated: JavaScript trims surrounding
                                // white space (so `'  '` is 0 and `' 12 '` is 12), reads a
                                // signed, fractional, exponent, hexadecimal or `Infinity`
                                // literal, and gives NaN for the rest (say for `'abc'`)

  /** `xs[i]` on a JavaScript array: `undefined` past the end. */
  function At<T>(xs: seq<T>, i: nat): (r: Option<T>)
    ensures r.Some? <==> i < |xs|
    ensures r.Some? ==> r.value == xs[i]
  {
    if i < |xs| then Some(xs[i]) else None
  }
}
