/** Failure-compatible result type shared by the query front end and the two storage models,
    and the error taxonomy of the query front end. */
module Results {

  /** Either a value or the error that a Python call would have raised. */
  datatype Result<+T, +E> = Ok(value: T) | Err(error: E) {

    predicate IsFailure() {
      Err?
    }

    function PropagateFailure<U>(): Result<U, E>
      requires Err?
    {
      Err(error)
    }

    function Extract(): T
      requires Ok?
    {
      value
    }
  }

  datatype Option<+T> = None | Some(value: T)

  /** What parsing or evaluating a query can raise. */
  datatype QueryError =
    | LexError          // no token class matches at some position
    | SyntaxError       // the token stream is not exactly one `(func param*)`
    | UnknownFunction(name: string)  // KeyError from the function dictionary
    | ArityError        // a builtin called with a number of arguments it does not accept
    | TypeError         // an operand of the wrong kind (e.g. a string given to `+`)
    | ZeroDivision      // `/` or `//` with a zero divisor
    | FloatArithmetic   // arithmetic on a float literal (floats are kept as tags only)
}
