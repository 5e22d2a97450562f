/** Shared vocabulary: numbered lines, the exceptions the parser lets escape, results. */
module Common {

  datatype Option<+T> = None | Some(value: T)

  /** One numbered input line, the `(n, line)` pair of zini.py. */
  datatype Line = Line(n: nat, text: string)

  /** The exceptions that leave the parser. */
  datatype Error =
      /** `ParseError(n, line, comment)`; only the datetime conversion sets a comment. */
    | ParseError(n: nat, line: string, comment: Option<string>)
      /** raised by `timedelta(...)` when a duration exceeds 999999999 days */
    | OverflowError

  /** A value, or the exception raised instead of returning it. */
  datatype Result<+T> = Ok(value: T) | Err(error: Error) {
    predicate IsFailure() { Err? }

    function PropagateFailure<U>(): Result<U>
      requires Err?
    {
      Err(error)
    }

    function Extract(): T
      requires Ok?
    {
      value
    }
  }

  /** `ParseError(*token[i])`: the error that points at one line, without a comment. */
  function ErrorAt(l: Line): (e: Error)
    ensures e.ParseError? && e.n == l.n && e.line == l.text && e.comment == None
  {
    ParseError(l.n, l.text, None)
  }
}
