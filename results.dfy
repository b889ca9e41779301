/** Failure-carrying wrappers shared by the availability modules. */
module Results {

  /** A value that may be absent (JavaScript `undefined`/`null`). */
  datatype Option<+T> = None | Some(value: T)

  /** The outcome of an asynchronous call: its value, or the exception it threw
      (only the message is kept). */
  datatype Outcome<+T> = Ok(value: T) | Thrown(message: string)

  /** What an action handler answers: `{success: true, message, data}` or
      `{success: false, error, data: null}`. */
  datatype Reply<+D> = Success(message: string, data: D) | Failure(error: string)

  /** A handler parameter JavaScript treats as falsy: absent, null or "". */
  predicate Missing(p: Option<string>) {
    p.None? || p.value == ""
  }
}
