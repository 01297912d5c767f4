/**
 * Request and response values as the route handlers see them, once Express
 * has parsed the JSON body and the path.  JavaScript's loose coercions are
 * abstracted into small datatypes: a text field is either `undefined` or a
 * string, and a numeric field records what `Number(...)` makes of it.
 */
module Wire {

  datatype Option<+T> = None | Some(value: T)

  /** The outcome of a validation step: a value, or the exact error message. */
  datatype Result<+T> = Ok(value: T) | Fail(error: string)

  /** A text field of a JSON body: `undefined`, or a string. */
  datatype Text = Missing | Given(s: string)

  /** JavaScript truthiness of a text field: `undefined` and `""` are falsy. */
  predicate Truthy(t: Text)
  {
    t.Given? && t.s != ""
  }

  /**
   * A numeric field of a JSON body: `undefined`, a value that `Number(...)`
   * turns into the number `v`, or one it turns into `NaN`.
   */
  datatype Coerced<+T> = Absent | Num(v: T) | NaN

  /** The `:id` path segment after `Number(req.params.id)`. */
  datatype PathId = Id(n: int) | NotNumeric

  /** A response body: a JSON value, `{ error: message }`, or nothing (204). */
  datatype Payload<+T> = Json(value: T) | Error(message: string) | NoContent

  datatype Reply<+T> = Reply(status: int, body: Payload<T>)

  /** The body the top-level error handler sends for every uncaught failure. */
  const InternalErrorMsg := "Internal server error."
}
