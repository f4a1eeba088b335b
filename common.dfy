/** Values shared by the server and the web client models. */
module Common {

  /** A value that may be absent: JavaScript's `undefined`/`null`. */
  datatype Option<T> = None | Some(value: T)

  /** Database identifiers are opaque strings (uuids in the store). */
  type Id = string

  /** JavaScript truthiness of an optional string: `undefined`, `null` and "" are falsy. */
  predicate Truthy(s: Option<string>)
  {
    s.Some? && s.value != ""
  }

  /** JavaScript truthiness of an optional number: `undefined`, `null` and 0 are falsy. */
  predicate TruthyNumber(n: Option<int>)
  {
    n.Some? && n.value != 0
  }

  /** An HTTP response as the Express handlers write it. */
  datatype Reply<T> =
    | Json(status: int, value: T)          // res.status(s).json(value)
    | Message(status: int, text: string)   // res.status(s).json({ message: text })
    | ErrorBody(status: int, text: string) // res.status(s).json({ error: text })
    | Empty(status: int)                   // res.status(s).send()
  {
    function Status(): int
    {
      match this
      case Json(s, _) => s
      case Message(s, _) => s
      case ErrorBody(s, _) => s
      case Empty(s) => s
    }
  }

  /** The message every controller answers with when the store throws. */
  const SOMETHING_WENT_WRONG := "Something went wrong"
}
