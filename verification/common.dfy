/** Shared vocabulary of the chat client model: identifiers, optional values and
    the shape of an answer from the remote database. */
module Common {

  /** Row identifiers are opaque; integers stand for the database's UUID strings. */
  type UserId = int
  type ConversationId = int
  type MessageId = int

  /** A JavaScript value that may be `null` or `undefined`. */
  datatype Option<+T> = None | Some(value: T) {
    /** The value when present, else the fallback. */
    function GetOr(fallback: T): T {
      match this
      case Some(v) => v
      case None => fallback
    }
  }

  /** What a remote call resolves to: its data, or an error object whose `message`
      may itself be missing. */
  datatype Reply<+T> = Data(value: T) | Error(message: Option<string>)
}
