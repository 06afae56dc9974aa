/** Failure-carrying values shared by the model: the plugin reports every
    error by throwing, which the model turns into a `Failure` value. */
module Results {

  /** A possibly-absent value; stands for a C# reference that may be null. */
  datatype Option<+T> = None | Some(value: T)

  /** The two kinds of exception the plugin lets escape. */
  datatype Error =
    /** A git command failed; `message` is the executor's diagnostic. */
    | CommandFailed(message: string)
    /** The history text could not be deserialised; `cause` is the reason
        the deserialiser gave, wrapped under a fixed message. */
    | HistoryParsingFailed(cause: string)
  {
    /** The exception message a caller sees. */
    function Message(): string {
      match this
      case CommandFailed(m) => m
      case HistoryParsingFailed(_) => "History Parsing Failed"
    }
  }

  /** Either a value or the exception that replaced it. */
  datatype Result<+T> = Success(value: T) | Failure(error: Error)
}
