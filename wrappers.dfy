/** Optional values and the exceptions the bot's Python code can raise on the paths that are modelled. */
module Wrappers {

  datatype Option<+T> = None | Some(value: T) {
    function GetOr(default: T): T {
      match this
      case Some(v) => v
      case None => default
    }
  }

  /** The exceptions that decide control flow somewhere in the model:
      `int()` on a malformed string, indexing past the end of a `split` result,
      a constraint the database refuses (CHECK, UNIQUE, FOREIGN KEY), a text
      too long for its VARCHAR column, and reading a missing key of a dialogue's
      record. */
  datatype Exception = ValueError | IndexError | IntegrityError | DataError | KeyError

  /** What a Python expression does: return a value or raise. */
  datatype Outcome<+T> = Ok(value: T) | Raised(error: Exception)
}
