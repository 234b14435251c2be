/** Failure-carrying values shared by the whole model.

    The PHP code reports every failure by throwing; here an operation that can
    throw returns a `Result`, and an operation that applies a list of updates
    one by one (and therefore leaves earlier updates in place when a later one
    throws) returns an `Applied` value holding the state reached and the index
    of the update that failed, if any. */
module Results {

  /** PHP's `null` next to a value. */
  datatype Option<+T> = None | Some(value: T) {

    function GetOr(default: T): T {
      match this
      case Some(v) => v
      case None => default
    }
  }

  /** The exceptions thrown by the core, one constructor per distinct cause. */
  datatype Error =
    | InvalidHandle(handle: string)
    | InvalidPage(page: string)
    | InvalidQualifier(qualifier: string)
    | InvalidRotation(rotation: string)
    | UnknownOption(option: string)
    | DuplicateOption(option: string)
    | DuplicateField(field: string)
    | UnknownField(field: string)
    | MissingFilePath
    | MissingInput
    | MissingOutput
    | ProcessFailed(status: int, stdout: string, stderr: string, command: string)

  datatype Result<+T> = Ok(value: T) | Err(error: Error) {

    predicate IsFailure() {
      Err?
    }

    function PropagateFailure<U>(): Result<U>
      requires Err?
    {
      Err(error)
    }

    function Extract(): T
      requires Ok?
    {
      value
    }
  }

  /** Success or failure of a check that produces no value. */
  datatype Outcome = Pass | Fail(error: Error)

  /** The state reached by applying a list of updates in order, stopping at
      the first one that fails; `failedAt` is that update's index. */
  datatype Applied<+T> = Applied(state: T, failedAt: Option<nat>) {

    /** The same outcome seen from one update earlier in the list. */
    function Shifted(): Applied<T> {
      match failedAt
      case Some(k) => Applied(state, Some(k + 1))
      case None => this
    }

    /** How many updates took effect. */
    function Count(total: nat): nat {
      match failedAt
      case Some(k) => k
      case None => total
    }
  }
}
