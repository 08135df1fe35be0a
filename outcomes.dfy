/** Values returned by the cache layer's promises: a settled value or the
    error it was rejected with. */
module Outcomes {

  /** An optional argument: `None` stands for JavaScript's `undefined`. */
  datatype Option<+T> = None | Some(value: T) {
    function GetOr(default: T): T {
      match this
      case Some(v) => v
      case None => default
    }
  }

  /** The calls whose rejection the manager lets through to its caller.
      `SetCall` is the manager's own write-through `set`, which stores the
      record through the storage; the other two are storage calls. */
  datatype StorageCall = SetCall | ReleaseKeyCall | DelCall

  datatype Error =
    | StrategyNotFound(name: string)      // the registry lookup threw
    | StorageFailure(call: StorageCall)   // a storage call rejected
    | Raised(reason: string)              // whatever an executor or a strategy threw

  /** How a promise settles. */
  datatype Outcome<+T> = Ok(value: T) | Fail(error: Error)
}
