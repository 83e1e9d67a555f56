/** Values shared by the user service, the store and the delete-confirmation flow. */
module Values {

  /** Stands for a JavaScript value that may be `null` / `undefined`. */
  datatype Option<+T> = None | Some(value: T) {

    /** The value, or `default` when absent (a defaulted parameter). */
    function GetOr(default: T): T {
      match this
      case Some(v) => v
      case None => default
    }
  }

  /** A user record `{ id, name }` as the service stores it. */
  datatype User = User(id: int, name: string)

  /** The service's id-to-user object. Object keys are numeric ids here. */
  type UserMap = map<int, User>

  /** An error object. The core never inspects it; it only passes it along. */
  datatype Failure = Failure(message: string)

  /** How the promise returned by a service call settles. */
  datatype Outcome<+T> = Resolved(value: T) | Rejected(error: Failure)
}
