/**
 * The saga half of `src/ducks/UserList.js`: `waitForModalResponse`,
 * `doFetchUserList` and `doHandleDeleteUser`, each as a pure function from
 * its inputs to the ordered trace of effects the generator yields.
 *
 * What the runtime would deliver is supplied up front: the RESOLVE_MODAL
 * payloads the two `take`s receive, in order, and how the `deleteUserById`
 * and `getList` promises settle. Nested generator calls are flattened into
 * the caller's trace.
 */
module UserListSaga {
  import opened Values
  import opened UserListReducer
  import UserService

  /** An effect the generator yields. */
  datatype Effect =
    | Put(action: Action)
      /** `take(RESOLVE_MODAL)`: suspend until any RESOLVE_MODAL action is dispatched. */
    | TakeResolution
    | CallGetList
    | CallDeleteUserById(id: int)

  const DeleteUserModal: string := "DeleteUserModal"
  const ConfirmDeleteUserModal: string := "ConfirmDeleteUserModal"

  /** How the flow reads `result.payload.action`. */
  datatype ReplyKind =
    | Close
    | Proceed
      /** `payload` is null or undefined: reading `.action` throws. */
    | Malformed

  /** Only `action === "close"` is compared; every other payload, `"accept"` or not, proceeds. */
  function Classify(reply: Option<ModalReply>): ReplyKind {
    match reply
    case None => Malformed
    case Some(r) => if r.action == Some("close") then Close else Proceed
  }

  /** How a run of `doHandleDeleteUser` ends. */
  datatype Status =
      /** Suspended in `take`, the named modal open, no resolution left in the script. */
    | AwaitingResolution(modalName: string)
      /** A modal was dismissed with `"close"`. */
    | Closed
      /** The user was deleted, the list refreshed and the modal closed. */
    | Deleted
      /** `deleteUserById` rejected; the error was put and the modal left open. */
    | DeleteFailed(error: Failure)
      /** A resolution without payload for the named modal made the generator throw outside its `try`. */
    | Crashed(modalName: string)

  datatype Run = Run(trace: seq<Effect>, status: Status)

  /** `waitForModalResponse(name)`: open the modal, then wait for a resolution. */
  function WaitForModalResponse(name: string): seq<Effect> {
    [Put(OpenModal(name)), TakeResolution]
  }

  /** The action `doFetchUserList` puts once `getList` has settled: the list, or the caught error. */
  function FetchResult(fetched: Outcome<UserMap>): Action {
    match fetched
    case Resolved(users) => FetchUserListSuccess(users)
    case Rejected(e) => FetchUserListFailure(e)
  }

  /** `doFetchUserList()`: start, ask the service, then put the result or the caught error. */
  function DoFetchUserList(fetched: Outcome<UserMap>): (t: seq<Effect>)
    ensures |t| == 3 && t[0] == Put(FetchUserListStart) && t[1] == CallGetList
    ensures fetched.Resolved? ==> t[2] == Put(FetchUserListSuccess(fetched.value))
    ensures fetched.Rejected? ==> t[2] == Put(FetchUserListFailure(fetched.error))
  {
    [Put(FetchUserListStart), CallGetList, Put(FetchResult(fetched))]
  }

  /** Both resolutions were read and neither said `"close"`. */
  predicate ProceedsTwice(replies: seq<Option<ModalReply>>) {
    |replies| >= 2 && Classify(replies[0]) == Proceed && Classify(replies[1]) == Proceed
  }

  /** The first resolution, or the second after a proceeding first, said `"close"`. */
  predicate ClosedByUser(replies: seq<Option<ModalReply>>) {
    || (|replies| >= 1 && Classify(replies[0]) == Close)
    || (|replies| >= 2 && Classify(replies[0]) == Proceed && Classify(replies[1]) == Close)
  }

  /** Every `take` comes right after the `OPEN_MODAL` it waits on. */
  predicate OpensBeforeTakes(t: seq<Effect>) {
    forall i :: 0 <= i < |t| && t[i].TakeResolution? ==> 0 < i && t[i - 1].Put? && t[i - 1].action.OpenModal?
  }

  /**
   * The `try` block of `doHandleDeleteUser`, reached after two proceeding
   * resolutions: put DELETE_USER_START, call the service, and on success put
   * DELETE_USER_SUCCESS, refresh the list and close the modal; a rejected
   * delete is caught and put as DELETE_USER_FAILURE.
   */
  function TryDelete(userId: int, deleted: Outcome<UserMap>, fetched: Outcome<UserMap>): (r: Run)
    ensures |r.trace| >= 3 && r.trace[..2] == [Put(DeleteUserStart), CallDeleteUserById(userId)]
    ensures r.status.Deleted? <==> deleted.Resolved?
    ensures r.status.DeleteFailed? <==> deleted.Rejected?
    ensures deleted.Rejected? ==> r.status.error == deleted.error && r.trace[2..] == [Put(DeleteUserFailure(deleted.error))]
    ensures deleted.Resolved? ==> r.trace[2..] == [Put(DeleteUserSuccess)] + DoFetchUserList(fetched) + [Put(CloseModal)]
  {
    var attempt := [Put(DeleteUserStart), CallDeleteUserById(userId)];
    match deleted
    case Rejected(e) => Run(attempt + [Put(DeleteUserFailure(e))], DeleteFailed(e))
    case Resolved(_) => Run(attempt + [Put(DeleteUserSuccess)] + DoFetchUserList(fetched) + [Put(CloseModal)], Deleted)
  }

  /**
   * `doHandleDeleteUser({ payload: userId })`. `replies` are the payloads of
   * the RESOLVE_MODAL actions the two `take`s receive; `deleted` and
   * `fetched` say how the service calls settle, if they are made.
   */
  function HandleDeleteUser(userId: int, replies: seq<Option<ModalReply>>,
                            deleted: Outcome<UserMap>, fetched: Outcome<UserMap>): (r: Run)
    ensures r.status.Closed? <==> ClosedByUser(replies)
    ensures r.status.Deleted? <==> ProceedsTwice(replies) && deleted.Resolved?
    ensures r.status.DeleteFailed? <==> ProceedsTwice(replies) && deleted.Rejected?
    ensures r.status.AwaitingResolution? <==> |replies| < 2 && forall i :: 0 <= i < |replies| ==> Classify(replies[i]) == Proceed
  {
    var first := WaitForModalResponse(DeleteUserModal);
    if |replies| == 0 then Run(first, AwaitingResolution(DeleteUserModal))
    else match Classify(replies[0])
      case Malformed => Run(first, Crashed(DeleteUserModal))
      case Close => Run(first + [Put(CloseModal)], Closed)
      case Proceed =>
        var second := first + WaitForModalResponse(ConfirmDeleteUserModal);
        if |replies| == 1 then Run(second, AwaitingResolution(ConfirmDeleteUserModal))
        else match Classify(replies[1])
          case Malformed => Run(second, Crashed(ConfirmDeleteUserModal))
          case Close => Run(second + [Put(CloseModal)], Closed)
          case Proceed =>
            var tail := TryDelete(userId, deleted, fetched);
            Run(second + tail.trace, tail.status)
  }
}
