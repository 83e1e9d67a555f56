/**
 * What the delete-confirmation flow does to the store and to the service:
 * the effects of `UserListSaga` are folded through `UserListReducer.Reduce`
 * (every `put` is dispatched, in order) and the service calls are replayed on
 * a `UserService` instance.
 */
module UserListSagaProperties {
  import opened Values
  import opened UserListReducer
  import opened UserListSaga
  import UserService

  /** The actions a trace `put`s, in order. */
  function Dispatched(t: seq<Effect>): (actions: seq<Action>)
    ensures |actions| <= |t|
    decreases |t|
  {
    if |t| == 0 then []
    else (if t[0].Put? then [t[0].action] else []) + Dispatched(t[1..])
  }

  /** The ids a trace passes to `deleteUserById`, in order. */
  function DeleteCalls(t: seq<Effect>): (ids: seq<int>)
    ensures |ids| <= |t|
    decreases |t|
  {
    if |t| == 0 then []
    else (if t[0].CallDeleteUserById? then [t[0].id] else []) + DeleteCalls(t[1..])
  }

  /** `Dispatched` keeps exactly the `put` actions. */
  lemma {:induction false} DispatchedIsPuts(t: seq<Effect>)
    ensures forall a :: a in Dispatched(t) <==> Put(a) in t
    decreases |t|
  {
    if |t| > 0 {
      DispatchedIsPuts(t[1..]);
      assert t == [t[0]] + t[1..];
    }
  }

  /** `DeleteCalls` keeps exactly the ids of the `deleteUserById` calls. */
  lemma {:induction false} DeleteCallsAreCalls(t: seq<Effect>)
    ensures forall id :: id in DeleteCalls(t) <==> CallDeleteUserById(id) in t
    decreases |t|
  {
    if |t| > 0 {
      DeleteCallsAreCalls(t[1..]);
      assert t == [t[0]] + t[1..];
    }
  }

  /** A trace without `deleteUserById` calls has no delete ids. */
  lemma {:induction false} NoDeleteCalls(t: seq<Effect>)
    requires forall i :: 0 <= i < |t| ==> !t[i].CallDeleteUserById?
    ensures DeleteCalls(t) == []
    decreases |t|
  {
    if |t| > 0 {
      NoDeleteCalls(t[1..]);
    }
  }

  /** The store state after every `put` of the trace has gone through the reducer. */
  function Apply(s: State, t: seq<Effect>): State {
    ReduceAll(s, Dispatched(t))
  }

  lemma {:induction false} DispatchedAppend(t: seq<Effect>, u: seq<Effect>)
    ensures Dispatched(t + u) == Dispatched(t) + Dispatched(u)
    decreases |t|
  {
    if |t| == 0 {
      assert t + u == u;
    } else {
      var head := (if t[0].Put? then [t[0].action] else []);
      assert (t + u)[0] == t[0];
      assert (t + u)[1..] == t[1..] + u;
      assert Dispatched(t + u) == head + Dispatched(t[1..] + u);
      DispatchedAppend(t[1..], u);
      assert head + (Dispatched(t[1..]) + Dispatched(u)) == (head + Dispatched(t[1..])) + Dispatched(u);
    }
  }

  lemma {:induction false} DeleteCallsAppend(t: seq<Effect>, u: seq<Effect>)
    ensures DeleteCalls(t + u) == DeleteCalls(t) + DeleteCalls(u)
    decreases |t|
  {
    if |t| == 0 {
      assert t + u == u;
    } else {
      var head := (if t[0].CallDeleteUserById? then [t[0].id] else []);
      assert (t + u)[0] == t[0];
      assert (t + u)[1..] == t[1..] + u;
      assert DeleteCalls(t + u) == head + DeleteCalls(t[1..] + u);
      DeleteCallsAppend(t[1..], u);
      assert head + (DeleteCalls(t[1..]) + DeleteCalls(u)) == (head + DeleteCalls(t[1..])) + DeleteCalls(u);
    }
  }

  /** Folding a concatenated trace is folding the first part, then the second. */
  lemma ApplyAppend(s: State, t: seq<Effect>, u: seq<Effect>)
    ensures Apply(s, t + u) == Apply(Apply(s, t), u)
  {
    DispatchedAppend(t, u);
    ReduceAllAppend(s, Dispatched(t), Dispatched(u));
  }

  lemma ApplyPut(s: State, a: Action)
    ensures Apply(s, [Put(a)]) == Reduce(s, a)
  {
    assert Dispatched([Put(a)]) == [a];
    ReduceAllSingle(s, a);
  }

  /** Effects other than `put` leave the store alone. */
  lemma ApplyQuiet(s: State, e: Effect)
    requires !e.Put?
    ensures Apply(s, [e]) == s
  {
  }

  /** `waitForModalResponse(name)` leaves exactly `modal.name = name` behind. */
  lemma ApplyWait(s: State, name: string)
    ensures Apply(s, WaitForModalResponse(name)) == Reduce(s, OpenModal(name))
  {
    assert WaitForModalResponse(name) == [Put(OpenModal(name))] + [TakeResolution];
    ApplyAppend(s, [Put(OpenModal(name))], [TakeResolution]);
    ApplyPut(s, OpenModal(name));
    ApplyQuiet(Reduce(s, OpenModal(name)), TakeResolution);
  }

  /**
   * `doFetchUserList` always ends with `isLoading = false`. A resolved fetch
   * replaces `data` and keeps `error`; a rejected one records the error and
   * keeps `data`. The modal and the delete flag are never touched.
   */
  lemma FetchFlowFolds(s: State, fetched: Outcome<UserMap>)
    ensures Apply(s, DoFetchUserList(fetched)).modal == s.modal
    ensures Apply(s, DoFetchUserList(fetched)).userList ==
      match fetched
      case Resolved(users) => s.userList.(isLoading := Some(false), data := users)
      case Rejected(e) => s.userList.(isLoading := Some(false), error := Some(e))
  {
    var t := DoFetchUserList(fetched);
    var s1 := Reduce(s, FetchUserListStart);
    assert t == [Put(FetchUserListStart)] + ([CallGetList] + [t[2]]);
    ApplyAppend(s, [Put(FetchUserListStart)], [CallGetList] + [t[2]]);
    ApplyPut(s, FetchUserListStart);
    ApplyAppend(s1, [CallGetList], [t[2]]);
    ApplyQuiet(s1, CallGetList);
    ApplyPut(s1, t[2].action);
  }

  /** The store after the whole run of `doHandleDeleteUser`, starting from `s`. */
  function Final(s: State, userId: int, replies: seq<Option<ModalReply>>,
                 deleted: Outcome<UserMap>, fetched: Outcome<UserMap>): State {
    Apply(s, HandleDeleteUser(userId, replies, deleted, fetched).trace)
  }

  /** DELETE_USER_START and the service call: only `isDeleting` moves. */
  lemma DeleteStartFolds(s: State, userId: int, rest: seq<Effect>)
    ensures Apply(s, [Put(DeleteUserStart), CallDeleteUserById(userId)] + rest) ==
            Apply(Reduce(s, DeleteUserStart), rest)
  {
    var s1 := Reduce(s, DeleteUserStart);
    assert [Put(DeleteUserStart), CallDeleteUserById(userId)] + rest ==
           [Put(DeleteUserStart)] + ([CallDeleteUserById(userId)] + rest);
    ApplyAppend(s, [Put(DeleteUserStart)], [CallDeleteUserById(userId)] + rest);
    ApplyPut(s, DeleteUserStart);
    ApplyAppend(s1, [CallDeleteUserById(userId)], rest);
    ApplyQuiet(s1, CallDeleteUserById(userId));
  }

  /** A rejected delete records its error, clears `isDeleting` and leaves the modal open. */
  lemma TryDeleteRejectedFolds(s: State, userId: int, e: Failure, fetched: Outcome<UserMap>)
    ensures Apply(s, TryDelete(userId, Rejected(e), fetched).trace) ==
            s.(userList := s.userList.(isDeleting := false, error := Some(e)))
  {
    DeleteStartFolds(s, userId, [Put(DeleteUserFailure(e))]);
    ApplyPut(Reduce(s, DeleteUserStart), DeleteUserFailure(e));
  }

  /** A resolved delete clears `isDeleting`, refreshes the list and closes the modal. */
  lemma TryDeleteResolvedFolds(s: State, userId: int, users: UserMap, fetched: Outcome<UserMap>)
    ensures Apply(s, TryDelete(userId, Resolved(users), fetched).trace) ==
            State(match fetched
                  case Resolved(list) => s.userList.(isDeleting := false, error := None, isLoading := Some(false), data := list)
                  case Rejected(e) => s.userList.(isDeleting := false, error := Some(e), isLoading := Some(false)),
                  Modal(None))
  {
    var s3 := Reduce(s, DeleteUserStart);
    var s4 := Reduce(s3, DeleteUserSuccess);
    var fetch := DoFetchUserList(fetched);
    var rest := [Put(DeleteUserSuccess)] + (fetch + [Put(CloseModal)]);
    assert TryDelete(userId, Resolved(users), fetched).trace ==
           [Put(DeleteUserStart), CallDeleteUserById(userId)] + rest;
    DeleteStartFolds(s, userId, rest);
    ApplyAppend(s3, [Put(DeleteUserSuccess)], fetch + [Put(CloseModal)]);
    ApplyPut(s3, DeleteUserSuccess);
    ApplyAppend(s4, fetch, [Put(CloseModal)]);
    FetchFlowFolds(s4, fetched);
    ApplyPut(Apply(s4, fetch), CloseModal);
  }

  /**
   * Folded through the reducer, each way a run can end leaves the store as
   * follows: a dismissed run closes the modal and leaves `userList` alone; a
   * suspended or crashed run leaves the waiting modal open; a failed delete
   * leaves the confirm modal open with the delete error recorded; a
   * successful delete closes the modal with `isDeleting = false` and the
   * refresh's outcome in `data` / `error`.
   */
  lemma HandleDeleteFolds(s: State, userId: int, replies: seq<Option<ModalReply>>,
                          deleted: Outcome<UserMap>, fetched: Outcome<UserMap>)
    ensures HandleDeleteUser(userId, replies, deleted, fetched).status.Closed? ==>
      Final(s, userId, replies, deleted, fetched) == s.(modal := Modal(None))
    ensures HandleDeleteUser(userId, replies, deleted, fetched).status.AwaitingResolution? ==>
      Final(s, userId, replies, deleted, fetched) ==
      s.(modal := Modal(Some(HandleDeleteUser(userId, replies, deleted, fetched).status.modalName)))
    ensures HandleDeleteUser(userId, replies, deleted, fetched).status.Crashed? ==>
      Final(s, userId, replies, deleted, fetched) ==
      s.(modal := Modal(Some(HandleDeleteUser(userId, replies, deleted, fetched).status.modalName)))
    ensures HandleDeleteUser(userId, replies, deleted, fetched).status.DeleteFailed? ==>
      Final(s, userId, replies, deleted, fetched) ==
      State(s.userList.(isDeleting := false, error := Some(deleted.error)), Modal(Some(ConfirmDeleteUserModal)))
    ensures HandleDeleteUser(userId, replies, deleted, fetched).status.Deleted? ==>
      Final(s, userId, replies, deleted, fetched) ==
      State(match fetched
            case Resolved(users) => s.userList.(isDeleting := false, error := None, isLoading := Some(false), data := users)
            case Rejected(e) => s.userList.(isDeleting := false, error := Some(e), isLoading := Some(false)),
            Modal(None))
  {
    var r := HandleDeleteUser(userId, replies, deleted, fetched);
    var first := WaitForModalResponse(DeleteUserModal);
    var second := WaitForModalResponse(ConfirmDeleteUserModal);
    var s1 := Reduce(s, OpenModal(DeleteUserModal));
    var s2 := Reduce(s1, OpenModal(ConfirmDeleteUserModal));
    ApplyWait(s, DeleteUserModal);
    if |replies| == 0 || Classify(replies[0]) == Malformed {
      assert r.trace == first;
    } else if Classify(replies[0]) == Close {
      assert r.trace == first + [Put(CloseModal)];
      ApplyAppend(s, first, [Put(CloseModal)]);
      ApplyPut(s1, CloseModal);
    } else {
      ApplyWait(s1, ConfirmDeleteUserModal);
      ApplyAppend(s, first, second);
      if |replies| == 1 || Classify(replies[1]) == Malformed {
        assert r.trace == first + second;
      } else if Classify(replies[1]) == Close {
        assert r.trace == (first + second) + [Put(CloseModal)];
        ApplyAppend(s, first + second, [Put(CloseModal)]);
        ApplyPut(s2, CloseModal);
      } else {
        assert r.trace == (first + second) + TryDelete(userId, deleted, fetched).trace;
        ApplyAppend(s, first + second, TryDelete(userId, deleted, fetched).trace);
        match deleted
        case Rejected(e) => TryDeleteRejectedFolds(s2, userId, e, fetched);
        case Resolved(users) => TryDeleteResolvedFolds(s2, userId, users, fetched);
      }
    }
  }

  /*** The shape of the trace ***/

  /** Two proceeding resolutions and a resolved delete: the full ordered trace. */
  lemma AcceptedTrace(userId: int, replies: seq<Option<ModalReply>>, users: UserMap, fetched: Outcome<UserMap>)
    requires ProceedsTwice(replies)
    ensures HandleDeleteUser(userId, replies, Resolved(users), fetched).trace ==
      [ Put(OpenModal(DeleteUserModal)), TakeResolution,
        Put(OpenModal(ConfirmDeleteUserModal)), TakeResolution,
        Put(DeleteUserStart), CallDeleteUserById(userId), Put(DeleteUserSuccess),
        Put(FetchUserListStart), CallGetList, Put(FetchResult(fetched)),
        Put(CloseModal) ]
  {
  }

  /** Two proceeding resolutions and a rejected delete: the failure is put last, no CLOSE_MODAL. */
  lemma RejectedTrace(userId: int, replies: seq<Option<ModalReply>>, e: Failure, fetched: Outcome<UserMap>)
    requires ProceedsTwice(replies)
    ensures HandleDeleteUser(userId, replies, Rejected(e), fetched).trace ==
      [ Put(OpenModal(DeleteUserModal)), TakeResolution,
        Put(OpenModal(ConfirmDeleteUserModal)), TakeResolution,
        Put(DeleteUserStart), CallDeleteUserById(userId), Put(DeleteUserFailure(e)) ]
  {
  }

  /** A `"close"` at either modal: CLOSE_MODAL right after that modal's wait, and nothing else. */
  lemma ClosedTrace(userId: int, replies: seq<Option<ModalReply>>, deleted: Outcome<UserMap>, fetched: Outcome<UserMap>)
    requires ClosedByUser(replies)
    ensures HandleDeleteUser(userId, replies, deleted, fetched).trace ==
      if Classify(replies[0]) == Close
      then [Put(OpenModal(DeleteUserModal)), TakeResolution, Put(CloseModal)]
      else [Put(OpenModal(DeleteUserModal)), TakeResolution,
            Put(OpenModal(ConfirmDeleteUserModal)), TakeResolution, Put(CloseModal)]
  {
  }

  /** A run that never got two proceeding resolutions, and did not close, only opened modals and waited. */
  lemma StoppedTrace(userId: int, replies: seq<Option<ModalReply>>, deleted: Outcome<UserMap>, fetched: Outcome<UserMap>)
    requires !ProceedsTwice(replies) && !ClosedByUser(replies)
    ensures HandleDeleteUser(userId, replies, deleted, fetched).trace ==
      if |replies| == 0 || Classify(replies[0]) != Proceed
      then [Put(OpenModal(DeleteUserModal)), TakeResolution]
      else [Put(OpenModal(DeleteUserModal)), TakeResolution,
            Put(OpenModal(ConfirmDeleteUserModal)), TakeResolution]
  {
  }

  /** Exactly one `deleteUserById` call in a trace: its id is the only delete id. */
  lemma OneDeleteCall(pre: seq<Effect>, id: int, post: seq<Effect>)
    requires forall i :: 0 <= i < |pre| ==> !pre[i].CallDeleteUserById?
    requires forall i :: 0 <= i < |post| ==> !post[i].CallDeleteUserById?
    ensures DeleteCalls(pre + [CallDeleteUserById(id)] + post) == [id]
  {
    NoDeleteCalls(pre);
    NoDeleteCalls(post);
    assert DeleteCalls([CallDeleteUserById(id)]) == [id];
    DeleteCallsAppend(pre, [CallDeleteUserById(id)]);
    DeleteCallsAppend(pre + [CallDeleteUserById(id)], post);
  }

  /**
   * Deletion is gated by both modals: DELETE_USER_START is put and
   * `deleteUserById` is called exactly when two resolutions arrived and
   * neither said `"close"`, and then only once, for the requested id.
   */
  lemma DeleteIsGated(userId: int, replies: seq<Option<ModalReply>>, deleted: Outcome<UserMap>, fetched: Outcome<UserMap>)
    ensures Put(DeleteUserStart) in HandleDeleteUser(userId, replies, deleted, fetched).trace <==> ProceedsTwice(replies)
    ensures DeleteCalls(HandleDeleteUser(userId, replies, deleted, fetched).trace) ==
            if ProceedsTwice(replies) then [userId] else []
  {
    var t := HandleDeleteUser(userId, replies, deleted, fetched).trace;
    var pre := [Put(OpenModal(DeleteUserModal)), TakeResolution,
                Put(OpenModal(ConfirmDeleteUserModal)), TakeResolution, Put(DeleteUserStart)];
    if ProceedsTwice(replies) {
      match deleted
      case Resolved(users) =>
        var post := [Put(DeleteUserSuccess), Put(FetchUserListStart), CallGetList,
                     Put(FetchResult(fetched)), Put(CloseModal)];
        AcceptedTrace(userId, replies, users, fetched);
        assert t == pre + [CallDeleteUserById(userId)] + post;
        OneDeleteCall(pre, userId, post);
      case Rejected(e) =>
        RejectedTrace(userId, replies, e, fetched);
        assert t == pre + [CallDeleteUserById(userId)] + [Put(DeleteUserFailure(e))];
        OneDeleteCall(pre, userId, [Put(DeleteUserFailure(e))]);
    } else if ClosedByUser(replies) {
      ClosedTrace(userId, replies, deleted, fetched);
      NoDeleteCalls(t);
    } else {
      StoppedTrace(userId, replies, deleted, fetched);
      NoDeleteCalls(t);
    }
  }

  /**
   * The run starts by opening the first modal, every wait comes right after
   * the OPEN_MODAL it waits on, and CLOSE_MODAL is put exactly on the
   * dismissed and the successful runs, as the last effect.
   */
  lemma ModalsFrameTheRun(userId: int, replies: seq<Option<ModalReply>>, deleted: Outcome<UserMap>, fetched: Outcome<UserMap>)
    ensures HandleDeleteUser(userId, replies, deleted, fetched).trace[0] == Put(OpenModal(DeleteUserModal))
    ensures OpensBeforeTakes(HandleDeleteUser(userId, replies, deleted, fetched).trace)
    ensures Put(CloseModal) in HandleDeleteUser(userId, replies, deleted, fetched).trace <==>
            HandleDeleteUser(userId, replies, deleted, fetched).status in {Closed, Deleted}
    ensures HandleDeleteUser(userId, replies, deleted, fetched).status in {Closed, Deleted} ==>
            Last(HandleDeleteUser(userId, replies, deleted, fetched).trace) == Put(CloseModal)
  {
    if ProceedsTwice(replies) {
      match deleted
      case Resolved(users) => AcceptedTrace(userId, replies, users, fetched);
      case Rejected(e) => RejectedTrace(userId, replies, e, fetched);
    } else if ClosedByUser(replies) {
      ClosedTrace(userId, replies, deleted, fetched);
    } else {
      StoppedTrace(userId, replies, deleted, fetched);
    }
  }

  function Last(t: seq<Effect>): Effect
    requires |t| > 0
  {
    t[|t| - 1]
  }

  /*** Correlation ***/

  /** What the flow reads from the resolutions it receives: the kind of at most the first two. */
  function Kinds(replies: seq<Option<ModalReply>>): (k: seq<ReplyKind>)
    ensures |k| <= 2 && |k| <= |replies|
  {
    if |replies| == 0 then []
    else if |replies| == 1 then [Classify(replies[0])]
    else [Classify(replies[0]), Classify(replies[1])]
  }

  /**
   * Resolutions are not correlated by modal name, nor by any action string
   * but `"close"`: two scripts whose first two replies have the same kinds
   * produce the same run, whatever else they carry.
   */
  lemma OnlyCloseMatters(userId: int, replies: seq<Option<ModalReply>>, replies': seq<Option<ModalReply>>,
                          deleted: Outcome<UserMap>, fetched: Outcome<UserMap>)
    requires Kinds(replies) == Kinds(replies')
    ensures HandleDeleteUser(userId, replies, deleted, fetched) == HandleDeleteUser(userId, replies', deleted, fetched)
  {
  }

  /*** Against the in-memory service ***/

  /**
   * One run of the flow against a service instance: `deleteUserById` and
   * the refreshing `getList` are answered by `svc`, and the instance after
   * the run has seen every delete call of the trace.
   */
  function ServiceRun(svc: UserService.Service, userId: int, replies: seq<Option<ModalReply>>): (Run, UserService.Service) {
    var (afterDelete, deleted) := UserService.DeleteUserById(svc, userId);
    var run := HandleDeleteUser(userId, replies, deleted, UserService.GetList(afterDelete));
    (run, UserService.DeleteAll(svc, DeleteCalls(run.trace)))
  }

  /**
   * With the in-memory service the delete never fails. After two proceeding
   * resolutions the id is gone from the service and from the refreshed store
   * data, with no error and no open modal; otherwise the service and the
   * store's data are untouched.
   */
  lemma ServiceRunRemovesUser(s: State, svc: UserService.Service, userId: int, replies: seq<Option<ModalReply>>)
    ensures !ServiceRun(svc, userId, replies).0.status.DeleteFailed?
    ensures ProceedsTwice(replies) ==>
      && ServiceRun(svc, userId, replies).0.status == Deleted
      && ServiceRun(svc, userId, replies).1.users == svc.users - {userId}
      && Apply(s, ServiceRun(svc, userId, replies).0.trace).userList.data == svc.users - {userId}
      && Apply(s, ServiceRun(svc, userId, replies).0.trace).userList.error == None
      && Apply(s, ServiceRun(svc, userId, replies).0.trace).modal.name == None
    ensures !ProceedsTwice(replies) ==>
      && ServiceRun(svc, userId, replies).1 == svc
      && Apply(s, ServiceRun(svc, userId, replies).0.trace).userList == s.userList
  {
    var (afterDelete, deleted) := UserService.DeleteUserById(svc, userId);
    var fetched := UserService.GetList(afterDelete);
    DeleteIsGated(userId, replies, deleted, fetched);
    HandleDeleteFolds(s, userId, replies, deleted, fetched);
    if ProceedsTwice(replies) {
      assert UserService.DeleteAll(svc, [userId]) == UserService.DeleteAll(afterDelete, []);
    }
  }

  /*** Scenarios ***/

  /** A fresh store and service; user 1 is deleted after two "accept" replies, leaving only user 2. */
  lemma DeleteFirstSeedUser()
    ensures ServiceRun(UserService.Create(), 1, [Some(ModalReply(Some("accept"))), Some(ModalReply(Some("accept")))]).1.users ==
            map[2 := User(2, "jenny doe")]
    ensures Apply(Initial, ServiceRun(UserService.Create(), 1,
                  [Some(ModalReply(Some("accept"))), Some(ModalReply(Some("accept")))]).0.trace) ==
            State(UserList(map[2 := User(2, "jenny doe")], None, false, true, Some(false)), Modal(None))
  {
    var accept := Some(ModalReply(Some("accept")));
    var svc := UserService.Create();
    ServiceRunRemovesUser(Initial, svc, 1, [accept, accept]);
    var (afterDelete, deleted) := UserService.DeleteUserById(svc, 1);
    HandleDeleteFolds(Initial, 1, [accept, accept], deleted, UserService.GetList(afterDelete));
    assert svc.users - {1} == map[2 := User(2, "jenny doe")];
  }

  /** A fresh store and service; a "close" at the first modal leaves both as they were, modal closed. */
  lemma CloseFirstModal(userId: int)
    ensures ServiceRun(UserService.Create(), userId, [Some(ModalReply(Some("close")))]).0.trace ==
            [Put(OpenModal(DeleteUserModal)), TakeResolution, Put(CloseModal)]
    ensures ServiceRun(UserService.Create(), userId, [Some(ModalReply(Some("close")))]).1 == UserService.Create()
    ensures Apply(Initial, ServiceRun(UserService.Create(), userId, [Some(ModalReply(Some("close")))]).0.trace) == Initial
  {
    var close := Some(ModalReply(Some("close")));
    var svc := UserService.Create();
    ServiceRunRemovesUser(Initial, svc, userId, [close]);
    var (afterDelete, deleted) := UserService.DeleteUserById(svc, userId);
    HandleDeleteFolds(Initial, userId, [close], deleted, UserService.GetList(afterDelete));
  }
}
