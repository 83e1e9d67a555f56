/**
 * The store half of `src/ducks/UserList.js`: the state shape, the actions the
 * action creators build, and `userListReducer`.
 *
 * The initial state spells its loading flag `isLoding`, while the reducer
 * writes `isLoading`. Both keys are kept: `isLoding` is set in the initial
 * state and never written again; `isLoading` is absent (`None`) until the
 * first fetch action adds it.
 */
module UserListReducer {
  import opened Values

  /** The `payload` of a RESOLVE_MODAL action: `{ action: "close" | "accept" | ... }`. */
  datatype ModalReply = ModalReply(action: Option<string>)

  /** Actions of the module, one constructor per action type constant. */
  datatype Action =
    | FetchUserList
    | FetchUserListStart
    | FetchUserListSuccess(users: UserMap)
    | FetchUserListFailure(fetchError: Failure)
    | DeleteUser(userId: int)
    | DeleteUserStart
    | DeleteUserSuccess
    | DeleteUserFailure(deleteError: Failure)
    | OpenModal(modalName: string)
    | CloseModal
    | ResolveModal(reply: Option<ModalReply>)
      /** Any other action the store may see (Redux's own init action, say). */
    | Other(actionType: string)

  /** The `type` string each action carries. */
  function TypeOf(a: Action): string {
    match a
    case FetchUserList => "FETCH_USER_LIST"
    case FetchUserListStart => "FETCH_USER_LIST_START"
    case FetchUserListSuccess(_) => "FETCH_USER_LIST_SUCCESS"
    case FetchUserListFailure(_) => "FETCH_USER_LIST_FAILURE"
    case DeleteUser(_) => "DELETE_USER"
    case DeleteUserStart => "DELETE_USER_START"
    case DeleteUserSuccess => "DELETE_USER_SUCCESS"
    case DeleteUserFailure(_) => "DELETE_USER_FAILURE"
    case OpenModal(_) => "OPEN_MODAL"
    case CloseModal => "CLOSE_MODAL"
    case ResolveModal(_) => "RESOLVE_MODAL"
    case Other(t) => t
  }

  /** The eleven action type constants the module exports. */
  const ModuleTypes: set<string> := {
    "FETCH_USER_LIST", "FETCH_USER_LIST_START", "FETCH_USER_LIST_SUCCESS", "FETCH_USER_LIST_FAILURE",
    "DELETE_USER", "DELETE_USER_START", "DELETE_USER_SUCCESS", "DELETE_USER_FAILURE",
    "OPEN_MODAL", "CLOSE_MODAL", "RESOLVE_MODAL"
  }

  /** The eight of them that have a case in the reducer's switch. */
  const HandledTypes: set<string> := {
    "FETCH_USER_LIST_START", "FETCH_USER_LIST_SUCCESS", "FETCH_USER_LIST_FAILURE",
    "DELETE_USER_START", "DELETE_USER_SUCCESS", "DELETE_USER_FAILURE",
    "OPEN_MODAL", "CLOSE_MODAL"
  }

  /** An `Other` action really is foreign: its type is none of the module's constants. */
  predicate WellTyped(a: Action) {
    a.Other? ==> a.actionType !in ModuleTypes
  }

  datatype UserList = UserList(
    data: UserMap,
    error: Option<Failure>,
    isDeleting: bool,
    isLoding: bool,
    isLoading: Option<bool>)

  datatype Modal = Modal(name: Option<string>)

  datatype State = State(userList: UserList, modal: Modal)

  /** `initialState`: empty data, no error, not deleting, `isLoding: true`, no open modal. */
  const Initial: State :=
    State(UserList(map[], None, false, true, None), Modal(None))

  /** One `switch` case of `userListReducer`: a record update per handled type, identity otherwise. */
  function Reduce(s: State, a: Action): State {
    match a
    case FetchUserListStart =>
      s.(userList := s.userList.(isLoading := Some(true)))
    case FetchUserListSuccess(users) =>
      s.(userList := s.userList.(isLoading := Some(false), data := users))
    case FetchUserListFailure(e) =>
      s.(userList := s.userList.(isLoading := Some(false), error := Some(e)))
    case DeleteUserStart =>
      s.(userList := s.userList.(isDeleting := true))
    case DeleteUserSuccess =>
      s.(userList := s.userList.(isDeleting := false, error := None))
    case DeleteUserFailure(e) =>
      s.(userList := s.userList.(isDeleting := false, error := Some(e)))
    case OpenModal(name) =>
      s.(modal := s.modal.(name := Some(name)))
    case CloseModal =>
      s.(modal := s.modal.(name := None))
    case _ => s
  }

  /** `userListReducer(state = initialState, action)`: an undefined state defaults to `initialState`. */
  function UserListReducer(state: Option<State>, a: Action): State {
    Reduce(state.GetOr(Initial), a)
  }

  /** Dispatching `actions` in order, starting from `s`. */
  function ReduceAll(s: State, actions: seq<Action>): State
    decreases |actions|
  {
    if |actions| == 0 then s else ReduceAll(Reduce(s, actions[0]), actions[1..])
  }

  /*** The reducer as a table of `assocPath` writes ***/

  /** The paths `assocPath` writes to, one per leaf of the state. */
  datatype Field = Data | Error | IsDeleting | IsLoding | IsLoading | ModalName

  /** A value stored at one of those paths. */
  datatype Value =
    | Users(users: UserMap)
    | MaybeError(error: Option<Failure>)
    | Flag(flag: bool)
    | MaybeFlag(maybeFlag: Option<bool>)
    | MaybeName(name: Option<string>)

  /** Reading one path of the state. */
  function Get(s: State, f: Field): Value {
    match f
    case Data => Users(s.userList.data)
    case Error => MaybeError(s.userList.error)
    case IsDeleting => Flag(s.userList.isDeleting)
    case IsLoding => Flag(s.userList.isLoding)
    case IsLoading => MaybeFlag(s.userList.isLoading)
    case ModalName => MaybeName(s.modal.name)
  }

  /** The `assocPath(path, value)` calls each case of the reducer's switch makes. */
  function Writes(a: Action): map<Field, Value> {
    match a
    case FetchUserListStart => map[IsLoading := MaybeFlag(Some(true))]
    case FetchUserListSuccess(users) => map[IsLoading := MaybeFlag(Some(false)), Data := Users(users)]
    case FetchUserListFailure(e) => map[IsLoading := MaybeFlag(Some(false)), Error := MaybeError(Some(e))]
    case DeleteUserStart => map[IsDeleting := Flag(true)]
    case DeleteUserSuccess => map[IsDeleting := Flag(false), Error := MaybeError(None)]
    case DeleteUserFailure(e) => map[IsDeleting := Flag(false), Error := MaybeError(Some(e))]
    case OpenModal(name) => map[ModalName := MaybeName(Some(name))]
    case CloseModal => map[ModalName := MaybeName(None)]
    case _ => map[]
  }

  /** Two states that agree on every path are the same state. */
  lemma StateDeterminedByFields(s: State, t: State)
    ensures (forall f :: Get(s, f) == Get(t, f)) <==> s == t
  {
    if forall f :: Get(s, f) == Get(t, f) {
      assert Get(s, Data) == Get(t, Data);
      assert Get(s, Error) == Get(t, Error);
      assert Get(s, IsDeleting) == Get(t, IsDeleting);
      assert Get(s, IsLoding) == Get(t, IsLoding);
      assert Get(s, IsLoading) == Get(t, IsLoading);
      assert Get(s, ModalName) == Get(t, ModalName);
    }
  }

  /** Each action writes exactly the paths of its row in `Writes` and leaves every other path as it was. */
  lemma ReduceWritesExactly(s: State, a: Action)
    ensures forall f :: Get(Reduce(s, a), f) == (if f in Writes(a) then Writes(a)[f] else Get(s, f))
  {
  }

  /** Hence `Reduce` is determined by the write table: it is the unique state that agrees with it. */
  lemma ReduceIsWriteTable(s: State, a: Action, t: State)
    ensures t == Reduce(s, a) <==> forall f :: Get(t, f) == (if f in Writes(a) then Writes(a)[f] else Get(s, f))
  {
    ReduceWritesExactly(s, a);
    StateDeterminedByFields(t, Reduce(s, a));
  }

  /** An action is handled by the switch exactly when it writes some path. */
  lemma HandledIffWrites(a: Action)
    requires WellTyped(a)
    ensures TypeOf(a) in HandledTypes <==> Writes(a) != map[]
  {
    match a
    case FetchUserListStart => assert IsLoading in Writes(a);
    case FetchUserListSuccess(_) => assert IsLoading in Writes(a);
    case FetchUserListFailure(_) => assert IsLoading in Writes(a);
    case DeleteUserStart => assert IsDeleting in Writes(a);
    case DeleteUserSuccess => assert IsDeleting in Writes(a);
    case DeleteUserFailure(_) => assert IsDeleting in Writes(a);
    case OpenModal(_) => assert ModalName in Writes(a);
    case CloseModal => assert ModalName in Writes(a);
    case _ =>
  }

  /**
   * The `default` branch: every action whose type is not one of the eight
   * handled constants (RESOLVE_MODAL, FETCH_USER_LIST, DELETE_USER and any
   * foreign type) returns the state unchanged; every handled action changes
   * some state.
   */
  lemma UnhandledIsIdentity(a: Action)
    requires WellTyped(a)
    ensures TypeOf(a) !in HandledTypes <==> forall s :: Reduce(s, a) == s
  {
    HandledIffWrites(a);
    if TypeOf(a) in HandledTypes {
      var s := Witness(a);
      assert Reduce(s, a) != s;
    }
  }

  /** A state on which a handled action visibly writes. */
  function Witness(a: Action): (s: State)
    requires WellTyped(a) && TypeOf(a) in HandledTypes
    ensures Reduce(s, a) != s
  {
    match a
    case DeleteUserSuccess => Initial.(userList := Initial.userList.(isDeleting := true))
    case CloseModal => Initial.(modal := Modal(Some("")))
    case _ => Initial
  }

  /** OPEN_MODAL / CLOSE_MODAL set only `modal.name`; `userList` is untouched. */
  lemma ModalActionsTouchOnlyName(s: State, a: Action)
    requires a.OpenModal? || a.CloseModal?
    ensures Reduce(s, a).userList == s.userList
    ensures Reduce(s, a).modal.name == if a.OpenModal? then Some(a.modalName) else None
  {
  }

  /** The fetch actions move `isLoading`; success replaces `data` and keeps `error`, failure sets `error` and keeps `data`. */
  lemma FetchActionsEffect(s: State, a: Action)
    requires a.FetchUserListStart? || a.FetchUserListSuccess? || a.FetchUserListFailure?
    ensures Reduce(s, a).userList.isLoading == Some(a.FetchUserListStart?)
    ensures Reduce(s, a).userList.data == if a.FetchUserListSuccess? then a.users else s.userList.data
    ensures Reduce(s, a).userList.error == if a.FetchUserListFailure? then Some(a.fetchError) else s.userList.error
    ensures Reduce(s, a).userList.isDeleting == s.userList.isDeleting
    ensures Reduce(s, a).modal == s.modal
  {
  }

  /** The delete actions move `isDeleting` and `error`; `data`, the loading flags and `modal` stay. */
  lemma DeleteActionsEffect(s: State, a: Action)
    requires a.DeleteUserStart? || a.DeleteUserSuccess? || a.DeleteUserFailure?
    ensures Reduce(s, a).userList.isDeleting == a.DeleteUserStart?
    ensures Reduce(s, a).userList.error ==
      match a
      case DeleteUserStart => s.userList.error
      case DeleteUserSuccess => None
      case DeleteUserFailure(e) => Some(e)
    ensures Reduce(s, a).userList.data == s.userList.data
    ensures Reduce(s, a).userList.isLoading == s.userList.isLoading
    ensures Reduce(s, a).modal == s.modal
  {
  }

  /** No action writes the misspelt `isLoding` key, so it keeps its initial `true` forever. */
  lemma {:induction false} IsLodingNeverWritten(s: State, actions: seq<Action>)
    ensures ReduceAll(s, actions).userList.isLoding == s.userList.isLoding
    ensures ReduceAll(Initial, actions).userList.isLoding
    decreases |actions|
  {
    if |actions| > 0 {
      ReduceWritesExactly(s, actions[0]);
      assert Get(Reduce(s, actions[0]), IsLoding) == Get(s, IsLoding);
      IsLodingNeverWritten(Reduce(s, actions[0]), actions[1..]);
      IsLodingNeverWritten(Reduce(Initial, actions[0]), actions[1..]);
      ReduceWritesExactly(Initial, actions[0]);
      assert Get(Reduce(Initial, actions[0]), IsLoding) == Get(Initial, IsLoding);
    }
  }

  lemma ReduceAllSingle(s: State, a: Action)
    ensures ReduceAll(s, [a]) == Reduce(s, a)
  {
  }

  /** Dispatching two batches one after the other is dispatching their concatenation. */
  lemma {:induction false} ReduceAllAppend(s: State, xs: seq<Action>, ys: seq<Action>)
    ensures ReduceAll(s, xs + ys) == ReduceAll(ReduceAll(s, xs), ys)
    decreases |xs|
  {
    if |xs| == 0 {
      assert xs + ys == ys;
    } else {
      assert (xs + ys)[1..] == xs[1..] + ys;
      ReduceAllAppend(Reduce(s, xs[0]), xs[1..], ys);
    }
  }
}
