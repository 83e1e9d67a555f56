# User list with a two-step delete confirmation, in Dafny

This project models the core of a small Redux / redux-saga user-management
screen: the store's `userListReducer`, the saga that gates deleting a user
behind two confirmation modals (`doHandleDeleteUser` with
`waitForModalResponse` and `doFetchUserList`), and the in-memory
`UserService`.

- `values.dfy` (`Values`): `Option`, the `User` record, the id-to-user map,
  an opaque `Failure` for error objects, and `Outcome` for how a promise settles.
- `user_service.dfy` (`UserService`): one `UserService()` instance as a value
  `Service(users)`; `getList` and `deleteUserById` take the instance and
  `deleteUserById` also returns the instance after the call, so the shared,
  mutated object is threaded explicitly.
- `user_list_reducer.dfy` (`UserListReducer`): the state
  `{ userList: { data, error, isDeleting, isLoding, isLoading }, modal: { name } }`,
  the actions as a closed datatype (one constructor per action type constant,
  plus `Other` for foreign actions), `Reduce` (the reducer's `switch`) and a
  second, declarative description of it: `Writes(a)`, the `assocPath` writes
  each case performs.
- `user_list_saga.dfy` (`UserListSaga`): the generators as pure functions
  from their inputs to the ordered trace of effects they yield (`put`,
  `take(RESOLVE_MODAL)`, and the two service calls) and how the run ends.
  The runtime's answers are inputs: the RESOLVE_MODAL payloads the `take`s
  receive, in order, and how `deleteUserById` and `getList` settle.
- `user_list_saga_properties.dfy` (`UserListSagaProperties`): every `put`
  of a trace is folded through the reducer (`Apply`), and the service calls
  are replayed on a `Service` (`ServiceRun`); the lemmas state what each way
  a run can end leaves in the store and in the service.

The initial state spells its loading key `isLoding` while the reducer writes
`isLoading`. The model keeps both: `isLoding` starts `true` and is never
written; `isLoading` is `None` (the key is absent) until the first fetch
action adds it.

Facts about the code that the model keeps as written:
- FETCH_USER_LIST_SUCCESS leaves `error` as it was; only DELETE_USER_SUCCESS clears it.
- The two modals are named `DeleteUserModal` and `ConfirmDeleteUserModal`.
- A resolution is not matched to the open modal's name: `take(RESOLVE_MODAL)`
  accepts any resolution, and only `action === "close"` is compared, so
  `"accept"` or any other value proceeds.
- `deleteUserById` resolves with the updated map.
- A resolution whose payload is null or undefined makes `.payload.action`
  throw outside the `try`; the run then ends as `Crashed` with the modal
  still open.

Some members only compute and carry no contract of their own; the rows of
the lemmas about them state what they do: `UserListReducer.Reduce`
(src/ducks/UserList.js:137-178) through `ReduceWritesExactly`,
`ReduceIsWriteTable`, `UnhandledIsIdentity` and the three `...Effect` lemmas;
`UserService.GetList` (src/services/userService.js:7-9) through
`GetListReflectsDeletes` and `ServiceRunRemovesUser`;
`UserListSaga.WaitForModalResponse` (src/ducks/UserList.js:36-39) through
`ApplyWait` and `ModalsFrameTheRun`; `UserListSaga.Classify`
(src/ducks/UserList.js:94, 104) through `HandleDeleteUser`, `ClosedTrace`
and `OnlyCloseMatters`.

## Model

| member | source | states |
|---|---|---|
| UserService.Create | src/services/userService.js:1-5 | A fresh instance holds exactly ids 1 and 2, mapped to `{1, "John Doe"}` and `{2, "jenny doe"}`, each entry under its own id |
| UserService.DeleteUserById | src/services/userService.js:11-14 | After the call the id is absent, the key set is the old one minus that id, every remaining entry is unchanged, deleting an absent id changes nothing, the promise always resolves with the updated map, and the id-keyed shape is preserved |
| UserService.GetListReflectsDeletes | src/services/userService.js:2-13 | `getList` on an instance returns its seed map minus every id deleted on that same instance before |
| UserService.DeleteAllKeepsKeyed | src/services/userService.js:2-13 | Any sequence of deletions keeps every entry under its own id and never adds a key |
| UserListReducer.ReduceWritesExactly | src/ducks/UserList.js:137-178 | Every path of the reduced state equals the value the action's row of the `assocPath` table writes there, and every other path keeps its old value |
| UserListReducer.ReduceIsWriteTable | src/ducks/UserList.js:137-178 | The reduced state is the unique state that agrees with the write table: the reducer is fully determined by it |
| UserListReducer.HandledIffWrites | src/ducks/UserList.js:137-177 | An action's type is one of the eight `case` labels exactly when its row of the write table is non-empty |
| UserListReducer.UnhandledIsIdentity | src/ducks/UserList.js:137-177 | An action whose type is not one of the eight handled constants (RESOLVE_MODAL, FETCH_USER_LIST, DELETE_USER, any foreign type) leaves every state unchanged, and conversely every handled action changes some state |
| UserListReducer.ModalActionsTouchOnlyName | src/ducks/UserList.js:169-173 | OPEN_MODAL sets `modal.name` to its payload, CLOSE_MODAL sets it to null, and neither touches `userList` |
| UserListReducer.FetchActionsEffect | src/ducks/UserList.js:139-152 | FETCH_USER_LIST_START sets `isLoading` true; SUCCESS sets it false and replaces `data`, keeping `error`; FAILURE sets it false and records `error`, keeping `data`; `isDeleting` and `modal` never change |
| UserListReducer.DeleteActionsEffect | src/ducks/UserList.js:154-167 | DELETE_USER_START sets `isDeleting` and keeps `error`; SUCCESS clears both; FAILURE clears `isDeleting` and records `error`; `data`, `isLoading` and `modal` never change |
| UserListReducer.IsLodingNeverWritten | src/ducks/UserList.js:125-178 | No sequence of actions writes the misspelt `isLoding` key, so from the initial state it stays `true` |
| UserListSaga.DoFetchUserList | src/ducks/UserList.js:60-68 | FETCH_USER_LIST_START is put first, then `getList` is called, then exactly one of SUCCESS with the list or FAILURE with the caught error is put, never a thrown error |
| UserListSaga.TryDelete | src/ducks/UserList.js:109-117 | The `try` block starts with DELETE_USER_START and the delete call for the given id; a resolved delete continues with DELETE_USER_SUCCESS, the fetch flow and CLOSE_MODAL; a rejected one ends with DELETE_USER_FAILURE carrying that error |
| UserListSaga.HandleDeleteUser | src/ducks/UserList.js:86-118 | The run ends closed exactly when the first reply, or the second after a proceeding first, says "close"; deleted or delete-failed exactly when two proceeding replies arrived and the delete resolved or rejected; suspended exactly when fewer than two replies arrived and none stopped the flow |
| UserListSagaProperties.ApplyWait | src/ducks/UserList.js:36-39 | `waitForModalResponse(name)` leaves the store as OPEN_MODAL(name) alone would |
| UserListSagaProperties.FetchFlowFolds | src/ducks/UserList.js:60-68 | Folded through the reducer, the fetch flow ends with `isLoading` false and either the new list in `data` with `error` kept or the error recorded with `data` kept; `modal` is untouched |
| UserListSagaProperties.TryDeleteRejectedFolds | src/ducks/UserList.js:109-117 | A rejected delete leaves `isDeleting` false, the error in `error`, `data` and the open modal as they were |
| UserListSagaProperties.TryDeleteResolvedFolds | src/ducks/UserList.js:109-117 | A resolved delete ends with the modal closed, `isDeleting` false, `isLoading` false and either the refreshed list with no error or the old list with the fetch error |
| UserListSagaProperties.HandleDeleteFolds | src/ducks/UserList.js:86-118 | Folded through the reducer, a closed run only sets `modal.name` to null; a suspended or crashed run only leaves the waiting modal open; a failed delete leaves `ConfirmDeleteUserModal` open with the error recorded; a successful one closes the modal with the refresh's outcome in `data` and `error` |
| UserListSagaProperties.AcceptedTrace | src/ducks/UserList.js:86-114 | Two proceeding replies and a resolved delete yield, in order: open DeleteUserModal, wait, open ConfirmDeleteUserModal, wait, DELETE_USER_START, the delete call, DELETE_USER_SUCCESS, the three fetch effects, CLOSE_MODAL |
| UserListSagaProperties.RejectedTrace | src/ducks/UserList.js:109-117 | A rejected delete ends the trace with DELETE_USER_FAILURE and puts no CLOSE_MODAL |
| UserListSagaProperties.ClosedTrace | src/ducks/UserList.js:94-107 | A "close" at either modal puts CLOSE_MODAL right after that modal's wait and nothing more |
| UserListSagaProperties.StoppedTrace | src/ducks/UserList.js:86-107 | A run that neither closed nor got two proceeding replies only opened modals and waited |
| UserListSagaProperties.DeleteIsGated | src/ducks/UserList.js:86-118 | DELETE_USER_START is put exactly when two proceeding replies arrived; `deleteUserById` is called exactly then, exactly once, with the requested id |
| UserListSagaProperties.ModalsFrameTheRun | src/ducks/UserList.js:36-118 | Every run starts by opening DeleteUserModal, every wait directly follows the OPEN_MODAL it waits on, and CLOSE_MODAL is put exactly on closed and successful runs, as their last effect |
| UserListSagaProperties.OnlyCloseMatters | src/ducks/UserList.js:94-107 | Two reply scripts whose first two replies have the same kind (close, proceed, no payload) give identical runs: no modal name and no action string other than "close" is consulted, and later replies are never read |
| UserListSagaProperties.ServiceRunRemovesUser | src/ducks/UserList.js:109-114 | Against the in-memory service the delete never fails; after two proceeding replies the id is gone from the service and from the refreshed store data, with no error and no open modal; otherwise service and `userList` are untouched |
| UserListSagaProperties.DeleteFirstSeedUser | src/__tests__/ducks/UserList.spec.js:68-95 | From a fresh store and service, deleting user 1 after two "accept" replies leaves only `{2, "jenny doe"}` in the service and in `data`, no error, not deleting, not loading, no modal |
| UserListSagaProperties.CloseFirstModal | src/__tests__/ducks/UserList.spec.js:34-46 | From a fresh store and service, a "close" at the first modal yields open, wait, CLOSE_MODAL and leaves store and service as they were |

## Left out

- `userListSaga` and `takeEvery` (src/ducks/UserList.js:120-123): the redux-saga runtime, concurrent delete flows and the promise scheduler are not modelled; one run of each generator is a function of its supplied inputs.
- A second DELETE_USER while a run is in flight: two runs would share the `take`s; the model covers one run at a time.
- Aliasing: `getList` hands out the service's own object, so the store's `data` and the service map are the same object and a later `delete` shows through the store before the refresh. The model copies values; after the refresh both agree again.
- The saga's own service instance (src/ducks/UserList.js:5) is the `svc` parameter of `ServiceRun`. The separately exported instance (src/services/userService.js:19) is a different `UserService()` call with its own `users` object; the saga never touches it, and it is not modelled.
- The `error: true` flag of the failure actions: nothing in the core reads it.
- Dynamic payloads: JavaScript allows any payload on any action; the model types each payload (user maps, errors, modal names, integer user ids).
- An uncaught error escaping a delete flow (the `Crashed` status) is not propagated to the parent saga.
- UserListReducer.UserListReducer: carries no contract of its own; it only substitutes `Initial` for an undefined state (the `state = initialState` default) and calls `Reduce`. The action creators are the `Action` constructors.
- src/App.js, src/index.js (including its older draft of the same reducer and saga) and src/configureStore.js: rendering, bootstrapping and middleware wiring.
