/**
 * The in-memory user service of `src/services/userService.js`: one
 * `UserService()` instance owns a mutable `users` object; `getList` hands it
 * out and `deleteUserById` removes a key from it. Mutation of the shared
 * object is modelled by threading the `Service` value through each call.
 */
module UserService {
  import opened Values

  /** One `UserService()` instance: the object its closure captures. */
  datatype Service = Service(users: UserMap)

  /** Every entry is stored under its own id. */
  predicate Keyed(m: UserMap) {
    forall k :: k in m ==> m[k].id == k
  }

  /** `UserService()`: a fresh instance holding the two seed users. */
  function Create(): (s: Service)
    ensures s.users.Keys == {1, 2}
    ensures s.users[1] == User(1, "John Doe")
    ensures s.users[2] == User(2, "jenny doe")
    ensures Keyed(s.users)
  {
    Service(map[1 := User(1, "John Doe"), 2 := User(2, "jenny doe")])
  }

  /** `getList()`: resolves with the instance's current object. */
  function GetList(s: Service): Outcome<UserMap> {
    Resolved(s.users)
  }

  /**
   * `deleteUserById(id)`: removes `id` from the shared object and resolves
   * with the updated object. Returns the instance after the call and the
   * settled promise.
   */
  function DeleteUserById(s: Service, id: int): (r: (Service, Outcome<UserMap>))
    ensures r.1 == Resolved(r.0.users)
    ensures id !in r.0.users
    ensures r.0.users.Keys == s.users.Keys - {id}
    ensures forall k :: k in r.0.users ==> r.0.users[k] == s.users[k]
    ensures id !in s.users ==> r.0 == s
    ensures Keyed(s.users) ==> Keyed(r.0.users)
  {
    var users := s.users - {id};
    (Service(users), Resolved(users))
  }

  /** The instance after `deleteUserById` has been called with each of `ids` in turn. */
  function DeleteAll(s: Service, ids: seq<int>): Service
    decreases |ids|
  {
    if |ids| == 0 then s else DeleteAll(DeleteUserById(s, ids[0]).0, ids[1..])
  }

  /** `getList` on an instance reflects every earlier deletion on that same instance. */
  lemma {:induction false} GetListReflectsDeletes(s: Service, ids: seq<int>)
    ensures GetList(DeleteAll(s, ids)) == Resolved(s.users - set i | i in ids)
    decreases |ids|
  {
    if |ids| == 0 {
      assert (set i | i in ids) == {};
      assert s.users - {} == s.users;
    } else {
      var s' := DeleteUserById(s, ids[0]).0;
      var rest := set i | i in ids[1..];
      GetListReflectsDeletes(s', ids[1..]);
      assert (set i | i in ids) == {ids[0]} + rest;
      assert s'.users - rest == s.users - ({ids[0]} + rest);
    }
  }

  /** Deletion never breaks the id-keyed shape of the seed data. */
  lemma {:induction false} DeleteAllKeepsKeyed(s: Service, ids: seq<int>)
    requires Keyed(s.users)
    ensures Keyed(DeleteAll(s, ids).users)
    ensures DeleteAll(s, ids).users.Keys <= s.users.Keys
    decreases |ids|
  {
    if |ids| > 0 {
      DeleteAllKeepsKeyed(DeleteUserById(s, ids[0]).0, ids[1..]);
    }
  }
}
