/**
  `LocalDataSource`: a second in-memory user store with the same four operations as
  `UserRepositoryImpl`, which nothing in the application uses. It owns a
  mutable list; every operation changes it in place and returns the list as it is
  afterwards. The artificial `delay(…)` before each operation is left out.
 */
module Source {
  import opened Users

  class LocalDataSource {
    /** The private `users` list, insertion order kept, duplicates allowed. */
    var users: seq<User>

    /** A new store holds no users. */
    constructor ()
      ensures users == []
    {
      users := [];
    }

    /** `getUsers`: the stored list, unchanged. */
    method GetUsers() returns (result: seq<User>)
      ensures result == users
    {
      result := users;
    }

    /** `addUser`: append `user` at the end and return the new list. */
    method AddUser(user: User) returns (result: seq<User>)
      modifies this
      ensures users == old(users) + [user]
      ensures |users| == |old(users)| + 1 && users[..|old(users)|] == old(users)
      ensures result == users
    {
      users := users + [user];
      result := users;
    }

    /** `deleteUser`: remove the first element equal to `user`, if there is one,
        and return the new list. */
    method DeleteUser(user: User) returns (result: seq<User>)
      modifies this
      ensures users == RemoveFirst(old(users), user)
      ensures user !in old(users) ==> users == old(users)
      ensures user in old(users) ==> |users| == |old(users)| - 1
      ensures result == users
    {
      users := RemoveFirst(users, user);
      result := users;
    }

    /** `clearUsers`: empty the store and return the (empty) list. */
    method ClearUsers() returns (result: seq<User>)
      modifies this
      ensures users == []
      ensures result == []
    {
      users := [];
      result := users;
    }
  }
}
