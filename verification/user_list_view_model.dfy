/**
  `UserListViewModel`: the state holder between the screen and the user store.
  Each `StateFlow` it publishes is a plain field; each `viewModelScope.launch`
  block runs to completion before the next operation starts.
 */
module ViewModels {
  import opened Users
  import opened Text
  import opened UiStates
  import opened Repository

  datatype Option<T> = None | Some(value: T)

  const NoUsersMessage := "No users available"
  const FetchedMessage := "Users fetched successfully!"
  const AddedMessage := "User added successfully!"
  const DeletedMessage := "User deleted successfully!"
  const ClearedMessage := "All users cleared!"

  /** The search predicate: the name or the email contains the query, ignoring case. */
  predicate Matches(user: User, query: string)
  {
    ContainsIgnoreCase(user.name, query) || ContainsIgnoreCase(user.email, query)
  }

  /** `users.filter(keep)`: the users satisfying `keep`, in their original order. */
  function Filter(users: seq<User>, keep: User -> bool): (r: seq<User>)
    ensures |r| <= |users|
  {
    if users == [] then []
    else
      var rest := Filter(users[1..], keep);
      if keep(users[0]) then [users[0]] + rest else rest
  }

  /** A user is in the filter result exactly when it is in the list and satisfies `keep`. */
  lemma {:induction false} FilterMembership(users: seq<User>, keep: User -> bool, u: User)
    ensures u in Filter(users, keep) <==> u in users && keep(u)
  {
    if users != [] {
      FilterMembership(users[1..], keep, u);
      assert users == [users[0]] + users[1..];
    }
  }

  /** When no user satisfies `keep`, the filter result is empty, and conversely. */
  lemma {:induction false} FilterEmptyIffNoneKept(users: seq<User>, keep: User -> bool)
    ensures Filter(users, keep) == [] <==> forall u :: u in users ==> !keep(u)
  {
    if users != [] {
      FilterEmptyIffNoneKept(users[1..], keep);
      assert users == [users[0]] + users[1..];
    }
  }

  /** The filter keeps each user satisfying `keep` as many times as it occurs, and no other. */
  lemma {:induction false} FilterCount(users: seq<User>, keep: User -> bool, u: User)
    ensures multiset(Filter(users, keep))[u] == if keep(u) then multiset(users)[u] else 0
  {
    if users != [] {
      FilterCount(users[1..], keep, u);
      assert users == [users[0]] + users[1..];
    }
  }

  /** Positions that increase and are at least 1 still increase with 0 in front. */
  lemma PrependZeroIncreasing(positions: seq<int>)
    requires forall k :: 0 <= k < |positions| ==> 1 <= positions[k]
    requires forall k, l :: 0 <= k < l < |positions| ==> positions[k] < positions[l]
    ensures forall k, l :: 0 <= k < l < |[0] + positions| ==> ([0] + positions)[k] < ([0] + positions)[l]
  {
    var p := [0] + positions;
    forall k, l | 0 <= k < l < |p|
      ensures p[k] < p[l]
    {
      assert p[l] == positions[l - 1];
      if 0 < k {
        assert p[k] == positions[k - 1];
      }
    }
  }

  /** The filter result is an order-preserving subsequence of the list: `idx` lists,
      in increasing order, the positions of the users it keeps. */
  lemma {:induction false} FilterIsSubsequence(users: seq<User>, keep: User -> bool) returns (idx: seq<int>)
    ensures |idx| == |Filter(users, keep)|
    ensures forall k :: 0 <= k < |idx| ==> 0 <= idx[k] < |users| && Filter(users, keep)[k] == users[idx[k]]
    ensures forall k, l :: 0 <= k < l < |idx| ==> idx[k] < idx[l]
  {
    if users == [] {
      idx := [];
    } else {
      var tail := users[1..];
      var rest := FilterIsSubsequence(tail, keep);
      var shifted := seq(|rest|, k requires 0 <= k < |rest| => rest[k] + 1);
      var kept := Filter(tail, keep);
      forall k | 0 <= k < |shifted|
        ensures 1 <= shifted[k] < |users| && kept[k] == users[shifted[k]]
      {
        assert kept[k] == tail[rest[k]];
      }
      if keep(users[0]) {
        idx := [0] + shifted;
        var r := [users[0]] + kept;
        assert Filter(users, keep) == r;
        forall k | 0 <= k < |idx|
          ensures 0 <= idx[k] < |users| && r[k] == users[idx[k]]
        {
          if 0 < k {
            assert idx[k] == shifted[k - 1] && r[k] == kept[k - 1];
          }
        }
        PrependZeroIncreasing(shifted);
      } else {
        idx := shifted;
        assert Filter(users, keep) == kept;
      }
    }
  }

  /** The predicate `filterUsers` passes to `filter`. */
  function MatchesQuery(query: string): User -> bool
  {
    u => Matches(u, query)
  }

  /** With the empty query every user matches, so the filter keeps the whole list. */
  lemma {:induction false} FilterEmptyQueryKeepsAll(users: seq<User>)
    ensures Filter(users, MatchesQuery("")) == users
  {
    if users != [] {
      ContainsEmpty(users[0].name);
      FilterEmptyQueryKeepsAll(users[1..]);
    }
  }

  /** What `filterUsers` computes from a user list: the list itself for the empty
      query, the filtered list otherwise. */
  function Filtered(users: seq<User>, query: string): seq<User>
  {
    if |query| == 0 then users else Filter(users, MatchesQuery(query))
  }

  /** The empty-query shortcut of `filterUsers` agrees with filtering: whatever the
      query, the result is `users.filter` with the search predicate. */
  lemma FilteredIsFilter(users: seq<User>, query: string)
    ensures Filtered(users, query) == Filter(users, MatchesQuery(query))
  {
    if |query| == 0 {
      FilterEmptyQueryKeepsAll(users);
    }
  }

  /** The email validity flag computed on each keystroke and on a rejected add. */
  predicate EmailError(input: string, isEmailAddress: string -> bool)
  {
    IsBlank(input) || !isEmailAddress(input)
  }

  /** The guard of `addUser`. */
  predicate AddAccepted(name: string, email: string, emailError: bool)
  {
    !IsBlank(name) && !IsBlank(email) && !emailError
  }

  /** A user the view model can have added: an id in 0..1000, a non-blank name and an
      email that is non-blank and matches the email pattern. */
  predicate WellFormed(u: User, isEmailAddress: string -> bool)
  {
    0 <= u.id <= 1000 && !IsBlank(u.name) && !EmailError(u.email, isEmailAddress)
  }

  class UserListViewModel {
    const repository: UserRepositoryImpl
    /** `android.util.Patterns.EMAIL_ADDRESS.matcher(s).matches()`, given from outside. */
    const isEmailAddress: string -> bool

    var name: string
    var email: string
    var nameError: bool
    var emailError: bool
    var uiState: UiState
    var filteredUsers: seq<User>
    var searchQuery: string
    var recentlyDeletedUser: Option<User>
    /** The query `filteredUsers` was last computed for ("" after a fetch, add, delete or clear). */
    ghost var appliedQuery: string

    /** What holds between operations regardless of the published state: every stored
        user is well formed, and a cleared email error flag on a non-blank email means
        the email matches the pattern. */
    ghost predicate Sound()
      reads this, repository
    {
      && (forall u :: u in repository.users ==> WellFormed(u, isEmailAddress))
      && (!emailError && !IsBlank(email) ==> isEmailAddress(email))
    }

    /** `Sound()`, and the published state shows the store: a Success holding exactly
        the stored list, and the filtered view derived from it by the applied query. */
    ghost predicate Valid()
      reads this, repository
    {
      && Sound()
      && uiState.Success?
      && uiState.users == repository.users
      && filteredUsers == Filtered(repository.users, appliedQuery)
    }

    /** Construction with an empty store, then the `init` block: the search collector
        applies "" while still Loading, and the fetch then publishes the empty store. */
    constructor (isEmailAddress: string -> bool)
      ensures Valid()
      ensures fresh(repository) && repository.users == []
      ensures this.isEmailAddress == isEmailAddress
      ensures name == "" && email == "" && !nameError && !emailError
      ensures uiState == Success([], NoUsersMessage) && filteredUsers == [] && searchQuery == ""
      ensures recentlyDeletedUser == None
    {
      this.isEmailAddress := isEmailAddress;
      repository := new UserRepositoryImpl();
      name, email := "", "";
      nameError, emailError := false, false;
      uiState := Loading;
      filteredUsers := [];
      searchQuery := "";
      recentlyDeletedUser := None;
      appliedQuery := "";
      new;
      FilterUsers("");
      FetchUsers();
    }

    /** `fetchUsers`: publish the stored list, with a message saying whether it is empty. */
    method FetchUsers()
      requires Sound()
      modifies this
      ensures Valid()
      ensures repository.users == old(repository.users)
      ensures uiState == Success(repository.users, if repository.users == [] then NoUsersMessage else FetchedMessage)
      ensures filteredUsers == repository.users
      ensures name == old(name) && email == old(email)
      ensures nameError == old(nameError) && emailError == old(emailError)
      ensures searchQuery == old(searchQuery) && recentlyDeletedUser == old(recentlyDeletedUser)
    {
      uiState := Loading;
      var users := repository.GetUsers();
      uiState := Success(users, if |users| == 0 then NoUsersMessage else FetchedMessage);
      filteredUsers := users;
      appliedQuery := "";
    }

    /** `filterUsers`: the users of the current Success state (none in any other state),
        filtered by `query`. */
    method FilterUsers(query: string)
      requires Sound()
      modifies this
      ensures Sound()
      ensures old(uiState).Success? && old(uiState).users == repository.users ==> Valid()
      ensures !old(uiState).Success? ==> filteredUsers == []
      ensures filteredUsers == Filtered(SuccessUsers(old(uiState)), query)
      ensures uiState == old(uiState) && repository.users == old(repository.users)
      ensures name == old(name) && email == old(email)
      ensures nameError == old(nameError) && emailError == old(emailError)
      ensures searchQuery == old(searchQuery) && recentlyDeletedUser == old(recentlyDeletedUser)
    {
      var users := SuccessUsers(uiState);
      filteredUsers := if |query| == 0 then users else Filter(users, u => Matches(u, query));
      appliedQuery := query;
    }

    /** `updateSearchQuery`: record the query; filtering happens once it settles. */
    method UpdateSearchQuery(query: string)
      requires Valid()
      modifies this
      ensures Valid()
      ensures searchQuery == query
      ensures filteredUsers == old(filteredUsers) && uiState == old(uiState)
      ensures repository.users == old(repository.users)
      ensures name == old(name) && email == old(email)
      ensures nameError == old(nameError) && emailError == old(emailError)
      ensures recentlyDeletedUser == old(recentlyDeletedUser)
    {
      searchQuery := query;
    }

    /** `updateName`: store the draft and flag it when blank. */
    method UpdateName(input: string)
      requires Valid()
      modifies this
      ensures Valid()
      ensures name == input && nameError == IsBlank(input)
      ensures email == old(email) && emailError == old(emailError)
      ensures uiState == old(uiState) && filteredUsers == old(filteredUsers)
      ensures repository.users == old(repository.users)
      ensures searchQuery == old(searchQuery) && recentlyDeletedUser == old(recentlyDeletedUser)
    {
      name := input;
      nameError := IsBlank(input);
    }

    /** `updateEmail`: store the draft and flag it when blank or not an email address. */
    method UpdateEmail(input: string)
      requires Valid()
      modifies this
      ensures Valid()
      ensures email == input && emailError == EmailError(input, isEmailAddress)
      ensures name == old(name) && nameError == old(nameError)
      ensures uiState == old(uiState) && filteredUsers == old(filteredUsers)
      ensures repository.users == old(repository.users)
      ensures searchQuery == old(searchQuery) && recentlyDeletedUser == old(recentlyDeletedUser)
    {
      email := input;
      emailError := IsBlank(input) || !isEmailAddress(input);
    }

    /** `addUser`: when both drafts are non-blank and the email flag is clear, append a
        user built from the drafts with an id in 0..1000, publish the store and clear the
        drafts; otherwise only recompute the two error flags. */
    method AddUser()
      requires Valid()
      modifies this, repository
      ensures Valid()
      ensures AddAccepted(old(name), old(email), old(emailError)) ==>
        && |repository.users| == |old(repository.users)| + 1
        && repository.users[..|old(repository.users)|] == old(repository.users)
        && repository.users[|old(repository.users)|].name == old(name)
        && repository.users[|old(repository.users)|].email == old(email)
        && 0 <= repository.users[|old(repository.users)|].id <= 1000
        && isEmailAddress(old(email))
        && uiState == Success(repository.users, AddedMessage)
        && filteredUsers == repository.users
        && name == "" && email == ""
        && nameError == old(nameError) && emailError == old(emailError)
      ensures !AddAccepted(old(name), old(email), old(emailError)) ==>
        && repository.users == old(repository.users)
        && uiState == old(uiState) && filteredUsers == old(filteredUsers)
        && name == old(name) && email == old(email)
        && nameError == IsBlank(name)
        && emailError == EmailError(email, isEmailAddress)
      ensures searchQuery == old(searchQuery) && recentlyDeletedUser == old(recentlyDeletedUser)
    {
      if !IsBlank(name) && !IsBlank(email) && !emailError {
        uiState := Loading;
        var id :| 0 <= id <= 1000;
        var newUser := User(id, name, email);
        var users := repository.AddUser(newUser);
        uiState := Success(users, AddedMessage);
        filteredUsers := users;
        appliedQuery := "";
        name := "";
        email := "";
      } else {
        nameError := IsBlank(name);
        emailError := IsBlank(email) || !isEmailAddress(email);
      }
    }

    /** `deleteUser`: remember `user` for undo, remove its first occurrence from the
        store and publish the result. */
    method DeleteUser(user: User)
      requires Valid()
      modifies this, repository
      ensures Valid()
      ensures recentlyDeletedUser == Some(user)
      ensures repository.users == RemoveFirst(old(repository.users), user)
      ensures uiState == Success(repository.users, DeletedMessage)
      ensures filteredUsers == repository.users
      ensures name == old(name) && email == old(email)
      ensures nameError == old(nameError) && emailError == old(emailError)
      ensures searchQuery == old(searchQuery)
    {
      recentlyDeletedUser := Some(user);
      uiState := Loading;
      var users := repository.DeleteUser(user);
      uiState := Success(users, DeletedMessage);
      filteredUsers := users;
      appliedQuery := "";
    }

    /** `undoDelete`: when a user was deleted, replay its name and email through the
        drafts and `addUser` (which gives it a new id); always empty the undo slot. */
    method UndoDelete()
      requires Valid()
      modifies this, repository
      ensures Valid()
      ensures recentlyDeletedUser == None
      ensures old(recentlyDeletedUser) == None ==>
        && repository.users == old(repository.users)
        && uiState == old(uiState) && filteredUsers == old(filteredUsers)
        && name == old(name) && email == old(email)
        && nameError == old(nameError) && emailError == old(emailError)
      ensures old(recentlyDeletedUser).Some? ==>
        var u := old(recentlyDeletedUser).value;
        && nameError == IsBlank(u.name)
        && emailError == EmailError(u.email, isEmailAddress)
        && if !IsBlank(u.name) && !EmailError(u.email, isEmailAddress) then
             && |repository.users| == |old(repository.users)| + 1
             && repository.users[..|old(repository.users)|] == old(repository.users)
             && Contact(repository.users[|old(repository.users)|]) == Contact(u)
             && 0 <= repository.users[|old(repository.users)|].id <= 1000
             && uiState == Success(repository.users, AddedMessage)
             && filteredUsers == repository.users
             && name == "" && email == ""
           else
             && repository.users == old(repository.users)
             && uiState == old(uiState) && filteredUsers == old(filteredUsers)
             && name == u.name && email == u.email
      ensures searchQuery == old(searchQuery)
    {
      if recentlyDeletedUser.Some? {
        var u := recentlyDeletedUser.value;
        UpdateName(u.name);
        UpdateEmail(u.email);
        AddUser();
      }
      recentlyDeletedUser := None;
    }

    /** `clearUsers`: empty the store and publish the empty list. */
    method ClearUsers()
      requires Valid()
      modifies this, repository
      ensures Valid()
      ensures repository.users == []
      ensures uiState == Success([], ClearedMessage)
      ensures filteredUsers == []
      ensures name == old(name) && email == old(email)
      ensures nameError == old(nameError) && emailError == old(emailError)
      ensures searchQuery == old(searchQuery) && recentlyDeletedUser == old(recentlyDeletedUser)
    {
      uiState := Loading;
      var users := repository.ClearUsers();
      uiState := Success(users, ClearedMessage);
      filteredUsers := users;
      appliedQuery := "";
    }
  }

  /** The screen's delete-then-undo sequence on a stored user: the store ends up with the
      same name/email pairs as before, the re-added one at the end with a fresh id. */
  method DeleteThenUndo(vm: UserListViewModel, user: User)
    requires vm.Valid()
    requires user in vm.repository.users
    modifies vm, vm.repository
    ensures vm.Valid()
    ensures |vm.repository.users| == |old(vm.repository.users)|
    ensures multiset(Contacts(vm.repository.users)) == multiset(Contacts(old(vm.repository.users)))
    ensures vm.recentlyDeletedUser == None
  {
    ghost var before := vm.repository.users;
    vm.DeleteUser(user);
    ghost var removed := vm.repository.users;
    vm.UndoDelete();
    ghost var readded := vm.repository.users[|removed|];
    assert vm.repository.users == removed + [readded];
    RemoveThenReAddRestoresContacts(before, user, readded);
  }
}
