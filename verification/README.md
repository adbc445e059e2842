# MVVMExample user list, modelled in Dafny

This project models the non-UI logic of an Android reference app. The app keeps a list of users (id, name, email) and lets the user add, delete, undo a delete, clear and search.

- **The stores.** `UserRepositoryImpl` (`user_repository.dfy`) and the unused duplicate `LocalDataSource` (`local_data_source.dfy`) are classes. Each owns a `users: seq<User>` field. Its four operations reassign that field in place and return the list as it is afterwards.
- **`MutableList.remove`.** `users.dfy` holds the `User` data class. It also models `remove` as `IndexOf` followed by dropping that position (`RemoveFirst`), with its properties as lemmas.
- **`UiState`.** `ui_state.dfy` holds the sealed `UiState` as a Dafny datatype: `Loading | Success(users, message := "") | Error(message)`. Sealedness, the payload-free `Loading`, the `""` default message and structural equality of the data classes all come from the datatype declaration itself.
- **The view model.** `UserListViewModel` (`user_list_view_model.dfy`) is a class. Every `MutableStateFlow` becomes a plain field, plus the undo slot `recentlyDeletedUser`. Each `viewModelScope.launch` block runs to completion in sequence, so `Loading` is assigned and then overwritten within one method.
  - The object invariant `Valid()` says three things. The published state is `Success` holding exactly the store. `filteredUsers` is the store filtered by the query it was last computed for (the ghost field `appliedQuery`). Every stored user is well formed: id in 0..1000, non-blank name, non-blank email matching the email pattern.
  - Every operation preserves `Valid()`.
  - The view model starts with `Success([], "No users available")`: the fetch launched by `init` completes on the empty store.
- **Search.** The `filter` in `filterUsers` is `Filter` over a predicate, and the predicate is `MatchesQuery`. Kotlin's `contains(…, ignoreCase = true)` is `Text.ContainsIgnoreCase`, built on `indexOf` (`Text.IndexOfIgnoreCase`), and `isBlank` is `Text.IsBlank`.

Two behaviours of the code worth noting:
- The name is flagged when it is *blank* (`isBlank`), not only when it is empty.
- After a fetch, add, delete or clear, `filteredUsers` is the whole store, whatever `searchQuery` holds. Only the next settled query re-applies the filter. The model records this with `appliedQuery == ""`.

## Model

| member | source | states |
|---|---|---|
| Text.IndexOfIgnoreCase | app/src/main/java/com/instant/mvvmexample/view/viewmodels/UserListViewModel.kt:76 | returns the first offset at or after `from` where the query occurs ignoring case, or -1 exactly when it occurs nowhere from there |
| Text.ContainsIgnoreCase | app/src/main/java/com/instant/mvvmexample/view/viewmodels/UserListViewModel.kt:76 | true exactly when the query occurs, ignoring case, at some offset of the text |
| Text.ContainsEmpty | app/src/main/java/com/instant/mvvmexample/view/viewmodels/UserListViewModel.kt:75-76 | every text contains the empty query |
| Text.ContainsIsCaseInsensitive | app/src/main/java/com/instant/mvvmexample/view/viewmodels/UserListViewModel.kt:76 | two queries that differ only in letter case are contained in the same texts |
| Users.IndexOf | app/src/main/java/com/instant/mvvmexample/repository/UserRepositoryImpl.kt:22 | -1 exactly when the user is absent; otherwise a position holding the user with no equal user before it |
| Users.RemoveFirst | app/src/main/java/com/instant/mvvmexample/repository/UserRepositoryImpl.kt:22 | no change when the user is absent; otherwise exactly one element fewer; no element that was not there before |
| Users.RemoveFirstOccurrence | app/src/main/java/com/instant/mvvmexample/repository/UserRepositoryImpl.kt:20-24 | when the user is present, the result is the list minus its first occurrence, the rest in original order |
| Users.RemoveFirstMultiset | app/src/main/java/com/instant/mvvmexample/repository/UserRepositoryImpl.kt:20-24 | removal takes away exactly one copy of the user if there is one, and nothing else |
| Users.AddThenRemoveRestores | app/src/main/java/com/instant/mvvmexample/repository/UserRepositoryImpl.kt:14-24 | appending a user the list does not hold and then removing it gives back the original list |
| Users.RemoveThenAppendIsPermutation | app/src/main/java/com/instant/mvvmexample/repository/UserRepositoryImpl.kt:14-24 | removing a present user and appending it again yields a permutation of the list |
| Users.RemoveThenReAddRestoresContacts | app/src/main/java/com/instant/mvvmexample/view/viewmodels/UserListViewModel.kt:115-136 | removing a user and appending one with the same name and email, whatever its id, restores the multiset of name/email pairs |
| Repository.UserRepositoryImpl.constructor | app/src/main/java/com/instant/mvvmexample/repository/UserRepositoryImpl.kt:7 | a new store is empty |
| Repository.UserRepositoryImpl.GetUsers | app/src/main/java/com/instant/mvvmexample/repository/UserRepositoryImpl.kt:9-12 | returns the stored list and changes nothing |
| Repository.UserRepositoryImpl.AddUser | app/src/main/java/com/instant/mvvmexample/repository/UserRepositoryImpl.kt:14-18 | appends the user at the end: one longer, old contents a prefix; returns the new contents |
| Repository.UserRepositoryImpl.DeleteUser | app/src/main/java/com/instant/mvvmexample/repository/UserRepositoryImpl.kt:20-24 | removes the first equal user; no-op when absent; length drops by at most one; returns the new contents |
| Repository.UserRepositoryImpl.ClearUsers | app/src/main/java/com/instant/mvvmexample/repository/UserRepositoryImpl.kt:26-30 | empties the store and returns the empty list |
| Source.LocalDataSource.constructor | app/src/main/java/com/instant/mvvmexample/soucre/LocalDataSource.kt:8 | a new data source is empty |
| Source.LocalDataSource.GetUsers | app/src/main/java/com/instant/mvvmexample/soucre/LocalDataSource.kt:10-13 | returns the stored list and changes nothing |
| Source.LocalDataSource.AddUser | app/src/main/java/com/instant/mvvmexample/soucre/LocalDataSource.kt:15-19 | appends the user at the end: one longer, old contents a prefix; returns the new contents |
| Source.LocalDataSource.DeleteUser | app/src/main/java/com/instant/mvvmexample/soucre/LocalDataSource.kt:21-25 | removes the first equal user; no-op when absent; returns the new contents |
| Source.LocalDataSource.ClearUsers | app/src/main/java/com/instant/mvvmexample/soucre/LocalDataSource.kt:27-31 | empties the store and returns the empty list |
| ViewModels.Filter | app/src/main/java/com/instant/mvvmexample/view/viewmodels/UserListViewModel.kt:75-77 | the filter result is never longer than the list |
| ViewModels.FilterMembership | app/src/main/java/com/instant/mvvmexample/view/viewmodels/UserListViewModel.kt:75-77 | a user is in the result exactly when it is in the list and satisfies the predicate |
| ViewModels.FilterEmptyIffNoneKept | app/src/main/java/com/instant/mvvmexample/view/viewmodels/UserListViewModel.kt:75-77 | the result is empty exactly when no user of the list satisfies the predicate |
| ViewModels.FilterCount | app/src/main/java/com/instant/mvvmexample/view/viewmodels/UserListViewModel.kt:75-77 | each satisfying user is kept as many times as it occurs, every other user zero times |
| ViewModels.FilterIsSubsequence | app/src/main/java/com/instant/mvvmexample/view/viewmodels/UserListViewModel.kt:75-77 | the result is an order-preserving subsequence: strictly increasing positions into the list pick out its elements |
| ViewModels.FilterEmptyQueryKeepsAll | app/src/main/java/com/instant/mvvmexample/view/viewmodels/UserListViewModel.kt:75-76 | filtering by the empty query keeps the whole list |
| ViewModels.FilteredIsFilter | app/src/main/java/com/instant/mvvmexample/view/viewmodels/UserListViewModel.kt:73-78 | the `isEmpty` shortcut of `filterUsers` gives the same list as filtering by name-or-email containment |
| Text.IsWhitespace | app/src/main/java/com/instant/mvvmexample/view/viewmodels/UserListViewModel.kt:86 | the characters `Char.isWhitespace` accepts: TAB..CR, FS..US, space and the Unicode space, line and paragraph separators |
| Text.IsBlank | app/src/main/java/com/instant/mvvmexample/view/viewmodels/UserListViewModel.kt:86 | `isBlank`: the string is empty or made of whitespace only |
| UiStates.SuccessUsers | app/src/main/java/com/instant/mvvmexample/view/viewmodels/UserListViewModel.kt:74 | the users of a `Success` state; the empty list for `Loading` and `Error` |
| ViewModels.Matches | app/src/main/java/com/instant/mvvmexample/view/viewmodels/UserListViewModel.kt:76 | the search predicate: the name or the email contains the query, ignoring case |
| ViewModels.MatchesQuery | app/src/main/java/com/instant/mvvmexample/view/viewmodels/UserListViewModel.kt:75-76 | the predicate `filterUsers` passes to `filter`, as a function value |
| ViewModels.Filtered | app/src/main/java/com/instant/mvvmexample/view/viewmodels/UserListViewModel.kt:75-77 | the list itself for the empty query, otherwise the list filtered by the search predicate |
| ViewModels.EmailError | app/src/main/java/com/instant/mvvmexample/view/viewmodels/UserListViewModel.kt:91 | the email flag: the draft is blank or does not match the email pattern (the same test as at line 111) |
| ViewModels.AddAccepted | app/src/main/java/com/instant/mvvmexample/view/viewmodels/UserListViewModel.kt:95 | the guard of `addUser`: name and email not blank and the email flag clear |
| ViewModels.UserListViewModel.Sound | app/src/main/java/com/instant/mvvmexample/view/viewmodels/UserListViewModel.kt:94-113 | every stored user was built by an accepted `addUser`: id in 0..1000, non-blank name, email non-blank and matching the pattern; a clear email flag on a non-blank email means it matches |
| ViewModels.UserListViewModel.Valid | app/src/main/java/com/instant/mvvmexample/view/viewmodels/UserListViewModel.kt:49-78 | `Sound()`, the published state is `Success` holding exactly the store, and the filtered list is the store filtered by the query last applied |
| ViewModels.UserListViewModel.constructor | app/src/main/java/com/instant/mvvmexample/view/viewmodels/UserListViewModel.kt:17-47 | fresh empty store; the start-up `filterUsers("")` runs while `Loading`, then the fetch completes: empty drafts, flags clear, `Success([], "No users available")`, empty filtered list and query, empty undo slot; invariant established |
| ViewModels.UserListViewModel.FetchUsers | app/src/main/java/com/instant/mvvmexample/view/viewmodels/UserListViewModel.kt:49-60 | publishes `Success(store)` with "No users available" exactly when the store is empty, else "Users fetched successfully!"; filtered list becomes the store; nothing else changes |
| ViewModels.UserListViewModel.FilterUsers | app/src/main/java/com/instant/mvvmexample/view/viewmodels/UserListViewModel.kt:73-78 | filtered list becomes the users of the published state filtered by the query: the empty list when that state is not `Success` (as while `Loading` at start-up); when it is `Success` holding the store, the invariant `Valid()` is re-established; nothing else changes |
| ViewModels.UserListViewModel.UpdateSearchQuery | app/src/main/java/com/instant/mvvmexample/view/viewmodels/UserListViewModel.kt:80-82 | records the query and changes nothing else |
| ViewModels.UserListViewModel.UpdateName | app/src/main/java/com/instant/mvvmexample/view/viewmodels/UserListViewModel.kt:84-87 | stores the draft name; name error is set exactly when it is blank |
| ViewModels.UserListViewModel.UpdateEmail | app/src/main/java/com/instant/mvvmexample/view/viewmodels/UserListViewModel.kt:89-92 | stores the draft email; email error is set exactly when it is blank or fails the email pattern |
| ViewModels.UserListViewModel.AddUser | app/src/main/java/com/instant/mvvmexample/view/viewmodels/UserListViewModel.kt:94-113 | if accepted: appends one user with the draft name and email and an id in 0..1000, whose email matches the pattern; publishes `Success(store, "User added successfully!")`; filtered list is the store; drafts cleared. If rejected: store, state, filtered list and drafts untouched, only the two flags recomputed |
| ViewModels.UserListViewModel.DeleteUser | app/src/main/java/com/instant/mvvmexample/view/viewmodels/UserListViewModel.kt:115-127 | puts the user in the undo slot; removes its first occurrence from the store; publishes `Success(store, "User deleted successfully!")`; filtered list is the store |
| ViewModels.UserListViewModel.UndoDelete | app/src/main/java/com/instant/mvvmexample/view/viewmodels/UserListViewModel.kt:129-136 | always empties the slot. With an empty slot nothing else changes. Otherwise the drafts and flags are replayed from the slot. If the user's name and email are valid, one user with the same name and email (id in 0..1000) is appended and published; if not, only drafts and flags change |
| ViewModels.UserListViewModel.ClearUsers | app/src/main/java/com/instant/mvvmexample/view/viewmodels/UserListViewModel.kt:138-149 | store empty; published state `Success([], "All users cleared!")`; filtered list empty |
| ViewModels.DeleteThenUndo | app/src/main/java/com/instant/mvvmexample/view/viewmodels/UserListViewModel.kt:115-136 | deleting a stored user and undoing leaves a store of the same length with the same multiset of name/email pairs |

## Left out

- Compose UI (`UserListScreen.kt`) and activity wiring (`MainActivity.kt`): layout and snackbars, no logic.
- The `UserRepository` interface: it has no behaviour. The view model holds the concrete `UserRepositoryImpl`.
- The `delay(…)` calls in both stores: timing only.
- Coroutines: `viewModelScope.launch` interleavings are not modelled. Each launched block is one atomic step, so `Loading` is never observed between operations.
- The `catch` branches that publish `Error(…)`: the in-memory stores never throw, so the model never reaches `Error`.
- `observeSearchQuery`: the 300 ms `debounce` and `distinctUntilChanged` are not modelled. `FilterUsers` is the action taken once a query settles. `UpdateSearchQuery` only records the query.
- `android.util.Patterns.EMAIL_ADDRESS` is not part of this model. The view model receives the matcher as the constant `isEmailAddress: string -> bool`.
- `(0..1000).random()`: the id is a nondeterministic choice in 0..1000.
- Text.ContainsIgnoreCase: case folding covers the ASCII letters only. Other letters are compared exactly, whereas Kotlin folds them by Unicode rules.
- Text.IsBlank: the whitespace set is written out by code point as the JVM defines it. Strings are sequences of Unicode scalar values, not UTF-16 code units.
- StateFlow publication and list aliasing: published lists are value snapshots. In the source, a `Success.users` list is the store's live `MutableList`.
- `model/User.kt` is not part of this model. `User(id, name, email)` with structural equality is taken from its use at `UserListViewModel.kt:99`.
