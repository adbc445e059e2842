/**
  The display state the view model publishes: a closed sum of three variants.
  `Success` and `Error` are data classes and `Loading` a data object, so equality
  is structural, as it is for a Dafny datatype.
 */
module UiStates {
  import opened Users

  datatype UiState =
    | Loading
    | Success(users: seq<User>, message: string := "")
    | Error(message: string)

  /** `(state as? UiState.Success)?.users ?: emptyList()`: the users of a Success
      state; Loading and Error carry none. */
  function SuccessUsers(state: UiState): seq<User>
  {
    match state
    case Success(users, _) => users
    case _ => []
  }
}
