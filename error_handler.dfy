/** Error classification for the application: what `handleApiError` makes of a
    rejected request, and the message shown to the user for each kind. */
module ErrorHandler {
  import opened Wrappers
  import opened JsText

  datatype ErrorType = Network | Auth | Database | Validation | Unknown

  /** What a `catch` clause may receive, as far as `handleApiError` tells the
      cases apart: a fetch `Response`, an `Error` with its message, or anything else. */
  datatype Thrown = ResponseThrown(status: int) | ErrorThrown(message: string) | OtherThrown

  /** `AppError`; `code` and `originalError` are optional. */
  datatype AppError = AppError(errorType: ErrorType, message: string, code: Option<string>, originalError: Option<Thrown>)

  const ApiStatusPrefix := "API request failed with status: "
  const NetworkMessage := "Network error occurred while fetching data"
  const UnknownMessage := "An unknown error occurred"

  /** `createError`: a record of its four arguments. */
  function CreateError(errorType: ErrorType, message: string, code: Option<string>, originalError: Option<Thrown>): (e: AppError)
    ensures e.errorType == errorType && e.message == message
    ensures e.code == code && e.originalError == originalError
  {
    AppError(errorType, message, code, originalError)
  }

  /** The case-sensitive test `message.includes('network') || message.includes('fetch')`. */
  predicate MentionsNetwork(message: string) {
    Includes(message, "network") || Includes(message, "fetch")
  }

  /** `handleApiError` */
  function HandleApiError(error: Thrown): (e: AppError)
    ensures e.originalError == Some(error)
    ensures error.ResponseThrown? ==>
      e.errorType == Network && e.code == Some(IntToString(error.status)) &&
      e.message == ApiStatusPrefix + IntToString(error.status)
    ensures error.ErrorThrown? && MentionsNetwork(error.message) ==>
      e.errorType == Network && e.code == None && e.message == NetworkMessage
    ensures error.ErrorThrown? && !MentionsNetwork(error.message) ==>
      e.errorType == Unknown && e.code == None &&
      e.message == (if error.message != "" then error.message else UnknownMessage)
    ensures error.OtherThrown? ==> e.errorType == Unknown && e.code == None && e.message == UnknownMessage
  {
    match error
    case ResponseThrown(status) =>
      CreateError(Network, ApiStatusPrefix + IntToString(status), Some(IntToString(status)), Some(error))
    case ErrorThrown(message) =>
      if MentionsNetwork(message) then CreateError(Network, NetworkMessage, None, Some(error))
      else CreateError(Unknown, if message != "" then message else UnknownMessage, None, Some(error))
    case OtherThrown =>
      CreateError(Unknown, UnknownMessage, None, Some(error))
  }

  /** A classified error is a network error exactly when it came from a `Response`
      or from an `Error` that mentions the network; everything else is unknown. */
  lemma ApiErrorClassification(error: Thrown)
    ensures HandleApiError(error).errorType == Network <==>
      (error.ResponseThrown? || (error.ErrorThrown? && MentionsNetwork(error.message)))
    ensures HandleApiError(error).errorType != Network ==> HandleApiError(error).errorType == Unknown
  {
  }

  /** Only a `Response` yields a code, and that code reads back as the status:
      `Number(code) === status`; the status text also ends the message. */
  lemma {:induction false} ApiErrorCodeIsStatus(error: Thrown)
    ensures HandleApiError(error).code.Some? <==> error.ResponseThrown?
    ensures error.ResponseThrown? ==>
      ParseNumber(HandleApiError(error).code.value) == Some(error.status) &&
      EndsWith(HandleApiError(error).message, IntToString(error.status)) &&
      Includes(HandleApiError(error).message, IntToString(error.status))
  {
    if error.ResponseThrown? {
      var text := IntToString(error.status);
      var m := HandleApiError(error).message;
      NumberOfIntToString(error.status);
      assert m[|m| - |text|..] == text;
      IncludesAt(m, text, |m| - |text|);
    }
  }

  /** Whatever is thrown, the classified message is never empty. */
  lemma ApiErrorHasMessage(error: Thrown)
    ensures HandleApiError(error).message != ""
  {
  }

  const FriendlyNetwork := "Network connection issue. Please check your internet connection and try again."
  const FriendlyAuth := "Authentication error. Please sign in again."
  const FriendlyDatabase := "Database error. Please try again later."
  const FriendlyValidation := "Invalid input. Please check your information and try again."
  const FriendlyUnexpected := "An unexpected error occurred. Please try again later."

  /** `getUserFriendlyErrorMessage`: a fixed text per kind, except that a validation
      error shows its own message when it has one. */
  function GetUserFriendlyErrorMessage(error: AppError): (r: string)
    ensures r != ""
    ensures error.errorType == Network ==> r == FriendlyNetwork
    ensures error.errorType == Auth ==> r == FriendlyAuth
    ensures error.errorType == Database ==> r == FriendlyDatabase
    ensures error.errorType == Validation ==> r == (if error.message != "" then error.message else FriendlyValidation)
    ensures error.errorType == Unknown ==> r == FriendlyUnexpected
  {
    match error.errorType
    case Network => FriendlyNetwork
    case Auth => FriendlyAuth
    case Database => FriendlyDatabase
    case Validation => if error.message != "" then error.message else FriendlyValidation
    case Unknown => FriendlyUnexpected
  }

  /** Only a validation error's own text can reach the user; for every other kind
      the message depends on the kind alone. */
  lemma FriendlyMessageIgnoresDetails(a: AppError, b: AppError)
    requires a.errorType == b.errorType && a.errorType != Validation
    ensures GetUserFriendlyErrorMessage(a) == GetUserFriendlyErrorMessage(b)
  {
  }

  /** An error from `handleApiError` is shown either as the connection message or
      as the generic one, never with the thrown error's own text. */
  lemma FriendlyMessageOfApiError(error: Thrown)
    ensures GetUserFriendlyErrorMessage(HandleApiError(error)) == FriendlyNetwork <==>
      (error.ResponseThrown? || (error.ErrorThrown? && MentionsNetwork(error.message)))
    ensures GetUserFriendlyErrorMessage(HandleApiError(error)) in {FriendlyNetwork, FriendlyUnexpected}
  {
    ApiErrorClassification(error);
  }
}
