/** Error outcomes of the API and the HTTP status each one is reported with.
    The first nine kinds are the exception classes the application defines;
    the last four stand for outcomes produced by the web framework itself. */
module Errors {

  datatype ErrorKind =
    | EmailRequired        // users/exceptions.py, 400
    | PasswordNotValid     // users/exceptions.py, 400
    | UserNotFound         // users/exceptions.py, 404
    | PasswordNotMatched   // users/exceptions.py, 400
    | EmptyInput           // users/exceptions.py, 400
    | TemporaryRedirect    // users/exceptions.py, 307
    | IsNotMe              // users/exceptions.py, 403
    | InvalidJWTToken      // users/exceptions.py, 401 (declared, raised by no view of the core)
    | PostNotFound         // posts/exceptions.py, 404
    | NotAuthenticated     // framework: a permission demands a caller and no credentials were accepted, 401
    | AuthenticationFailed // framework: the token pair serializer rejects the credentials, 401
    | ValidationFailed     // framework: a serializer field constraint failed, 400
    | ServerError          // framework: an uncaught exception or an invalid view return value, 500
  {
    /** The status code that reaches the client. */
    function Status(): (r: nat)
      ensures r == 307 <==> this == TemporaryRedirect
      ensures r == 500 <==> this == ServerError
      ensures 400 <= r < 500 <==> this != TemporaryRedirect && this != ServerError
    {
      match this
      case EmailRequired => 400
      case PasswordNotValid => 400
      case UserNotFound => 404
      case PasswordNotMatched => 400
      case EmptyInput => 400
      case TemporaryRedirect => 307
      case IsNotMe => 403
      case InvalidJWTToken => 401
      case PostNotFound => 404
      case NotAuthenticated => 401
      case AuthenticationFailed => 401
      case ValidationFailed => 400
      case ServerError => 500
    }
  }

  datatype Result<+T> = Ok(value: T) | Err(error: ErrorKind)

  /** Python truthiness of an optional request string: present and non-empty. */
  predicate Given(s: Option<string>) {
    s.Some? && s.value != ""
  }

  datatype Option<+T> = None | Some(value: T) {
    /** The value, or the default when absent (`dict.get(key, default)`). */
    function GetOr(default: T): T {
      match this
      case Some(v) => v
      case None => default
    }
  }
}
