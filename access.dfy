/** The request gate shared by the views: HTTP methods, the two permission
    classes used, and the authenticated caller. */
module Access {
  import opened Errors
  import opened Models

  datatype HttpMethod = GET | POST | PUT | PATCH | DELETE | HEAD | OPTIONS

  datatype Permission = IsAuthenticated | AllowAny

  /** The request passes when every permission in the list grants it. */
  predicate Admits(perms: seq<Permission>, authenticated: bool) {
    forall i :: 0 <= i < |perms| ==> perms[i] == AllowAny || authenticated
  }

  /** The JWT authenticator accepted a token naming a stored user. A missing,
      malformed or expired token is `None`. */
  predicate Authenticated(db: Store, caller: Option<UserId>)
    reads db
  {
    caller.Some? && caller.value in db.users
  }
}
