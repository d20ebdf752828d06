/** users/views.py: sign-in, and the caller's own account (password
    re-check, profile edit, withdrawal). */
module UserViews {
  import opened Errors
  import opened Passwords
  import opened Models
  import opened Access
  import opened UserSerializers

  // ---------------------------------------------------------------------
  // Sign-in

  /** UserSignInView.post, up to the issued tokens: both fields must be
      non-empty; the email is looked up exactly as given; a withdrawn user is
      sent back before any password is looked at; then the token pair
      serializer authenticates the email and password, and refuses with its
      own 401 when the password does not verify. The result is the user the
      tokens are issued for. */
  function SignIn(db: Store, email: Option<string>, password: Option<string>): (r: Result<UserId>)
    reads db
    requires db.Valid()
    ensures !(Given(email) && Given(password)) <==> r == Err(EmptyInput)
    ensures Given(email) && Given(password) ==>
              (db.FindByEmail(email.value).None? <==> r == Err(UserNotFound))
    ensures r.Ok? ==>
              && r.value in db.users
              && db.users[r.value].email == email.value
              && !db.users[r.value].isDeleted
              && CheckPassword(db.users[r.value].password, password.value)
  {
    if !Given(email) || !Given(password) then Err(EmptyInput)
    else
      match db.FindByEmail(email.value)
      case None => Err(UserNotFound)
      case Some(id) =>
        if db.users[id].isDeleted then Err(TemporaryRedirect)
        else if !CheckPassword(db.users[id].password, password.value) then Err(AuthenticationFailed)
        else Ok(id)
  }

  /** A withdrawn user gets the redirect whatever password is sent, right or
      wrong or a second one. */
  lemma RedirectBeforePasswordCheck(db: Store, id: UserId, p1: string, p2: string)
    requires db.Valid() && id in db.users && db.users[id].isDeleted
    requires db.users[id].email != "" && p1 != "" && p2 != ""
    ensures SignIn(db, Some(db.users[id].email), Some(p1)) == Err(TemporaryRedirect)
    ensures SignIn(db, Some(db.users[id].email), Some(p2)) == SignIn(db, Some(db.users[id].email), Some(p1))
  {
    db.FindsOwnEmail(id);
  }

  /** For an active stored user, sign-in succeeds exactly when the password
      verifies, and otherwise fails with the token serializer's 401. */
  lemma SignInIffPasswordVerifies(db: Store, id: UserId, password: string)
    requires db.Valid() && id in db.users && !db.users[id].isDeleted
    requires password != "" && db.users[id].email != ""
    ensures SignIn(db, Some(db.users[id].email), Some(password)) == Ok(id) <==>
            CheckPassword(db.users[id].password, password)
    ensures !CheckPassword(db.users[id].password, password) ==>
            SignIn(db, Some(db.users[id].email), Some(password)) == Err(AuthenticationFailed)
  {
    db.FindsOwnEmail(id);
  }

  /** The sign-in outcomes and their status codes. */
  lemma SignInStatuses(db: Store, email: Option<string>, password: Option<string>)
    requires db.Valid()
    ensures var r := SignIn(db, email, password);
            r.Err? ==> r.error in {EmptyInput, UserNotFound, TemporaryRedirect, AuthenticationFailed}
    ensures var r := SignIn(db, email, password);
            r.Err? ==> (r.error.Status() == 307 <==> r == Err(TemporaryRedirect))
  {
  }

  // ---------------------------------------------------------------------
  // The caller's own account. UserUpdateView requires an authenticated
  // caller for every method.

  function UserMePermissions(m: HttpMethod): seq<Permission> {
    [IsAuthenticated]
  }

  lemma UserMeNeedsCaller(m: HttpMethod, authenticated: bool)
    ensures Admits(UserMePermissions(m), authenticated) <==> authenticated
  {
    assert UserMePermissions(m)[0] == IsAuthenticated;
  }

  /** The body of the confirmation response. */
  const ConfirmedDetail: string := "유저 인증 성공."

  /** UserUpdateView.post: the caller re-enters a password, which is checked
      against the caller's own row (found again by email). Nothing is stored. */
  function ConfirmPassword(db: Store, caller: Option<UserId>, password: Option<string>): (r: Result<string>)
    reads db
    requires db.Valid()
    ensures !Authenticated(db, caller) <==> r == Err(NotAuthenticated)
    ensures Authenticated(db, caller) && !Given(password) <==> r == Err(EmptyInput)
    ensures r.Ok? <==>
              && Authenticated(db, caller)
              && Given(password)
              && CheckPassword(db.users[caller.value].password, password.value)
    ensures r.Ok? ==> r.value == ConfirmedDetail
    ensures r.Err? ==> r.error in {NotAuthenticated, EmptyInput, PasswordNotMatched}
  {
    UserMeNeedsCaller(POST, Authenticated(db, caller));
    if !Admits(UserMePermissions(POST), Authenticated(db, caller)) then Err(NotAuthenticated)
    else if !Given(password) then Err(EmptyInput)
    else
      var me := caller.value;
      db.FindsOwnEmail(me);
      var id := db.FindByEmail(db.users[me].email).value;
      if CheckPassword(db.users[id].password, password.value) then Ok(ConfirmedDetail)
      else Err(PasswordNotMatched)
  }

  /** The row a profile edit saves: the name only when a non-empty name is
      given, the password only when a non-empty password is given, and then
      only one the policy accepts; a refused password refuses the whole edit.
      Only the name and password columns are saved. */
  function Profiled(u: User, name: Option<string>, password: Option<string>): (r: Result<User>)
    ensures Given(password) && ValidatePassword(password.value).Err? <==> r == Err(PasswordNotValid)
    ensures r.Err? ==> r.error == PasswordNotValid
    ensures r.Ok? ==> r.value.name == (if Given(name) then name.value else u.name)
    ensures r.Ok? && Given(password) ==>
              PatternMatches(password.value) &&
              forall q :: CheckPassword(r.value.password, q) <==> q == password.value
    ensures r.Ok? && !Given(password) ==> r.value.password == u.password
    ensures r.Ok? ==> r.value.(name := u.name, password := u.password) == u
  {
    if Given(password) && ValidatePassword(password.value).Err? then Err(PasswordNotValid)
    else
      var n := if Given(name) then name.value else u.name;
      var h := if Given(password) then MakePassword(Some(ValidatePassword(password.value).value)) else u.password;
      Ok(u.(name := n, password := h))
  }

  /** A profile edit never touches the email, the withdrawal flag or the stamps. */
  lemma ProfileKeepsIdentity(u: User, name: Option<string>, password: Option<string>)
    requires Profiled(u, name, password).Ok?
    ensures var v := Profiled(u, name, password).value;
            v.email == u.email && v.isDeleted == u.isDeleted &&
            v.createdAt == u.createdAt && v.updatedAt == u.updatedAt
  {
  }

  /** Sending the same edit twice is sending it once, up to the stored hash:
      the second row agrees with the first on every other field, and both
      hashes verify the same passwords. (A real hash is salted afresh on each
      set_password, so the hash itself may differ.) */
  lemma ProfileIdempotent(u: User, name: Option<string>, password: Option<string>)
    requires Profiled(u, name, password).Ok?
    ensures Profiled(Profiled(u, name, password).value, name, password).Ok?
    ensures var once := Profiled(u, name, password).value;
            var twice := Profiled(once, name, password).value;
            && twice.(password := once.password) == once
            && forall q :: CheckPassword(twice.password, q) <==> CheckPassword(once.password, q)
  {
  }

  /** UserUpdateView.patch: the caller's row is found again by email (it always
      is, and it is always the caller's), edited, and shown as the signup
      serializer shows a user. */
  method UpdateProfile(db: Store, caller: Option<UserId>, name: Option<string>, password: Option<string>)
    returns (r: Result<UserOut>)
    requires db.Valid()
    modifies db
    ensures db.Valid()
    ensures db.posts == old(db.posts) && db.nextPostId == old(db.nextPostId) && db.nextUserId == old(db.nextUserId)
    ensures r.Err? ==> db.users == old(db.users)
    ensures !old(Authenticated(db, caller)) ==> r == Err(NotAuthenticated)
    ensures old(Authenticated(db, caller)) ==>
              var p := Profiled(old(db.users)[caller.value], name, password);
              && (p.Err? ==> r == Err(p.error))
              && (p.Ok? ==>
                    && db.users == old(db.users)[caller.value := p.value]
                    && r == Ok(UserOut(p.value.name, p.value.email)))
  {
    UserMeNeedsCaller(PATCH, Authenticated(db, caller));
    if !Admits(UserMePermissions(PATCH), Authenticated(db, caller)) {
      return Err(NotAuthenticated);
    }
    var me := caller.value;
    db.FindsOwnEmail(me);
    var found := db.FindByEmail(db.users[me].email);
    if found.None? {
      return Err(UserNotFound);
    }
    if found.value != me {
      return Err(IsNotMe);
    }
    var p := Profiled(db.users[me], name, password);
    if p.Err? {
      return Err(p.error);
    }
    ProfileKeepsIdentity(db.users[me], name, password);
    db.users := db.users[me := p.value];
    r := Ok(UserOut(p.value.name, p.value.email));
  }

  /** UserUpdateView.delete: after the gate, the handler returns no response,
      which the framework turns into a server error. Nothing is stored. */
  function DeleteMe(db: Store, caller: Option<UserId>): (r: Result<UserOut>)
    reads db
    ensures r.Err?
    ensures r == Err(NotAuthenticated) <==> !Authenticated(db, caller)
    ensures r == Err(ServerError) <==> Authenticated(db, caller)
  {
    UserMeNeedsCaller(DELETE, Authenticated(db, caller));
    if !Admits(UserMePermissions(DELETE), Authenticated(db, caller)) then Err(NotAuthenticated)
    else Err(ServerError)
  }
}
