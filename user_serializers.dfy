/** users/serializers.py: the signup serializer. It first overwrites the
    request's name with the local part of the email, then validates the three
    fields (name, email, password, in that order), then hands the validated
    data to the manager's create_user. */
module UserSerializers {
  import opened Errors
  import opened Passwords
  import opened Emails
  import opened Models

  /** The signup request body; a missing key is `None`. */
  datatype SignUpData = SignUpData(name: Option<string>, email: Option<string>, password: Option<string>)

  /** What the serializer hands to create_user. */
  datatype Validated = Validated(name: string, email: string, password: string)

  /** UserSerializer(user).data: the password field is write-only, so only
      these two fields are shown. */
  datatype UserOut = UserOut(name: string, email: string)

  /** The column bounds of User.name and User.email. */
  const NameMax: nat := 50
  const EmailMax: nat := 255

  /** to_internal_value's first step. Without an email, `None.split` fails
      in both branches of the try, and the request ends in a server error;
      otherwise the name is always replaced by the local part. */
  function DefaultName(data: SignUpData): (r: Result<SignUpData>)
    ensures data.email.None? <==> r == Err(ServerError)
    ensures data.email.Some? <==> r.Ok?
    ensures r.Ok? ==> r.value.email == data.email && r.value.password == data.password
    ensures r.Ok? ==> r.value.name == Some(LocalPart(data.email.value))
  {
    if data.email.None? then Err(ServerError)
    else Ok(data.(name := Some(LocalPart(data.email.value))))
  }

  /** The key that the email's uniqueness check looks up. */
  datatype EmailLookup = RawEmail | NormalizedEmail

  function LookupKey(email: string, lookup: EmailLookup): string {
    match lookup
    case RawEmail => email
    case NormalizedEmail => NormalizeEmail(email)
  }

  /** Some stored row already has the looked-up key. */
  predicate EmailTaken(users: map<UserId, User>, email: string, lookup: EmailLookup) {
    exists id :: id in users && users[id].email == LookupKey(email, lookup)
  }

  /** A required, non-blank string field within its length bound. */
  predicate FieldOk(v: Option<string>, max: nat) {
    Given(v) && |v.value| <= max
  }

  /** The field errors that DRF collects into one 400 response: name and email
      required, non-blank and within their bounds, the email not yet taken,
      and the password present and non-blank. */
  predicate FieldsOk(users: map<UserId, User>, data: SignUpData, lookup: EmailLookup) {
    && FieldOk(data.name, NameMax)
    && FieldOk(data.email, EmailMax)
    && !EmailTaken(users, data.email.value, lookup)
    && Given(data.password)
  }

  /** The password's validator raises PasswordNotValid, an API exception and
      not a validation error, so it escapes field validation at once and wins
      over every collected field error. */
  predicate PolicyRejects(data: SignUpData) {
    Given(data.password) && ValidatePassword(data.password.value).Err?
  }

  /** The rest of to_internal_value: field validation. */
  function Validate(users: map<UserId, User>, data: SignUpData, lookup: EmailLookup): (r: Result<Validated>)
    ensures PolicyRejects(data) <==> r == Err(PasswordNotValid)
    ensures !PolicyRejects(data) && !FieldsOk(users, data, lookup) <==> r == Err(ValidationFailed)
    ensures r.Ok? <==> !PolicyRejects(data) && FieldsOk(users, data, lookup)
    ensures r.Ok? ==>
              && FieldsOk(users, data, lookup)
              && PatternMatches(data.password.value)
              && r.value == Validated(data.name.value, data.email.value, data.password.value)
  {
    if PolicyRejects(data) then Err(PasswordNotValid)
    else if !FieldsOk(users, data, lookup) then Err(ValidationFailed)
    else Ok(Validated(data.name.value, data.email.value, data.password.value))
  }

  /** Whatever name the client sends, validation sees the local part of the email. */
  lemma SuppliedNameIgnored(users: map<UserId, User>, data: SignUpData, name: Option<string>, lookup: EmailLookup)
    requires data.email.Some?
    ensures DefaultName(data.(name := name)) == DefaultName(data)
    ensures Validate(users, DefaultName(data.(name := name)).value, lookup) ==
            Validate(users, DefaultName(data).value, lookup)
  {
  }

  /** An email of which the normalised form is stored is refused by the
      normalised lookup: validation then never lets through an email that
      would break the unique constraint. */
  lemma NormalizedLookupExcludesDuplicates(users: map<UserId, User>, data: SignUpData)
    requires Validate(users, data, NormalizedEmail).Ok?
    ensures forall id :: id in users ==> users[id].email != NormalizeEmail(data.email.value)
  {
  }

  /** users/tests/test_user_api.py: an email that is stored exactly is refused
      by both lookups. */
  lemma ExactDuplicateRefused(users: map<UserId, User>, data: SignUpData, id: UserId, lookup: EmailLookup)
    requires id in users && data.email.Some? && users[id].email == data.email.value
    requires NormalizeEmail(data.email.value) == data.email.value
    requires !PolicyRejects(data)
    ensures Validate(users, data, lookup) == Err(ValidationFailed)
  {
    assert EmailTaken(users, data.email.value, lookup);
  }

  /** The code as written looks up the raw email: once "test@example.com" is
      stored, "test@EXAMPLE.com" passes the check, although it normalises to
      the stored address. */
  lemma RawLookupAdmitsDomainVariant(users: map<UserId, User>, stored: string, variant: string)
    requires stored == "test@example.com" && variant == "test@EXAMPLE.com"
    requires forall id :: id in users ==> users[id].email == stored
    requires users != map[]
    ensures !EmailTaken(users, variant, RawEmail)
    ensures EmailTaken(users, variant, NormalizedEmail)
  {
    VariantNormalizes(variant, stored);
    var id :| id in users;
    assert users[id].email == LookupKey(variant, NormalizedEmail);
    assert variant != stored by {
      assert variant[5] != stored[5];
    }
  }

  lemma VariantNormalizes(variant: string, stored: string)
    requires stored == "test@example.com" && variant == "test@EXAMPLE.com"
    ensures NormalizeEmail(variant) == stored
  {
    VariantSeparator(variant);
    NormalizeAt(variant, 4);
    assert variant[..4] == "test";
    VariantDomain(variant[5..]);
  }

  lemma VariantSeparator(variant: string)
    requires variant == "test@EXAMPLE.com"
    ensures 4 < |variant| && variant[4] == '@'
    ensures forall j :: 4 < j < |variant| ==> variant[j] != '@'
  {
  }

  lemma VariantDomain(d: string)
    requires d == "EXAMPLE.com"
    ensures Lower(d) == "example.com"
  {
    var l := Lower(d);
    assert l[0] == 'e' && l[1] == 'x' && l[2] == 'a' && l[3] == 'm' && l[4] == 'p' && l[5] == 'l' && l[6] == 'e';
  }

  /** UserSignUpView.create: the serializer's steps, then create_user. With the
      raw lookup (the code as written) an email whose normalised form is
      already stored passes validation and then breaks the unique constraint,
      a server error; with the normalised lookup that cannot happen. */
  method SignUp(db: Store, data: SignUpData, lookup: EmailLookup, now: Stamp) returns (r: Result<UserOut>)
    requires db.Valid()
    modifies db
    ensures db.Valid()
    ensures db.posts == old(db.posts) && db.nextPostId == old(db.nextPostId)
    ensures r.Err? ==> db.users == old(db.users) && db.nextUserId == old(db.nextUserId)
    ensures data.email.None? ==> r == Err(ServerError)
    ensures data.email.Some? ==>
              var e := data.email.value;
              var v := old(Validate(db.users, DefaultName(data).value, lookup));
              && (v.Err? ==> r == Err(v.error))
              && (v.Ok? && !old(EmailTaken(db.users, e, NormalizedEmail)) ==>
                    && r == Ok(UserOut(LocalPart(e), NormalizeEmail(e)))
                    && old(db.nextUserId) !in old(db.users)
                    && db.users == old(db.users)[old(db.nextUserId) :=
                         NewUser(e, Some(v.value.password), UserFields(LocalPart(e), false), now)]
                    && db.nextUserId == old(db.nextUserId) + 1)
              && (v.Ok? && old(EmailTaken(db.users, e, NormalizedEmail)) ==> r == Err(ServerError))
    ensures lookup == NormalizedEmail ==> (r == Err(ServerError) <==> data.email.None?)
  {
    var d := DefaultName(data);
    if d.Err? {
      return Err(d.error);
    }
    var v := Validate(db.users, d.value, lookup);
    if v.Err? {
      return Err(v.error);
    }
    if lookup == NormalizedEmail {
      NormalizedLookupExcludesDuplicates(db.users, d.value);
    }
    var e := v.value.email;
    var created := db.CreateUser(Some(e), Some(v.value.password), UserFields(v.value.name, false), now);
    if created.Err? {
      return Err(created.error);
    }
    var u := db.users[created.value];
    r := Ok(UserOut(u.name, u.email));
  }

  /** After a successful signup the stored password verifies against the
      submitted one and no other. */
  lemma SignedUpPasswordVerifies(e: string, password: string, now: Stamp)
    ensures var u := NewUser(e, Some(password), UserFields(LocalPart(e), false), now);
            && (forall q :: CheckPassword(u.password, q) <==> q == password)
            && u.name == LocalPart(u.email)
            && !u.isDeleted
  {
    LocalPartSurvivesNormalize(e);
  }
}
