/** The two tables of core/models.py and the user manager's create_user.
    Rows are values; the store that holds both tables is a class whose
    methods and callers update the tables in place. */
module Models {
  import opened Errors
  import opened Passwords
  import opened Emails

  type UserId = nat
  type PostId = nat

  /** An abstract, totally ordered creation or update stamp (the clock itself is not modelled). */
  type Stamp = nat

  /** A row of the user table: the User model with the fields of Shared. */
  datatype User = User(
    email: string,
    name: string,
    password: PasswordHash,
    isDeleted: bool,
    createdAt: Stamp,
    updatedAt: Stamp)

  /** A row of the post table, with the columns PostSerializer shows and the owner reference. */
  datatype Post = Post(
    title: string,
    content: string,
    owner: UserId,
    viewCount: nat,
    isDeleted: bool,
    createdAt: Stamp,
    updatedAt: Stamp)

  /** The keyword fields create_user hands on to the model constructor. */
  datatype UserFields = UserFields(name: string, isDeleted: bool)

  /** The model's field defaults: an empty name and `is_deleted=False`. */
  const DefaultFields: UserFields := UserFields("", false)

  /** The row create_user saves. */
  function NewUser(email: string, password: Option<string>, fields: UserFields, now: Stamp): (u: User)
    ensures u.email == NormalizeEmail(email)
    ensures password.Some? ==> CheckPassword(u.password, password.value)
    ensures password.None? ==> forall q :: !CheckPassword(u.password, q)
    ensures u.name == fields.name && u.isDeleted == fields.isDeleted
    ensures u.createdAt == now && u.updatedAt == now
  {
    User(NormalizeEmail(email), fields.name, MakePassword(password), fields.isDeleted, now, now)
  }

  /** A user created without extra fields is not withdrawn and has an empty name. */
  lemma DefaultUserActive(email: string, password: Option<string>, now: Stamp)
    ensures !NewUser(email, password, DefaultFields, now).isDeleted
    ensures NewUser(email, password, DefaultFields, now).name == ""
  {
  }

  /** The `unique=True` constraint on User.email. */
  ghost predicate UniqueEmails(users: map<UserId, User>) {
    forall a, b :: a in users && b in users && users[a].email == users[b].email ==> a == b
  }

  ghost predicate TablesValid(users: map<UserId, User>, posts: map<PostId, Post>, nextUserId: nat, nextPostId: nat) {
    && (forall id :: id in users ==> id < nextUserId)
    && (forall id :: id in posts ==> id < nextPostId)
    && (forall id :: id in posts ==> posts[id].owner in users)
    && UniqueEmails(users)
  }

  /** The lowest id below n whose row has email e, scanning the primary keys in order. */
  function FindEmailBelow(users: map<UserId, User>, n: nat, e: string): (r: Option<UserId>)
    ensures r.Some? ==> r.value < n && r.value in users && users[r.value].email == e
    ensures r.Some? ==> forall id :: id in users && id < r.value ==> users[id].email != e
    ensures r.None? ==> forall id :: id in users && id < n ==> users[id].email != e
  {
    if n == 0 then None
    else
      match FindEmailBelow(users, n - 1, e)
      case Some(id) => Some(id)
      case None => if n - 1 in users && users[n - 1].email == e then Some(n - 1) else None
  }

  class Store {
    var users: map<UserId, User>
    var posts: map<PostId, Post>
    var nextUserId: UserId
    var nextPostId: PostId

    ghost predicate Valid()
      reads this
    {
      TablesValid(users, posts, nextUserId, nextPostId)
    }

    /** Empty tables; primary keys start at 1. */
    constructor ()
      ensures Valid()
      ensures users == map[] && posts == map[]
      ensures nextUserId == 1 && nextPostId == 1
    {
      users, posts := map[], map[];
      nextUserId, nextPostId := 1, 1;
    }

    /** `User.objects.get(email=e)`: exact comparison with the stored (normalised) email. */
    function FindByEmail(e: string): (r: Option<UserId>)
      reads this
      requires Valid()
      ensures r.Some? ==> r.value in users && users[r.value].email == e
      ensures r.None? <==> forall id :: id in users ==> users[id].email != e
    {
      FindEmailBelow(users, nextUserId, e)
    }

    /** Looking a user up by its own email finds that user, because emails are unique. */
    lemma FindsOwnEmail(id: UserId)
      requires Valid() && id in users
      ensures FindByEmail(users[id].email) == Some(id)
    {
    }

    /** UserManager.create_user: refuses an empty email, stores the normalised
        email and a hash of the password, and adds exactly one row. A second
        row with the same normalised email violates the unique constraint,
        which surfaces as an uncaught integrity error. */
    method CreateUser(email: Option<string>, password: Option<string>, fields: UserFields, now: Stamp)
      returns (r: Result<UserId>)
      requires Valid()
      modifies this
      ensures Valid()
      ensures posts == old(posts) && nextPostId == old(nextPostId)
      ensures !Given(email) ==>
                r == Err(EmailRequired) && users == old(users) && nextUserId == old(nextUserId)
      ensures Given(email) && old(FindByEmail(NormalizeEmail(email.value))).Some? ==>
                r == Err(ServerError) && users == old(users) && nextUserId == old(nextUserId)
      ensures Given(email) && old(FindByEmail(NormalizeEmail(email.value))).None? ==>
                && r == Ok(old(nextUserId))
                && old(nextUserId) !in old(users)
                && users == old(users)[old(nextUserId) := NewUser(email.value, password, fields, now)]
                && nextUserId == old(nextUserId) + 1
    {
      if !Given(email) {
        return Err(EmailRequired);
      }
      var normalized := NormalizeEmail(email.value);
      if FindByEmail(normalized).Some? {
        return Err(ServerError);
      }
      var id := nextUserId;
      users := users[id := NewUser(email.value, password, fields, now)];
      nextUserId := nextUserId + 1;
      r := Ok(id);
    }
  }
}
