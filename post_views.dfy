/** posts/views.py: the post list, creation, detail read, owner-only edit and
    soft delete, and the per-method access table of both views. */
module PostViews {
  import opened Errors
  import opened Models
  import opened PostSerializers
  import opened Access

  // ---------------------------------------------------------------------
  // Access gate

  /** PostListCreateView.get_permissions */
  function ListCreatePermissions(m: HttpMethod): seq<Permission> {
    if m == POST then [IsAuthenticated] else [AllowAny]
  }

  /** PostRetrieveUpdateDestroyView.get_permissions */
  function DetailPermissions(m: HttpMethod): seq<Permission> {
    if m == PATCH || m == DELETE then [IsAuthenticated] else [AllowAny]
  }

  /** Which methods need a caller: POST on the list, PATCH and DELETE on a
      post; an authenticated caller passes everywhere. */
  lemma AccessTable(m: HttpMethod, authenticated: bool)
    ensures Admits(ListCreatePermissions(m), authenticated) <==> authenticated || m != POST
    ensures Admits(DetailPermissions(m), authenticated) <==> authenticated || (m != PATCH && m != DELETE)
  {
    assert ListCreatePermissions(m)[0] == if m == POST then IsAuthenticated else AllowAny;
    assert DetailPermissions(m)[0] == if m == PATCH || m == DELETE then IsAuthenticated else AllowAny;
  }

  // ---------------------------------------------------------------------
  // List: filter(is_deleted=False).order_by("-created_at")[offset : offset + limit]

  /** The ids below n of posts that are not soft-deleted, in increasing order. */
  function VisibleBelow(posts: map<PostId, Post>, n: nat): (r: seq<PostId>)
    ensures forall i :: 0 <= i < |r| ==> r[i] in posts && !posts[r[i]].isDeleted && r[i] < n
    ensures forall id :: id in posts && !posts[id].isDeleted && id < n ==> id in r
    ensures forall i, j :: 0 <= i < j < |r| ==> r[i] < r[j]
  {
    if n == 0 then []
    else
      var rest := VisibleBelow(posts, n - 1);
      if n - 1 in posts && !posts[n - 1].isDeleted then rest + [n - 1] else rest
  }

  predicate AllIn(s: seq<PostId>, posts: map<PostId, Post>) {
    forall i :: 0 <= i < |s| ==> s[i] in posts
  }

  predicate Distinct(s: seq<PostId>) {
    forall i, j :: 0 <= i < j < |s| ==> s[i] != s[j]
  }

  /** Newest first: creation stamps never increase along the sequence. */
  predicate NewestFirst(s: seq<PostId>, posts: map<PostId, Post>)
    requires AllIn(s, posts)
  {
    forall i, j :: 0 <= i < j < |s| ==> posts[s[i]].createdAt >= posts[s[j]].createdAt
  }

  /** Insert x in front of the first post that is not newer than it. */
  function InsertByStamp(x: PostId, s: seq<PostId>, posts: map<PostId, Post>): (r: seq<PostId>)
    requires x in posts && AllIn(s, posts) && NewestFirst(s, posts)
    ensures AllIn(r, posts) && NewestFirst(r, posts)
    ensures multiset(r) == multiset(s) + multiset{x}
    ensures Distinct(s) && x !in s ==> Distinct(r)
  {
    if s == [] || posts[s[0]].createdAt <= posts[x].createdAt then
      ConsNewestFirst(x, s, posts);
      [x] + s
    else
      var rest := InsertByStamp(x, s[1..], posts);
      RestNotNewer(x, s, rest, posts);
      ConsNewestFirst(s[0], rest, posts);
      assert s == [s[0]] + s[1..];
      [s[0]] + rest
  }

  /** A post no older than everything after it can go in front. */
  lemma ConsNewestFirst(y: PostId, t: seq<PostId>, posts: map<PostId, Post>)
    requires y in posts && AllIn(t, posts) && NewestFirst(t, posts)
    requires forall k :: 0 <= k < |t| ==> posts[t[k]].createdAt <= posts[y].createdAt
    ensures AllIn([y] + t, posts) && NewestFirst([y] + t, posts)
    ensures Distinct(t) && y !in t ==> Distinct([y] + t)
  {
    var r := [y] + t;
    assert forall k :: 1 <= k < |r| ==> r[k] == t[k - 1];
  }

  lemma RestNotNewer(x: PostId, s: seq<PostId>, rest: seq<PostId>, posts: map<PostId, Post>)
    requires x in posts && AllIn(s, posts) && NewestFirst(s, posts) && s != []
    requires posts[s[0]].createdAt > posts[x].createdAt
    requires AllIn(rest, posts) && multiset(rest) == multiset(s[1..]) + multiset{x}
    ensures forall k :: 0 <= k < |rest| ==> posts[rest[k]].createdAt <= posts[s[0]].createdAt
    ensures s[0] !in s[1..] && x != s[0] ==> s[0] !in rest
  {
    forall k | 0 <= k < |rest| ensures posts[rest[k]].createdAt <= posts[s[0]].createdAt {
      assert rest[k] in multiset(rest);
      if rest[k] != x {
        assert rest[k] in multiset(s[1..]);
        var j :| 0 <= j < |s[1..]| && s[1..][j] == rest[k];
        assert s[j + 1] == rest[k];
      }
    }
    if s[0] in rest {
      assert s[0] in multiset(rest);
    }
  }

  /** Insertion sort by descending creation stamp; posts with equal stamps
      keep their order. */
  function OrderNewestFirst(s: seq<PostId>, posts: map<PostId, Post>): (r: seq<PostId>)
    requires AllIn(s, posts)
    ensures AllIn(r, posts) && NewestFirst(r, posts)
    ensures multiset(r) == multiset(s)
    ensures Distinct(s) ==> Distinct(r)
  {
    if s == [] then []
    else
      var rest := OrderNewestFirst(s[1..], posts);
      HeadApart(s, rest);
      InsertByStamp(s[0], rest, posts)
  }

  /** The head of a sequence and an ordering of its tail make up the whole
      sequence; without repeats the head is not in that ordering. */
  lemma HeadApart(s: seq<PostId>, rest: seq<PostId>)
    requires s != [] && multiset(rest) == multiset(s[1..])
    requires Distinct(s[1..]) ==> Distinct(rest)
    ensures multiset(s) == multiset(rest) + multiset{s[0]}
    ensures Distinct(s) ==> Distinct(rest) && s[0] !in rest
  {
    assert s == [s[0]] + s[1..];
    if Distinct(s) {
      assert Distinct(s[1..]);
      assert s[0] !in multiset(s[1..]);
    }
  }

  function Min(a: int, b: int): int { if a <= b then a else b }

  /** `s[offset : offset + limit]` with non-negative bounds, as Python slices:
      out-of-range bounds are clipped. */
  function Slice(s: seq<PostId>, offset: nat, limit: nat): (r: seq<PostId>)
    ensures |r| <= limit
    ensures |r| == if offset >= |s| then 0 else Min(limit, |s| - offset)
    ensures forall i :: 0 <= i < |r| ==> r[i] == s[offset + i]
  {
    s[Min(offset, |s|)..Min(offset + limit, |s|)]
  }

  /** All posts that are not soft-deleted, newest first. */
  function Ordered(db: Store): (r: seq<PostId>)
    reads db
    ensures AllIn(r, db.posts) && NewestFirst(r, db.posts) && Distinct(r)
    ensures forall i :: 0 <= i < |r| ==> !db.posts[r[i]].isDeleted
    ensures db.Valid() ==> forall id :: id in db.posts && !db.posts[id].isDeleted ==> id in r
  {
    var visible := VisibleBelow(db.posts, db.nextPostId);
    var r := OrderNewestFirst(visible, db.posts);
    assert forall k :: 0 <= k < |r| ==> r[k] in multiset(visible);
    assert forall id :: id in visible ==> id in multiset(r);
    r
  }

  /** The queryset of the list endpoint, as post ids: only posts that are not
      soft-deleted, newest first, each at most once, at most `limit` of them,
      starting at position `offset` of the whole ordering. */
  function ListQuery(db: Store, offset: nat, limit: nat): (r: seq<PostId>)
    reads db
    ensures AllIn(r, db.posts) && NewestFirst(r, db.posts) && Distinct(r)
    ensures forall i :: 0 <= i < |r| ==> !db.posts[r[i]].isDeleted
    ensures |r| <= limit
    ensures |r| == if offset >= |Ordered(db)| then 0 else Min(limit, |Ordered(db)| - offset)
    ensures forall i :: 0 <= i < |r| ==> r[i] == Ordered(db)[offset + i]
  {
    Slice(Ordered(db), offset, limit)
  }

  /** Every visible post is reached by some page. */
  lemma EveryVisiblePostListed(db: Store, id: PostId)
    requires db.Valid()
    requires id in db.posts && !db.posts[id].isDeleted
    ensures exists offset: nat :: ListQuery(db, offset, 1) == [id]
  {
    var o := Ordered(db);
    var k :| 0 <= k < |o| && o[k] == id;
    var q := ListQuery(db, k, 1);
    assert q == [id];
  }

  /** PostListSerializer over a queryset. */
  function ListItems(ids: seq<PostId>, posts: map<PostId, Post>, users: map<UserId, User>): (r: seq<JsonObject>)
    requires AllIn(ids, posts)
    requires forall i :: 0 <= i < |ids| ==> posts[ids[i]].owner in users
    ensures |r| == |ids|
    ensures forall i :: 0 <= i < |ids| ==> r[i] == ListItem(ids[i], posts[ids[i]], users[posts[ids[i]].owner])
  {
    if ids == [] then []
    else [ListItem(ids[0], posts[ids[0]], users[posts[ids[0]].owner])] + ListItems(ids[1..], posts, users)
  }

  datatype ListResponse = ListResponse(count: nat, results: seq<JsonObject>)

  const DefaultLimit: nat := 10
  const DefaultOffset: nat := 0

  /** PostListCreateView.get: no caller needed; `ordering` is not read. The
      count is the length of the returned page, not the number of posts. */
  function ListPosts(db: Store, limit: Option<nat>, offset: Option<nat>): (r: ListResponse)
    reads db
    requires db.Valid()
    ensures r.count == |r.results| <= limit.GetOr(DefaultLimit)
    ensures var q := ListQuery(db, offset.GetOr(DefaultOffset), limit.GetOr(DefaultLimit));
            |q| == r.count &&
            forall i :: 0 <= i < |q| ==>
              !db.posts[q[i]].isDeleted &&
              r.results[i] == ListItem(q[i], db.posts[q[i]], db.users[db.posts[q[i]].owner])
  {
    var q := ListQuery(db, offset.GetOr(DefaultOffset), limit.GetOr(DefaultLimit));
    var items := ListItems(q, db.posts, db.users);
    ListResponse(|q|, items)
  }

  // ---------------------------------------------------------------------
  // Row transitions

  /** `post.view_count += 1` */
  function Viewed(p: Post): (q: Post)
    ensures q.viewCount == p.viewCount + 1
    ensures q.(viewCount := p.viewCount) == p
  {
    p.(viewCount := p.viewCount + 1)
  }

  function ViewedTimes(p: Post, n: nat): Post {
    if n == 0 then p else Viewed(ViewedTimes(p, n - 1))
  }

  /** n detail reads of one post raise its view count by exactly n and change
      nothing else about it. */
  lemma {:induction false} ViewCountCountsReads(p: Post, n: nat)
    ensures ViewedTimes(p, n) == p.(viewCount := p.viewCount + n)
  {
    if n > 0 {
      ViewCountCountsReads(p, n - 1);
    }
  }

  /** The title is replaced only by a non-empty title, the content only by
      non-empty content; nothing else changes. */
  function Edited(p: Post, title: Option<string>, content: Option<string>): (q: Post)
    ensures Given(title) ==> q.title == title.value
    ensures !Given(title) ==> q.title == p.title
    ensures Given(content) ==> q.content == content.value
    ensures !Given(content) ==> q.content == p.content
    ensures q.(title := p.title, content := p.content) == p
  {
    var t := if Given(title) then title.value else p.title;
    var c := if Given(content) then content.value else p.content;
    p.(title := t, content := c)
  }

  /** Editing twice with the same request is editing once. */
  lemma EditIdempotent(p: Post, title: Option<string>, content: Option<string>)
    ensures Edited(Edited(p, title, content), title, content) == Edited(p, title, content)
  {
  }

  /** `post.is_deleted = True` */
  function SoftDeleted(p: Post): (q: Post)
    ensures q.isDeleted
    ensures q.(isDeleted := p.isDeleted) == p
  {
    p.(isDeleted := true)
  }

  /** Deleting a deleted post changes nothing. */
  lemma SoftDeleteIdempotent(p: Post)
    ensures SoftDeleted(SoftDeleted(p)) == SoftDeleted(p)
  {
  }

  // ---------------------------------------------------------------------
  // Create

  /** The request body of POST on the list endpoint. Besides title and content
      the serializer also accepts the writable view_count and is_deleted fields. */
  datatype PostInput = PostInput(
    title: Option<string>,
    content: Option<string>,
    viewCount: Option<nat>,
    isDeleted: Option<bool>)

  /** The row a successful create saves, as evidently intended: owned by the
      caller, never viewed, not deleted, whatever else the body says. */
  function NewPost(title: string, content: string, owner: UserId, now: Stamp): (p: Post)
    ensures p.title == title && p.content == content && p.owner == owner
    ensures p.viewCount == 0 && !p.isDeleted
    ensures p.createdAt == now && p.updatedAt == now
  {
    Post(title, content, owner, 0, false, now, now)
  }

  /** The row the code as written saves: PostSerializer(data=request.data)
      keeps client-supplied view_count and is_deleted. */
  function NewPostAsWritten(input: PostInput, owner: UserId, now: Stamp): (p: Post)
    requires Given(input.title) && Given(input.content)
    ensures p.viewCount == input.viewCount.GetOr(0)
    ensures p.isDeleted == input.isDeleted.GetOr(false)
    ensures p.(viewCount := 0, isDeleted := false) == NewPost(input.title.value, input.content.value, owner, now)
  {
    Post(input.title.value, input.content.value, owner, input.viewCount.GetOr(0), input.isDeleted.GetOr(false), now, now)
  }

  /** A body with view_count and is_deleted creates, as written, a post that
      was never read but shows 1000 views, and one that is deleted from the start. */
  lemma AsWrittenCreateKeepsClientCounters()
    ensures var input := PostInput(Some("t"), Some("c"), Some(1000), Some(true));
            var p := NewPostAsWritten(input, 1, 0);
            p.viewCount == 1000 && p.isDeleted && p != NewPost("t", "c", 1, 0)
  {
  }

  /** Which row a create stores: the client's counters kept, as the code is
      written, or the evidently intended fresh counters. */
  datatype CreateMode = ClientCounters | FreshCounters

  function CreatedRow(input: PostInput, owner: UserId, now: Stamp, mode: CreateMode): Post
    requires Given(input.title) && Given(input.content)
  {
    match mode
    case ClientCounters => NewPostAsWritten(input, owner, now)
    case FreshCounters => NewPost(input.title.value, input.content.value, owner, now)
  }

  /** PostListCreateView.post: a caller is required; then title and content
      must both be given and non-empty; then the serializer's length bound on
      the title (a column constraint of the Post model, here `titleMax`);
      then exactly one post is added, owned by the caller. With
      `ClientCounters` (the code as written) the row keeps a client-sent
      view_count and is_deleted; with `FreshCounters` it starts unread and live. */
  method CreatePost(db: Store, caller: Option<UserId>, input: PostInput, titleMax: nat, mode: CreateMode, now: Stamp)
    returns (r: Result<JsonObject>)
    requires db.Valid()
    modifies db
    ensures db.Valid()
    ensures db.users == old(db.users) && db.nextUserId == old(db.nextUserId)
    ensures r.Err? ==> db.posts == old(db.posts) && db.nextPostId == old(db.nextPostId)
    ensures !old(Authenticated(db, caller)) ==> r == Err(NotAuthenticated)
    ensures old(Authenticated(db, caller)) && !(Given(input.title) && Given(input.content)) ==>
              r == Err(EmptyInput)
    ensures old(Authenticated(db, caller)) && Given(input.title) && Given(input.content) ==>
              (|input.title.value| > titleMax <==> r == Err(ValidationFailed))
    ensures (old(Authenticated(db, caller)) && Given(input.title) && Given(input.content) &&
             |input.title.value| <= titleMax) ==> r.Ok?
    ensures r.Ok? ==>
              var row := CreatedRow(input, caller.value, now, mode);
              && old(db.nextPostId) !in old(db.posts)
              && db.posts == old(db.posts)[old(db.nextPostId) := row]
              && db.nextPostId == old(db.nextPostId) + 1
              && row.owner == caller.value
              && row.title == input.title.value && row.content == input.content.value
              && (mode == FreshCounters ==> row.viewCount == 0 && !row.isDeleted)
              && (mode == ClientCounters ==>
                    row.viewCount == input.viewCount.GetOr(0) && row.isDeleted == input.isDeleted.GetOr(false))
              && r.value == Detail(old(db.nextPostId), row, db.users[caller.value])
  {
    AccessTable(POST, Authenticated(db, caller));
    if !Admits(ListCreatePermissions(POST), Authenticated(db, caller)) {
      return Err(NotAuthenticated);
    }
    if !Given(input.title) || !Given(input.content) {
      return Err(EmptyInput);
    }
    if |input.title.value| > titleMax {
      return Err(ValidationFailed);
    }
    var id := db.nextPostId;
    var row := CreatedRow(input, caller.value, now, mode);
    db.posts := db.posts[id := row];
    db.nextPostId := db.nextPostId + 1;
    r := Ok(Detail(id, row, db.users[caller.value]));
  }

  // ---------------------------------------------------------------------
  // Detail read, edit, soft delete. The post is looked up among all posts,
  // soft-deleted ones included.

  /** PostRetrieveUpdateDestroyView.get: no caller needed; the view count of
      that one post goes up by one. */
  method RetrievePost(db: Store, id: PostId) returns (r: Result<JsonObject>)
    requires db.Valid()
    modifies db
    ensures db.Valid()
    ensures db.users == old(db.users) && db.nextUserId == old(db.nextUserId) && db.nextPostId == old(db.nextPostId)
    ensures id !in old(db.posts) ==> r == Err(PostNotFound) && db.posts == old(db.posts)
    ensures id in old(db.posts) ==>
              && db.posts == old(db.posts)[id := Viewed(old(db.posts)[id])]
              && r == Ok(Detail(id, db.posts[id], db.users[db.posts[id].owner]))
  {
    if id !in db.posts {
      return Err(PostNotFound);
    }
    var post := Viewed(db.posts[id]);
    db.posts := db.posts[id := post];
    r := Ok(Detail(id, post, db.users[post.owner]));
  }

  /** PostRetrieveUpdateDestroyView.patch: caller required; then the post
      must exist; then the caller's own row is looked up by email; then the
      caller must own the post. Only the title and content can change. */
  method UpdatePost(db: Store, caller: Option<UserId>, id: PostId, title: Option<string>, content: Option<string>)
    returns (r: Result<JsonObject>)
    requires db.Valid()
    modifies db
    ensures db.Valid()
    ensures db.users == old(db.users) && db.nextUserId == old(db.nextUserId) && db.nextPostId == old(db.nextPostId)
    ensures r.Err? ==> db.posts == old(db.posts)
    ensures !old(Authenticated(db, caller)) ==> r == Err(NotAuthenticated)
    ensures old(Authenticated(db, caller)) && id !in old(db.posts) ==> r == Err(PostNotFound)
    ensures old(Authenticated(db, caller)) && id in old(db.posts) && old(db.posts)[id].owner != caller.value ==>
              r == Err(IsNotMe)
    ensures old(Authenticated(db, caller)) && id in old(db.posts) && old(db.posts)[id].owner == caller.value ==>
              && db.posts == old(db.posts)[id := Edited(old(db.posts)[id], title, content)]
              && r == Ok(Detail(id, db.posts[id], db.users[caller.value]))
  {
    AccessTable(PATCH, Authenticated(db, caller));
    if !Admits(DetailPermissions(PATCH), Authenticated(db, caller)) {
      return Err(NotAuthenticated);
    }
    if id !in db.posts {
      return Err(PostNotFound);
    }
    var me := caller.value;
    db.FindsOwnEmail(me);
    if db.FindByEmail(db.users[me].email).None? {
      return Err(UserNotFound);
    }
    if db.posts[id].owner != me {
      return Err(IsNotMe);
    }
    var post := Edited(db.posts[id], title, content);
    db.posts := db.posts[id := post];
    r := Ok(Detail(id, post, db.users[me]));
  }

  /** PostRetrieveUpdateDestroyView.delete: the same checks as patch, in the
      same order; then the post is only marked deleted. */
  method DestroyPost(db: Store, caller: Option<UserId>, id: PostId) returns (r: Result<JsonObject>)
    requires db.Valid()
    modifies db
    ensures db.Valid()
    ensures db.users == old(db.users) && db.nextUserId == old(db.nextUserId) && db.nextPostId == old(db.nextPostId)
    ensures r.Err? ==> db.posts == old(db.posts)
    ensures !old(Authenticated(db, caller)) ==> r == Err(NotAuthenticated)
    ensures old(Authenticated(db, caller)) && id !in old(db.posts) ==> r == Err(PostNotFound)
    ensures old(Authenticated(db, caller)) && id in old(db.posts) && old(db.posts)[id].owner != caller.value ==>
              r == Err(IsNotMe)
    ensures old(Authenticated(db, caller)) && id in old(db.posts) && old(db.posts)[id].owner == caller.value ==>
              && db.posts == old(db.posts)[id := SoftDeleted(old(db.posts)[id])]
              && r == Ok(Detail(id, db.posts[id], db.users[caller.value]))
  {
    AccessTable(DELETE, Authenticated(db, caller));
    if !Admits(DetailPermissions(DELETE), Authenticated(db, caller)) {
      return Err(NotAuthenticated);
    }
    if id !in db.posts {
      return Err(PostNotFound);
    }
    var me := caller.value;
    db.FindsOwnEmail(me);
    if db.FindByEmail(db.users[me].email).None? {
      return Err(UserNotFound);
    }
    if db.posts[id].owner != me {
      return Err(IsNotMe);
    }
    var post := SoftDeleted(db.posts[id]);
    db.posts := db.posts[id := post];
    r := Ok(Detail(id, post, db.users[me]));
  }
}
