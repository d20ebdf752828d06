# Post board API: a Dafny model

This project models the request handling of a small bulletin-board REST API.
It has two tables. Users sign up, sign in, re-check their password, and edit
their name and password. Posts are listed, created, read (each read counts a
view), edited by their owner and soft-deleted by their owner. The model is
sequential and in memory: a `Models.Store` object holds the user table, the
post table and the next primary key of each. `create_user` is a method of the
store. Each endpoint is a module-level method that takes the store and
modifies it (when it writes), or a function that reads it (when it only
reads). Each one states which row changes, how it changes, and that nothing
else does.

Modules, in dependency order:

- `Errors`: the error kinds, their status codes, and `Result` / `Option`.
- `Strings`: the text before the first occurrence of a separator.
- `Passwords`: the password policy (`validate_password`), stated both as a computed check and as the meaning of its regular expression under Python's `re` rules, plus the stored password hash.
- `Emails`: e-mail normalisation (only the domain is lowercased) and the local part used as the default name.
- `Models`: the user and post rows, the store, lookup by e-mail, and `create_user`.
- `Access`: HTTP methods, the two permission classes, and the authenticated caller.
- `PostSerializers`: the list and detail projections of a post, and the masking of a withdrawn owner's name.
- `PostViews`: list (filter, newest-first order, slice), create, detail read, edit, and soft delete.
- `UserSerializers`: the signup serializer (name defaulting, field validation) and signup itself.
- `UserViews`: sign-in, the password re-check, the profile edit, and withdrawal.

Behaviours of the code worth knowing:

- Only the domain of an e-mail is lowercased, so `A@x.com` and `a@x.com` are two different accounts (`Emails.LocalCaseKept`).
- Sign-in looks the e-mail up exactly as typed, with no normalisation. A wrong password is refused by the token serializer with its own 401, not with `PasswordNotMatched`.
- Detail read, edit and delete find soft-deleted posts too.
- The list's `count` is the length of the returned page.
- `DELETE /users/me` returns nothing. The framework turns that into a server error, and nothing is stored.
- An edit saves only the columns it names. The `auto_now` stamp `updated_at` therefore never moves after creation.

## Model

| member | source | states |
|---|---|---|
| `Errors.ErrorKind.Status` | users/exceptions.py:4-49 | Each application exception has its declared status: 307 exactly for TemporaryRedirect, 500 exactly for the unhandled case, 4xx for every other kind (PostNotFound's 404 is in posts/exceptions.py:4-7). |
| `Passwords.ValidatePassword` | users/validators.py:6-10 | Accepts exactly the passwords the pattern `^(?=.*[a-z])(?=.*[A-Z])(?=.*[\W_]).{8,}$` matches under Python semantics, returns the argument unchanged on acceptance, and gives PasswordNotValid otherwise. |
| `Passwords.PolicyIsPattern` | users/validators.py:7-8 | The policy computed on the first line equals the regular expression's meaning: the three lookaheads, and the dot run that ends at the end or before one final newline. |
| `Passwords.NoNewlineBeforeIsFirstLine` | users/validators.py:7 | A `.` run from the start can reach position k exactly when k is within the first line. |
| `Passwords.LookaheadOnFirstLine` | users/validators.py:7 | A lookahead `(?=.*X)` succeeds exactly when X occurs on the first line, or, for `[\W_]`, when the first line ends in a newline. |
| `Passwords.DotRunOnFirstLine` | users/validators.py:7 | `.{8,}$` matches exactly when the first line has at least 8 characters and at most one newline follows it, at the very end. |
| `Passwords.PolicyWithoutNewline` | users/validators.py:7-9 | For a password without a newline, acceptance is exactly: length at least 8, a lowercase letter, an uppercase letter and a non-alphanumeric character. |
| `Passwords.RejectsWithoutSpecial` | users/tests/test_user_api.py:84-98 | `Test1234` is refused. |
| `Passwords.AcceptsTestPassword` | users/tests/test_user_api.py:54-69 | `Test1234!` is accepted. |
| `Passwords.UnderscoreIsSpecial` | users/validators.py:7 | The underscore alone satisfies the special-character requirement (`Test_pwd` is accepted). |
| `Passwords.TrailingNewlineCountsAsSpecial` | users/validators.py:7-8 | `Test1234` followed by a newline is accepted: `$` matches before the final newline, and the newline is itself in `[\W_]`. |
| `Passwords.MakePassword` | core/models.py:35 | After `set_password(p)` the stored hash verifies p and nothing else. After `set_password(None)` it verifies nothing. |
| `Emails.Lower` | core/models.py:34 | ASCII lowercasing: same length, each character lowered. |
| `Emails.LowerIdempotent` | core/models.py:34 | Lowercasing twice is lowercasing once. |
| `Emails.LastAt` | core/models.py:34 | Finds the last '@' (the domain separator), or reports that there is none. |
| `Emails.NormalizeEmail` | core/models.py:34 | Same length. The text up to and including the last '@' is kept. The domain after it is lowercased. An address without '@' is unchanged. |
| `Emails.NormalizeIdempotent` | core/models.py:34 | Normalising a normalised address changes nothing. |
| `Emails.DomainCaseIgnored` | core/models.py:45 | Two addresses that differ only in the case of the domain normalise to the same stored e-mail. |
| `Emails.LocalCaseKept` | core/models.py:34 | `A@x.com` and `a@x.com` are both already normalised and stay distinct. |
| `Emails.NormalizeExample` | core/tests/test_user_model.py:35-43 | `Test1@ExAmple.com` is stored as `Test1@example.com`. |
| `Strings.PrefixBefore` | users/serializers.py:27 | `s.split(c)[0]`: a prefix of s with no c, which stops at a c or at the end. With '@' it is the signup name taken from the e-mail. With a newline it is the first line, the stretch a `.` of the password pattern can cover (users/validators.py:7). |
| `Strings.PrefixBeforeUnique` | users/serializers.py:27 | Those three properties determine the prefix uniquely. |
| `Emails.LocalPartSurvivesNormalize` | users/serializers.py:27 | The local part is the same before and after normalisation, so the stored name is the local part of the stored e-mail too. |
| `Emails.LocalPartExample` | users/tests/test_user_api.py:100-114 | The default name for `test2@example.com` is `test2`. |
| `Models.NewUser` | core/models.py:34-35 | The row `create_user` builds: normalised e-mail, a hash that verifies exactly the given password, the extra fields as given, and both stamps set to now. |
| `Models.DefaultUserActive` | core/models.py:17 | A user created without extra fields is not withdrawn (`is_deleted` defaults to false) and has an empty name. |
| `Models.FindEmailBelow` | core/models.py:45 | The scan returns the lowest key below the bound whose e-mail matches, or proves that no such key exists. |
| `Models.Store.FindByEmail` | core/models.py:45 | `objects.get(email=e)` finds a row with exactly that e-mail, and finds none exactly when no row has it. |
| `Models.Store.FindsOwnEmail` | core/models.py:45 | Because e-mails are unique, looking up a user's own e-mail finds that user. |
| `Models.Store.CreateUser` | core/models.py:27-37 | With no or an empty e-mail: EmailRequired and nothing is stored. When the normalised e-mail is already taken: the unique constraint fails (a server error) and nothing is stored. Otherwise exactly one row is added under the next key, the other rows and the posts stay, and uniqueness is kept. |
| `PostSerializers.CreatorMasksWithdrawn` | posts/serializers.py:17-20 | A withdrawn owner shows as the fixed withdrawn-user name. The owner's name shows exactly when the owner is active, or when the name happens to equal that sentinel. |
| `PostSerializers.ListItem` | posts/serializers.py:13-20 | The list projection has exactly id, title, creator and view_count, never the content. The creator is the masked name. |
| `PostSerializers.Detail` | posts/serializers.py:30-46 | The detail projection has exactly the eight fields, each taken from the row, and the creator is the masked name. |
| `PostSerializers.ProjectionsAgree` | posts/serializers.py:15-46 | The list fields are a strict subset of the detail fields, and both projections agree on every shared field, the creator included. |
| `PostViews.AccessTable` | posts/views.py:71-74 | POST on the list needs an authenticated caller, and every other method on the list passes without one. The same method gives the detail view's table (posts/views.py:171-174): PATCH and DELETE need a caller, GET does not. |
| `PostViews.VisibleBelow` | posts/views.py:26 | Exactly the posts that are not soft-deleted (below the key bound), each once, in key order. |
| `PostViews.InsertByStamp` | posts/views.py:29 | Inserting into a newest-first sequence keeps it newest first, adds exactly that post to the multiset, and keeps the sequence duplicate-free. |
| `PostViews.ConsNewestFirst` | posts/views.py:29 | A post no older than every post of a newest-first sequence can go in front. |
| `PostViews.RestNotNewer` | posts/views.py:29 | After inserting into the tail, every element is still no newer than the head. |
| `PostViews.HeadApart` | posts/views.py:29 | The head and an ordering of the tail make up the whole multiset; without repeats the head is not in that ordering. |
| `PostViews.OrderNewestFirst` | posts/views.py:29 | `order_by("-created_at")`: the result is a permutation of the input that is sorted by creation stamp, newest first. |
| `PostViews.Slice` | posts/views.py:43 | Python slicing `[offset:offset+limit]` with clipping: at most `limit` items, the exact length, and item i is item `offset + i`. |
| `PostViews.Ordered` | posts/views.py:25-29 | The queryset: every post that is not soft-deleted, each exactly once, none that is deleted, newest first. |
| `PostViews.ListQuery` | posts/views.py:40-43 | The page is the `[offset, offset+limit)` window of that ordering: only live posts, newest first, no repeats, at most `limit` of them. |
| `PostViews.EveryVisiblePostListed` | posts/views.py:25-43 | Every live post appears on some page. |
| `PostViews.ListItems` | posts/views.py:44-45 | The serializer maps each id of the page to its list projection, in order. |
| `PostViews.ListPosts` | posts/views.py:40-50 | Defaults are limit 10 and offset 0. `count` is the number of returned items, so it is at most `limit`. Each result is the list projection of a live post of the page, in order. |
| `PostViews.Viewed` | posts/views.py:106 | A read raises the view count by one and changes nothing else in the row. |
| `PostViews.ViewCountCountsReads` | posts/tests/test_post_api.py:90-108 | n reads raise the count by exactly n and change nothing else. |
| `PostViews.Edited` | posts/views.py:137-141 | The title is replaced only by a non-empty title, the content only by non-empty content. The owner, view count, deletion flag and stamps are kept. |
| `PostViews.EditIdempotent` | posts/views.py:137-141 | Repeating the same edit is a no-op. |
| `PostViews.SoftDeleted` | posts/views.py:164-165 | Delete only sets `is_deleted`. |
| `PostViews.SoftDeleteIdempotent` | posts/views.py:164-165 | Deleting twice is deleting once. |
| `PostViews.NewPost` | posts/views.py:65-69 | The created row (corrected, `FreshCounters`): the given title and content, owned by the caller, zero views, not deleted. |
| `PostViews.NewPostAsWritten` | posts/views.py:65-68 | The row as written: the client's `view_count` and `is_deleted` are kept. It differs from the corrected row only in those two fields. |
| `PostViews.AsWrittenCreateKeepsClientCounters` | posts/views.py:65-68 | A body with `view_count` 1000 and `is_deleted` true, as written, creates a post showing 1000 views that is deleted from the start. |
| `PostViews.CreatePost` | posts/views.py:52-69 | Checks in this order. No caller: NotAuthenticated. Title or content missing or empty: EmptyInput. Title over the column bound: ValidationFailed (a 104-character title, posts/tests/test_post_api.py:191-202). An authenticated request with non-empty title and content within the bound always succeeds (the 201 of posts/tests/test_post_api.py:152-163): exactly one post is added under the next key, owned by the caller, with the given title and content, and its detail projection is returned. With `ClientCounters` (the code as written) the row keeps a client-sent `view_count` and `is_deleted`; with `FreshCounters` it has zero views and is live. On every error the store is unchanged. |
| `PostViews.RetrievePost` | posts/views.py:101-111 | No caller needed. A missing id gives PostNotFound with nothing changed. Otherwise only that post's view count goes up by one, and the updated detail is returned. |
| `PostViews.UpdatePost` | posts/views.py:121-145 | Checks in this order: NotAuthenticated, then PostNotFound (deleted posts are found), then IsNotMe for a non-owner. Each leaves the store unchanged. Otherwise only that post becomes `Edited`. |
| `PostViews.DestroyPost` | posts/views.py:151-169 | The same checks in the same order. Otherwise only that post becomes `SoftDeleted`. |
| `UserSerializers.DefaultName` | users/serializers.py:25-32 | Without an e-mail the request fails with a server error (`None.split`). With one it always succeeds: the name is replaced by the e-mail's local part, and the e-mail and password are untouched. |
| `UserSerializers.Validate` | users/serializers.py:12-17 | PasswordNotValid exactly when a non-empty password fails the policy, whatever the other fields. Otherwise any field error gives a 400: name or e-mail missing, blank or too long; e-mail taken; password missing or blank. Success happens exactly when neither applies, and then all fields hold and the password matches the pattern. |
| `UserSerializers.SuppliedNameIgnored` | users/serializers.py:25-33 | Whatever name the client sends, the name defaulting and validation give the same outcome. |
| `UserSerializers.NormalizedLookupExcludesDuplicates` | users/serializers.py:14-17 | (Corrected.) An e-mail that passes the normalised lookup is not stored in normalised form, so create_user cannot hit the unique constraint. |
| `UserSerializers.ExactDuplicateRefused` | users/tests/test_user_api.py:71-82 | An e-mail stored exactly as sent is refused with a 400 under either lookup. |
| `UserSerializers.RawLookupAdmitsDomainVariant` | users/serializers.py:14-17 | (As written.) With `test@example.com` stored, `test@EXAMPLE.com` passes the raw lookup, although its normalised form is taken. |
| `UserSerializers.VariantNormalizes` | core/models.py:34 | `test@EXAMPLE.com` normalises to `test@example.com`. |
| `UserSerializers.SignUp` | users/serializers.py:19-33 | Signup outcomes: a server error without an e-mail; the validation error; or, with a free normalised e-mail, exactly one new row, with its name the local part, `is_deleted` false, and a password that verifies; the response is that name and the stored e-mail, never the password. A taken normalised e-mail that validation let through gives a server error. With the normalised lookup, a server error happens exactly when the e-mail is missing. |
| `UserSerializers.SignedUpPasswordVerifies` | core/models.py:34-35 | A signed-up row verifies exactly the submitted password, is active, and its name is the local part of its stored e-mail. |
| `UserViews.SignIn` | users/views.py:56-74 | Checks in this order. Empty e-mail or password gives EmptyInput. An e-mail stored nowhere exactly gives UserNotFound. A withdrawn user gives TemporaryRedirect. A password that does not verify gives the token serializer's refusal. Success names the active row with that e-mail and a verifying password. |
| `UserViews.RedirectBeforePasswordCheck` | users/views.py:67-71 | A withdrawn user is redirected before any password is checked, so the outcome is the same for every password. |
| `UserViews.SignInIffPasswordVerifies` | users/views.py:70-71 | For an active user, sign-in succeeds exactly when the password verifies, and is otherwise refused with a 401. |
| `UserViews.SignInStatuses` | users/exceptions.py:34-37 | Sign-in fails only with the four kinds above, and 307 is exactly the redirect. |
| `UserViews.UserMeNeedsCaller` | users/views.py:82 | Every method of the account endpoint needs an authenticated caller. |
| `UserViews.ConfirmPassword` | users/views.py:92-100 | Checks in this order: NotAuthenticated, then EmptyInput, then PasswordNotMatched. Success, with the confirmation message, happens exactly when the caller's own stored hash verifies the password. The result is a function of the store, which it does not change. |
| `UserViews.Profiled` | users/views.py:121-127 | A password that is given but fails the policy refuses the whole edit, the name included. Otherwise the name changes only to a non-empty name. The password changes only to a non-empty, policy-valid password, whose hash then verifies exactly it. Nothing else in the row changes. |
| `UserViews.ProfileKeepsIdentity` | users/views.py:127 | The e-mail, the withdrawal flag and both stamps never change. |
| `UserViews.ProfileIdempotent` | users/views.py:121-127 | Sending the same edit twice is sending it once up to the stored hash: the second row agrees with the first on every other field, and both hashes verify exactly the same passwords. |
| `UserViews.UpdateProfile` | users/views.py:110-129 | Without a caller: NotAuthenticated. A refused password gives PasswordNotValid and leaves the store unchanged. Otherwise only the caller's row is replaced by its `Profiled` form, and the response shows name and e-mail. |
| `UserViews.DeleteMe` | users/views.py:131-132 | Never succeeds: NotAuthenticated without a caller, a server error with one. Nothing changes. |

## Left out

- Whitespace trimming: DRF's `CharField` trims its input, and Django's `normalize_email` strips the address. The model takes request strings as they arrive.
- E-mail format validation (`EmailValidator`) is not modelled. Any string can be an e-mail.
- Lowercasing and the `\w` class are modelled on ASCII only. Python lowercases every Unicode capital and counts Unicode letters and digits as word characters.
- `Passwords.ValidatePassword`: a non-ASCII letter counts as a special character here, and in Python it does not.
- JWT issuance and validation are library code. The caller is an optional user id, `None` when no valid token was sent. An invalid token is reported by the library with its own 401 code, which the model folds into NotAuthenticated.
- `UserViews.SignIn` returns the user the tokens are for. The sign-in view imports `UserTokenObtainPairSerializer` and `UserSignInSerializer`, but their definitions are not part of this model. The token serializer is taken to behave as the JWT library's token pair serializer: it authenticates e-mail and password and refuses with its own 401. The tokens and the response body are not modelled.
- The authentication and permission defaults of the sign-up and sign-in views come from project settings, which are not part of this model. Both are modelled as open to anyone.
- Timestamps come from the clock. `now` is a parameter, and stamps are naturals used only for ordering.
- `PostViews.OrderNewestFirst`: posts with equal creation stamps keep key order. The database leaves their order unspecified.
- The list's `ordering` query parameter is never read by the code, so it is not a parameter of the model.
- A non-numeric `limit` or `offset` makes `int()` fail. Limit and offset are naturals here.
- Django's `get_object` raises its own 404 for a missing post. The model reports PostNotFound, which has the same status.
- The view-count increment is a read-modify-write in the code. It is modelled sequentially, with nothing claimed about concurrent reads.
- The Post model definition is not part of this model. The title bound is the `titleMax` parameter of `PostViews.CreatePost`.
- A profile edit or post edit does not re-check the column lengths. What a database does with an over-long name or title depends on the database and is not modelled.
- `InvalidJWTToken` is declared but never raised by the modelled views. It appears only in the error table.
- `Passwords.MakePassword`: the stored hash is an unsalted, deterministic digest. Only what a hash verifies is modelled; a real `set_password` draws a fresh salt each time, so two hashes of one password differ.
- The DB-availability wait command and the URL tables are not modelled.

## Findings

| source | as written | input that shows it | evidently intended | confidence | as-written member | corrected member |
|---|---|---|---|---|---|---|
| posts/views.py:65-68 | The create serializer is built from the whole request body, and `view_count` and `is_deleted` are writable fields of it. | POST `{"title": "t", "content": "c", "view_count": 1000, "is_deleted": true}` | A new post starts with zero views and not deleted, owned by the caller. | low (depends on the Post model, which is not part of this model); not executed | `PostViews.AsWrittenCreateKeepsClientCounters` | `PostViews.NewPost` |
| users/serializers.py:14-17 | The e-mail's uniqueness validator compares the raw input. `create_user` stores the normalised form, and the database constraint compares that form. | With `test@example.com` stored, sign up with `test@EXAMPLE.com`: validation passes, the insert breaks the unique constraint, and the client gets a 500 instead of a 400. | The duplicate is refused with a 400, by checking the normalised e-mail. | medium; not executed | `UserSerializers.RawLookupAdmitsDomainVariant` | `UserSerializers.NormalizedLookupExcludesDuplicates` |
