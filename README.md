# cityscope feed service — a Dafny model

This project models the request handlers and document schemas of a small
social-feed backend. Users sign up, log in and edit their profile. They
write short posts of one of four types, optionally with up to five images
and a location. Other users like (toggle) and comment on posts. Anyone can
read a feed that is filtered by type and location, sorted newest first and
paginated.

The document database is replaced by two in-memory stores:

- `Posts.PostStore` holds a `seq<Post>`. A post's id is its position.
- `Users.UserStore` holds a `seq<User>`. A user's id is its position.

The likes and comments are embedded in each post, as in the source. The
handlers that change a store are class methods. Their contracts state the
whole new store in terms of the old one. The class invariant `Valid()`
carries the schema constraints and the controller-maintained ones: at most
five images per post, at most one like per user per post, and unique
usernames and mobile numbers.

Validation, the feed query, login and the toggle's effect on a like list
are functions. Lemmas about them state what the source promises.

Collaborators outside the core are inputs:

- The wall clock is a `now: Time` parameter.
- The object store is the list of its answers, one `Upload` per file.
- The bcrypt hash is a `hashed` string parameter.
- The bcrypt comparison is a `passwordMatches` function parameter.
- The caller id from the auth middleware is a parameter.

Files:

- `base.dfy`: identifiers, `Option`/`Result`, the error reasons and their HTTP classes.
- `text.dfy`: the digit check and the ASCII case-insensitive substring search.
- `post_schema.dfy`: `models/post.js`.
- `user_schema.dfy`: `models/user.js`.
- `posts.dfy`: create, like toggle and comment in `controllers/posts.js`.
- `feed.dfy`: the feed and "my posts" queries in `controllers/posts.js`.
- `users.dfy`: `controllers/users.js`.
- `scenario.dfy`: a client that walks through one session of sign-ups, a post, a like, an unlike, a comment and two feed queries.

Where the handlers and the intended design disagree, the model follows the
handlers:

- The create handler does not check that the author exists.
- The create handler means to push the new post id onto the author's
  `posts` list, but it looks the author up by `req.user._id`
  (controllers/posts.js:70). The auth middleware sets only `req.user.userId`
  (middleware/auth.js:13), so the lookup key is undefined. Which user, if
  any, then receives the id is up to the database library. In the model,
  `Create` does not touch the user store, and the model does not claim that
  the back-reference is kept.
- Posts created at the same time come back in no guaranteed order. The
  model fixes one: store order.
- The feed's page-size parameter is called `limit`.
- The caller's own posts are served at `/api/posts/user`.
- A failed profile-picture upload ends the request without any response, not
  with a server error. The reason is that the profile-update handler has no
  `try`/`catch`.

## Model

| member | source | states |
|---|---|---|
| `Text.ContainsIgnoringCaseIff` | controllers/posts.js:191-193 | the location search succeeds exactly when some window of the location equals the pattern up to ASCII case |
| `Text.ContainsIgnoresPatternCase` | controllers/posts.js:192 | the search result does not depend on the case the pattern is typed in |
| `PostSchema.ParseType` | models/post.js:8-12 | a type string is accepted exactly when it is the name of one of the four enumeration members, and then it names that member |
| `PostSchema.ParseTypeName` | controllers/posts.js:33-36 | every enumeration member's name is accepted as that member |
| `Posts.ValidateNewPost` | controllers/posts.js:25-36 | create's body check passes iff content and type are present and non-empty, content has at most 280 characters and type is in the enum; a missing field gives "required", then too-long content gives "too long", then an unknown type gives "invalid type", each a 400 |
| `Posts.ValidateComment` | controllers/posts.js:138-144 | a comment body passes iff it is present, non-empty and at most 200 characters; missing or empty gives "required", too long gives "too long", both 400 |
| `Posts.UploadImages` | controllers/posts.js:38-57 | succeeds iff every file uploads; the URLs are then one per file, in file order; any failure is a 500 |
| `Posts.LikeIndex` | controllers/posts.js:100-102 | finds the first like by the caller, or -1 when the caller has none |
| `Posts.ToggleCount` | controllers/posts.js:104-124 | a toggle lowers the like count by one when the caller had liked and raises it by one otherwise |
| `Posts.ToggleFlips` | controllers/posts.js:100-124 | with one like per user, a toggle flips whether the caller likes the post |
| `Posts.TogglePreservesOneLikePerUser` | controllers/posts.js:100-116 | a toggle keeps "at most one like per user" when it held before |
| `Posts.ToggleKeepsOtherLikes` | controllers/posts.js:104-116 | a toggle leaves every other user's likes, in order, as they were |
| `Posts.ToggleTwice` | controllers/posts.js:100-124 | two toggles by one user restore the like list when the user had not liked; with one like per user they always restore the count and the liked state |
| `Posts.DistinctLikersEachAddOne` | controllers/posts.js:114-124 | distinct users who had not liked each toggle once: each gets exactly one like, appended in turn order, and the count grows by their number |
| `Posts.PostStore.Create` | controllers/posts.js:17-87 | more than five files fail first; then the body checks; then all uploads must succeed; only then is one post appended, with the given author, content, type, location, the uploaded URLs in order, no likes or comments, and both timestamps `now`; every failure leaves the store unchanged; the store invariant is kept |
| `Posts.PostStore.ToggleLike` | controllers/posts.js:89-130 | a missing post is a 404 with the store unchanged; otherwise only that post's likes (toggled) and update time change, and the answer is whether the caller now likes it and the new count |
| `Posts.PostStore.AddComment` | controllers/posts.js:132-175 | the body is checked before the lookup; a missing post is then a 404; on success the comment (caller, text, `now`) is appended, earlier comments and other posts are unchanged, and the returned comment is the new last one; no comment over 200 characters is ever stored |
| `Feed.TypeFilter` | controllers/posts.js:184-190 | an absent, empty or "undefined" type means no filter; any other value must name an enum member, else a 400 |
| `Feed.Select` | controllers/posts.js:199-207 | the selected posts are exactly the posts the filter accepts, each as often as in the store |
| `Feed.InsertByTime` | controllers/posts.js:203 | inserting into a newest-first list keeps it newest first and adds exactly the one post |
| `Feed.NewestFirst` | controllers/posts.js:203 | the feed order is newest first and a permutation of the selected posts |
| `Feed.Window` | controllers/posts.js:204-205 | skip/limit yields at most `limit` posts, the ones right after the first `skip` |
| `Feed.PageCountIsCeiling` | controllers/posts.js:213 | the page count is the ceiling of total / limit; it is 0 exactly when there are no posts |
| `Feed.PageIsSortedSlice` | controllers/posts.js:196-205 | a page holds at most `limit` posts, all taken from the sorted list, still newest first |
| `Feed.HasNextPageIff` | controllers/posts.js:215 | `hasNextPage` holds iff page * limit is below the total, that is, iff the page is before the last one |
| `Feed.PageCovers` | controllers/posts.js:196-213 | the post of rank k is item k mod limit on page k / limit + 1, and that page is within the page count |
| `Feed.PageDrawsFromMatches` | controllers/posts.js:199-205 | every post on a page of the sorted matching posts is a store post that passes the filter |
| `Feed.FilteredPage` | controllers/posts.js:195-218 | for a checked filter, the result is the pagination of the matching posts sorted newest first; its total is the number of matching posts, its page count the ceiling, `hasNextPage` iff page * limit < total, `hasPrevPage` iff page > 1; the page holds at most `limit` matching store posts, newest first |
| `Feed.Query` | controllers/posts.js:177-224 | the feed fails (400) exactly when the type filter is invalid; otherwise it is the page (page - 1) * limit .. of the matching posts sorted newest first, the total counts the posts that pass the same filter, the page count is the ceiling of total / limit, `hasNextPage` holds iff page * limit < total and `hasPrevPage` iff page > 1 |
| `Feed.SinglePostFeed` | controllers/posts.js:177-224 | with a single post in the store, the feed filtered by its type is that post alone on page 1 of 1, with no next or previous page |
| `Feed.AuthorPosts` | controllers/posts.js:226-239 | the caller's posts are exactly the posts they authored, newest first |
| `Users.ViewsIgnoreCredentials` | controllers/users.js:64-124 | what signup and login send back does not depend on the stored hash; the view type has no password field |
| `Users.SignupFieldError` | controllers/users.js:21-31 | signup's body passes iff username, mobile and password are present, the password has at least 6 characters and the mobile is exactly ten digits; each failure is the 400 the handler sends, in its order |
| `Users.UserStore.Signup` | controllers/users.js:16-81 | body checks, then a 400 if any stored user has the username or the mobile, then the schema check on save (username 3 to 30 characters) as a 500; on success exactly one user with the defaults (empty bio and picture, no posts) and the hash is appended; failures change nothing; usernames and mobiles stay unique |
| `Users.FindByHandle` | controllers/users.js:91-93 | finds the first user whose username or mobile is the handle, or reports that none is |
| `Users.Login` | controllers/users.js:82-130 | missing fields are a 400; an unknown handle and a wrong password give the same 401; when the handle names a user, login succeeds iff the password matches the hash of the user found, and returns that user's login view |
| `Users.LoginByUsername` | controllers/users.js:91-103 | when the username names no other user, logging in with it succeeds iff that user's hash matches |
| `Users.LoginByMobile` | controllers/users.js:91-103 | when the mobile number names no other user, logging in with it succeeds iff that user's hash matches |
| `Users.UpdatedProfile` | controllers/users.js:163-180 | the saved record has the new bio and picture; its update time moves to `now` only when the bio or the picture actually changed, and nothing else differs |
| `Users.EmptyUpdateKeepsRecord` | controllers/users.js:163-180 | an update with neither bio nor picture leaves the record, update time included, as it was |
| `Users.UpdateIsIdempotent` | controllers/users.js:163-180 | repeating an update (same bio, same picture URL, the key being fixed per user) changes nothing further, update time included |
| `Users.UserStore.UpdateProfile` | controllers/users.js:157-182 | a missing user is a 404; a failed upload ends without a response, then a bio over 150 characters ends without a response, both without a change; otherwise only that user changes, to the updated record: the bio only to a supplied non-empty bio, the picture only to a successful upload's URL, the update time to `now` only when one of them changed |

## Left out

- Image upload and multipart parsing: the object store's SDK and network I/O. Each file's upload is given as its outcome, a URL or a failure.
- Hashing and tokens: bcrypt and the JSON web token are foreign crypto. The hash is an input and the comparison is a function parameter. Tokens are not modelled.
- The raw `password` field: the source stores it beside the hash (controllers/users.js:51, models/user.js:21-25). The model stores only the hash. The 6-character minimum is therefore enforced by the signup check alone.
- Authentication middleware (middleware/auth.js): the caller id is an input. Requests without a valid token are not modelled.
- GET /api/users/profile (controllers/users.js:131-153): not modelled. It looks up `req.user._id`, which the middleware never sets, so it always ends in the 500 path.
- GET /api/users/authenticate: not modelled. It only answers 200.
- Server bootstrap and configuration (index.js, ecosystem.config.js): not modelled.
- Populate projections: the author, commenter and liker summaries joined into responses are not modelled. Responses carry ids.
- Concurrency: each request is one atomic step. The read-modify-write races in toggle and comment, and a duplicate-key failure when two signups race, are not modelled.
- Database failures: failures of the store itself (the generic 500 paths) and malformed ids (a cast error, 500) are not modelled.
- Location matching: the source uses the location text as a regular expression. The model treats it as a literal pattern and folds case for ASCII letters only.
- String lengths: lengths count characters. JavaScript counts UTF-16 code units, so characters outside the Basic Multilingual Plane count once here and twice there.
- Schema trimming: the username and name are not trimmed.
- Non-string request values: a request field is either absent or a string. JSON arrays and numbers are not modelled.
- Referential integrity: no handler checks that a post's author or a like's or comment's user exists. The model does not claim it either.
- Profile-update picture: the profile-update route has no multipart middleware, so `req.files` is never filled there. The optional upload input of `Users.UserStore.UpdateProfile` models the handler's branch as written.
- Profile-update response: it is the whole user record, hash included (controllers/users.js:181). The model returns the stored `User`.
- Feed.Query: requires page ≥ 1 and limit ≥ 1 and takes them as numbers. The handler's defaults for absent parameters (page 1, limit 10, controllers/posts.js:179) are left to the caller. `parseInt` of a non-number, a zero limit (a division by zero in the page count) and negative skips are not modelled.
- Users.FindByHandle: picks the first matching user in store order. The database's unsorted `findOne` promises no particular user when a handle names two (a ten-digit username equal to another user's mobile). `Users.Login`'s existential success clause does not depend on that choice.
- Post back-reference: the push of the new post id onto a user's `posts` list (controllers/posts.js:70-72) is not modelled. Its target depends on how the database library treats an undefined id.
- Feed.NewestFirst: fixes store order among posts with equal creation times. The database does not promise any order for them.
