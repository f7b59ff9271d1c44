# Blog and user CRUD service, modelled in Dafny

The service keeps two tables, `users` and `blogs`, and a many-to-many "likes"
relation between them, and exposes them over REST. This project models the
two services that hold its business rules, the blog controller's response
shaping, and the two entities, and proves what they promise:

- which error each operation raises, and in which order the checks run;
- the visibility rule of the blog listings: an admin sees every blog, anyone
  else only the blogs they wrote, and the active listing only active ones;
- the self-like ban, which applies only to a blog whose author reference is
  set;
- partial updates, where an absent field is left alone;
- listings ordered by title or by name;
- `likesCount` and the `likedBy` name list in every blog response;
- the table defaults, the nullable author reference with its
  `ON DELETE SET NULL` rule, and the unique email column.

Layout, one module per source file:

- `common.dfy` (`Common`): ids, `Option`, `Result` and the error kinds.
- `ordering.dfy` (`Ordering`): the string order listings sort by, and the
  sorting of a table's keys by a column.
- `user_entity.dfy` (`UserEntity`): the user row, its enumerations and
  defaults, and the create and update payloads.
- `blog_entity.dfy` (`BlogEntity`): the same for blogs, plus the
  `ON DELETE SET NULL` rule.
- `store.dfy` (`Store`): the database. `Db` is its contents at one moment.
  `Database` is the mutable store both services share. Its `Valid()` holds
  the schema constraints: keys, the author foreign key and unique emails.
- `user_service.dfy` (`Users`): `UserService`.
- `blog_service.dfy` (`Blogs`): `BlogService`.
- `blog_controller.dfy` (`BlogApi`): the blog controller.
- `scenarios.dfy` (`Scenarios`): a client that runs the services in
  sequence. An admin likes another user's blog, the author tries to like
  their own blog, and likes and unlikes are repeated. Each assertion follows
  from the contracts.

The read-only queries are functions of a `Db`. The operations that write are
methods of the service classes. These methods update the `Database` object's
tables in place, and their contracts state the new tables and the result.

Behaviour of the code worth noting (the model follows the code):

- A duplicate email is not reported as a conflict. `UserService.create` and
  `update` let the unique-constraint violation escape, so the framework
  answers 500 "Internal server error".
- Deleting a user does not detach that user's likes first. `remove` deletes
  only the row. The relation keeps the user's pairs, but a listing joins
  them with `users`, so the deleted user no longer appears among any blog's
  likers.
- The self-like ban raises a bad-request error (400).
- A blog create or update whose author is not a user violates the foreign
  key. The blog service reports this as a 500 with its own message.
- A blog update with an empty payload builds an `UPDATE` with nothing to
  set. The query builder refuses it, so the answer is a 500 "Failed to update
  blog", even for an id no blog has.
- Ids are `uuid` columns. The database finds a row under any letter case of
  its id and always returns the lower-case form (`Canon`), so every lookup
  goes through that form. The service's own self-like test compares raw
  strings instead; see "## Findings".

## Model

| member | source | states |
|---|---|---|
| UserEntity.NewUser | src/user/user.entity.ts:15-29 | a created user keeps the payload's email and name; role defaults to user and status to active when omitted, otherwise they are the payload's |
| UserEntity.Merge | src/user/user.service.ts:33-38 | each field present in the update payload overwrites the row's, each absent one keeps its value, and the id never changes |
| UserEntity.MergeIdempotent | src/user/user.service.ts:36 | applying the same update payload twice gives the same row as applying it once |
| UserEntity.MergeNothing | src/user/user.service.ts:36-37 | an update payload with no fields leaves the user row unchanged (`Object.assign` copies nothing and `save` writes the row back) |
| BlogEntity.Merge | src/blog/blog.service.ts:89-97 | each field present in the update payload overwrites the blog's, each absent one keeps its value, the id never changes, and a new author id is stored in the lower-case form the database keeps |
| BlogEntity.MergeIdempotent | src/blog/blog.service.ts:94 | applying the same blog update twice gives the same row as applying it once |
| BlogEntity.DetachAuthor | src/blog/blog.entity.ts:23-28 | when a user is deleted, no blog refers to that user any more; each blog they wrote loses only its author reference; every other blog is unchanged; no blog is added or removed |
| Common.Canon | src/user/user.entity.ts:16-17 | the `uuid` read from an id: same length, no upper-case letter, unchanged when already lower case, and empty only for the empty id |
| Common.CanonIgnoresCase | src/user/user.entity.ts:16-17 | two spellings of an id that differ only in letter case read as the same `uuid` |
| Common.CanonIdempotent | src/blog/blog.entity.ts:11-12 | an id read back from the database reads as itself |
| Store.Consistent | src/user/user.entity.ts:19-20 | the schema's constraints: each row is stored under its own non-empty id, each blog's author reference names a user (blog.entity.ts:23-28), and no two users share an email |
| Store.Database.Valid | src/user/user.entity.ts:16-20 | the database's tables meet `Consistent`, every key and like pair uses an id the database has generated, and every generated id is in the lower-case form the database returns |
| Store.EmailTaken | src/user/user.entity.ts:19-20 | the unique `email` column rejects a row when some other user already has its email |
| Ordering.OrderedKeys | src/blog/blog.service.ts:40 | the chosen keys, each exactly once, ordered ascending by the given column of their rows |
| Users.FindAll | src/user/user.service.ts:19-21 | the listing holds every stored user exactly once, each equal to its row, ordered by name |
| Users.FindActive | src/user/user.service.ts:29-31 | the listing holds exactly the users whose status is active, each once and equal to its row, ordered by name |
| Users.ActiveAreTheActiveOfAll | src/user/user.service.ts:19-31 | a user is in the active listing if and only if they are in the full listing and active |
| Users.FindById | src/user/user.service.ts:23-27 | succeeds exactly when a row is stored under the `uuid` the id spells, and returns that row; otherwise NotFound "User not found" |
| Users.ListedUserIsFound | src/user/user.service.ts:19-27 | a user `findAll` or `findActive` returns is found by `findById` under the id it was returned with |
| Users.UserService.Create | src/user/user.service.ts:14-17 | rejected with a 500 exactly when another user already has the email, and then nothing is written; otherwise the defaulted row is stored under a fresh id; emails stay unique |
| Users.UserService.Update | src/user/user.service.ts:33-38 | NotFound for an unknown id; otherwise the merged row replaces that row alone, unless its email belongs to another user (a 500, nothing written) |
| Users.UserService.Remove | src/user/user.service.ts:40-43 | NotFound exactly for an unknown id; otherwise only that row leaves `users`, and `ON DELETE SET NULL` clears the author of each blog they wrote |
| Blogs.Likers | src/blog/blog.service.ts:36-37 | the likers of a blog are the users of its like pairs, joined with `users` (a pair whose user row is gone joins nothing) |
| Blogs.LikerRefs | src/blog/blog.service.ts:36-37 | one entry per user who likes the blog, each with that user's id and name, and no entry for anyone else |
| Blogs.View | src/blog/blog.service.ts:151-158 | the re-fetched blog is the stored row, with its likers loaded |
| Blogs.ViewAuthor | src/blog/blog.service.ts:38-39 | a view names the author when the author reference points to a user, and names no author otherwise |
| Blogs.ViewLikerCount | src/blog/blog.service.ts:36-37 | a view has exactly as many liker entries as the blog has likers |
| Blogs.ViewLikers | src/blog/blog.service.ts:36-37 | each liker entry is a user who likes the blog, with that user's name, and each such user has an entry |
| Blogs.Anonymous | src/blog/blog.service.ts:42 | `if (userId)`: an absent or empty user id applies no visibility filter |
| Blogs.Sees | src/blog/blog.service.ts:48-49 | an admin sees every blog; anyone else only the blogs whose author reference is their id |
| Blogs.FindAllForUser | src/blog/blog.service.ts:32-58 | no (or an empty) user id: every blog; no user under the `uuid` the id spells: NotFound "User not found"; an admin: every blog; anyone else: exactly the blogs whose author they are. Each blog appears once with its likers, ordered by title |
| Blogs.FindActiveForUser | src/blog/blog.service.ts:60-87 | the same four cases, restricted to active blogs |
| Blogs.AdminSeesWhatAnyoneSees | src/blog/blog.service.ts:48-50 | an admin's two listings equal the listings with no user id |
| Blogs.ActiveAreTheActiveOfAll | src/blog/blog.service.ts:32-87 | for any acting user, a blog is in the active listing if and only if it is in the full listing and active |
| Blogs.ActiveListingIsActive | src/blog/blog.service.ts:68 | every blog the active listing returns is active |
| Blogs.ListedBlogIsFound | src/blog/blog.service.ts:32-58 | a blog a listing returns is stored under the id it was returned with, so `remove`, `like` and `unlike` find it |
| Blogs.LikeAddsLiker | src/blog/blog.service.ts:145-149 | adding a like pair makes that user a liker of that blog and changes no other blog's likers |
| Blogs.UnlikeRemovesLiker | src/blog/blog.service.ts:181-185 | removing a like pair takes that user out of the blog's likers, whether or not they were there, and changes no other blog's likers |
| Blogs.RemovedUserDisappears | src/user/user.service.ts:40-43 | after a user is deleted they are no blog's liker, and a blog they wrote shows no author and is otherwise unchanged |
| BlogEntity.AuthoredBy | src/blog/blog.service.ts:141 | the self-like test as written: the author reference is set, non-empty, and equal to the raw text of the user id |
| BlogEntity.WrittenBy | src/blog/blog.service.ts:135-143 | the self-like test as intended: it holds exactly when the user id is non-empty and the blog's author is the `uuid` it spells |
| BlogEntity.WrittenByAgrees | src/blog/blog.service.ts:141 | for an id in the lower-case form the database returns, the intended test and the test as written agree |
| BlogEntity.SelfLikeTestMissesUpperCase | src/blog/blog.service.ts:135-149 | a blog written by `ab`, liked under the id `AB`: the test as written passes it, the intended test catches it |
| BlogEntity.EmptyUpdate | src/blog/blog.service.ts:94 | a payload with no field, which gives an `UPDATE` with nothing to set |
| Blogs.BlogService.Create | src/blog/blog.service.ts:16-30 | a 500 "Failed to create blog" exactly when the author id names no user, with nothing written; otherwise a blog with the payload's fields (the author id in lower case), status active unless given, stored under an id not already in the table |
| Blogs.BlogService.Update | src/blog/blog.service.ts:89-108 | an empty payload: a 500 "Failed to update blog", even for an unknown id; then NotFound "Blog not found" for an unknown id; a 500 "Failed to update blog" for an author that is not a user; otherwise the merged row replaces that blog alone; nothing is written on an error |
| Blogs.BlogService.Remove | src/blog/blog.service.ts:110-125 | NotFound exactly for an unknown id; otherwise exactly that blog leaves the table |
| Blogs.BlogService.Like | src/blog/blog.service.ts:127-165 | NotFound for the blog, then NotFound for the user, then BadRequest "You can't like your own blog" when the user found is the blog's author (whatever the spelling of the id), each leaving the likes unchanged; otherwise the pair is added, its user is not the blog's author, and the blog is returned with its likers |
| Blogs.BlogService.Unlike | src/blog/blog.service.ts:167-201 | the same two NotFound checks in the same order; otherwise the pair is removed if present (a repeated unlike changes nothing) and the blog is returned with its likers |
| BlogApi.Names | src/blog/blog.controller.ts:23 | one name per liker, in the likers' order |
| BlogApi.Project | src/blog/blog.controller.ts:20-24 | `likesCount` is the length of `likedBy`; with no liker list it is 0 and `likedBy` is empty; otherwise `likedBy` holds the likers' names in order |
| BlogApi.ProjectAll | src/blog/blog.controller.ts:20-24 | one response per blog, in the same order |
| BlogApi.Respond | src/blog/blog.controller.ts:17-35 | a service error passes through unchanged; otherwise the response has the same length and order as the service result |
| BlogApi.FindAll | src/blog/blog.controller.ts:17-25 | the service listing reshaped blog by blog in its order, so the visibility rule and the title order carry over; NotFound exactly when a named user does not exist; otherwise each listed blog is a stored row whose `likesCount` is its number of likers |
| BlogApi.FindActive | src/blog/blog.controller.ts:27-35 | the same over the active listing, and each listed blog is active |
| BlogApi.ListedCounts | src/blog/blog.controller.ts:22 | each blog of a service listing is a stored row, and its response counts its likers |
| BlogApi.RespondOne | src/blog/blog.controller.ts:48-66 | the like and unlike handlers pass errors through unchanged and otherwise return the projection of the single blog: its row, its author, `likesCount` and the likers' names |
| BlogApi.RespondRemoved | src/blog/blog.controller.ts:42-46 | "Blog deleted successfully" if and only if the service's delete succeeded; otherwise the service's error |
| BlogApi.ResponseShowsLikers | src/blog/blog.controller.ts:20-24 | a blog's `likesCount` is its number of likers; `likedBy` holds every liker's name and only likers' names |
| BlogApi.LikedByNamesLikers | src/blog/blog.controller.ts:23 | the names in a blog's `likedBy` are every liker's name and only likers' names |
| BlogApi.CountIsLikers | src/blog/blog.controller.ts:22 | a response's `likesCount` is the number of the blog's likers |
| BlogApi.LikersGrowByOne | src/blog/blog.service.ts:145-149 | adding a like pair adds one liker, or none when the pair was already there |
| BlogApi.LikersShrinkByOne | src/blog/blog.service.ts:181-185 | removing a like pair removes one liker, or none when it was not there |
| BlogApi.LikeCountsOnce | src/blog/blog.controller.ts:48-56 | liking adds one to `likesCount`, or nothing when the user already liked the blog |
| BlogApi.UnlikeCountsOnce | src/blog/blog.controller.ts:58-66 | unliking subtracts one from `likesCount` when the user liked the blog, and nothing otherwise |

## Left out

- `UserController`, the module wiring and the database connection settings: they only delegate or configure.
- The payload validators (email format, non-empty strings, UUID format, enum membership) come from a validation library. The model takes payloads as already validated.
- A malformed UUID in a query is a database type error. The blog service's catch blocks report it as a 500 with their own message; the user service has no catch blocks, so the error escapes and the framework answers 500 "Internal server error". The model treats an id it cannot find as absent.
- Common.Canon: only the letter case of a `uuid` is normalised. The braced and hyphen-less spellings the database also accepts are taken as different ids.
- The catch blocks that turn any other unexpected persistence failure into a 500 ("Failed to fetch blogs", "Failed to remove blog" and so on) are left out. The model's database does not fail.
- Blogs.BlogService.Like: the self-like ban is the corrected test `WrittenBy` (see "## Findings"), not the test as written, which lets an author through under an upper-case spelling of their id.
- Blogs.BlogService.Like: a repeated like is modelled as set insertion and succeeds. The code does not guard against it. The real join table would likely reject the duplicate row, which would surface as a 500 "Failed to like blog". The code leaves this behaviour unspecified, so the model does not promise it.
- Blogs.View: likers are listed in ascending id order. The order of a SQL join is not fixed, so contracts about the liker list speak of membership and counts, not positions.
- Ordering.Below: listings are sorted by character code. The database's collation is not modelled. Rows with equal titles or names appear in ascending id order, and the contracts promise only the sort.
- `src/user/dto/update-user.dto.ts` is not part of this model. The update payload is taken to be the create payload with every field optional.
- `null` field values in an update payload are left out. Each field is either present with a value or absent.
- `blog.entity.ts` does not declare the `likedBy` relation the queries join on. The relation is modelled as a set of (blog id, user id) pairs.
- Deleting a blog or a user leaves its like pairs in the relation. The code does not remove them, and the join table's own delete rules are not part of the model. Ids are never reused, so a dangling pair cannot reattach.
- UUID generation is a fresh-id parameter of each create. The database remembers every id it has issued.
- The self-like ban applies only at like time. A later update can make an existing liker the blog's author, and the code allows this too.
- `async`/`await`, the query-builder calls and the raw rows returned by `returning('*')` are left out. Each operation is one atomic step on the store.

## Findings

| source | as written | input that shows it | evidently intended | confidence | as-written member | corrected member |
|---|---|---|---|---|---|---|
| src/blog/blog.service.ts:135-143 | the user is looked up as a `uuid`, which ignores letter case, but the self-like test `blog.authorId === userId` compares the raw text | a blog whose author id is `ab`, liked with `userId` `AB` (for a real `uuid`, the author's id with its hex letters in upper case): the lookup finds the author, `===` is false, and the pair is added | no spelling of the author's id may like the author's blog | medium, not executed | BlogEntity.SelfLikeTestMissesUpperCase | BlogEntity.WrittenBy |
