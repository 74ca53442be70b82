# blog-server core, modelled in Dafny

blog-server is the back end of a blog. Users register and log in, then
write posts and comments. An administrator moderates users, posts and
comments. Its services read and write four tables: users, posts, comments
and likes. This project models those services and the request rules they
depend on:

- the admin service: the token/role guard ladder, the dashboard, paged
  listings, deleting a user (their content passes to the `anonymous` user),
  banning, deleting posts along with their comments and likes, and
  moderating comments;
- the post service: the listing that shortens long texts, reading posts
  and comments, creating, editing and deleting one's own posts, and
  commenting on a post;
- the user service: registration, which stores only a salted password
  hash; login, which signs the stored user's claims; token verification;
  and profile lookup;
- the `ResultData` envelope with its JavaScript `||` defaults;
- the validation rules of the register and login request bodies.

Modules, one per file:

- `Records`: the rows, roles and the verified-token payload. A token
  that fails to verify gives the sentinel `{id: -1}`.
- `ResultEnvelope`: the `ResultData` envelope.
- `Dto`: the request-body constraints.
- `Paging`: ordering by id, `skip`/`take` pages and `where` filters.
- `Store`: the tables as a `Database` class with autoincrement counters,
  and the bulk `updateMany`/`deleteMany` operations.
- `Admin`, `Posts`, `Users`: the three services. Each is a class holding
  the shared `Database`.

A method that changes the store states its whole new state. Every
failed check leaves the store unchanged (`unchanged(prisma)`), and every
method preserves the store's integrity invariant `Database.Valid`.

The model follows the code, including three behaviours a reader might
not expect:

- Only the role `ADMIN` passes the admin guard; `SYSTEM` is refused with 403.
- A token that fails to verify is the sentinel id -1, not a separate
  error value.
- `newComment` does not consult the post's `allowComment`.

## Model

| member | source | states |
|---|---|---|
| Records.UserByName | src/modules/user/user.service.ts:36-38 | finding by the unique name returns a user exactly when one with that name exists, and the found user has that name |
| ResultEnvelope.Make | src/type/result.ts:2-6 | an omitted code becomes 0; a missing or empty message becomes 'ok'; falsy data becomes null and truthy data is kept; every envelope built is normalised |
| ResultEnvelope.Ok | src/type/result.ts:12-14 | `ok` always has code 0 and message 'ok' unless a non-empty message is given; falsy data becomes null, truthy data is kept |
| ResultEnvelope.Fail | src/type/result.ts:16-18 | `fail` never has code 0: a non-zero code is kept, otherwise it is -1; the message is 'fail' unless a non-empty one is given; falsy data becomes null, truthy data is kept |
| ResultEnvelope.OkAndFailDisjoint | src/type/result.ts:12-18 | no `ok` envelope equals any `fail` envelope |
| ResultEnvelope.RewrapNormalised | src/type/result.ts:2-6 | rebuilding a normalised envelope from its own fields gives it back unchanged |
| ResultEnvelope.FailZeroIsMinusOne | src/type/result.ts:17 | `fail(0, …)` and `fail(undefined, …)` both carry code -1 |
| Dto.ParseSex | src/modules/user/dto/register.user.dto.ts:43-47 | an absent `sex` stays absent; 'MALE', 'FEMALE' and 'SECRET' become the enum value of the same name |
| Dto.RegisterAcceptedIff | src/modules/user/dto/register.user.dto.ts:14-47 | a register body has no violations iff: username 5-12 chars; nickname 2-20; password 6-30; email non-empty, well formed and at most 64; sex absent or MALE/FEMALE/SECRET |
| Dto.LoginAcceptedIff | src/modules/user/dto/login.user.dto.ts:6-15 | a login body has no violations iff username is 5-12 characters and password 6-30 |
| Dto.RegisterAcceptedLoginAccepted | src/modules/user/dto/login.user.dto.ts:6-15 | any username and password that registration accepts, login accepts too |
| Dto.LoginRefusesUpTo36 | src/modules/user/dto/login.user.dto.ts:14 | a 31-36 character password is refused at login, under a message naming 36 as the maximum |
| Paging.LeastExists | src/modules/admin/admin.service.ts:56-58 | every non-empty id set has a least element |
| Paging.GreatestExists | src/modules/admin/admin.service.ts:22-25 | every non-empty id set has a greatest element |
| Paging.SortedIds | src/modules/admin/admin.service.ts:56-58 | `orderBy: asc` lists the table's ids strictly ascending, each id exactly once |
| Paging.SortedIdsDesc | src/modules/post/post.service.ts:19-21 | `orderBy: desc` lists the ids strictly descending, each exactly once |
| Paging.RowsAscending | src/modules/admin/admin.service.ts:53-58 | the table's rows, one per id, in ascending id order |
| Paging.RowsDescending | src/modules/post/post.service.ts:16-21 | the table's rows, one per id, in descending id order |
| Paging.Page | src/modules/admin/admin.service.ts:54-55 | `skip: pageSize*(page-1), take: pageSize` gives at most pageSize consecutive rows from the skip offset, a full page unless the rows run out |
| Paging.PageOfOrdered | src/modules/admin/admin.service.ts:53-58 | a page cut from rows laid out in an id order is that page of the table in that order |
| Paging.PageAscending | src/modules/admin/admin.service.ts:53-58 | a page of the ascending rows is that page of the table in ascending id order |
| Paging.PageDescending | src/modules/post/post.service.ts:16-21 | a page of the descending rows is that page of the table in descending id order |
| Paging.Filter | src/modules/post/post.service.ts:158-161 | `where` keeps exactly the listed ids whose rows satisfy the condition |
| Paging.FilterAscending | src/modules/user/user.service.ts:85-100 | a `where` filter keeps ascending order |
| Paging.FilterDescending | src/modules/post/post.service.ts:158-179 | a `where` filter keeps descending order |
| Store.ReassignPosts | src/modules/admin/admin.service.ts:110-117 | same post ids; only `author` changes; the posts of `from` pass to `to`; when from != to, none is left with `from` |
| Store.ReassignComments | src/modules/admin/admin.service.ts:118-125 | same comment ids; only `sender` changes; the comments of `from` pass to `to`; when from != to, none is left with `from` |
| Store.DropCommentsOn | src/modules/admin/admin.service.ts:225-229 | exactly the comments on that post are removed, the rest are untouched |
| Store.DropPostLikes | src/modules/admin/admin.service.ts:231-236 | exactly the likes of type POST on that post are removed; a comment's likes with the same id stay |
| Admin.AdminGuard | src/modules/admin/admin.service.ts:87-93 | admitted iff the token verified and the role is exactly ADMIN; otherwise 401 for the sentinel, else 403; SYSTEM is refused |
| Admin.LatestUid | src/modules/admin/admin.service.ts:22-25 | the newest user is the greatest uid, absent only for an empty table |
| Admin.AdminService.GetDashboardData | src/modules/admin/admin.service.ts:10-40 | a refused token gets the guard's envelope; otherwise code 0 with the three table sizes and the greatest-uid user |
| Admin.AdminService.GetUserList | src/modules/admin/admin.service.ts:42-83 | refused: the guard's envelope; admitted: the page number echoed, the user count, and exactly that page of users in ascending uid order; page 1 and size 10 by default |
| Admin.FirstUserPage | src/modules/admin/admin.service.ts:42-58 | with the default arguments the user listing is page 1: the first 10 users by uid, or all users when there are fewer |
| Admin.RefusedAtAnyPage | src/modules/admin/admin.service.ts:42-49 | a refused token gets 401 (sentinel) or 403 from all three admin listings at any page, zero and negative pages included |
| Admin.AdminService.GetPostList | src/modules/admin/admin.service.ts:158-203 | refused: the guard's envelope; admitted: the post count and exactly that page of posts in ascending pid order |
| Admin.AdminService.GetCommentList | src/modules/admin/admin.service.ts:278-323 | refused: the guard's envelope; admitted: the comment count and exactly that page of comments in ascending cid order |
| Admin.AdminService.DeleteUserById | src/modules/admin/admin.service.ts:85-132 | guard, then 404 for an unknown uid, then 403 for a SYSTEM user, all changing nothing and needing no 'anonymous' user; else content passes to 'anonymous', the user row goes, none of their content remains |
| Admin.AdminService.BanUserById | src/modules/admin/admin.service.ts:134-156 | guard; a missing uid gives 500 and nothing changes; otherwise only that user's status becomes 2, or 0 when reversing |
| Admin.AdminService.DeletePost | src/modules/admin/admin.service.ts:205-248 | guard, then 404, both changing nothing; otherwise the post, its comments and its POST likes go, nothing else changes |
| Admin.AdminService.EditPostComment | src/modules/admin/admin.service.ts:250-276 | guard, then 404; otherwise only that post's allowComment becomes 1 or 0 |
| Admin.AdminService.DeleteCommentById | src/modules/admin/admin.service.ts:325-345 | guard, then 404; otherwise exactly that comment is removed |
| Admin.AdminService.TagComment | src/modules/admin/admin.service.ts:347-370 | guard, then 404; otherwise only that comment's status becomes 2 (violating) or 0 |
| Posts.Abbreviate | src/modules/post/post.service.ts:45-49 | a listed text is at most 100 characters; a short text is shown whole; a longer one becomes its first 80 characters plus "..." |
| Posts.OwnerGuard | src/modules/post/post.service.ts:99-116 | passes iff the token verified, the post exists and the caller wrote it; the errors are checked in that order and each has its own message |
| Posts.NotOwnerIsNotMissing | src/modules/post/post.service.ts:108-116 | the not-the-author refusal never reads like the missing-post refusal |
| Posts.CommentsOnNewestFirst | src/modules/post/post.service.ts:157-181 | the comments listed for a post are all of that post's comments and nothing else, each once, newest first |
| Posts.PostService.NewestPage | src/modules/post/post.service.ts:16-43 | the rows fetched for a listing are exactly that page of the posts, newest first |
| Posts.PostService.GetList | src/modules/post/post.service.ts:13-56 | the post count and that page of posts newest first, identical to the stored rows except that each text is abbreviated to at most 100 characters |
| Posts.PostService.GetPost | src/modules/post/post.service.ts:58-77 | the stored post with that pid, or 'invalid pid' exactly when it does not exist |
| Posts.PostService.GetComment | src/modules/post/post.service.ts:157-182 | exactly the stored comments on that post, in strictly descending cid order |
| Posts.PostService.NewPost | src/modules/post/post.service.ts:79-95 | an invalid token changes nothing; otherwise one new post with a fresh pid by the caller, comments allowed, nothing else changed |
| Posts.PostService.EditPost | src/modules/post/post.service.ts:97-127 | a refusal from the owner guard changes nothing; otherwise only that post's title and text change |
| Posts.PostService.DeletePost | src/modules/post/post.service.ts:129-155 | a refusal from the owner guard changes nothing; otherwise only that post row is removed and returned |
| Posts.PostService.NewComment | src/modules/post/post.service.ts:184-211 | token, then pid, each refusal changing nothing; otherwise one new comment with a fresh cid, sent by the caller on that post |
| Users.RowsOfAuthor | src/modules/user/user.service.ts:85-100 | rows read under ascending ids that are exactly one author's posts are those posts, each once, in ascending pid order |
| Users.PostsBy | src/modules/user/user.service.ts:85-100 | exactly the stored posts written by that user, each once, in ascending pid order |
| Users.UserService.Login | src/modules/user/user.service.ts:34-56 | succeeds iff a user has that name and the stored hash is H(password, name); token signed over that user's claims; else 'user does not exist' or 'wrong password' |
| Users.UserService.Register | src/modules/user/user.service.ts:14-31 | a taken name is refused and nothing changes; otherwise exactly one new user with a fresh uid and H(password, name); a later login with that name and password succeeds |
| Users.UserService.Verify | src/modules/user/user.service.ts:58-70 | succeeds iff the token verified and carries exactly that uid; otherwise 'invalid token' |
| Users.UserService.GetInfo | src/modules/user/user.service.ts:72-108 | an unknown uid gives 'this user does not exist'; otherwise the user and exactly the posts they wrote, each once, in ascending pid order |
| Users.RegisterThenLogin | src/modules/user/user.service.ts:14-56 | registering an unused name and then logging in with the same password succeeds, returning the new uid |

## Left out

Oracles and the surrounding framework:

- Password hashing, JWT signing and token verification are oracle
  functions held by each service. The model assumes no expiry, signature
  scheme or secret. A failed verification is the sentinel payload.
- The controllers, `AuthGuard`, the query coercion of `page` and the
  framework's exception filter are not modelled. The services are called
  directly. No controller passes `pageSize`, so the real page sizes are
  the defaults: 10 for the admin listings and 20 for the public listing.
  The listings carry these defaults as default parameter values
  (`AdminPageSize`, `ListPageSize`, `FirstPage`).
- `edit` and `getImageUploadToken` are not modelled; the user service has
  no implementation of either. The like and metadata services, and the
  request bodies other than register and login, are not modelled either.

What the store returns:

- `select`/`include` projections, `_count` and the joined user/post
  fields are not modelled. Operations return whole rows. The columns
  avatar, like, dislike, viewCount, publish, replyTo, createdAt,
  updatedAt and loggedAt are not modelled.
- Ordering by `createdAt` is modelled as ordering by id. Ids are handed
  out in creation order.
- Paging.Page: requires page >= 1 and pageSize >= 1. A zero or negative
  page makes the store reject a negative `skip`, and that path is not
  modelled. The admin listings require it only of an admitted token, so
  their 401 and 403 refusals hold at any page. `getList` has no guard,
  so it requires a page of at least 1 on every call.
- Users.PostsBy: lists the posts in ascending pid order. The source gives
  no `orderBy`, so the order is the model's choice; each post still
  appears exactly once.
- Users.UserService.GetInfo and Posts.PostService.GetPost return the
  whole row, not the selected fields.

Store failures and constraints:

- Storage failures, foreign-key constraints and transactions are not
  modelled. The store applies every update in full, so the `catch → 500`
  in the admin `deletePost` never fires. The sequence of separate writes
  in `deleteUserById` and `deletePost` is modelled as one step.
- Users.UserService.Register: checks only that the name is unused, as
  the source does. If the database also enforces a unique `email`, a
  register with a taken email fails in the store and inserts nothing,
  while the model inserts the user. That constraint is not modelled.
- Admin.AdminService.DeleteUserById: requires that an 'anonymous' user
  exists, but only on the path that reaches the deletion. The 401, 403
  and 404 refusals need no such user. The seed creates only 'system',
  'admin' and 'testuser', so the 'anonymous' user must be created by
  hand. Without it, the source fails on `anonymousUser.uid` of null
  before any `updateMany`, so nothing changes. The model does not
  capture that failure. Deleting the anonymous user itself is modelled
  as written: its content is reassigned to itself and then refers to a
  removed uid.
- The author's `deletePost` removes only the post row, as written; its
  comments and likes stay.
- The values a new row takes for columns the insert leaves out are the
  model's assumption: allowComment 1, comment status 0, user status 0,
  role USER (`Store.DefaultAllowComment`, `DefaultCommentStatus`,
  `DefaultUserStatus`, `DefaultRole`). The database schema that fixes
  them is not part of this model. An omitted `sex` is modelled as absent.

Values and encodings:

- String lengths are counted in characters, not UTF-16 code units.
  `substring(0, 80)` is modelled on characters.
- The email format check is an oracle parameter of the register rules.
- `Number(pid)` and `Number(uid)` on non-numeric input (NaN) are not
  modelled. Ids are integers.
- The metadata table is not modelled.
