/** The admin moderation surface. Every operation runs the same guard
    ladder (token, then role, then existence of the target) and touches a
    table only after every guard has passed; results come back in the
    `ResultData` envelope. */
module Admin {
  import opened Records
  import opened ResultEnvelope
  import opened Paging
  import opened Store

  /** The `data` the admin queries put in a successful envelope. */
  datatype AdminData =
    | Dashboard(userCount: nat, postCount: nat, commentCount: nat, latestUser: Option<User>)
    | UserList(page: int, count: nat, users: seq<User>)
    | PostList(page: int, count: nat, posts: seq<Post>)
    | CommentList(page: int, count: nat, comments: seq<Comment>)

  const InvalidAdminToken := "无效Token"
  const NotPermitted := "当前用户无权进行此操作"
  const UserMissing := "用户不存在"
  const SystemUserProtected := "无法删除系统用户"
  const SystemError := "系统错误"
  const PostMissing := "文章不存在"
  const CommentMissing := "评论不存在"
  const Deleted := "删除成功"
  const AnonymousName := "anonymous"

  /** The page size of the admin listings; no caller passes another. */
  const AdminPageSize := 10

  /** `ResultData.fail(code, msg)`. */
  function Deny(code: int, msg: string): ResultData<AdminData> {
    Fail(Some(code), Some(msg), Undefined)
  }

  /** The first two rungs of the ladder, shared by every admin operation:
      the sentinel id gives 401, then any role other than exactly ADMIN
      (SYSTEM included) gives 403; None lets the operation go on. */
  function AdminGuard(payload: Payload): (denial: Option<ResultData<AdminData>>)
    ensures denial.None? <==> payload.Id() != -1 && payload.ClaimedRole() == Some(ADMIN)
    ensures denial.Some? ==> Normalised(denial.value) && denial.value.data == Null
    ensures denial.Some? ==> denial.value.code == if payload.Id() == -1 then 401 else 403
    ensures payload.ClaimedRole() == Some(SYSTEM) ==> denial.Some?
  {
    if payload.Id() == -1 then Some(Deny(401, InvalidAdminToken))
    else if payload.ClaimedRole() != Some(ADMIN) then Some(Deny(403, NotPermitted))
    else None
  }

  /** An 'anonymous' user exists to take over a deleted user's content. */
  ghost predicate AnonymousExists(users: map<int, User>) {
    exists a :: a in users && users[a].name == AnonymousName
  }

  /** The uid of the newest user: the greatest uid in the table. */
  function LatestUid(users: map<int, User>): (latest: Option<int>)
    ensures latest.None? <==> |users| == 0
    ensures latest.Some? ==> IsGreatest(latest.value, users.Keys)
  {
    if |users| == 0 then None
    else
      assert users.Keys != {};
      GreatestExists(users.Keys);
      var m :| IsGreatest(m, users.Keys);
      Some(m)
  }

  class AdminService {
    const prisma: Database
    /** The token verifier: the signed payload, or the sentinel. */
    const verifyToken: string -> Payload

    constructor (prisma: Database, verifyToken: string -> Payload)
      ensures this.prisma == prisma && this.verifyToken == verifyToken
    {
      this.prisma := prisma;
      this.verifyToken := verifyToken;
    }

    /** The guard ladder's first two rungs let this token through. */
    predicate Admitted(token: string) {
      AdminGuard(verifyToken(token)).None?
    }

    /** `getDashboardData`: the three table sizes and the newest user. */
    function GetDashboardData(token: string): (r: ResultData<AdminData>)
      reads prisma
      ensures !Admitted(token) ==> r == AdminGuard(verifyToken(token)).value
      ensures Admitted(token) ==> r.code == 0 && r.data.Obj? && r.data.value.Dashboard?
      ensures Admitted(token) ==>
        var d := r.data.value;
        && d.userCount == |prisma.users| && d.postCount == |prisma.posts| && d.commentCount == |prisma.comments|
        && (d.latestUser.None? <==> |prisma.users| == 0)
        && (d.latestUser.Some? ==> exists u :: IsGreatest(u, prisma.users.Keys) && d.latestUser.value == prisma.users[u])
    {
      var denial := AdminGuard(verifyToken(token));
      if denial.Some? then denial.value
      else
        var latest := LatestUid(prisma.users);
        Ok(Obj(Dashboard(|prisma.users|, |prisma.posts|, |prisma.comments|,
                         if latest.Some? then Some(prisma.users[latest.value]) else None)), None)
    }

    /** `getUserList`: the table size and one page of users in ascending uid order. */
    function GetUserList(token: string, page: int := FirstPage, pageSize: int := AdminPageSize): (r: ResultData<AdminData>)
      requires Admitted(token) ==> page >= 1 && pageSize >= 1
      reads prisma
      ensures !Admitted(token) ==> r == AdminGuard(verifyToken(token)).value
      ensures Admitted(token) ==> r.code == 0 && r.data.Obj? && r.data.value.UserList?
      ensures Admitted(token) ==>
        var d := r.data.value;
        d.page == page && d.count == |prisma.users|
        && IsPageOf(d.users, prisma.users, SortedIds(prisma.users.Keys), page, pageSize)
    {
      var denial := AdminGuard(verifyToken(token));
      if denial.Some? then denial.value
      else
        PageAscending(prisma.users, page, pageSize);
        Ok(Obj(UserList(page, |prisma.users|, Page(RowsAscending(prisma.users), page, pageSize))), None)
    }

    /** `getPostList`: the table size and one page of posts in ascending pid order. */
    function GetPostList(token: string, page: int := FirstPage, pageSize: int := AdminPageSize): (r: ResultData<AdminData>)
      requires Admitted(token) ==> page >= 1 && pageSize >= 1
      reads prisma
      ensures !Admitted(token) ==> r == AdminGuard(verifyToken(token)).value
      ensures Admitted(token) ==> r.code == 0 && r.data.Obj? && r.data.value.PostList?
      ensures Admitted(token) ==>
        var d := r.data.value;
        d.page == page && d.count == |prisma.posts|
        && IsPageOf(d.posts, prisma.posts, SortedIds(prisma.posts.Keys), page, pageSize)
    {
      var denial := AdminGuard(verifyToken(token));
      if denial.Some? then denial.value
      else
        PageAscending(prisma.posts, page, pageSize);
        Ok(Obj(PostList(page, |prisma.posts|, Page(RowsAscending(prisma.posts), page, pageSize))), None)
    }

    /** `getCommentList`: the table size and one page of comments in ascending cid order. */
    function GetCommentList(token: string, page: int := FirstPage, pageSize: int := AdminPageSize): (r: ResultData<AdminData>)
      requires Admitted(token) ==> page >= 1 && pageSize >= 1
      reads prisma
      ensures !Admitted(token) ==> r == AdminGuard(verifyToken(token)).value
      ensures Admitted(token) ==> r.code == 0 && r.data.Obj? && r.data.value.CommentList?
      ensures Admitted(token) ==>
        var d := r.data.value;
        d.page == page && d.count == |prisma.comments|
        && IsPageOf(d.comments, prisma.comments, SortedIds(prisma.comments.Keys), page, pageSize)
    {
      var denial := AdminGuard(verifyToken(token));
      if denial.Some? then denial.value
      else
        PageAscending(prisma.comments, page, pageSize);
        Ok(Obj(CommentList(page, |prisma.comments|, Page(RowsAscending(prisma.comments), page, pageSize))), None)
    }

    /** `deleteUserById`: after the token and role rungs, 404 for an unknown
        uid, then 403 for a SYSTEM user; otherwise the user's posts and
        comments pass to the 'anonymous' user and the user row goes. */
    method DeleteUserById(token: string, uid: int) returns (r: ResultData<AdminData>)
      requires prisma.Valid()
      requires Admitted(token) && uid in prisma.users && prisma.users[uid].role != SYSTEM ==>
                 AnonymousExists(prisma.users)
      modifies prisma
      ensures prisma.Valid()
      ensures !Admitted(token) ==> r == AdminGuard(verifyToken(token)).value && unchanged(prisma)
      ensures Admitted(token) && uid !in old(prisma.users) ==>
        r == Deny(404, UserMissing) && unchanged(prisma)
      ensures Admitted(token) && uid in old(prisma.users) && old(prisma.users)[uid].role == SYSTEM ==>
        r == Deny(403, SystemUserProtected) && unchanged(prisma)
      ensures Admitted(token) && uid in old(prisma.users) && old(prisma.users)[uid].role != SYSTEM ==>
        var anonymous := UserByName(old(prisma.users), AnonymousName).value;
        && r == Ok(Null, Some(Deleted))
        && prisma.users == old(prisma.users) - {uid}
        && prisma.posts == ReassignPosts(old(prisma.posts), uid, anonymous)
        && prisma.comments == ReassignComments(old(prisma.comments), uid, anonymous)
        && prisma.likes == old(prisma.likes)
        && prisma.Counters() == old(prisma.Counters())
        && (uid != anonymous ==>
              && (forall p :: p in prisma.posts ==> prisma.posts[p].author != uid)
              && (forall c :: c in prisma.comments ==> prisma.comments[c].sender != uid))
    {
      var denial := AdminGuard(verifyToken(token));
      if denial.Some? {
        return denial.value;
      }
      if uid !in prisma.users {
        return Deny(404, UserMissing);
      }
      if prisma.users[uid].role == SYSTEM {
        return Deny(403, SystemUserProtected);
      }
      var anonymous := UserByName(prisma.users, AnonymousName).value;
      prisma.posts := ReassignPosts(prisma.posts, uid, anonymous);
      prisma.comments := ReassignComments(prisma.comments, uid, anonymous);
      prisma.users := prisma.users - {uid};
      r := Ok(Null, Some(Deleted));
    }

    /** `banUserById`: status 2 (banned) unless `reverse`, then 0; updating
        a missing uid fails in the store and surfaces as 500. The controller
        passes `reverse = false` for banUser and `true` for unbanUser. */
    method BanUserById(token: string, uid: int, reverse: bool) returns (r: ResultData<AdminData>)
      requires prisma.Valid()
      modifies prisma
      ensures prisma.Valid()
      ensures !Admitted(token) ==> r == AdminGuard(verifyToken(token)).value && unchanged(prisma)
      ensures Admitted(token) && uid !in old(prisma.users) ==>
        r == Deny(500, SystemError) && unchanged(prisma)
      ensures Admitted(token) && uid in old(prisma.users) ==>
        && r == Ok(Undefined, None)
        && prisma.users == old(prisma.users)[uid := old(prisma.users)[uid].(status := if reverse then 0 else 2)]
        && prisma.posts == old(prisma.posts) && prisma.comments == old(prisma.comments)
        && prisma.likes == old(prisma.likes) && prisma.Counters() == old(prisma.Counters())
    {
      var denial := AdminGuard(verifyToken(token));
      if denial.Some? {
        return denial.value;
      }
      if uid !in prisma.users {
        return Deny(500, SystemError);
      }
      prisma.users := prisma.users[uid := prisma.users[uid].(status := if reverse then 0 else 2)];
      r := Ok(Undefined, None);
    }

    /** `deletePost`: after the token and role rungs, 404 for an unknown
        pid; otherwise the post's comments, its POST likes and the post go. */
    method DeletePost(token: string, pid: int) returns (r: ResultData<AdminData>)
      requires prisma.Valid()
      modifies prisma
      ensures prisma.Valid()
      ensures !Admitted(token) ==> r == AdminGuard(verifyToken(token)).value && unchanged(prisma)
      ensures Admitted(token) && pid !in old(prisma.posts) ==>
        r == Deny(404, PostMissing) && unchanged(prisma)
      ensures Admitted(token) && pid in old(prisma.posts) ==>
        && r == Ok(Str(Deleted), None)
        && prisma.comments == DropCommentsOn(old(prisma.comments), pid)
        && prisma.likes == DropPostLikes(old(prisma.likes), pid)
        && prisma.posts == old(prisma.posts) - {pid}
        && prisma.users == old(prisma.users) && prisma.Counters() == old(prisma.Counters())
    {
      var denial := AdminGuard(verifyToken(token));
      if denial.Some? {
        return denial.value;
      }
      if pid !in prisma.posts {
        return Deny(404, PostMissing);
      }
      prisma.comments := DropCommentsOn(prisma.comments, pid);
      prisma.likes := DropPostLikes(prisma.likes, pid);
      prisma.posts := prisma.posts - {pid};
      r := Ok(Str(Deleted), None);
    }

    /** `editPostComment`: allowComment becomes 1 when `allow`, else 0. The
        controller passes `false` for prohibit and `true` for allow. */
    method EditPostComment(token: string, pid: int, allow: bool) returns (r: ResultData<AdminData>)
      requires prisma.Valid()
      modifies prisma
      ensures prisma.Valid()
      ensures !Admitted(token) ==> r == AdminGuard(verifyToken(token)).value && unchanged(prisma)
      ensures Admitted(token) && pid !in old(prisma.posts) ==>
        r == Deny(404, PostMissing) && unchanged(prisma)
      ensures Admitted(token) && pid in old(prisma.posts) ==>
        && r == Ok(Null, Some("修改文章评论权限成功"))
        && prisma.posts == old(prisma.posts)[pid := old(prisma.posts)[pid].(allowComment := if allow then 1 else 0)]
        && prisma.users == old(prisma.users) && prisma.comments == old(prisma.comments)
        && prisma.likes == old(prisma.likes) && prisma.Counters() == old(prisma.Counters())
    {
      var denial := AdminGuard(verifyToken(token));
      if denial.Some? {
        return denial.value;
      }
      if pid !in prisma.posts {
        return Deny(404, PostMissing);
      }
      prisma.posts := prisma.posts[pid := prisma.posts[pid].(allowComment := if allow then 1 else 0)];
      r := Ok(Null, Some("修改文章评论权限成功"));
    }

    /** `deleteCommentById`: exactly that comment goes. */
    method DeleteCommentById(token: string, cid: int) returns (r: ResultData<AdminData>)
      requires prisma.Valid()
      modifies prisma
      ensures prisma.Valid()
      ensures !Admitted(token) ==> r == AdminGuard(verifyToken(token)).value && unchanged(prisma)
      ensures Admitted(token) && cid !in old(prisma.comments) ==>
        r == Deny(404, CommentMissing) && unchanged(prisma)
      ensures Admitted(token) && cid in old(prisma.comments) ==>
        && r == Ok(Null, Some(Deleted))
        && prisma.comments == old(prisma.comments) - {cid}
        && prisma.users == old(prisma.users) && prisma.posts == old(prisma.posts)
        && prisma.likes == old(prisma.likes) && prisma.Counters() == old(prisma.Counters())
    {
      var denial := AdminGuard(verifyToken(token));
      if denial.Some? {
        return denial.value;
      }
      if cid !in prisma.comments {
        return Deny(404, CommentMissing);
      }
      prisma.comments := prisma.comments - {cid};
      r := Ok(Null, Some(Deleted));
    }

    /** `tagComment`: status 2 (violating) when `violate`, else 0. The
        controller passes `true` for banComment and the default `false` for
        approveComment. */
    method TagComment(token: string, cid: int, violate: bool) returns (r: ResultData<AdminData>)
      requires prisma.Valid()
      modifies prisma
      ensures prisma.Valid()
      ensures !Admitted(token) ==> r == AdminGuard(verifyToken(token)).value && unchanged(prisma)
      ensures Admitted(token) && cid !in old(prisma.comments) ==>
        r == Deny(404, CommentMissing) && unchanged(prisma)
      ensures Admitted(token) && cid in old(prisma.comments) ==>
        && r == Ok(Null, Some("修改评论状态成功"))
        && prisma.comments == old(prisma.comments)[cid := old(prisma.comments)[cid].(status := if violate then 2 else 0)]
        && prisma.users == old(prisma.users) && prisma.posts == old(prisma.posts)
        && prisma.likes == old(prisma.likes) && prisma.Counters() == old(prisma.Counters())
    {
      var denial := AdminGuard(verifyToken(token));
      if denial.Some? {
        return denial.value;
      }
      if cid !in prisma.comments {
        return Deny(404, CommentMissing);
      }
      prisma.comments := prisma.comments[cid := prisma.comments[cid].(status := if violate then 2 else 0)];
      r := Ok(Null, Some("修改评论状态成功"));
    }
  }

  /** With the default arguments, the user listing is the first page: the
      first AdminPageSize users by uid, or all of them when there are fewer. */
  lemma FirstUserPage(service: AdminService, token: string)
    requires service.Admitted(token)
    ensures var d := service.GetUserList(token).data.value;
      && d.page == 1
      && |d.users| == (if |service.prisma.users| < AdminPageSize then |service.prisma.users| else AdminPageSize)
      && forall i :: 0 <= i < |d.users| ==> d.users[i] == service.prisma.users[SortedIds(service.prisma.users.Keys)[i]]
  {
    var d := service.GetUserList(token).data.value;
    var ids := SortedIds(service.prisma.users.Keys);
    assert Skip(FirstPage, AdminPageSize) == 0;
    if |d.users| > 0 {
      assert |d.users| - 1 < |ids|;
    }
  }

  /** A refused token gets the guard's envelope from every listing, whatever
      page it asks for, zero and negative pages included. */
  lemma RefusedAtAnyPage(service: AdminService, token: string, page: int, pageSize: int)
    requires !service.Admitted(token)
    ensures var code := if service.verifyToken(token).Id() == -1 then 401 else 403;
      && service.GetUserList(token, page, pageSize).code == code
      && service.GetPostList(token, page, pageSize).code == code
      && service.GetCommentList(token, page, pageSize).code == code
  {
  }
}
