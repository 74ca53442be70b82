/** The public post service: listing and reading posts and comments, and
    the author's own create, edit and delete. Failures are thrown as
    BAD_REQUEST with a message; a failed check changes no table. */
module Posts {
  import opened Records
  import opened Paging
  import opened Store

  const InvalidPid := "invalid pid"

  /** The page size of the public listing; no caller passes another. */
  const ListPageSize := 20

  /** What `getList` returns. */
  datatype Listing = Listing(page: int, count: nat, posts: seq<Post>)

  /** The text a listing shows: a text longer than 100 characters is cut to
      its first 80 followed by "...", a shorter one is shown whole. */
  function Abbreviate(text: string): (shown: string)
    ensures |shown| <= 100
    ensures |text| <= 100 ==> shown == text
    ensures |text| > 100 ==> |shown| == 83 && shown[..80] == text[..80] && shown[80..] == "..."
  {
    if |text| > 100 then text[..80] + "..." else text
  }

  /** The checks editPost and deletePost make, in order: the token, that
      the post exists, that the caller wrote it. None lets the change go on. */
  function OwnerGuard(payload: Payload, posts: map<int, Post>, pid: int, action: string): (denial: Option<string>)
    ensures denial.None? <==> payload.Id() != -1 && pid in posts && posts[pid].author == payload.Id()
    ensures payload.Id() == -1 ==> denial == Some(InvalidToken)
    ensures payload.Id() != -1 && pid !in posts ==> denial == Some(InvalidPid)
    ensures payload.Id() != -1 && pid in posts && posts[pid].author != payload.Id() ==>
      denial == Some("you have no permission to " + action + " this article")
  {
    if payload.Id() == -1 then Some(InvalidToken)
    else if pid !in posts then Some(InvalidPid)
    else if posts[pid].author != payload.Id() then Some("you have no permission to " + action + " this article")
    else None
  }

  /** A non-owner's refusal reads differently from a missing post's. */
  lemma NotOwnerIsNotMissing(action: string)
    ensures "you have no permission to " + action + " this article" != InvalidPid
  {
    var refusal := "you have no permission to " + action + " this article";
    assert refusal[0] == 'y' != InvalidPid[0];
  }

  /** The comments on post `pid`, in descending cid order. */
  function CommentsOn(comments: map<int, Comment>, pid: int): (r: seq<Comment>)
  {
    RowsOf(comments, Filter(SortedIdsDesc(comments.Keys), comments, (c: Comment) => c.pid == pid))
  }

  /** CommentsOn holds every comment on the post and nothing else, newest first. */
  lemma CommentsOnNewestFirst(comments: map<int, Comment>, pid: int)
    requires forall c :: c in comments ==> comments[c].cid == c
    ensures var r := CommentsOn(comments, pid);
      && (forall k :: 0 <= k < |r| ==> r[k].pid == pid && r[k].cid in comments && comments[r[k].cid] == r[k])
      && (forall c :: c in comments && comments[c].pid == pid ==> comments[c] in r)
      && (forall i, j :: 0 <= i < j < |r| ==> r[i].cid > r[j].cid)
  {
    var all := SortedIdsDesc(comments.Keys);
    var keep := (c: Comment) => c.pid == pid;
    var ids := Filter(all, comments, keep);
    FilterDescending(all, comments, keep);
    var r := CommentsOn(comments, pid);
    assert |r| == |ids| && forall k :: 0 <= k < |r| ==> r[k] == comments[ids[k]];
    forall k | 0 <= k < |r|
      ensures r[k].pid == pid && r[k].cid in comments && comments[r[k].cid] == r[k]
    {
      assert ids[k] in ids;
    }
    forall c | c in comments && comments[c].pid == pid ensures comments[c] in r {
      assert c in ids;
      var k :| 0 <= k < |ids| && ids[k] == c;
      assert r[k] == comments[c];
    }
    forall i, j | 0 <= i < j < |r| ensures r[i].cid > r[j].cid {
      assert ids[i] in ids && ids[j] in ids;
      assert r[i].cid == ids[i] && r[j].cid == ids[j];
    }
  }

  class PostService {
    const prisma: Database
    /** The token verifier: the signed payload, or the sentinel. */
    const verifyToken: string -> Payload

    constructor (prisma: Database, verifyToken: string -> Payload)
      ensures this.prisma == prisma && this.verifyToken == verifyToken
    {
      this.prisma := prisma;
      this.verifyToken := verifyToken;
    }

    /** The page of posts the store returns for `getList`, newest first. */
    function NewestPage(page: int, pageSize: int): (rows: seq<Post>)
      requires page >= 1 && pageSize >= 1
      reads prisma
      ensures IsPageOf(rows, prisma.posts, SortedIdsDesc(prisma.posts.Keys), page, pageSize)
    {
      PageDescending(prisma.posts, page, pageSize);
      Page(RowsDescending(prisma.posts), page, pageSize)
    }

    /** `getList(page = 1, pageSize = 20)`: the number of posts and one page
        of them, newest first, each text abbreviated. */
    method GetList(page: int := FirstPage, pageSize: int := ListPageSize) returns (r: Listing)
      requires page >= 1 && pageSize >= 1
      ensures r.page == page && r.count == |prisma.posts|
      ensures |r.posts| == |NewestPage(page, pageSize)| <= pageSize
      ensures forall i :: 0 <= i < |r.posts| ==>
        r.posts[i] == NewestPage(page, pageSize)[i].(text := Abbreviate(NewestPage(page, pageSize)[i].text))
      ensures forall i :: 0 <= i < |r.posts| ==> |r.posts[i].text| <= 100
    {
      var fetched := NewestPage(page, pageSize);
      var posts := fetched;
      var i := 0;
      while i < |posts|
        invariant 0 <= i <= |posts| == |fetched|
        invariant forall k :: 0 <= k < i ==> posts[k] == fetched[k].(text := Abbreviate(fetched[k].text))
        invariant forall k :: i <= k < |posts| ==> posts[k] == fetched[k]
      {
        if |posts[i].text| > 100 {
          posts := posts[i := posts[i].(text := posts[i].text[..80] + "...")];
        }
        i := i + 1;
      }
      r := Listing(page, |prisma.posts|, posts);
    }

    /** `getPost`: the post with that pid, or 'invalid pid'. */
    function GetPost(pid: int): (r: Response<Post>)
      reads prisma
      ensures r.BadRequest? <==> pid !in prisma.posts
      ensures r.BadRequest? ==> r.message == InvalidPid
      ensures r.Returned? ==> r.value == prisma.posts[pid]
    {
      if pid in prisma.posts then Returned(prisma.posts[pid]) else BadRequest(InvalidPid)
    }

    /** `getComment`: exactly the comments on that post, newest first. */
    function GetComment(pid: int): (r: seq<Comment>)
      requires prisma.Valid()
      reads prisma
      ensures forall k :: 0 <= k < |r| ==>
        r[k].pid == pid && r[k].cid in prisma.comments && prisma.comments[r[k].cid] == r[k]
      ensures forall c :: c in prisma.comments && prisma.comments[c].pid == pid ==> prisma.comments[c] in r
      ensures forall i, j :: 0 <= i < j < |r| ==> r[i].cid > r[j].cid
    {
      CommentsOnNewestFirst(prisma.comments, pid);
      CommentsOn(prisma.comments, pid)
    }

    /** `newPost`: after the token check, a new post by the caller. */
    method NewPost(token: string, title: string, text: string) returns (r: Response<Post>)
      requires prisma.Valid()
      modifies prisma
      ensures prisma.Valid()
      ensures verifyToken(token).Id() == -1 ==> r == BadRequest(InvalidToken) && unchanged(prisma)
      ensures verifyToken(token).Id() != -1 ==>
        var post := Post(old(prisma.nextPid), title, text, verifyToken(token).Id(), DefaultAllowComment);
        && r == Returned(post)
        && post.pid !in old(prisma.posts)
        && prisma.posts == old(prisma.posts)[post.pid := post]
        && prisma.users == old(prisma.users) && prisma.comments == old(prisma.comments)
        && prisma.likes == old(prisma.likes)
        && prisma.Counters() == (old(prisma.nextUid), old(prisma.nextPid) + 1, old(prisma.nextCid))
    {
      var payload := verifyToken(token);
      if payload.Id() == -1 {
        return BadRequest(InvalidToken);
      }
      var post := Post(prisma.nextPid, title, text, payload.Id(), DefaultAllowComment);
      prisma.posts := prisma.posts[post.pid := post];
      prisma.nextPid := prisma.nextPid + 1;
      r := Returned(post);
    }

    /** `editPost`: after OwnerGuard, only that post's title and text change. */
    method EditPost(token: string, pid: int, title: string, text: string) returns (r: Response<Post>)
      requires prisma.Valid()
      modifies prisma
      ensures prisma.Valid()
      ensures OwnerGuard(verifyToken(token), old(prisma.posts), pid, "edit").Some? ==>
        r == BadRequest(OwnerGuard(verifyToken(token), old(prisma.posts), pid, "edit").value) && unchanged(prisma)
      ensures OwnerGuard(verifyToken(token), old(prisma.posts), pid, "edit").None? ==>
        var post := old(prisma.posts)[pid].(title := title, text := text);
        && r == Returned(post)
        && prisma.posts == old(prisma.posts)[pid := post]
        && prisma.users == old(prisma.users) && prisma.comments == old(prisma.comments)
        && prisma.likes == old(prisma.likes) && prisma.Counters() == old(prisma.Counters())
    {
      var denial := OwnerGuard(verifyToken(token), prisma.posts, pid, "edit");
      if denial.Some? {
        return BadRequest(denial.value);
      }
      var post := prisma.posts[pid].(title := title, text := text);
      prisma.posts := prisma.posts[pid := post];
      r := Returned(post);
    }

    /** `deletePost` by the author: after OwnerGuard, only the post row goes;
        its comments and likes stay. */
    method DeletePost(token: string, pid: int) returns (r: Response<Post>)
      requires prisma.Valid()
      modifies prisma
      ensures prisma.Valid()
      ensures OwnerGuard(verifyToken(token), old(prisma.posts), pid, "delete").Some? ==>
        r == BadRequest(OwnerGuard(verifyToken(token), old(prisma.posts), pid, "delete").value) && unchanged(prisma)
      ensures OwnerGuard(verifyToken(token), old(prisma.posts), pid, "delete").None? ==>
        && r == Returned(old(prisma.posts)[pid])
        && prisma.posts == old(prisma.posts) - {pid}
        && prisma.users == old(prisma.users) && prisma.comments == old(prisma.comments)
        && prisma.likes == old(prisma.likes) && prisma.Counters() == old(prisma.Counters())
    {
      var denial := OwnerGuard(verifyToken(token), prisma.posts, pid, "delete");
      if denial.Some? {
        return BadRequest(denial.value);
      }
      r := Returned(prisma.posts[pid]);
      prisma.posts := prisma.posts - {pid};
    }

    /** `newComment`: after the token check and the pid check, one new
        comment by the caller on that post. Whether the post allows
        comments is not consulted. */
    method NewComment(token: string, pid: int, text: string, agent: string, ipAddress: string)
      returns (r: Response<Comment>)
      requires prisma.Valid()
      modifies prisma
      ensures prisma.Valid()
      ensures verifyToken(token).Id() == -1 ==> r == BadRequest(InvalidToken) && unchanged(prisma)
      ensures verifyToken(token).Id() != -1 && pid !in old(prisma.posts) ==>
        r == BadRequest(InvalidPid) && unchanged(prisma)
      ensures verifyToken(token).Id() != -1 && pid in old(prisma.posts) ==>
        var comment := Comment(old(prisma.nextCid), pid, verifyToken(token).Id(), text, ipAddress, agent,
                               DefaultCommentStatus);
        && r == Returned(comment)
        && comment.cid !in old(prisma.comments)
        && prisma.comments == old(prisma.comments)[comment.cid := comment]
        && prisma.users == old(prisma.users) && prisma.posts == old(prisma.posts)
        && prisma.likes == old(prisma.likes)
        && prisma.Counters() == (old(prisma.nextUid), old(prisma.nextPid), old(prisma.nextCid) + 1)
    {
      var payload := verifyToken(token);
      if payload.Id() == -1 {
        return BadRequest(InvalidToken);
      }
      if pid !in prisma.posts {
        return BadRequest(InvalidPid);
      }
      var comment := Comment(prisma.nextCid, pid, payload.Id(), text, ipAddress, agent, DefaultCommentStatus);
      prisma.comments := prisma.comments[comment.cid := comment];
      prisma.nextCid := prisma.nextCid + 1;
      r := Returned(comment);
    }
  }
}
