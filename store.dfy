/** The relational store the services share: four tables keyed by id, the
    autoincrement counters that hand out new ids, and the bulk updates and
    deletes (`updateMany`, `deleteMany`) the services issue against them. */
module Store {
  import opened Records

  /** Column defaults a new row takes when an insert leaves them out:
      comments allowed on a new post, a new comment not flagged, a new
      user neither banned nor privileged. */
  const DefaultAllowComment := 1
  const DefaultCommentStatus := 0
  const DefaultUserStatus := 0
  const DefaultRole := USER

  /** The integrity the store keeps: every row sits under its own id, ids
      are positive and below the next id to hand out, user names are unique. */
  ghost predicate TablesValid(users: map<int, User>, posts: map<int, Post>,
                              comments: map<int, Comment>, likes: map<int, Like>,
                              nextUid: int, nextPid: int, nextCid: int)
  {
    && 1 <= nextUid && 1 <= nextPid && 1 <= nextCid
    && (forall u :: u in users ==> users[u].uid == u && 1 <= u < nextUid)
    && (forall p :: p in posts ==> posts[p].pid == p && 1 <= p < nextPid)
    && (forall c :: c in comments ==> comments[c].cid == c && 1 <= c < nextCid)
    && (forall l :: l in likes ==> likes[l].lid == l)
    && NamesUnique(users)
  }

  class Database {
    var users: map<int, User>
    var posts: map<int, Post>
    var comments: map<int, Comment>
    var likes: map<int, Like>
    var nextUid: int
    var nextPid: int
    var nextCid: int

    ghost predicate Valid()
      reads this
    {
      TablesValid(users, posts, comments, likes, nextUid, nextPid, nextCid)
    }

    /** The next ids to hand out, which only inserts advance. */
    function Counters(): (int, int, int)
      reads this
    {
      (nextUid, nextPid, nextCid)
    }

    /** A store holding the given rows. */
    constructor (users: map<int, User>, posts: map<int, Post>,
                 comments: map<int, Comment>, likes: map<int, Like>,
                 nextUid: int, nextPid: int, nextCid: int)
      requires TablesValid(users, posts, comments, likes, nextUid, nextPid, nextCid)
      ensures Valid()
      ensures this.users == users && this.posts == posts && this.comments == comments && this.likes == likes
      ensures Counters() == (nextUid, nextPid, nextCid)
    {
      this.users := users;
      this.posts := posts;
      this.comments := comments;
      this.likes := likes;
      this.nextUid := nextUid;
      this.nextPid := nextPid;
      this.nextCid := nextCid;
    }
  }

  /** `post.updateMany({ where: { author: from }, data: { author: to } })`:
      the posts of `from` pass to `to`, nothing else about any post changes. */
  function ReassignPosts(posts: map<int, Post>, from: int, to: int): (r: map<int, Post>)
    ensures r.Keys == posts.Keys
    ensures forall p :: p in r ==> r[p] == posts[p].(author := r[p].author)
    ensures forall p :: p in r ==> r[p].author == if posts[p].author == from then to else posts[p].author
    ensures from != to ==> forall p :: p in r ==> r[p].author != from
  {
    map p | p in posts :: if posts[p].author == from then posts[p].(author := to) else posts[p]
  }

  /** `comment.updateMany({ where: { sender: from }, data: { sender: to } })`. */
  function ReassignComments(comments: map<int, Comment>, from: int, to: int): (r: map<int, Comment>)
    ensures r.Keys == comments.Keys
    ensures forall c :: c in r ==> r[c] == comments[c].(sender := r[c].sender)
    ensures forall c :: c in r ==> r[c].sender == if comments[c].sender == from then to else comments[c].sender
    ensures from != to ==> forall c :: c in r ==> r[c].sender != from
  {
    map c | c in comments :: if comments[c].sender == from then comments[c].(sender := to) else comments[c]
  }

  /** `comment.deleteMany({ where: { pid } })`: exactly the comments on that post go. */
  function DropCommentsOn(comments: map<int, Comment>, pid: int): (r: map<int, Comment>)
    ensures forall c :: c in r <==> c in comments && comments[c].pid != pid
    ensures forall c :: c in r ==> r[c] == comments[c]
  {
    map c | c in comments && comments[c].pid != pid :: comments[c]
  }

  /** `like.deleteMany({ where: { type: 'POST', sid: pid } })`: exactly the
      likes of that post go; likes of a comment with the same id stay. */
  function DropPostLikes(likes: map<int, Like>, pid: int): (r: map<int, Like>)
    ensures forall l :: l in r <==> l in likes && !(likes[l].kind == POST && likes[l].sid == pid)
    ensures forall l :: l in r ==> r[l] == likes[l]
  {
    map l | l in likes && !(likes[l].kind == POST && likes[l].sid == pid) :: likes[l]
  }
}
