/** The user service: registration stores the password only as
    H(password, username); login recomputes H and signs the stored user's
    claims; verify and getInfo are lookups. Failures are thrown as
    BAD_REQUEST with a message. */
module Users {
  import opened Records
  import opened Paging
  import opened Store
  import Dto

  const NameTaken := "用户名已使用"
  const NoSuchUser := "用户不存在"
  const WrongPassword := "用户名或密码错误"
  const UnknownUid := "该用户不存在"

  /** What a successful login returns. */
  datatype LoginReply = LoginReply(id: int, token: string)

  /** What `getInfo` returns: the user and the posts they wrote. */
  datatype UserInfo = UserInfo(user: User, posts: seq<Post>)

  /** Rows read under ascending ids that are exactly the posts of `uid`
      are those posts, each once, in ascending pid order. */
  lemma RowsOfAuthor(posts: map<int, Post>, uid: int, ids: seq<int>)
    requires forall p :: p in posts ==> posts[p].pid == p
    requires forall i :: 0 <= i < |ids| ==> ids[i] in posts
    requires forall x :: x in ids <==> x in posts && posts[x].author == uid
    requires Ascending(ids)
    ensures var r := RowsOf(posts, ids);
      && (forall k :: 0 <= k < |r| ==> r[k].author == uid && r[k] in posts.Values)
      && (forall p :: p in posts && posts[p].author == uid ==> posts[p] in r)
      && (forall i, j :: 0 <= i < j < |r| ==> r[i].pid < r[j].pid)
  {
    var r := RowsOf(posts, ids);
    forall k | 0 <= k < |r| ensures r[k].author == uid && r[k] in posts.Values {
      assert ids[k] in ids;
    }
    forall p | p in posts && posts[p].author == uid ensures posts[p] in r {
      var k :| 0 <= k < |ids| && ids[k] == p;
      assert r[k] == posts[p];
    }
    forall i, j | 0 <= i < j < |r| ensures r[i].pid < r[j].pid {
      assert r[i].pid == ids[i] && r[j].pid == ids[j];
    }
  }

  /** The posts whose author is `uid`, each once, listed in pid order. */
  function PostsBy(posts: map<int, Post>, uid: int): (r: seq<Post>)
    requires forall p :: p in posts ==> posts[p].pid == p
    ensures forall k :: 0 <= k < |r| ==> r[k].author == uid && r[k] in posts.Values
    ensures forall p :: p in posts && posts[p].author == uid ==> posts[p] in r
    ensures forall i, j :: 0 <= i < j < |r| ==> r[i].pid < r[j].pid
  {
    var keep := (p: Post) => p.author == uid;
    var all := SortedIds(posts.Keys);
    var ids := Filter(all, posts, keep);
    FilterAscending(all, posts, keep);
    RowsOfAuthor(posts, uid, ids);
    RowsOf(posts, ids)
  }

  class UserService {
    const prisma: Database
    /** `passwordHash(password, username)`: a deterministic one-way function. */
    const passwordHash: (string, string) -> string
    /** `jwtService.sign(claims)`. */
    const sign: Claims -> string
    /** The token verifier: the signed payload, or the sentinel. */
    const verifyToken: string -> Payload

    constructor (prisma: Database, passwordHash: (string, string) -> string,
                 sign: Claims -> string, verifyToken: string -> Payload)
      ensures this.prisma == prisma && this.passwordHash == passwordHash
      ensures this.sign == sign && this.verifyToken == verifyToken
    {
      this.prisma := prisma;
      this.passwordHash := passwordHash;
      this.sign := sign;
      this.verifyToken := verifyToken;
    }

    /** `login`: 'user does not exist' for an unknown name, 'wrong name or
        password' when the stored hash is not H(password, username);
        otherwise the uid and a token signed over the stored user's claims. */
    function Login(username: string, password: string): (r: Response<LoginReply>)
      requires prisma.Valid()
      reads prisma
      ensures r.Returned? <==> exists u :: u in prisma.users && prisma.users[u].name == username
                                          && prisma.users[u].passwordHash == passwordHash(password, username)
      ensures r.Returned? ==> r.value.id in prisma.users && prisma.users[r.value.id].name == username
                              && r.value.token == sign(ClaimsOf(prisma.users[r.value.id]))
      ensures (forall u :: u in prisma.users ==> prisma.users[u].name != username) ==> r == BadRequest(NoSuchUser)
      ensures (exists u :: u in prisma.users && prisma.users[u].name == username) && r.BadRequest? ==>
                r == BadRequest(WrongPassword)
    {
      match UserByName(prisma.users, username)
      case None => BadRequest(NoSuchUser)
      case Some(u) =>
        var user := prisma.users[u];
        if user.passwordHash == passwordHash(password, username) then
          Returned(LoginReply(user.uid, sign(ClaimsOf(user))))
        else
          BadRequest(WrongPassword)
    }

    /** `register`: a taken name is refused and nothing is inserted;
        otherwise one new user row holding H(password, username), which a
        login with the same name and password then accepts. */
    method Register(d: Dto.RegisterDto) returns (r: Response<User>)
      requires prisma.Valid()
      requires Dto.SexAccepted(d.sex)
      modifies prisma
      ensures prisma.Valid()
      ensures (exists u :: u in old(prisma.users) && old(prisma.users)[u].name == d.username) ==>
        r == BadRequest(NameTaken) && unchanged(prisma)
      ensures !(exists u :: u in old(prisma.users) && old(prisma.users)[u].name == d.username) ==>
        var user := User(old(prisma.nextUid), d.username, d.nickname, d.email,
                         passwordHash(d.password, d.username), Dto.ParseSex(d.sex), DefaultRole, DefaultUserStatus);
        && r == Returned(user)
        && user.uid >= 1 && user.uid !in old(prisma.users)
        && prisma.users == old(prisma.users)[user.uid := user]
        && prisma.posts == old(prisma.posts) && prisma.comments == old(prisma.comments)
        && prisma.likes == old(prisma.likes)
        && prisma.Counters() == (old(prisma.nextUid) + 1, old(prisma.nextPid), old(prisma.nextCid))
      ensures r.Returned? ==> Login(d.username, d.password) == Returned(LoginReply(r.value.uid, sign(ClaimsOf(r.value))))
    {
      if UserByName(prisma.users, d.username).Some? {
        return BadRequest(NameTaken);
      }
      var user := User(prisma.nextUid, d.username, d.nickname, d.email,
                       passwordHash(d.password, d.username), Dto.ParseSex(d.sex), DefaultRole, DefaultUserStatus);
      prisma.users := prisma.users[user.uid := user];
      prisma.nextUid := prisma.nextUid + 1;
      r := Returned(user);
      assert prisma.Valid();
      assert prisma.users[user.uid].name == d.username;
      var found := UserByName(prisma.users, d.username);
      assert found.Some? && prisma.users[found.value].name == d.username;
      assert found.value == user.uid;
    }

    /** `verify`: the token must verify (not the sentinel id) and carry
        exactly this uid; otherwise 'invalid token'. */
    function Verify(uid: int, token: string): (r: Response<int>)
      ensures r.Returned? <==> verifyToken(token).Id() != -1 && verifyToken(token).Id() == uid
      ensures r.Returned? ==> r.value == uid
      ensures r.BadRequest? ==> r.message == InvalidToken
    {
      var payload := verifyToken(token);
      if payload.Id() == -1 then BadRequest(InvalidToken)
      else if payload.Id() != uid then BadRequest(InvalidToken)
      else Returned(uid)
    }

    /** `getInfo`: the user with that uid and the posts they wrote, or
        'this user does not exist'. */
    function GetInfo(uid: int): (r: Response<UserInfo>)
      requires prisma.Valid()
      reads prisma
      ensures r.BadRequest? <==> uid !in prisma.users
      ensures r.BadRequest? ==> r.message == UnknownUid
      ensures r.Returned? ==> r.value.user == prisma.users[uid]
      ensures r.Returned? ==> forall k :: 0 <= k < |r.value.posts| ==>
        r.value.posts[k].author == uid && r.value.posts[k] in prisma.posts.Values
      ensures r.Returned? ==> forall p :: p in prisma.posts && prisma.posts[p].author == uid ==>
        prisma.posts[p] in r.value.posts
      ensures r.Returned? ==> forall i, j :: 0 <= i < j < |r.value.posts| ==>
        r.value.posts[i].pid < r.value.posts[j].pid
    {
      if uid in prisma.users then Returned(UserInfo(prisma.users[uid], PostsBy(prisma.posts, uid)))
      else BadRequest(UnknownUid)
    }
  }

  /** Registration followed by login with the same name and password
      succeeds, with nothing in between. */
  method RegisterThenLogin(service: UserService, d: Dto.RegisterDto) returns (reply: Response<LoginReply>)
    requires service.prisma.Valid()
    requires Dto.SexAccepted(d.sex)
    requires forall u :: u in service.prisma.users ==> service.prisma.users[u].name != d.username
    modifies service.prisma
    ensures reply.Returned? && reply.value.id == old(service.prisma.nextUid)
  {
    var registered := service.Register(d);
    reply := service.Login(d.username, d.password);
  }
}
