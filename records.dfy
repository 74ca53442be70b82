/** Rows of the four tables (users, posts, comments, likes), the roles, and
    the payload that token verification hands to every service operation. */
module Records {

  datatype Option<T> = None | Some(value: T)

  /** The outcome of a post or user service call: the returned value, or an
      HttpException thrown with status BAD_REQUEST and a message. */
  datatype Response<T> = Returned(value: T) | BadRequest(message: string)

  /** The message the post and user services throw for a token that fails to verify. */
  const InvalidToken := "invalid token"

  datatype Role = SYSTEM | ADMIN | USER
  datatype Sex = MALE | FEMALE | SECRET
  datatype LikeType = POST | COMMENT

  /** A user row; `sex` is None when registration left it to the schema default. */
  datatype User = User(uid: int, name: string, nickname: string, email: string,
                       passwordHash: string, sex: Option<Sex>, role: Role, status: int)

  datatype Post = Post(pid: int, title: string, text: string, author: int, allowComment: int)

  datatype Comment = Comment(cid: int, pid: int, sender: int, text: string,
                             ip: string, agent: string, status: int)

  /** A like row: `kind` and `sid` name the liked post or comment. */
  datatype Like = Like(lid: int, kind: LikeType, sid: int, uid: int)

  /** The identity claims signed into a token at login. */
  datatype Claims = Claims(id: int, name: string, email: string, role: Role, sex: Option<Sex>)

  /** What verifying a token yields: the signed claims, or the sentinel
      object `{id: -1}` that stands for a token that failed to verify. */
  datatype Payload = Sentinel | Signed(claims: Claims) {
    /** `payload.id`: -1 for the sentinel. */
    function Id(): int {
      match this
      case Sentinel => -1
      case Signed(c) => c.id
    }

    /** `payload.role`: absent from the sentinel. */
    function ClaimedRole(): Option<Role> {
      match this
      case Sentinel => None
      case Signed(c) => Some(c.role)
    }
  }

  /** The claims a login signs for a stored user. */
  function ClaimsOf(u: User): Claims {
    Claims(u.uid, u.name, u.email, u.role, u.sex)
  }

  /** The unique index on `User.name`. */
  ghost predicate NamesUnique(users: map<int, User>) {
    forall u, v :: u in users && v in users && users[u].name == users[v].name ==> u == v
  }

  /** `findUnique({ where: { name } })`: the uid of the user with that name. */
  function UserByName(users: map<int, User>, name: string): (found: Option<int>)
    requires NamesUnique(users)
    ensures found.Some? <==> exists u :: u in users && users[u].name == name
    ensures found.Some? ==> found.value in users && users[found.value].name == name
  {
    if exists u :: u in users && users[u].name == name then
      var u :| u in users && users[u].name == name; Some(u)
    else
      None
  }
}
