/** The administrators' gate: a request passes when its user's role is
    `ADMIN` or `MODERATOR`. The role set by authentication is used when
    present; otherwise it is looked up and stored on the request. */
module AdminMiddleware {
  import opened Wrappers
  import Db

  /** A status code and the `message` of the JSON body. */
  datatype Reply = Reply(status: nat, message: string)

  /** The request fields the gate reads and writes. */
  class Request {
    var userId: Option<nat>
    var userRole: Option<string>

    constructor (userId: Option<nat>, userRole: Option<string>)
      ensures this.userId == userId && this.userRole == userRole
    {
      this.userId := userId;
      this.userRole := userRole;
    }
  }

  /** The roles allowed in, compared exactly. */
  predicate Privileged(role: string) {
    role == "ADMIN" || role == "MODERATOR"
  }

  /** `!value` for an optional text. */
  predicate Falsy(s: Option<string>) {
    s.None? || s.value == ""
  }

  /** The answer of the gate, `None` when it calls `next`. A failing
      lookup is a thrown error, answered with 500. */
  function Decision(userId: Option<nat>, userRole: Option<string>, users: seq<Db.User>, lookupFails: bool)
    : (r: Option<Reply>)
    ensures (userId.None? || userId.value == 0) ==> r == Some(Reply(401, "未授权访问"))
    ensures r.None? <==>
      userId.Some? && userId.value != 0
      && (if Falsy(userRole) then !lookupFails && Db.UserById(users, userId.value).Some?
                                  && Privileged(Db.UserById(users, userId.value).value.role)
          else Privileged(userRole.value))
    ensures r.Some? ==> r.value.status in {401, 403, 500}
  {
    if userId.None? || userId.value == 0 then Some(Reply(401, "未授权访问"))
    else if Falsy(userRole) && lookupFails then Some(Reply(500, "服务器内部错误"))
    else if Falsy(userRole) && Db.UserById(users, userId.value).None? then Some(Reply(401, "未授权访问: 用户不存在"))
    else
      var role := if Falsy(userRole) then Db.UserById(users, userId.value).value.role else userRole.value;
      if !Privileged(role) then Some(Reply(403, "没有管理员权限")) else None
  }

  /** `AdminMiddleware`: answers the request or calls `next` exactly once,
      storing the looked-up role on the request when it had none. */
  method Gate(req: Request, users: seq<Db.User>, lookupFails: bool) returns (reply: Option<Reply>, nextCalls: nat)
    modifies req`userRole
    ensures reply == Decision(req.userId, old(req.userRole), users, lookupFails)
    ensures nextCalls == (if reply.None? then 1 else 0)
    ensures req.userRole ==
      (if req.userId.Some? && req.userId.value != 0 && Falsy(old(req.userRole)) && !lookupFails
          && Db.UserById(users, req.userId.value).Some?
       then Some(Db.UserById(users, req.userId.value).value.role)
       else old(req.userRole))
    ensures reply.None? ==> req.userRole.Some? && Privileged(req.userRole.value)
  {
    nextCalls := 0;
    if req.userId.None? || req.userId.value == 0 {
      return Some(Reply(401, "未授权访问")), 0;
    }
    if Falsy(req.userRole) {
      if lookupFails {
        return Some(Reply(500, "服务器内部错误")), 0;
      }
      var user := Db.UserById(users, req.userId.value);
      if user.None? {
        return Some(Reply(401, "未授权访问: 用户不存在")), 0;
      }
      req.userRole := Some(user.value.role);
    }
    if !Privileged(req.userRole.value) {
      return Some(Reply(403, "没有管理员权限")), 0;
    }
    reply := None;
    nextCalls := nextCalls + 1;
  }

  /** The gate compares roles exactly, so a lower-case `admin` is refused
      and a moderator is let in. */
  lemma ExactRoles()
    ensures Decision(Some(1), Some("admin"), [], false) == Some(Reply(403, "没有管理员权限"))
    ensures Decision(Some(1), Some("MODERATOR"), [], false).None?
  {
  }
}
