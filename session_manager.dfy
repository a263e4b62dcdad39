/** The session manager (backend/src/utils/session-manager.ts): validating
    the session behind a request, extending it on activity, clearing it,
    describing it, and the fallback reply for a session failure. */
module SessionManager {
  import opened Common
  import opened Http

  /** The user the login stored in the session; a missing `_id` or `email`
      is the empty string. */
  datatype SessionUser = SessionUser(id: string, email: string, name: string,
                                     currentWorkspace: Option<string>)

  /** The server-side session with its cookie (times in seconds): the
      configured lifetime `originalMaxAge` and the expiry time `expires`. */
  class Session {
    const id: string
    var originalMaxAge: nat
    var expires: nat

    constructor (id: string, originalMaxAge: nat, now: nat)
      ensures this.id == id && this.originalMaxAge == originalMaxAge && expires == now + originalMaxAge
    {
      this.id := id;
      this.originalMaxAge := originalMaxAge;
      expires := now + originalMaxAge;
    }

    /** `req.session.touch()`: the cookie's lifetime starts again now. */
    method Touch(now: nat)
      modifies this
      ensures expires == now + originalMaxAge && originalMaxAge == old(originalMaxAge)
    {
      expires := now + originalMaxAge;
    }
  }

  /** The parts of an HTTP request the session manager looks at. */
  class Request {
    var session: Session?
    var user: Option<SessionUser>

    constructor (session: Session?, user: Option<SessionUser>)
      ensures this.session == session && this.user == user
    {
      this.session := session;
      this.user := user;
    }
  }

  const SessionNotFound := Unauthorized("Session not found. Please login again.")
  const InvalidSession := Unauthorized("Invalid session. Please login again.")
  const InvalidSessionData := Unauthorized("Invalid session data. Please login again.")

  /** `validateSession`: the error handed to `next`, or `None` when `next()`
      is called with no error. The checks run in the order session, user,
      user data. */
  function ValidateSession(req: Request): (r: Option<Error>)
    reads req
    ensures r.None? <==>
      req.session != null && req.user.Some? && req.user.value.id != "" && req.user.value.email != ""
    ensures req.session == null ==> r == Some(SessionNotFound)
    ensures req.session != null && req.user.None? ==> r == Some(InvalidSession)
    ensures req.session != null && req.user.Some? && r.Some? ==> r == Some(InvalidSessionData)
  {
    if req.session == null then Some(SessionNotFound)
    else if req.user.None? then Some(InvalidSession)
    else if req.user.value.id == "" || req.user.value.email == "" then Some(InvalidSessionData)
    else None
  }

  /** Validation looks at the user's `_id` and `email` only: the name and
      the current workspace never change its answer. */
  lemma ValidateSessionIgnoresProfile(req: Request, other: Request)
    requires req.session == other.session
    requires req.user.Some? <==> other.user.Some?
    requires req.user.Some? ==>
      req.user.value.id == other.user.value.id && req.user.value.email == other.user.value.email
    ensures ValidateSession(req) == ValidateSession(other)
  {
  }

  /** `extendSession`: the session is touched only when the request carries
      both a session and a user; nothing is reported either way. */
  method ExtendSession(req: Request, now: nat)
    modifies req.session
    ensures req.session != null && req.user.Some? ==>
      && req.session.expires == now + req.session.originalMaxAge
      && req.session.originalMaxAge == old(req.session.originalMaxAge)
    ensures req.session != null && req.user.None? ==> unchanged(req.session)
  {
    if req.session != null && req.user.Some? {
      req.session.Touch(now);
    }
  }

  /** How the promise of `clearSession` settles. */
  datatype Outcome = Resolved | Rejected(reason: string)

  /** `clearSession`: resolves at once without a session; otherwise destroys
      it, which detaches it from the request, and settles as the store's
      destroy does (`destroyError` is that store's failure, if any). */
  method ClearSession(req: Request, destroyError: Option<string>) returns (outcome: Outcome)
    modifies req
    ensures req.session == null && req.user == old(req.user)
    ensures old(req.session) == null ==> outcome == Resolved
    ensures old(req.session) != null ==>
      outcome == (if destroyError.Some? then Rejected(destroyError.value) else Resolved)
  {
    if req.session == null {
      return Resolved;
    }
    req.session := null;
    if destroyError.Some? {
      return Rejected(destroyError.value);
    }
    return Resolved;
  }

  /** What `getSessionInfo` reports. `createdAt` carries the cookie's expiry
      time, as the source fills it, and `maxAge` the cookie's `maxAge`, which
      is the time left until that expiry (negative once it has passed). */
  datatype SessionInfo =
    | NoSession
    | Info(sessionId: string, userId: Option<string>, userEmail: Option<string>,
           createdAt: nat, maxAge: int, sessionStore: string, ttl: string)

  /** `getSessionInfo` at time `now`: `exists: false` exactly when there is
      no session; otherwise the session's id, its expiry and the time left
      until it, and the user's id and email exactly when there is a user. */
  function GetSessionInfo(req: Request, now: nat): (r: SessionInfo)
    reads req, req.session
    ensures r.NoSession? <==> req.session == null
    ensures r.Info? ==>
      && r.sessionId == req.session.id
      && (r.userId.Some? <==> req.user.Some?)
      && (r.userEmail.Some? <==> req.user.Some?)
      && (req.user.Some? ==> r.userId == Some(req.user.value.id) && r.userEmail == Some(req.user.value.email))
      && r.createdAt == req.session.expires
      && now + r.maxAge == req.session.expires
      && (r.maxAge > 0 <==> now < req.session.expires)
  {
    if req.session == null then NoSession
    else
      Info(req.session.id,
           if req.user.Some? then Some(req.user.value.id) else None,
           if req.user.Some? then Some(req.user.value.email) else None,
           req.session.expires, req.session.expires - now, "MongoDB", "3 years")
  }

  const SessionErrorReply := ErrorJson(500, "Session error occurred. Please login again.", "SESSION_ERROR")

  /** `handleSessionError`: the session, if any, is destroyed (its outcome
      ignored) and the reply is always 500 `SESSION_ERROR`. */
  method HandleSessionError(req: Request) returns (res: Response)
    modifies req
    ensures req.session == null && req.user == old(req.user)
    ensures res == SessionErrorReply
  {
    if req.session != null {
      req.session := null;
    }
    return SessionErrorReply;
  }
}
