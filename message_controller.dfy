/** The message controller (backend/src/controllers/message.controller.ts):
    the request guard on `content` and the replies of the send and list
    endpoints. The caller is the authenticated user, `req.user._id`. */
module MessageController {
  import opened Common
  import opened Seqs
  import opened MentionScan
  import opened MessageModel
  import opened Store
  import opened MessageService
  import opened Http

  /** A JSON value as it arrives in `req.body`; a missing field is
      `JUndefined`. Numbers are integers here. */
  datatype JsonValue =
    | JUndefined
    | JNull
    | JBool(b: bool)
    | JNumber(n: int)
    | JString(s: string)
    | JArray(items: seq<JsonValue>)
    | JObject

  /** JavaScript truthiness: `!v` is `!Truthy(v)`. */
  predicate Truthy(v: JsonValue) {
    match v
    case JUndefined => false
    case JNull => false
    case JBool(b) => b
    case JNumber(n) => n != 0
    case JString(s) => s != ""
    case JArray(_) => true
    case JObject => true
  }

  /** The guard `!content || typeof content !== "string"`: the content to
      send, or `None` when the request is refused. */
  function ContentGuard(content: JsonValue): Option<string> {
    if !Truthy(content) || !content.JString? then None else Some(content.s)
  }

  /** The guard lets through exactly the non-empty strings, unchanged; a
      string of blanks is not empty and passes. */
  lemma ContentGuardSpec(content: JsonValue)
    ensures ContentGuard(content).Some? <==> content.JString? && content.s != ""
    ensures ContentGuard(content).Some? ==> ContentGuard(content).value == content.s
    ensures ContentGuard(JString(" ")) == Some(" ")
  {
  }

  const ContentRequiredReply := "Message content is required"

  /** `sendMessageController`: a refused body is answered 400 and stores
      nothing; otherwise the service runs, and its message is answered 201. */
  method SendMessageController(db: Database, user: UserId, workspace: WorkspaceId,
                               content: JsonValue, now: nat) returns (res: Response)
    requires db.Valid()
    modifies db
    ensures db.Valid()
    ensures ContentGuard(content).None? ==>
      res == Json(400, ContentRequiredReply, NoData) && unchanged(db)
    ensures ContentGuard(content).Some? ==>
      var text := ContentGuard(content).value;
      var outcome := SendOutcome(old(db.members), |old(db.messages)|, user, workspace, text);
      && (outcome.Err? ==> res == Thrown(outcome.error) && unchanged(db))
      && (outcome.Ok? ==>
            && res == Json(201, "Message sent", OneMessage(Sent(user, workspace, text, now)))
            && db.members == old(db.members)
            && db.messages == old(db.messages) + [Sent(user, workspace, text, now)]
            && db.notifications == old(db.notifications)
                 + FanOut(old(db.members), |old(db.messages)|, Sent(user, workspace, text, now), now))
  {
    var guard := ContentGuard(content);
    if guard.None? {
      return Json(400, ContentRequiredReply, NoData);
    }
    var r := SendMessage(db, user, workspace, guard.value, now);
    if r.Err? {
      return Thrown(r.error);
    }
    return Json(201, "Message sent", OneMessage(db.messages[r.value]));
  }

  /** `getWorkspaceMessagesController`: 200 with the messages the caller may
      see, oldest first, or the service's refusal. */
  function GetWorkspaceMessagesController(members: seq<Member>, messages: seq<Message>,
                                          user: UserId, workspace: WorkspaceId): (res: Response)
    ensures res.Thrown? <==> !IsMember(members, user, workspace)
    ensures res.Thrown? ==> res.exception == NotMember
    ensures IsMember(members, user, workspace) ==>
      && res.Json? && res.status == 200 && res.message == "Messages fetched" && res.data.Messages?
      && SortedBy(res.data.messages, CreatedAt)
      && (forall m :: m in res.data.messages <==>
                        m in messages && m.workspace == workspace && Visible(m, user))
      && (forall m :: multiset(res.data.messages)[m] ==
                        if m.workspace == workspace && Visible(m, user) then multiset(messages)[m] else 0)
  {
    match ListMessages(members, messages, user, workspace)
    case Err(e) => Thrown(e)
    case Ok(shown) => Json(200, "Messages fetched", Messages(shown))
  }
}
