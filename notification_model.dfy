/** The `Notification` document of the backend
    (backend/src/models/notification.model.ts): who is told about which
    message, of which kind, whether it has been read, and the expiry index
    that removes it thirty days after it was created. */
module NotificationModel {
  import opened Common

  /** The schema's enum `["mention", "general"]` for the `type` field. */
  datatype Kind = Mention | General

  /** A stored notification. `message` is the position of the message it is
      about in the message collection; times are seconds on the server clock. */
  datatype Notification = Notification(
    recipient: UserId,
    workspace: WorkspaceId,
    message: nat,
    kind: Kind,
    read: bool,
    createdAt: nat)

  /** The string stored in the `type` field. */
  function KindName(k: Kind): string {
    match k
    case Mention => "mention"
    case General => "general"
  }

  /** The enum validator: the kind a stored `type` string names, if any. */
  function ParseKind(s: string): (r: Option<Kind>)
    ensures r.Some? <==> s == "mention" || s == "general"
  {
    if s == "mention" then Some(Mention)
    else if s == "general" then Some(General)
    else None
  }

  /** Every kind is stored under a name the validator accepts and reads back. */
  lemma KindNameRoundTrip(k: Kind)
    ensures ParseKind(KindName(k)) == Some(k)
  {
  }

  /** Every string the validator accepts is the stored name of its kind. */
  lemma ParseKindRoundTrip(s: string)
    requires ParseKind(s).Some?
    ensures KindName(ParseKind(s).value) == s
  {
  }

  /** `expireAfterSeconds` of the index on `createdAt`: thirty days. */
  const TtlSeconds: nat := 60 * 60 * 24 * 30

  /** A notification the expiry index has made eligible for removal. */
  predicate Expired(n: Notification, now: nat) {
    n.createdAt + TtlSeconds <= now
  }

  /** The notification the message service creates: unread, stamped now. */
  function NewNotification(recipient: UserId, workspace: WorkspaceId, message: nat,
                           kind: Kind, now: nat): Notification
  {
    Notification(recipient, workspace, message, kind, false, now)
  }

  /** A notification stays for thirty days (2592000 seconds) and, once
      expired, stays expired. */
  lemma ExpiryWindow(n: Notification, now: nat, later: nat)
    requires now <= later
    ensures TtlSeconds == 2592000
    ensures now < n.createdAt + 2592000 <==> !Expired(n, now)
    ensures Expired(n, now) ==> Expired(n, later)
  {
  }
}
