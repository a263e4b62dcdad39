/** The notification controller
    (backend/src/controllers/notification.controller.ts): the caller's
    notifications, newest first, and marking all of them read. The caller is
    the authenticated user, `req.user._id`. */
module NotificationController {
  import opened Common
  import opened Seqs
  import opened NotificationModel
  import opened Store
  import opened Http

  /** The key of `.sort({ createdAt: -1 })`: newest first. */
  function Newest(n: Notification): int {
    -(n.createdAt as int)
  }

  /** `NotificationModel.find({ recipient: user }).sort({ createdAt: -1 })`. */
  function UserNotifications(ns: seq<Notification>, user: UserId): (r: seq<Notification>)
    ensures forall i, j :: 0 <= i < j < |r| ==> r[i].createdAt >= r[j].createdAt
    ensures forall n :: n in r <==> n in ns && n.recipient == user
    ensures forall n :: multiset(r)[n] == if n.recipient == user then multiset(ns)[n] else 0
  {
    var mine := Filter(ns, (n: Notification) => n.recipient == user);
    var sorted := SortBy(mine, Newest);
    SameElements(sorted, mine);
    assert SortedBy(sorted, Newest);
    sorted
  }

  /** `getUserNotificationsController`: 200 with exactly the caller's
      notifications, newest first. */
  function GetUserNotificationsController(ns: seq<Notification>, user: UserId): (res: Response)
    ensures res.Json? && res.status == 200 && res.message == "Notifications fetched"
    ensures res.data.Notifications?
    ensures var r := res.data.notifications;
      && (forall n :: n in r <==> n in ns && n.recipient == user)
      && (forall n :: multiset(r)[n] == if n.recipient == user then multiset(ns)[n] else 0)
      && (forall i, j :: 0 <= i < j < |r| ==> r[i].createdAt >= r[j].createdAt)
  {
    Json(200, "Notifications fetched", Notifications(UserNotifications(ns, user)))
  }

  /** Whether `updateMany({ recipient: user, read: false }, ...)` selects `n`. */
  predicate Selected(n: Notification, user: UserId) {
    n.recipient == user && !n.read
  }

  /** The collection after `$set: { read: true }` on every selected record. */
  function MarkedRead(ns: seq<Notification>, user: UserId): seq<Notification> {
    seq(|ns|, i requires 0 <= i < |ns| => if Selected(ns[i], user) then ns[i].(read := true) else ns[i])
  }

  /** After marking, the caller has no unread notification left; every other
      user's notifications are untouched; and of the caller's, only the
      `read` flag may have changed. */
  lemma MarkedReadSpec(ns: seq<Notification>, user: UserId)
    ensures var r := MarkedRead(ns, user);
      && |r| == |ns|
      && (forall i :: 0 <= i < |r| && r[i].recipient == user ==> r[i].read)
      && (forall i :: 0 <= i < |r| && ns[i].recipient != user ==> r[i] == ns[i])
      && (forall i :: 0 <= i < |r| ==> r[i].(read := ns[i].read) == ns[i])
  {
  }

  /** Marking twice is marking once. */
  lemma MarkedReadIdempotent(ns: seq<Notification>, user: UserId)
    ensures MarkedRead(MarkedRead(ns, user), user) == MarkedRead(ns, user)
  {
  }

  /** How many notifications of `user` in `ns` are unread. */
  function Unread(ns: seq<Notification>, user: UserId): nat {
    if ns == [] then 0
    else (if ns[0].recipient == user && !ns[0].read then 1 else 0) + Unread(ns[1..], user)
  }

  /** Marking the caller's notifications read leaves the caller nothing
      unread and every other user's unread count as it was. */
  lemma {:induction false} MarkedReadUnread(ns: seq<Notification>, user: UserId, other: UserId)
    ensures Unread(MarkedRead(ns, user), user) == 0
    ensures other != user ==> Unread(MarkedRead(ns, user), other) == Unread(ns, other)
  {
    if ns != [] {
      MarkedReadUnread(ns[1..], user, other);
      assert MarkedRead(ns, user)[1..] == MarkedRead(ns[1..], user);
    }
  }

  /** `markAllNotificationsReadController`: the bulk update, applied record by
      record, then 200. */
  method MarkAllNotificationsReadController(db: Database, user: UserId) returns (res: Response)
    requires db.Valid()
    modifies db
    ensures db.Valid()
    ensures db.members == old(db.members) && db.messages == old(db.messages)
    ensures db.notifications == MarkedRead(old(db.notifications), user)
    ensures res == Json(200, "All notifications marked as read", NoData)
  {
    ghost var before := db.notifications;
    for i := 0 to |db.notifications|
      invariant db.members == old(db.members) && db.messages == old(db.messages)
      invariant |db.notifications| == |before|
      invariant forall k :: 0 <= k < i ==> db.notifications[k] == MarkedRead(before, user)[k]
      invariant forall k :: i <= k < |before| ==> db.notifications[k] == before[k]
      invariant db.Valid()
    {
      if Selected(db.notifications[i], user) {
        db.notifications := db.notifications[i := db.notifications[i].(read := true)];
      }
    }
    return Json(200, "All notifications marked as read", NoData);
  }
}
