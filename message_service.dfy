/** The message service (backend/src/services/message.service.ts): sending a
    message with its mention scan and notification fan-out, listing the
    messages a member may see, and the sender-only edit and soft delete. */
module MessageService {
  import opened Common
  import opened Seqs
  import opened MentionScan
  import opened MessageModel
  import opened NotificationModel
  import opened Store

  const NotMember := Unauthorized("You are not a member of this workspace")
  const MessageNotFound := NotFound("Message not found")
  const NotOwnEdit := Unauthorized("You can only edit your own messages")
  const NotOwnDelete := Unauthorized("You can only delete your own messages")

  /** The listing order key. */
  function CreatedAt(m: Message): int {
    m.createdAt
  }

  /** The listing filter: a message without mentions is public; one with
      mentions is shown to its sender and to the users it mentions. */
  predicate Visible(m: Message, reader: UserId) {
    |m.mentions| == 0 || m.sender == reader || reader in m.mentions
  }

  /** `getWorkspaceMessagesService`: members only; the workspace's messages
      (deleted ones included) oldest first, those hidden from `reader`
      removed. */
  function ListMessages(members: seq<Member>, messages: seq<Message>,
                        reader: UserId, workspace: WorkspaceId): (r: Result<seq<Message>>)
    ensures r.Err? <==> !IsMember(members, reader, workspace)
    ensures r.Err? ==> r.error == NotMember
    ensures r.Ok? ==> SortedBy(r.value, CreatedAt)
    ensures r.Ok? ==> forall m :: m in r.value <==>
                                  m in messages && m.workspace == workspace && Visible(m, reader)
    ensures r.Ok? ==> forall m :: multiset(r.value)[m] ==
                                  if m.workspace == workspace && Visible(m, reader) then multiset(messages)[m] else 0
  {
    if !IsMember(members, reader, workspace) then Err(NotMember)
    else
      var inWorkspace := Filter(messages, (m: Message) => m.workspace == workspace);
      var sorted := SortBy(inWorkspace, CreatedAt);
      var shown := Filter(sorted, (m: Message) => Visible(m, reader));
      FilterKeepsOrder(sorted, (m: Message) => Visible(m, reader), CreatedAt);
      SameElements(sorted, inWorkspace);
      Ok(shown)
  }

  /** A mentioned user, the sender and, for a message without mentions,
      every member sees it; a user neither mentioned nor sending does not
      see a message with mentions. */
  lemma VisibleCases(m: Message, reader: UserId)
    ensures |m.mentions| == 0 ==> Visible(m, reader)
    ensures m.sender == reader ==> Visible(m, reader)
    ensures |m.mentions| > 0 && m.sender != reader ==> (Visible(m, reader) <==> reader in m.mentions)
  {
  }

  // ---------------------------------------------------------------- send

  /** The message `sendMessageService` stores for `content`. */
  function Sent(user: UserId, workspace: WorkspaceId, content: string, now: nat): Message {
    NewMessage(user, workspace, content, Mentions(content, user), now)
  }

  /** One "mention" notification per mentioned id, in mention order. */
  function MentionNotes(ids: seq<UserId>, workspace: WorkspaceId, message: nat, now: nat): seq<Notification> {
    seq(|ids|, k requires 0 <= k < |ids| => NewNotification(ids[k], workspace, message, Mention, now))
  }

  /** One "general" notification per listed member other than the sender,
      in member order. */
  function GeneralNotes(users: seq<UserId>, sender: UserId, workspace: WorkspaceId,
                        message: nat, now: nat): seq<Notification>
  {
    if users == [] then []
    else
      var last := users[|users| - 1];
      GeneralNotes(users[..|users| - 1], sender, workspace, message, now)
        + (if last != sender then [NewNotification(last, workspace, message, General, now)] else [])
  }

  /** The notifications `sendMessageService` creates for the message it
      stored at position `id`. */
  function FanOut(members: seq<Member>, id: nat, m: Message, now: nat): seq<Notification> {
    if |m.mentions| > 0 then MentionNotes(m.mentions, m.workspace, id, now)
    else GeneralNotes(WorkspaceMembers(members, m.workspace), m.sender, m.workspace, id, now)
  }

  /** The recipients of a run of notifications, in order. */
  function Recipients(ns: seq<Notification>): (r: seq<UserId>)
    ensures |r| == |ns| && forall k :: 0 <= k < |ns| ==> r[k] == ns[k].recipient
  {
    seq(|ns|, k requires 0 <= k < |ns| => ns[k].recipient)
  }

  /** General notes go to exactly the listed users other than the sender,
      each unread, about `message`, in `workspace`, stamped `now`. */
  lemma {:induction false} GeneralNotesSpec(users: seq<UserId>, sender: UserId,
                                            workspace: WorkspaceId, message: nat, now: nat)
    ensures var ns := GeneralNotes(users, sender, workspace, message, now);
      && |ns| <= |users|
      && (forall u :: u in Recipients(ns) <==> u in users && u != sender)
      && (forall n :: n in ns ==> n == NewNotification(n.recipient, workspace, message, General, now))
      && (NoDuplicates(users) ==> NoDuplicates(Recipients(ns)))
  {
    if users != [] {
      var init, last := users[..|users| - 1], users[|users| - 1];
      assert users == init + [last];
      GeneralNotesSpec(init, sender, workspace, message, now);
      var front := GeneralNotes(init, sender, workspace, message, now);
      var tail := if last != sender then [NewNotification(last, workspace, message, General, now)] else [];
      var ns := front + tail;
      assert Recipients(tail) == if last != sender then [last] else [];
      assert Recipients(ns) == Recipients(front) + Recipients(tail);
      forall u ensures u in Recipients(ns) <==> u in users && u != sender {
        assert u in users <==> u in init || u == last;
      }
      if NoDuplicates(users) {
        assert NoDuplicates(init) by {
          forall i, j | 0 <= i < j < |init| ensures init[i] != init[j] {
            assert init[i] == users[i] && init[j] == users[j];
          }
        }
        assert last !in init by {
          forall i | 0 <= i < |init| ensures init[i] != last {
            assert init[i] == users[i];
          }
        }
        var rs := Recipients(ns);
        forall i, j | 0 <= i < j < |rs| ensures rs[i] != rs[j] {
          if j >= |front| {
            assert rs[j] == last && rs[i] in Recipients(front);
          }
        }
      }
    }
  }

  /** What the fan-out creates: "mention" notifications to exactly the
      mentioned users, once each in mention order, when there are mentions;
      otherwise "general" notifications to exactly the workspace's members
      other than the sender, once each when no membership record is stored
      twice. Every one is unread, about the new message, in
      its workspace and stamped with its creation time. */
  lemma FanOutSpec(members: seq<Member>, id: nat, m: Message, now: nat)
    ensures var ns := FanOut(members, id, m, now);
      && (forall n :: n in ns ==> !n.read && n.message == id && n.workspace == m.workspace && n.createdAt == now)
      && (forall n :: n in ns ==> n.kind == (if |m.mentions| > 0 then Mention else General))
      && (|m.mentions| > 0 ==> Recipients(ns) == m.mentions)
      && (|m.mentions| == 0 ==>
            forall u :: u in Recipients(ns) <==> IsMember(members, u, m.workspace) && u != m.sender)
      && (|m.mentions| == 0 && NoDuplicates(members) ==>
            forall u :: multiset(Recipients(ns))[u] ==
                          if IsMember(members, u, m.workspace) && u != m.sender then 1 else 0)
  {
    if |m.mentions| == 0 {
      GeneralNotesSpec(WorkspaceMembers(members, m.workspace), m.sender, m.workspace, id, now);
      if NoDuplicates(members) {
        WorkspaceMembersDistinct(members, m.workspace);
        var rs := Recipients(FanOut(members, id, m, now));
        forall u ensures multiset(rs)[u] == if IsMember(members, u, m.workspace) && u != m.sender then 1 else 0 {
          NoDuplicatesCount(rs, u);
        }
      }
    }
  }

  /** The sender of a message is never notified about it; each mentioned
      user, or for a message without mentions each other member, receives
      exactly one notification; and the message has no
      mentions (so goes to every other member) exactly when every id it
      captures is the sender's own. */
  lemma SentFanOut(members: seq<Member>, id: nat, user: UserId, workspace: WorkspaceId,
                   content: string, now: nat)
    ensures var m := Sent(user, workspace, content, now);
      var rs := Recipients(FanOut(members, id, m, now));
      && user !in rs
      && (|m.mentions| > 0 ==> forall u :: multiset(rs)[u] == if u in m.mentions then 1 else 0)
      && (|m.mentions| == 0 && NoDuplicates(members) ==>
            forall u :: multiset(rs)[u] == if IsMember(members, u, workspace) && u != user then 1 else 0)
      && (|m.mentions| == 0 <==>
            forall k :: 0 <= k < |ScannedIds(content)| ==> ScannedIds(content)[k] == user)
  {
    var m := Sent(user, workspace, content, now);
    AddNewSpec([], ScannedIds(content), user);
    NoMentionsIff(content, user);
    FanOutSpec(members, id, m, now);
    var rs := Recipients(FanOut(members, id, m, now));
    if |m.mentions| > 0 {
      forall u ensures multiset(rs)[u] == if u in m.mentions then 1 else 0 {
        NoDuplicatesCount(m.mentions, u);
      }
    }
  }

  /** The outcome of `sendMessageService`, in the order of its checks: the
      sender must be a member, and the stored document must satisfy its
      schema; the new message's `_id` is the next free position. */
  function SendOutcome(members: seq<Member>, count: nat, user: UserId,
                       workspace: WorkspaceId, content: string): (r: Result<nat>)
    ensures r.Ok? <==> IsMember(members, user, workspace) && content != ""
    ensures !IsMember(members, user, workspace) ==> r == Err(NotMember)
    ensures IsMember(members, user, workspace) && content == "" ==> r == Err(ContentMissing)
    ensures r.Ok? ==> r.value == count
  {
    if !IsMember(members, user, workspace) then Err(NotMember)
    else if content == "" then Err(ContentMissing)
    else Ok(count)
  }

  /** The message stored at position `id` belongs to `workspace`. */
  ghost predicate StoredIn(db: Database, id: nat, workspace: WorkspaceId)
    reads db
  {
    id < |db.messages| && db.messages[id].workspace == workspace
  }

  /** The first notification loop of `sendMessageService`: one "mention"
      notification per mentioned id. */
  method NotifyMentioned(db: Database, mentionedUserIds: seq<UserId>, workspace: WorkspaceId,
                         id: nat, now: nat)
    requires db.Valid() && StoredIn(db, id, workspace)
    modifies db
    ensures db.Valid()
    ensures db.members == old(db.members) && db.messages == old(db.messages)
    ensures db.notifications == old(db.notifications) + MentionNotes(mentionedUserIds, workspace, id, now)
  {
    for k := 0 to |mentionedUserIds|
      invariant db.members == old(db.members) && db.messages == old(db.messages)
      invariant db.notifications == old(db.notifications) + MentionNotes(mentionedUserIds[..k], workspace, id, now)
      invariant db.Valid()
    {
      assert MentionNotes(mentionedUserIds[..k + 1], workspace, id, now)
          == MentionNotes(mentionedUserIds[..k], workspace, id, now)
             + [NewNotification(mentionedUserIds[k], workspace, id, Mention, now)];
      db.notifications := db.notifications
        + [NewNotification(mentionedUserIds[k], workspace, id, Mention, now)];
    }
    assert mentionedUserIds[..|mentionedUserIds|] == mentionedUserIds;
  }

  /** The second notification loop of `sendMessageService`: one "general"
      notification per workspace member other than the sender. */
  method NotifyWorkspace(db: Database, user: UserId, workspace: WorkspaceId, id: nat, now: nat)
    requires db.Valid() && StoredIn(db, id, workspace)
    modifies db
    ensures db.Valid()
    ensures db.members == old(db.members) && db.messages == old(db.messages)
    ensures db.notifications == old(db.notifications)
      + GeneralNotes(WorkspaceMembers(db.members, workspace), user, workspace, id, now)
  {
    var members := WorkspaceMembers(db.members, workspace);
    for k := 0 to |members|
      invariant db.members == old(db.members) && db.messages == old(db.messages)
      invariant db.notifications == old(db.notifications) + GeneralNotes(members[..k], user, workspace, id, now)
      invariant db.Valid()
    {
      assert members[..k + 1][..k] == members[..k];
      if members[k] != user {
        db.notifications := db.notifications
          + [NewNotification(members[k], workspace, id, General, now)];
      }
    }
    assert members[..|members|] == members;
  }

  /** `sendMessageService`: checks membership, scans the mentions, creates
      the message, then creates its notifications one at a time. */
  method SendMessage(db: Database, user: UserId, workspace: WorkspaceId, content: string, now: nat)
    returns (r: Result<nat>)
    requires db.Valid()
    modifies db
    ensures db.Valid()
    ensures db.members == old(db.members)
    ensures r == SendOutcome(old(db.members), |old(db.messages)|, user, workspace, content)
    ensures r.Err? ==> unchanged(db)
    ensures r.Ok? ==>
      && db.messages == old(db.messages) + [Sent(user, workspace, content, now)]
      && db.notifications == old(db.notifications)
           + FanOut(db.members, r.value, Sent(user, workspace, content, now), now)
  {
    if !IsMember(db.members, user, workspace) {
      return Err(NotMember);
    }
    var mentionedUserIds := ExtractMentions(content, user);
    var message := NewMessage(user, workspace, content, mentionedUserIds, now);
    var saved := Save(message);
    if saved.Err? {
      return Err(saved.error);
    }
    var id := |db.messages|;
    db.messages := db.messages + [message];
    if |mentionedUserIds| > 0 {
      NotifyMentioned(db, mentionedUserIds, workspace, id, now);
    } else {
      NotifyWorkspace(db, user, workspace, id, now);
    }
    return Ok(id);
  }

  // ---------------------------------------------------------------- edit and delete

  /** The checks `editMessageService` and `deleteMessageService` share, in
      their order: membership, then a message with this `_id` in this
      workspace, then ownership (`notOwner` is the operation's own error). */
  function Authorize(members: seq<Member>, messages: seq<Message>, user: UserId,
                     workspace: WorkspaceId, id: nat, notOwner: Error): (r: Result<nat>)
    ensures r.Ok? <==>
      IsMember(members, user, workspace) && id < |messages|
      && messages[id].workspace == workspace && messages[id].sender == user
    ensures r.Ok? ==> r.value == id
    ensures !IsMember(members, user, workspace) ==> r == Err(NotMember)
    ensures IsMember(members, user, workspace) && !(id < |messages| && messages[id].workspace == workspace)
      ==> r == Err(MessageNotFound)
    ensures IsMember(members, user, workspace) && id < |messages| && messages[id].workspace == workspace
              && messages[id].sender != user
      ==> r == Err(notOwner)
  {
    if !IsMember(members, user, workspace) then Err(NotMember)
    else if !(id < |messages| && messages[id].workspace == workspace) then Err(MessageNotFound)
    else if messages[id].sender != user then Err(notOwner)
    else Ok(id)
  }

  /** `editMessageService`: after the shared checks, the stored message gets
      the new content and the `edited` flag and is saved. A deleted message
      is edited like any other, and its mentions are not re-scanned. */
  method EditMessage(db: Database, user: UserId, workspace: WorkspaceId, id: nat, newContent: string)
    returns (r: Result<Message>)
    requires db.Valid()
    modifies db
    ensures db.Valid()
    ensures db.members == old(db.members) && db.notifications == old(db.notifications)
    ensures var a := Authorize(old(db.members), old(db.messages), user, workspace, id, NotOwnEdit);
      && (a.Err? ==> r == Err(a.error))
      && (a.Ok? ==> r == Save(Edited(old(db.messages)[id], newContent)))
    ensures r.Ok? ==> id < |old(db.messages)| && db.messages == old(db.messages)[id := r.value]
    ensures r.Err? ==> db.messages == old(db.messages)
  {
    var a := Authorize(db.members, db.messages, user, workspace, id, NotOwnEdit);
    if a.Err? {
      return Err(a.error);
    }
    var message := db.messages[id];
    message := message.(content := newContent);
    message := message.(edited := true);
    r := Save(message);
    if r.Ok? {
      db.messages := db.messages[id := message];
    }
  }

  /** `deleteMessageService`: after the shared checks, the stored message is
      flagged deleted, stamped and emptied. Deleting an already deleted
      message succeeds again and moves its deletion time. */
  method DeleteMessage(db: Database, user: UserId, workspace: WorkspaceId, id: nat, now: nat)
    returns (r: Result<Message>)
    requires db.Valid()
    modifies db
    ensures db.Valid()
    ensures db.members == old(db.members) && db.notifications == old(db.notifications)
    ensures var a := Authorize(old(db.members), old(db.messages), user, workspace, id, NotOwnDelete);
      && (a.Err? ==> r == Err(a.error) && db.messages == old(db.messages))
      && (a.Ok? ==> r == Ok(SoftDeleted(old(db.messages)[id], now))
                    && db.messages == old(db.messages)[id := r.value])
  {
    var a := Authorize(db.members, db.messages, user, workspace, id, NotOwnDelete);
    if a.Err? {
      return Err(a.error);
    }
    var message := db.messages[id];
    message := message.(deleted := true);
    message := message.(deletedAt := Some(now));
    message := message.(content := "");
    r := Save(message);
    db.messages := db.messages[id := message];
  }
}
