# Workspace messaging, notifications and sessions of Project-Master

This Dafny project models the backend core of Project-Master's workspace chat:

- sending a message, with the `@[Name](userId)` mention scan and the notification fan-out it triggers;
- listing the messages a member may see;
- the sender-only edit and soft delete;
- the notification inbox and its "mark all read";
- the session checks that guard every route.

It proves properties of the model.

Modules, and what they model:

| module | models |
|---|---|
| `MentionScan` | from `sendMessageService`: the global pattern `/@\[[^\]]+\]\(([^)]+)\)/g`, its `exec` loop, and the de-duplicated mention list it builds |
| `MessageModel` | the `Message` schema, its defaults and its one validation rule, and the edit and soft-delete updates |
| `NotificationModel` | the `Notification` schema, the `type` enum and the thirty-day expiry index |
| `Store` | the membership, message and notification collections the services read and write, as a `Database` object whose fields they update |
| `MessageService` | the rest of `sendMessageService`, and `getWorkspaceMessagesService`, `editMessageService` and `deleteMessageService` |
| `MessageController`, `NotificationController` | the two controllers' request guards and replies |
| `SessionManager` | `validateSession`, `extendSession`, `clearSession`, `getSessionInfo` and `handleSessionError` |
| `Common`, `Seqs`, `Http` | ids and errors, the store's `find` and `sort`, and replies |

Modelling decisions:

- **Ids.** User and workspace ids are strings, because the source compares them with `String(...)`. A message's `_id` is its position in the message collection. A notification refers to its message by that position.
- **Time.** Time is a parameter `now`, in seconds.
- **Error paths.** Service errors are `Result` values: `Unauthorized`, `NotFound`, and `ValidationFailed` for the schema's refusal. A controller hands a service error to the framework as `Thrown`.
- **In-place updates.** The service and the bulk update change the `Database` object in place, with methods that state the whole new state.
- **Pure parts.** The listing, the schema rules and the controllers' answers are functions.
- **The mention scan.** One attempt of the pattern at position `i` is `MatchAt`. One `exec` from `lastIndex` is `NextHit`, which finds the leftmost match. The whole loop is `ScanMentions`. The model proves three things:
  - every reported match is a genuine occurrence;
  - the visited matches do not overlap, and every occurrence lies within one of them;
  - the imperative loop computes `Mentions(content, sender)`: each captured id once, in first-occurrence order, never the sender's.

Behaviour of the code that its comments and its users might not expect, which the model follows as written:

- **Self-mentions.** Mentioning only yourself leaves `mentions` empty. The message is therefore public, and every other member gets a "general" notification (`SentFanOut`).
- **Editing a deleted message.** An edit does not look at `deleted`. Editing a deleted message gives it content again while it stays deleted (`EditAfterDelete`). Mentions are never re-scanned after an edit.
- **Deleting twice.** Deleting an already deleted message succeeds again and moves `deletedAt` (`DeleteAgain`).
- **Listing.** The listing includes deleted messages.
- **Empty content.** The send controller refuses empty content with 400. The service on its own would pass `""` to `create`, and the schema refuses it. That refusal is the `ValidationFailed` path of `SendOutcome`.
- **Destroying a session.** Destroying a session detaches it from the request whether or not the store's destroy fails, as the session middleware's `destroy` does. Only the settled promise reports the failure.

## Model

| member | source | states |
|---|---|---|
| MentionScan.MatchAt | backend/src/services/message.service.ts:14 | a match reported at `i` is a genuine `@[name](id)` occurrence starting at `i`, and when none is reported no occurrence starts at `i` |
| MentionScan.HitUnique | backend/src/services/message.service.ts:14 | at most one occurrence starts at a position: the name ends at the first `]` and the id at the first `)` |
| MentionScan.NextHit | backend/src/services/message.service.ts:17 | one `exec` from `lastIndex` reports a match of the pattern that starts at or after `lastIndex` |
| MentionScan.NextHitLeftmost | backend/src/services/message.service.ts:17 | `exec` reports the leftmost match: no match starts between `lastIndex` and it, or after `lastIndex` at all when it reports none |
| MentionScan.Hits | backend/src/services/message.service.ts:17 | every match the loop visits is a match of the pattern, at or after where the loop started, inside the text |
| MentionScan.HitsOrdered | backend/src/services/message.service.ts:17 | the visited matches come left to right, and each ends before the next begins |
| MentionScan.HitsCover | backend/src/services/message.service.ts:17 | every match starting at or after the loop's start lies within a visited match |
| MentionScan.ScannedHits | backend/src/services/message.service.ts:14-17 | every match the scan of `content` visits is a genuine occurrence of the pattern |
| MentionScan.ScannedHitsComplete | backend/src/services/message.service.ts:14-17 | the scan of `content` visits matches left to right, and every occurrence in `content` lies within a visited one |
| MentionScan.CapturedIdsOfHits | backend/src/services/message.service.ts:18 | the ids the loop captures are, one per visited match and in order, the texts of its capture group |
| MentionScan.ScannedIds | backend/src/services/message.service.ts:18 | each captured id is the group text of the corresponding match, is non-empty and contains no `)` |
| MentionScan.AddNewSpec | backend/src/services/message.service.ts:18-20 | the pushes keep what was collected and add each scanned id other than the sender's exactly once, in first-occurrence order; nothing else is added |
| MentionScan.CapturedIdsStep | backend/src/services/message.service.ts:17-20 | one turn of the `exec` loop pushes the id of the match found and resumes after its closing `)` |
| MentionScan.ScanMentions | backend/src/services/message.service.ts:15-21 | the `while ((match = exec(content)) !== null)` loop collects exactly the accumulated mention list of the captured ids |
| MentionScan.ExtractMentions | backend/src/services/message.service.ts:13-21 | the mention list has no duplicates and never the sender; an id is in it iff it is captured and is not the sender's; ids are ordered by first occurrence |
| MentionScan.NoMentionsIff | backend/src/services/message.service.ts:18-25 | a message mentions nobody iff every id it captures is the sender's own, including when it captures none |
| Seqs.Filter | backend/src/services/message.service.ts:65-70 | selection keeps exactly the records that satisfy the condition, each as often as stored |
| Seqs.FilterKeepsOrder | backend/src/services/message.service.ts:63-70 | filtering a list sorted by `createdAt` leaves it sorted |
| Seqs.SortBy | backend/src/services/message.service.ts:63 | `.sort({ createdAt: 1 })` returns the same records, ordered by the key |
| Store.WorkspaceMembers | backend/src/services/message.service.ts:37 | `MemberModel.find({ workspaceId })` lists exactly the users with a membership record for the workspace |
| Store.WorkspaceMembersDistinct | backend/src/services/message.service.ts:37 | when no membership record is stored twice, `find` lists each member of the workspace once |
| MessageModel.Save | backend/src/models/message.model.ts:18-23 | a save succeeds, storing the document unchanged, iff its content is non-empty or it is deleted; otherwise it fails with a validation error |
| MessageModel.NewMessageValid | backend/src/models/message.model.ts:16-31 | a new message starts neither edited nor deleted, with no `deletedAt` and `createdAt` stamped now; it is accepted iff its content is non-empty |
| MessageModel.EditedSpec | backend/src/services/message.service.ts:87-89 | an edit changes only the content and the `edited` flag; the result saves iff the message is deleted or the new content is non-empty |
| MessageModel.SoftDeletedSpec | backend/src/services/message.service.ts:106-109 | a soft delete always saves; it sets `deleted` and `deletedAt` and empties the content, keeping every other field |
| MessageModel.DeleteAgain | backend/src/services/message.service.ts:106-109 | deleting a deleted message again changes only `deletedAt` |
| MessageModel.EditAfterDelete | backend/src/services/message.service.ts:84-89 | an edit after a delete saves, and leaves a deleted message with content |
| NotificationModel.ParseKind | backend/src/models/notification.model.ts:17 | the `type` enum accepts exactly "mention" and "general" |
| NotificationModel.KindNameRoundTrip | backend/src/models/notification.model.ts:17 | every kind is stored under a name the enum accepts and reads back as that kind |
| NotificationModel.ParseKindRoundTrip | backend/src/models/notification.model.ts:17 | every accepted `type` string is the stored name of the kind it is read as |
| NotificationModel.ExpiryWindow | backend/src/models/notification.model.ts:26 | the expiry is 60*60*24*30 = 2592000 seconds; a notification is live before that age and stays expired after it |
| MessageService.ListMessages | backend/src/services/message.service.ts:55-72 | a non-member is refused; a member gets the workspace's messages, deleted ones included, oldest first, each as often as stored, exactly those visible to them |
| MessageService.VisibleCases | backend/src/services/message.service.ts:64-70 | a message without mentions is shown to everyone, and one with mentions only to its sender and the users it mentions |
| MessageService.GeneralNotesSpec | backend/src/services/message.service.ts:36-48 | "general" notifications go to exactly the listed members other than the sender, each unread and about the new message, with no repeats when the member list has none |
| MessageService.FanOutSpec | backend/src/services/message.service.ts:24-49 | with mentions, one "mention" notification per mentioned id, in order; otherwise "general" notifications to exactly the workspace's members other than the sender, one each when no membership record is stored twice; every one unread, about the new message, in its workspace |
| MessageService.SentFanOut | backend/src/services/message.service.ts:13-49 | the sender is never notified; each mentioned user, or without mentions each other member (no membership record stored twice), is notified exactly once; a message is broadcast iff every id it captures is the sender's |
| MessageService.SendOutcome | backend/src/services/message.service.ts:7-22 | sending fails for a non-member with "You are not a member of this workspace", fails for a member with empty content with the schema's "content is required" error, and otherwise stores the message at the next position |
| MessageService.NotifyMentioned | backend/src/services/message.service.ts:25-34 | the mention loop appends one "mention" notification per mentioned id and changes nothing else |
| MessageService.NotifyWorkspace | backend/src/services/message.service.ts:35-48 | the member loop appends one "general" notification per member other than the sender and changes nothing else |
| MessageService.SendMessage | backend/src/services/message.service.ts:7-53 | a refused send changes nothing; an accepted one appends the message with its scanned mentions and exactly its fan-out, and keeps every notification about a stored message of its workspace |
| MessageService.Authorize | backend/src/services/message.service.ts:74-86 | the checks run in order: membership (Unauthorized), then a message with this id in this workspace (NotFound), then ownership (the operation's own "You can only ... your own messages"); they pass iff all three hold |
| MessageService.EditMessage | backend/src/services/message.service.ts:74-91 | after the checks, only the targeted message changes: new content, `edited` set, and saved when the schema accepts it; a refusal changes nothing |
| MessageService.DeleteMessage | backend/src/services/message.service.ts:93-111 | after the checks, only the targeted message changes: flagged deleted, stamped now, content emptied, even when it was already deleted |
| MessageController.ContentGuardSpec | backend/src/controllers/message.controller.ts:9-11 | the guard lets through exactly the non-empty strings, blank ones included |
| MessageController.SendMessageController | backend/src/controllers/message.controller.ts:5-14 | a refused body gets 400 "Message content is required" and stores nothing; otherwise the service runs: its refusal is thrown with nothing stored, and a stored message gets 201 "Message sent" with exactly the service's message and notifications added and the members kept |
| MessageController.GetWorkspaceMessagesController | backend/src/controllers/message.controller.ts:16-21 | a member gets 200 "Messages fetched" with the messages visible to them, each as often as stored, oldest first; a non-member gets the service's refusal |
| NotificationController.UserNotifications | backend/src/controllers/notification.controller.ts:7-9 | exactly the caller's notifications, each as often as stored, newest first |
| NotificationController.GetUserNotificationsController | backend/src/controllers/notification.controller.ts:5-11 | 200 "Notifications fetched" with exactly the caller's notifications, each as often as stored, newest first |
| NotificationController.MarkedReadSpec | backend/src/controllers/notification.controller.ts:15 | after the bulk update the caller has no unread notification, other users' notifications are untouched, and only `read` changes |
| NotificationController.MarkedReadIdempotent | backend/src/controllers/notification.controller.ts:15 | marking all read twice is the same as once |
| NotificationController.MarkedReadUnread | backend/src/controllers/notification.controller.ts:15 | the caller's unread count drops to zero and every other user's unread count is unchanged |
| NotificationController.MarkAllNotificationsReadController | backend/src/controllers/notification.controller.ts:13-17 | the stored notifications become the bulk update's result, nothing else changes, and the reply is 200 "All notifications marked as read" |
| SessionManager.ValidateSession | backend/src/utils/session-manager.ts:15-45 | `next()` gets no error iff there is a session, a user, and a non-empty `_id` and `email`; otherwise the first failing check picks the message |
| SessionManager.ValidateSessionIgnoresProfile | backend/src/utils/session-manager.ts:31-36 | validation depends on the user's `_id` and `email` only, never on the name or current workspace |
| SessionManager.Session.Touch | backend/src/utils/session-manager.ts:54 | touching restarts the cookie's lifetime at now |
| SessionManager.ExtendSession | backend/src/utils/session-manager.ts:50-61 | the session is touched iff the request has both a session and a user; nothing is reported |
| SessionManager.ClearSession | backend/src/utils/session-manager.ts:66-87 | resolves at once without a session; otherwise the session is destroyed, and the promise rejects iff the destroy fails |
| SessionManager.GetSessionInfo | backend/src/utils/session-manager.ts:92-113 | `exists: false` iff there is no session; otherwise the session's id, the cookie's expiry and its `maxAge` as the time left until that expiry, and the user's `_id` and email exactly when there is a user |
| SessionManager.HandleSessionError | backend/src/utils/session-manager.ts:118-132 | any session is destroyed, and the reply is always 500 with "Session error occurred. Please login again." and code `SESSION_ERROR` |

## Left out

- Async execution and atomicity: each service runs as one step. In the source, creating the message and each notification are separate awaited writes. A failure in the middle would leave a message with only some of its notifications.
- Database failures and the error middleware: a service exception appears as `Thrown`. The HTTP status the application's error handler picks for it is not modelled, because the error classes and handler are not part of this model.
- ObjectId casting: ids are strings and message ids are positions. A malformed id, such as a mention id that is not an ObjectId, makes the database throw a cast error. The model does not capture that error.
- Ids that differ only in letter case: the mention loop compares and de-duplicates the raw text of each id, but the database casts hex ids case-insensitively. `@[A](ABC...)` and `@[a](abc...)` therefore give two stored mentions of the same user, and a sender writing their own id in other case notifies themselves. The model treats ids as exact strings.
- `populate` of the sender (message listing) and of the message and its sender (notification listing): the model keeps the stored ids and leaves out the fetched user and message fields.
- ListMessages: does not model the listing's failure when a message's sender no longer exists. `populate` then leaves `sender` null, and reading `msg.sender._id` in the filter throws. The model compares the stored sender id instead.
- Ties in `createdAt`: the store does not fix the order of records with equal keys. The model orders them by a stable insertion sort, and only the sortedness and the permutation are stated.
- Background expiry: the database's removal of notifications older than the expiry is not modelled as a step. Only the `Expired` condition and its window are stated.
- Logging (`console.log`, `console.error`) has no effect on state and is left out.
- The `catch` branches of `validateSession`, `extendSession`, `clearSession` and `getSessionInfo`: nothing inside their `try` blocks can throw in the model, so those branches are unreachable here.
- Session cookie internals: `touch` is modelled as restarting the cookie lifetime. `req.sessionID` is taken to be the session's id.
- JavaScript numbers: the request guard treats numbers as integers, and `NaN` is left out. Any number fails the `typeof content === "string"` test either way.
- The `match[1] &&` test in the mention loop is left out, because the capture group is never empty (`ScannedIds`). The `!msg.mentions` test in the listing filter is modelled as an empty list, because the schema defaults `mentions` to `[]`.
- Duplicate membership records: if the same user is listed twice, the member loop notifies them twice. The model does this too, and `GeneralNotesSpec` states freedom from repeats only for a member list without duplicates.
- Authentication, routing, configuration and the client application are outside this core.
