/** The `Message` document of the backend (backend/src/models/message.model.ts):
    its fields, the defaults the schema fills in, the schema's one validation
    rule, and the two in-place updates the message service applies to a
    stored message. */
module MessageModel {
  import opened Common

  /** A stored message. Its `_id` is its position in the message collection;
      times are seconds on the server clock. */
  datatype Message = Message(
    sender: UserId,
    workspace: WorkspaceId,
    content: string,
    createdAt: nat,
    edited: bool,
    deleted: bool,
    deletedAt: Option<nat>,
    mentions: seq<UserId>)

  /** `content` is required exactly while the message is not deleted. */
  predicate ContentRequired(m: Message) {
    !m.deleted
  }

  /** The schema's validation: a required string must be present and non-empty. */
  predicate SchemaValid(m: Message) {
    ContentRequired(m) ==> m.content != ""
  }

  /** The error a document store raises when `content` is required but empty. */
  const ContentMissing := ValidationFailed("Path `content` is required.")

  /** The document `MessageModel.create` builds: `edited` and `deleted`
      default to false, `deletedAt` is absent and `createdAt` is stamped with
      the creation time. */
  function NewMessage(sender: UserId, workspace: WorkspaceId, content: string,
                      mentions: seq<UserId>, now: nat): Message
  {
    Message(sender, workspace, content, now, false, false, None, mentions)
  }

  /** Saving a document: it is stored as it is when it satisfies the schema
      and refused with a validation error otherwise. */
  function Save(m: Message): (r: Result<Message>)
    ensures r.Ok? <==> SchemaValid(m)
    ensures r.Ok? ==> r.value == m
    ensures r.Err? ==> r.error == ContentMissing
  {
    if SchemaValid(m) then Ok(m) else Err(ContentMissing)
  }

  /** The edit of `editMessageService`: new content, `edited` set. Neither
      `deleted` nor `mentions` is looked at. */
  function Edited(m: Message, newContent: string): Message {
    m.(content := newContent, edited := true)
  }

  /** The soft delete of `deleteMessageService`: flagged deleted, stamped with
      the deletion time, content emptied. */
  function SoftDeleted(m: Message, now: nat): Message {
    m.(deleted := true, deletedAt := Some(now), content := "")
  }

  /** A freshly created message is accepted exactly when its content is
      non-empty, and it starts neither edited nor deleted. */
  lemma NewMessageValid(sender: UserId, workspace: WorkspaceId, content: string,
                        mentions: seq<UserId>, now: nat)
    ensures var m := NewMessage(sender, workspace, content, mentions, now);
      && (Save(m).Ok? <==> content != "")
      && !m.edited && !m.deleted && m.deletedAt.None? && m.createdAt == now
  {
  }

  /** An edit changes the content and the `edited` flag and nothing else,
      and is accepted exactly when the message is deleted or the new content
      is non-empty. */
  lemma EditedSpec(m: Message, newContent: string)
    ensures var e := Edited(m, newContent);
      && e.content == newContent && e.edited
      && e.sender == m.sender && e.workspace == m.workspace && e.createdAt == m.createdAt
      && e.deleted == m.deleted && e.deletedAt == m.deletedAt && e.mentions == m.mentions
      && (SchemaValid(e) <==> m.deleted || newContent != "")
  {
  }

  /** A soft delete is always accepted, keeps who sent the message where,
      and leaves no content behind. */
  lemma SoftDeletedSpec(m: Message, now: nat)
    ensures var d := SoftDeleted(m, now);
      && SchemaValid(d) && d.deleted && d.content == "" && d.deletedAt == Some(now)
      && d.sender == m.sender && d.workspace == m.workspace && d.createdAt == m.createdAt
      && d.edited == m.edited && d.mentions == m.mentions
  {
  }

  /** Deleting a deleted message again changes only its deletion time. */
  lemma DeleteAgain(m: Message, first: nat, second: nat)
    ensures SoftDeleted(SoftDeleted(m, first), second) == SoftDeleted(m, second)
  {
  }

  /** Editing a deleted message gives it content again while it stays
      deleted: `deleted ==> content == ""` is not kept by the service. */
  lemma EditAfterDelete(m: Message, now: nat, newContent: string)
    ensures var e := Edited(SoftDeleted(m, now), newContent);
      && e.deleted && e.content == newContent && SchemaValid(e)
  {
  }
}
