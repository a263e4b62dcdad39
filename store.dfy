/** The three collections the messaging core reads and writes: workspace
    memberships, messages and notifications. A record's `_id` is its
    position in its collection. */
module Store {
  import opened Common
  import opened MessageModel
  import opened NotificationModel

  /** A `Member` record: `userId` belongs to `workspaceId`. */
  datatype Member = Member(userId: UserId, workspaceId: WorkspaceId)

  /** `MemberModel.findOne({ userId, workspaceId })` finds a record. */
  predicate IsMember(members: seq<Member>, user: UserId, workspace: WorkspaceId) {
    Member(user, workspace) in members
  }

  /** The user ids of `MemberModel.find({ workspaceId })`, in stored order. */
  function WorkspaceMembers(members: seq<Member>, workspace: WorkspaceId): (r: seq<UserId>)
    ensures |r| <= |members|
    ensures forall u :: u in r <==> IsMember(members, u, workspace)
  {
    if members == [] then []
    else
      assert members == [members[0]] + members[1..];
      (if members[0].workspaceId == workspace then [members[0].userId] else [])
        + WorkspaceMembers(members[1..], workspace)
  }

  /** When no membership record is stored twice, `find` lists each member
      of the workspace once. */
  lemma {:induction false} WorkspaceMembersDistinct(members: seq<Member>, workspace: WorkspaceId)
    requires NoDuplicates(members)
    ensures NoDuplicates(WorkspaceMembers(members, workspace))
  {
    if members != [] {
      var rest := members[1..];
      assert NoDuplicates(rest) by {
        forall i, j | 0 <= i < j < |rest| ensures rest[i] != rest[j] {
          assert rest[i] == members[i + 1] && rest[j] == members[j + 1];
        }
      }
      WorkspaceMembersDistinct(rest, workspace);
      var tail := WorkspaceMembers(rest, workspace);
      if members[0].workspaceId == workspace {
        var u := members[0].userId;
        assert members[0] !in rest by {
          forall j | 0 <= j < |rest| ensures rest[j] != members[0] {
            assert rest[j] == members[j + 1];
          }
        }
        assert u !in tail;
        var r := [u] + tail;
        forall i, j | 0 <= i < j < |r| ensures r[i] != r[j] {
          if i == 0 {
            assert r[j] == tail[j - 1];
          } else {
            assert r[i] == tail[i - 1] && r[j] == tail[j - 1];
          }
        }
      }
    }
  }

  /** The backend's database. */
  class Database {
    var members: seq<Member>
    var messages: seq<Message>
    var notifications: seq<Notification>

    /** Every stored message satisfies its schema, and every notification
        is about a stored message of its own workspace. */
    ghost predicate Valid()
      reads this
    {
      && (forall i :: 0 <= i < |messages| ==> SchemaValid(messages[i]))
      && (forall j :: 0 <= j < |notifications| ==>
            notifications[j].message < |messages| &&
            messages[notifications[j].message].workspace == notifications[j].workspace)
    }

    /** A database holding the given memberships and nothing else. */
    constructor (members: seq<Member>)
      ensures Valid()
      ensures this.members == members && messages == [] && notifications == []
    {
      this.members := members;
      messages := [];
      notifications := [];
    }
  }
}
