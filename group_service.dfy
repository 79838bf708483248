/**
 * The group service: the membership rules checked before each change to the group
 * tables, and the access rules of the read operations. A refusal is the error message
 * of the first failing check; checks run in the order of the source. Notifications,
 * uploads and user look-ups are not modelled.
 */
module GroupService {
  import opened Wrappers
  import opened GroupRepository

  const Member := "member"
  const Moderator := "moderator"

  /** The row of `u` in `g` when it is an open invitation (pending, with an inviter). */
  predicate IsInvitation(m: Member) { m.status == Pending && m.invitedBy != "" }

  /** The row of `u` in `g` when it is an open join request (pending, no inviter). */
  predicate IsJoinRequest(m: Member) { m.status == Pending && m.invitedBy == "" }

  // ---------------------------------------------------------------- guards

  /** The checks of `InviteToGroup`. */
  function InviteRefusal(rows: seq<Member>, g: string, inviter: string, invitee: string): (e: Option<string>)
    ensures e.None? <==> (IsMember(rows, g, inviter) &&
      (FirstMember(rows, g, invitee).Some? ==>
        FirstMember(rows, g, invitee).value.status != Accepted && !IsInvitation(FirstMember(rows, g, invitee).value)))
  {
    if !IsMember(rows, g, inviter) then Some("only group members can invite others")
    else match FirstMember(rows, g, invitee)
      case Some(m) =>
        if m.status == Accepted then Some("user is already a member of this group")
        else if IsInvitation(m) then Some("user already has a pending invitation")
        else None
      case None => None
  }

  /** The membership checks of `JoinGroup`: with only pending and accepted rows, any existing row refuses. */
  function JoinRefusal(rows: seq<Member>, g: string, u: string): (e: Option<string>)
    ensures KnownStatuses(rows) ==> (e.None? <==> FirstMember(rows, g, u).None?)
  {
    match FirstMember(rows, g, u)
    case None => None
    case Some(m) =>
      assert exists i :: 0 <= i < |rows| && rows[i] == m;
      if m.status == Accepted then Some("you are already a member of this group")
      else if IsJoinRequest(m) then Some("you already have a pending join request")
      else if IsInvitation(m) then Some("you have a pending invitation to this group")
      else None
  }

  /** The checks of `AcceptInvitation` and `RejectInvitation`. */
  function InvitationRefusal(rows: seq<Member>, g: string, u: string): (e: Option<string>)
    ensures e.None? <==> FirstMember(rows, g, u).Some? && IsInvitation(FirstMember(rows, g, u).value)
  {
    match FirstMember(rows, g, u)
    case None => Some("invitation not found")
    case Some(m) => if !IsInvitation(m) then Some("no pending invitation found") else None
  }

  /** The checks of `AcceptJoinRequest` and `RejectJoinRequest`. */
  function JoinRequestRefusal(rows: seq<Member>, g: string, admin: string, u: string, verb: string): (e: Option<string>)
    ensures e.None? <==> (MemberRole(rows, g, admin) == Admin &&
      FirstMember(rows, g, u).Some? && IsJoinRequest(FirstMember(rows, g, u).value))
  {
    if MemberRole(rows, g, admin) != Admin then Some("only group admins can " + verb + " join requests")
    else match FirstMember(rows, g, u)
      case None => Some("join request not found")
      case Some(m) => if !IsJoinRequest(m) then Some("no pending join request found") else None
  }

  /** The roles `UpdateMemberRole` accepts. */
  predicate ValidRole(role: string) { role == Admin || role == Moderator || role == Member }

  // ---------------------------------------------------------------- reads

  datatype GroupView = GroupView(group: Group, isMember: bool, memberStatus: string)

  /** `GetGroup`: a private group is hidden from whoever is neither an accepted member nor its creator. */
  function GetGroup(groups: map<string, Group>, rows: seq<Member>, id: string, u: string): (r: Result<GroupView>)
    ensures id !in groups ==> r.Err?
    ensures id in groups ==>
      (r.Err? <==> !groups[id].isPublic && !IsMember(rows, id, u) && groups[id].creatorId != u)
    ensures r.Ok? ==> r.value.group == groups[id] && r.value.isMember == IsMember(rows, id, u)
    ensures r.Ok? && !r.value.isMember && FirstMember(rows, id, u).Some? ==>
      r.value.memberStatus == FirstMember(rows, id, u).value.status
  {
    if id !in groups then Err("group not found")
    else
      var group := groups[id];
      var isMember := IsMember(rows, id, u);
      if !group.isPublic && !isMember && group.creatorId != u then Err("access denied: private group")
      else
        var status := if !isMember && FirstMember(rows, id, u).Some? then FirstMember(rows, id, u).value.status else "";
        Ok(GroupView(group, isMember, status))
  }

  /**
   * The rows of `g` with the given status ("" for all), newest first: rows are kept in the
   * order they were created, so `ORDER BY created_at DESC` reads them from the back.
   */
  function MembersOf(rows: seq<Member>, g: string, status: string): (r: seq<Member>)
    ensures forall m :: m in r <==> m in rows && m.groupId == g && (status == "" || m.status == status)
    ensures |r| <= |rows|
  {
    if rows == [] then []
    else
      var init := rows[..|rows| - 1];
      var last := rows[|rows| - 1];
      assert forall m :: m in rows <==> m in init || m == last;
      (if last.groupId == g && (status == "" || last.status == status) then [last] else [])
      + MembersOf(init, g, status)
  }

  /** A row created after all the others heads the list when it matches; the older rows keep their order behind it. */
  lemma {:induction false} MembersNewestFirst(rows: seq<Member>, m: Member, g: string, status: string)
    ensures MembersOf(rows + [m], g, status)
      == (if m.groupId == g && (status == "" || m.status == status) then [m] else []) + MembersOf(rows, g, status)
  {
    assert (rows + [m])[..|rows|] == rows;
  }

  /** `GetGroupMembers`: pending rows only for admins; the list, newest first, only for members. */
  function GetGroupMembers(rows: seq<Member>, g: string, u: string, status: string): (r: Result<seq<Member>>)
    ensures r.Ok? <==> IsMember(rows, g, u) && (status == Pending ==> MemberRole(rows, g, u) == Admin)
    ensures r.Ok? ==> r.value == MembersOf(rows, g, status)
    ensures status == Pending && MemberRole(rows, g, u) != Admin ==> r == Err("only group admins can view pending members")
    ensures (status != Pending || MemberRole(rows, g, u) == Admin) && !IsMember(rows, g, u) ==>
      r == Err("only group members can view the member list")
  {
    if status == Pending && MemberRole(rows, g, u) != Admin then Err("only group admins can view pending members")
    else if !IsMember(rows, g, u) then Err("only group members can view the member list")
    else Ok(MembersOf(rows, g, status))
  }

  // ---------------------------------------------------------------- membership lemmas

  /** After the status update of `AcceptInvitation` / `AcceptJoinRequest`, the user is a member. */
  lemma AcceptMakesMember(rows: seq<Member>, g: string, u: string)
    requires FirstMember(rows, g, u).Some?
    ensures IsMember(WithStatus(rows, g, u, Accepted), g, u)
  {
    var f := FirstMember(rows, g, u).value;
    var i :| 0 <= i < |rows| && rows[i] == f;
    assert WithStatus(rows, g, u, Accepted)[i] in WithStatus(rows, g, u, Accepted);
  }

  /** After a removal the pair has no row left: not a member, nothing pending. */
  lemma RemovalLeavesNoRow(rows: seq<Member>, g: string, u: string)
    ensures !IsMember(Without(rows, g, u), g, u) && FirstMember(Without(rows, g, u), g, u).None?
  {
  }

  /** A pending row does not make its user a member. */
  lemma PendingRowIsNotMembership(rows: seq<Member>, m: Member)
    requires m.status == Pending
    ensures IsMember(rows + [m], m.groupId, m.userId) == IsMember(rows, m.groupId, m.userId)
  {
    if IsMember(rows + [m], m.groupId, m.userId) {
      var x :| x in rows + [m] && x.Of(m.groupId, m.userId) && x.status == Accepted;
      assert x in rows;
    }
  }

  // ---------------------------------------------------------------- operations

  /** `CreateGroup`: a name is required; the creator becomes an accepted admin. `id` is a fresh UUID. */
  method CreateGroup(store: GroupStore, id: string, userId: string, name: string, isPublic: bool) returns (r: Result<Group>)
    requires store.Valid()
    requires forall m :: m in store.members ==> m.groupId != id
    modifies store
    ensures store.Valid()
    ensures name == "" ==> r == Err("group name is required") && store.members == old(store.members) && store.groups == old(store.groups)
    ensures name != "" ==> (r == Ok(Group(id, name, userId, isPublic)) && store.groups == old(store.groups)[id := r.value]
      && store.members == old(store.members) + [GroupRepository.Member(id, userId, Admin, Accepted, "")])
    ensures name != "" ==> IsMember(store.members, id, userId) && MemberRole(store.members, id, userId) == Admin
  {
    if name == "" {
      return Err("group name is required");
    }
    var group := Group(id, name, userId, isPublic);
    store.CreateGroup(group);
    ghost var row := GroupRepository.Member(id, userId, Admin, Accepted, "");
    assert row in store.members;
    assert forall m :: m in store.members && m.Of(id, userId) ==> m == row;
    r := Ok(group);
  }

  /** `InviteToGroup`: the invitee gets a pending row naming the inviter (before the group is looked up). */
  method InviteToGroup(store: GroupStore, g: string, inviter: string, invitee: string) returns (r: Status)
    requires store.Valid()
    modifies store
    ensures store.Valid()
    ensures InviteRefusal(old(store.members), g, inviter, invitee).Some? ==>
      r == Failure(InviteRefusal(old(store.members), g, inviter, invitee).value) && store.members == old(store.members)
    ensures InviteRefusal(old(store.members), g, inviter, invitee).None? ==>
      store.members == old(store.members) + [GroupRepository.Member(g, invitee, Member, Pending, inviter)]
      && (r.Success? <==> g in store.groups)
    ensures store.groups == old(store.groups)
    ensures IsMember(store.members, g, invitee) == IsMember(old(store.members), g, invitee)
  {
    var refusal := InviteRefusal(store.members, g, inviter, invitee);
    if refusal.Some? {
      return Failure(refusal.value);
    }
    var row := GroupRepository.Member(g, invitee, Member, Pending, inviter);
    PendingRowIsNotMembership(store.members, row);
    SamePairPending(store.members, g, invitee);
    store.AddMember(row);
    if g !in store.groups {
      return Failure("group not found");
    }
    return Success;
  }

  /** Under the invariant, the rows of a pair whose first row is pending are all pending. */
  lemma SamePairPending(rows: seq<Member>, g: string, u: string)
    requires Uniform(rows) && KnownStatuses(rows)
    requires FirstMember(rows, g, u).Some? ==> FirstMember(rows, g, u).value.status != Accepted
    ensures forall r :: r in rows && r.Of(g, u) ==> r.status == Pending
  {
    forall r | r in rows && r.Of(g, u)
      ensures r.status == Pending
    {
      var f := FirstMember(rows, g, u).value;
      var i :| 0 <= i < |rows| && rows[i] == r;
      var j :| 0 <= j < |rows| && rows[j] == f;
      assert rows[j].Of(rows[i].groupId, rows[i].userId);
    }
  }

  /** `JoinGroup`: always a pending request with no inviter, whether the group is public or not. */
  method JoinGroup(store: GroupStore, g: string, u: string) returns (r: Status)
    requires store.Valid()
    modifies store
    ensures store.Valid()
    ensures JoinRefusal(old(store.members), g, u).Some? ==>
      r == Failure(JoinRefusal(old(store.members), g, u).value) && store.members == old(store.members)
    ensures JoinRefusal(old(store.members), g, u).None? && g !in store.groups ==>
      r == Failure("group not found") && store.members == old(store.members)
    ensures JoinRefusal(old(store.members), g, u).None? && g in store.groups ==>
      r == Success && store.members == old(store.members) + [GroupRepository.Member(g, u, Member, Pending, "")]
    ensures r.Success? ==> !IsMember(store.members, g, u)
    ensures store.groups == old(store.groups)
  {
    var refusal := JoinRefusal(store.members, g, u);
    if refusal.Some? {
      return Failure(refusal.value);
    }
    if g !in store.groups {
      return Failure("group not found");
    }
    var row := GroupRepository.Member(g, u, Member, Pending, "");
    PendingRowIsNotMembership(store.members, row);
    store.AddMember(row);
    return Success;
  }

  /** `LeaveGroup`: members other than the creator may leave; all their rows go. */
  method LeaveGroup(store: GroupStore, g: string, u: string) returns (r: Status)
    requires store.Valid()
    modifies store
    ensures store.Valid()
    ensures r.Success? <==> IsMember(old(store.members), g, u) && g in store.groups && store.groups[g].creatorId != u
    ensures r.Success? ==> store.members == Without(old(store.members), g, u)
    ensures r.Failure? ==> store.members == old(store.members) && store.stats == old(store.stats)
    ensures store.groups == old(store.groups)
  {
    if !IsMember(store.members, g, u) {
      return Failure("you are not a member of this group");
    }
    if g !in store.groups {
      return Failure("group not found");
    }
    if store.groups[g].creatorId == u {
      return Failure("the group creator cannot leave the group, please delete the group or transfer ownership");
    }
    r := store.RemoveMember(g, u);
  }

  /** `AcceptInvitation`: an open invitation becomes membership (then the group is looked up). */
  method AcceptInvitation(store: GroupStore, g: string, u: string) returns (r: Status)
    requires store.Valid()
    modifies store
    ensures store.Valid()
    ensures InvitationRefusal(old(store.members), g, u).Some? ==>
      r == Failure(InvitationRefusal(old(store.members), g, u).value) && store.members == old(store.members)
    ensures InvitationRefusal(old(store.members), g, u).None? ==>
      store.members == WithStatus(old(store.members), g, u, Accepted) && IsMember(store.members, g, u)
      && (r.Success? <==> g in store.groups)
    ensures store.groups == old(store.groups)
  {
    var refusal := InvitationRefusal(store.members, g, u);
    if refusal.Some? {
      return Failure(refusal.value);
    }
    AcceptMakesMember(store.members, g, u);
    r := store.UpdateMemberStatus(g, u, Accepted);
    if g !in store.groups {
      return Failure("group not found");
    }
  }

  /** `RejectInvitation`: an open invitation is deleted. */
  method RejectInvitation(store: GroupStore, g: string, u: string) returns (r: Status)
    requires store.Valid()
    modifies store
    ensures store.Valid()
    ensures InvitationRefusal(old(store.members), g, u).Some? ==>
      r == Failure(InvitationRefusal(old(store.members), g, u).value) && store.members == old(store.members)
    ensures InvitationRefusal(old(store.members), g, u).None? ==>
      store.members == Without(old(store.members), g, u) && (r.Success? <==> g in store.groups)
    ensures store.groups == old(store.groups)
  {
    var refusal := InvitationRefusal(store.members, g, u);
    if refusal.Some? {
      return Failure(refusal.value);
    }
    r := store.RemoveMember(g, u);
    if g !in store.groups {
      return Failure("group not found");
    }
  }

  /** `AcceptJoinRequest`: an admin turns an open join request into membership. */
  method AcceptJoinRequest(store: GroupStore, g: string, admin: string, u: string) returns (r: Status)
    requires store.Valid()
    modifies store
    ensures store.Valid()
    ensures JoinRequestRefusal(old(store.members), g, admin, u, "accept").Some? ==>
      r == Failure(JoinRequestRefusal(old(store.members), g, admin, u, "accept").value) && store.members == old(store.members)
    ensures JoinRequestRefusal(old(store.members), g, admin, u, "accept").None? ==>
      store.members == WithStatus(old(store.members), g, u, Accepted) && IsMember(store.members, g, u)
      && (r.Success? <==> g in store.groups)
    ensures store.groups == old(store.groups)
  {
    var refusal := JoinRequestRefusal(store.members, g, admin, u, "accept");
    if refusal.Some? {
      return Failure(refusal.value);
    }
    AcceptMakesMember(store.members, g, u);
    r := store.UpdateMemberStatus(g, u, Accepted);
    if g !in store.groups {
      return Failure("group not found");
    }
  }

  /** `RejectJoinRequest`: an admin deletes an open join request. */
  method RejectJoinRequest(store: GroupStore, g: string, admin: string, u: string) returns (r: Status)
    requires store.Valid()
    modifies store
    ensures store.Valid()
    ensures JoinRequestRefusal(old(store.members), g, admin, u, "reject").Some? ==>
      r == Failure(JoinRequestRefusal(old(store.members), g, admin, u, "reject").value) && store.members == old(store.members)
    ensures JoinRequestRefusal(old(store.members), g, admin, u, "reject").None? ==>
      store.members == Without(old(store.members), g, u) && (r.Success? <==> g in store.groups)
    ensures store.groups == old(store.groups)
  {
    var refusal := JoinRequestRefusal(store.members, g, admin, u, "reject");
    if refusal.Some? {
      return Failure(refusal.value);
    }
    r := store.RemoveMember(g, u);
    if g !in store.groups {
      return Failure("group not found");
    }
  }

  /** `UpdateMemberRole`: an admin may change the role of an accepted member other than the creator. */
  method UpdateMemberRole(store: GroupStore, g: string, admin: string, u: string, role: string) returns (r: Status)
    requires store.Valid()
    modifies store
    ensures store.Valid()
    ensures r.Success? <==> (MemberRole(old(store.members), g, admin) == Admin && IsMember(old(store.members), g, u)
      && g in store.groups && store.groups[g].creatorId != u && ValidRole(role))
    ensures r.Success? ==> store.members == WithRole(old(store.members), g, u, role)
    ensures r.Failure? ==> store.members == old(store.members)
    ensures store.groups == old(store.groups) && store.stats == old(store.stats)
  {
    if MemberRole(store.members, g, admin) != Admin {
      return Failure("only group admins can update member roles");
    }
    if !IsMember(store.members, g, u) {
      return Failure("user is not a member of this group");
    }
    if g !in store.groups {
      return Failure("group not found");
    }
    if store.groups[g].creatorId == u {
      return Failure("cannot change the role of the group creator");
    }
    if !ValidRole(role) {
      return Failure("invalid role");
    }
    store.UpdateMemberRole(g, u, role);
    return Success;
  }

  /** `RemoveMember`: an admin may remove an accepted member other than the creator. */
  method RemoveMember(store: GroupStore, g: string, admin: string, u: string) returns (r: Status)
    requires store.Valid()
    modifies store
    ensures store.Valid()
    ensures r.Success? <==> (MemberRole(old(store.members), g, admin) == Admin && IsMember(old(store.members), g, u)
      && g in store.groups && store.groups[g].creatorId != u)
    ensures r.Success? ==> store.members == Without(old(store.members), g, u)
    ensures r.Failure? ==> store.members == old(store.members) && store.stats == old(store.stats)
    ensures store.groups == old(store.groups)
  {
    if MemberRole(store.members, g, admin) != Admin {
      return Failure("only group admins can remove members");
    }
    if !IsMember(store.members, g, u) {
      return Failure("user is not a member of this group");
    }
    if g !in store.groups {
      return Failure("group not found");
    }
    if store.groups[g].creatorId == u {
      return Failure("cannot remove the group creator");
    }
    r := store.RemoveMember(g, u);
  }

  /**
   * `DeleteGroup`: only the creator of an existing group may delete it; the group's rows
   * go and each accepted member counts one group less.
   */
  method DeleteGroup(store: GroupStore, id: string, u: string) returns (r: Status)
    requires store.Valid()
    modifies store
    ensures id !in old(store.groups) ==> r == Failure("group not found") && store.groups == old(store.groups)
    ensures r.Success? <==> id in old(store.groups) && old(store.groups)[id].creatorId == u
    ensures r.Success? ==> (store.groups == old(store.groups) - {id} && store.members == OutsideGroup(old(store.members), id)
      && store.stats == Decremented(old(store.stats), AcceptedOf(old(store.members), id)))
    ensures r.Failure? ==> store.groups == old(store.groups) && store.members == old(store.members) && store.stats == old(store.stats)
    ensures DistinctUsers(AcceptedOf(old(store.members), id)) ==> store.Valid()
  {
    if id !in store.groups {
      return Failure("group not found");
    }
    if store.groups[id].creatorId != u {
      return Failure("only the group creator can delete the group");
    }
    store.DeleteGroup(id);
    return Success;
  }

  /**
   * `CreateGroupPost`: members only; the post takes the next id shared by `posts` and
   * `group_posts`, read from the ids the two tables hold.
   */
  method CreateGroupPost(store: GroupStore, g: string, u: string, content: string, postIds: seq<int>, groupPostIds: seq<int>)
    returns (r: Result<GroupPost>)
    modifies store
    ensures r.Ok? <==> IsMember(old(store.members), g, u)
    ensures r.Ok? ==> (r.value == GroupPost(NextAvailableId(postIds, groupPostIds), g, u, content)
      && store.groupPosts == old(store.groupPosts)[r.value.id := r.value])
    ensures r.Ok? && (forall k :: k in old(store.groupPosts) ==> k in groupPostIds) ==> r.value.id !in old(store.groupPosts)
    ensures r.Err? ==> store.groupPosts == old(store.groupPosts)
    ensures store.members == old(store.members) && store.stats == old(store.stats) && store.groups == old(store.groups)
  {
    if !IsMember(store.members, g, u) {
      return Err("only group members can create posts");
    }
    var post := GroupPost(NextAvailableId(postIds, groupPostIds), g, u, content);
    store.CreateGroupPost(post);
    return Ok(post);
  }

  /** The author fields `GetUserBasicByID` supplies for a post. */
  datatype Author = Author(id: string, firstName: string, lastName: string, avatar: string)

  /**
   * `GetGroupPosts`: members only; every post of the fetched page gets its author, and a
   * missing author fails the whole call.
   */
  method GetGroupPosts(store: GroupStore, g: string, u: string, page: seq<GroupPost>, users: map<string, Author>)
    returns (r: Result<seq<(GroupPost, Author)>>)
    ensures !IsMember(store.members, g, u) ==> r == Err("only group members can view posts")
    ensures IsMember(store.members, g, u) ==>
      (r.Ok? <==> forall i :: 0 <= i < |page| ==> page[i].userId in users)
    ensures r.Ok? ==> |r.value| == |page| && forall i :: 0 <= i < |page| ==> r.value[i] == (page[i], users[page[i].userId])
  {
    if !IsMember(store.members, g, u) {
      return Err("only group members can view posts");
    }
    var out: seq<(GroupPost, Author)> := [];
    for i := 0 to |page|
      invariant |out| == i && forall k :: 0 <= k < i ==> page[k].userId in users && out[k] == (page[k], users[page[k].userId])
    {
      if page[i].userId !in users {
        return Err("user not found");
      }
      out := out + [(page[i], users[page[i].userId])];
    }
    return Ok(out);
  }

  /** `DeleteGroupPost`: the author, or an accepted admin or moderator of the post's group. */
  method DeleteGroupPost(store: GroupStore, postId: int, u: string) returns (r: Status)
    modifies store
    ensures postId !in old(store.groupPosts) ==> r.Failure? && store.groupPosts == old(store.groupPosts)
    ensures postId in old(store.groupPosts) ==>
      var post := old(store.groupPosts)[postId];
      var role := MemberRole(store.members, post.groupId, u);
      (r.Success? <==> post.userId == u || role == Admin || role == Moderator)
    ensures r.Success? ==> store.groupPosts == old(store.groupPosts) - {postId}
    ensures r.Failure? ==> store.groupPosts == old(store.groupPosts)
    ensures store.members == old(store.members) && store.stats == old(store.stats) && store.groups == old(store.groups)
  {
    if postId !in store.groupPosts {
      return Failure("post not found");
    }
    var post := store.groupPosts[postId];
    if post.userId != u {
      var role := MemberRole(store.members, post.groupId, u);
      if role != Admin && role != Moderator {
        return Failure("only the post creator, moderators, or admins can delete posts");
      }
    }
    store.DeleteGroupPost(postId);
    return Success;
  }

  /** `SendChatMessage`: members only, non-empty content. */
  method SendChatMessage(store: GroupStore, g: string, u: string, content: string, now: int) returns (r: Result<ChatMessage>)
    modifies store
    ensures r.Ok? <==> IsMember(old(store.members), g, u) && content != ""
    ensures r.Ok? ==> (r.value.groupId == g && r.value.userId == u && r.value.content == content
      && store.chat == old(store.chat) + [r.value])
    ensures r.Err? ==> store.chat == old(store.chat)
    ensures store.members == old(store.members) && store.stats == old(store.stats) && store.groups == old(store.groups)
  {
    if !IsMember(store.members, g, u) {
      return Err("only group members can send messages");
    }
    if content == "" {
      return Err("message content is required");
    }
    var message := store.AddChatMessage(g, u, content, now);
    return Ok(message);
  }

  /** `GetGroupChatMessages`: members only; the fetched newest-first page is returned oldest first. */
  method GetGroupChatMessages(store: GroupStore, g: string, u: string, page: seq<ChatMessage>) returns (r: Result<seq<ChatMessage>>)
    ensures r.Ok? <==> IsMember(store.members, g, u)
    ensures r.Ok? ==> r.value == Reversed(page)
  {
    if !IsMember(store.members, g, u) {
      return Err("only group members can view messages");
    }
    var a := new ChatMessage[|page|](i requires 0 <= i < |page| => page[i]);
    ReverseInPlace(a);
    return Ok(a[..]);
  }

  /**
   * A join request followed by an invitation leaves two pending rows; the invitee then
   * cannot accept, because the first row found is the join request.
   */
  method InviteOverJoinRequest() returns (joined: Status, invited: Status, accepted: Status, rows: nat)
    ensures joined.Success? && invited.Success? && rows == 3
    ensures accepted == Failure("no pending invitation found")
  {
    var store := new GroupStore();
    var _ := CreateGroup(store, "g", "owner", "Hikers", true);
    joined := JoinGroup(store, "g", "bob");
    invited := InviteToGroup(store, "g", "owner", "bob");
    assert store.members[1].Of("g", "bob") && store.members[2].Of("g", "bob");
    assert FirstMember(store.members, "g", "bob") == Some(store.members[1]);
    rows := |store.members|;
    accepted := AcceptInvitation(store, "g", "bob");
  }
}
