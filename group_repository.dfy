/**
 * The group repository: the `groups`, `group_members`, `group_posts` and
 * `group_chat_messages` tables and the `groups_joined` column of `user_stats`.
 *
 * `group_members` has no uniqueness constraint on (group, user), so the table is a
 * sequence of rows in insertion order. Lookups that read one row take the first match;
 * UPDATE and DELETE act on every row of the pair.
 */
module GroupRepository {
  import opened Wrappers
  import opened UserStats

  const Accepted := "accepted"
  const Pending := "pending"
  const Admin := "admin"
  const GroupsJoined := "groups_joined"

  datatype Group = Group(id: string, name: string, creatorId: string, isPublic: bool)

  datatype Member = Member(groupId: string, userId: string, role: string, status: string, invitedBy: string)
  {
    predicate Of(g: string, u: string) { groupId == g && userId == u }
  }

  datatype GroupPost = GroupPost(id: int, groupId: string, userId: string, content: string)

  datatype ChatMessage = ChatMessage(id: int, groupId: string, userId: string, content: string, createdAt: int)

  // ---------------------------------------------------------------- row queries

  /** `GetMemberByID`: the first row of the pair, if any. */
  function FirstMember(rows: seq<Member>, g: string, u: string): (r: Option<Member>)
    ensures r.Some? ==> r.value in rows && r.value.Of(g, u)
    ensures r.None? <==> forall m :: m in rows ==> !m.Of(g, u)
  {
    if rows == [] then None
    else if rows[0].Of(g, u) then Some(rows[0])
    else FirstMember(rows[1..], g, u)
  }

  /** `IsGroupMember`: some row of the pair is accepted. */
  predicate IsMember(rows: seq<Member>, g: string, u: string)
  {
    exists m :: m in rows && m.Of(g, u) && m.status == Accepted
  }

  /** `GetMemberRole`: the role of the first accepted row of the pair, "" for a non-member. */
  function MemberRole(rows: seq<Member>, g: string, u: string): (role: string)
    ensures !IsMember(rows, g, u) ==> role == ""
    ensures IsMember(rows, g, u) ==> exists m :: m in rows && m.Of(g, u) && m.status == Accepted && m.role == role
  {
    if rows == [] then ""
    else if rows[0].Of(g, u) && rows[0].status == Accepted then rows[0].role
    else
      var role := MemberRole(rows[1..], g, u);
      assert forall m :: m in rows[1..] ==> m in rows;
      assert IsMember(rows, g, u) ==> IsMember(rows[1..], g, u) by {
        if IsMember(rows, g, u) {
          var m :| m in rows && m.Of(g, u) && m.status == Accepted;
          assert m != rows[0];
          assert m in rows[1..];
        }
      }
      role
  }

  /** `UPDATE group_members SET status = ? WHERE group_id = ? AND user_id = ?`. */
  function WithStatus(rows: seq<Member>, g: string, u: string, status: string): (r: seq<Member>)
    ensures |r| == |rows|
    ensures forall i :: 0 <= i < |rows| ==> r[i] == if rows[i].Of(g, u) then rows[i].(status := status) else rows[i]
  {
    seq(|rows|, i requires 0 <= i < |rows| => if rows[i].Of(g, u) then rows[i].(status := status) else rows[i])
  }

  /** `UPDATE group_members SET role = ? WHERE group_id = ? AND user_id = ?`. */
  function WithRole(rows: seq<Member>, g: string, u: string, role: string): seq<Member>
  {
    seq(|rows|, i requires 0 <= i < |rows| => if rows[i].Of(g, u) then rows[i].(role := role) else rows[i])
  }

  /** `DELETE FROM group_members WHERE group_id = ? AND user_id = ?`. */
  function Without(rows: seq<Member>, g: string, u: string): (r: seq<Member>)
    ensures forall m :: m in r <==> m in rows && !m.Of(g, u)
  {
    if rows == [] then []
    else (if rows[0].Of(g, u) then [] else [rows[0]]) + Without(rows[1..], g, u)
  }

  // ---------------------------------------------------------------- the counter invariant

  /** The groups in which `u` has an accepted row. */
  ghost function AcceptedGroups(rows: seq<Member>, u: string): set<string>
  {
    set m | m in rows && m.userId == u && m.status == Accepted :: m.groupId
  }

  /** All rows of a (group, user) pair carry the same status. */
  predicate Uniform(rows: seq<Member>)
  {
    forall i, j :: 0 <= i < |rows| && 0 <= j < |rows| && rows[i].Of(rows[j].groupId, rows[j].userId) ==>
      rows[i].status == rows[j].status
  }

  /** The only statuses the service writes. */
  predicate KnownStatuses(rows: seq<Member>)
  {
    forall i :: 0 <= i < |rows| ==> rows[i].status == Pending || rows[i].status == Accepted
  }

  /** `groups_joined` of every user is the number of groups they have an accepted row in. */
  ghost predicate CountsTrack(rows: seq<Member>, stats: Table)
  {
    forall u :: Get(stats, u, GroupsJoined) == |AcceptedGroups(rows, u)|
  }

  lemma AcceptedAfterAppend(rows: seq<Member>, m: Member, u: string)
    ensures AcceptedGroups(rows + [m], u) ==
      AcceptedGroups(rows, u) + (if m.userId == u && m.status == Accepted then {m.groupId} else {})
  {
    assert forall x :: x in rows + [m] <==> x in rows || x == m;
  }

  lemma AcceptedAfterWithout(rows: seq<Member>, g: string, u: string, v: string)
    ensures AcceptedGroups(Without(rows, g, u), v) == if v == u then AcceptedGroups(rows, v) - {g} else AcceptedGroups(rows, v)
  {
  }

  /** With uniform statuses, `g` is among the accepted groups of `u` exactly when the first row is accepted. */
  lemma AcceptedByFirst(rows: seq<Member>, g: string, u: string)
    requires Uniform(rows)
    ensures g in AcceptedGroups(rows, u) <==> FirstMember(rows, g, u).Some? && FirstMember(rows, g, u).value.status == Accepted
  {
    if g in AcceptedGroups(rows, u) {
      var m :| m in rows && m.userId == u && m.status == Accepted && m.groupId == g;
      var f := FirstMember(rows, g, u).value;
      var i :| 0 <= i < |rows| && rows[i] == m;
      var j :| 0 <= j < |rows| && rows[j] == f;
      assert rows[j].Of(rows[i].groupId, rows[i].userId);
    }
  }

  lemma AcceptedAfterWithStatus(rows: seq<Member>, g: string, u: string, status: string, v: string)
    requires FirstMember(rows, g, u).Some?
    ensures AcceptedGroups(WithStatus(rows, g, u, status), v) ==
      if v != u then AcceptedGroups(rows, v)
      else (AcceptedGroups(rows, v) - {g}) + (if status == Accepted then {g} else {})
  {
    AcceptedWithStatusSub(rows, g, u, status, v);
    AcceptedWithStatusSup(rows, g, u, status, v);
  }

  lemma AcceptedWithStatusSub(rows: seq<Member>, g: string, u: string, status: string, v: string)
    ensures AcceptedGroups(WithStatus(rows, g, u, status), v) <=
      if v != u then AcceptedGroups(rows, v)
      else (AcceptedGroups(rows, v) - {g}) + (if status == Accepted then {g} else {})
  {
    var r := WithStatus(rows, g, u, status);
    forall x | x in AcceptedGroups(r, v)
      ensures x in (if v != u then AcceptedGroups(rows, v) else (AcceptedGroups(rows, v) - {g}) + (if status == Accepted then {g} else {}))
    {
      var m :| m in r && m.userId == v && m.status == Accepted && m.groupId == x;
      var k :| 0 <= k < |r| && r[k] == m;
      assert rows[k] in rows;
    }
  }

  lemma AcceptedWithStatusSup(rows: seq<Member>, g: string, u: string, status: string, v: string)
    requires FirstMember(rows, g, u).Some?
    ensures (if v != u then AcceptedGroups(rows, v)
      else (AcceptedGroups(rows, v) - {g}) + (if status == Accepted then {g} else {})) <= AcceptedGroups(WithStatus(rows, g, u, status), v)
  {
    var r := WithStatus(rows, g, u, status);
    var f := FirstMember(rows, g, u).value;
    var i :| 0 <= i < |rows| && rows[i] == f;
    assert r[i] == f.(status := status);
    forall x | x in (if v != u then AcceptedGroups(rows, v) else (AcceptedGroups(rows, v) - {g}) + (if status == Accepted then {g} else {}))
      ensures x in AcceptedGroups(r, v)
    {
      if v == u && x == g {
        assert r[i] in r;
      } else {
        var m :| m in rows && m.userId == v && m.status == Accepted && m.groupId == x;
        var k :| 0 <= k < |rows| && rows[k] == m;
        assert r[k] == m && r[k] in r;
      }
    }
  }

  // ---------------------------------------------------------------- deleting a group

  /** `GetGroupMembers(id, "accepted")`: the accepted rows of the group (order immaterial here). */
  function AcceptedOf(rows: seq<Member>, g: string): (r: seq<Member>)
    ensures forall m :: m in r <==> m in rows && m.groupId == g && m.status == Accepted
  {
    if rows == [] then []
    else (if rows[0].groupId == g && rows[0].status == Accepted then [rows[0]] else []) + AcceptedOf(rows[1..], g)
  }

  /** `DELETE FROM group_members WHERE group_id = ?`. */
  function OutsideGroup(rows: seq<Member>, g: string): (r: seq<Member>)
    ensures forall m :: m in r <==> m in rows && m.groupId != g
  {
    if rows == [] then []
    else (if rows[0].groupId == g then [] else [rows[0]]) + OutsideGroup(rows[1..], g)
  }

  /** One `groups_joined` decrement per listed row, in list order. */
  function Decremented(stats: Table, list: seq<Member>): Table
  {
    if list == [] then stats
    else Bump(Decremented(stats, list[..|list| - 1]), list[|list| - 1].userId, GroupsJoined, false)
  }

  /** No two listed rows belong to the same user. */
  predicate DistinctUsers(list: seq<Member>)
  {
    forall i, j :: 0 <= i < j < |list| ==> list[i].userId != list[j].userId
  }

  /** With distinct users, every listed user's counter drops by one (clamped at 0) and no other counter moves. */
  lemma {:induction false} DecrementedGet(stats: Table, list: seq<Member>, u: string)
    requires NonNegative(stats) && DistinctUsers(list)
    ensures NonNegative(Decremented(stats, list))
    ensures Get(Decremented(stats, list), u, GroupsJoined) ==
      if exists i :: 0 <= i < |list| && list[i].userId == u then
        (if Get(stats, u, GroupsJoined) > 0 then Get(stats, u, GroupsJoined) - 1 else 0)
      else Get(stats, u, GroupsJoined)
  {
    if list != [] {
      var init, last := list[..|list| - 1], list[|list| - 1];
      assert forall i :: 0 <= i < |init| ==> init[i] == list[i];
      DecrementedGet(stats, init, u);
      DecrementedGet(stats, init, last.userId);
      BumpStep(Decremented(stats, init), last.userId, GroupsJoined, false);
    }
  }

  /** Deleting a group's rows keeps the invariant when the counters drop once per accepted member. */
  lemma ValidAfterDeleteGroup(rows: seq<Member>, stats: Table, g: string)
    requires ValidRows(rows, stats) && DistinctUsers(AcceptedOf(rows, g))
    ensures ValidRows(OutsideGroup(rows, g), Decremented(stats, AcceptedOf(rows, g)))
  {
    DecrementedGet(stats, AcceptedOf(rows, g), "");
    UniformOutsideGroup(rows, g);
    forall u
      ensures Get(Decremented(stats, AcceptedOf(rows, g)), u, GroupsJoined) == |AcceptedGroups(OutsideGroup(rows, g), u)|
    {
      CountAfterDeleteGroup(rows, stats, g, u);
    }
  }

  lemma UniformOutsideGroup(rows: seq<Member>, g: string)
    requires Uniform(rows) && KnownStatuses(rows)
    ensures Uniform(OutsideGroup(rows, g)) && KnownStatuses(OutsideGroup(rows, g))
  {
    var after := OutsideGroup(rows, g);
    forall i, j | 0 <= i < |after| && 0 <= j < |after| && after[i].Of(after[j].groupId, after[j].userId)
      ensures after[i].status == after[j].status
    {
      assert after[i] in after && after[j] in after;
      var a :| 0 <= a < |rows| && rows[a] == after[i];
      var b :| 0 <= b < |rows| && rows[b] == after[j];
    }
    forall i | 0 <= i < |after|
      ensures after[i].status == Pending || after[i].status == Accepted
    {
      assert after[i] in after;
      var a :| 0 <= a < |rows| && rows[a] == after[i];
    }
  }

  lemma AcceptedOutsideGroup(rows: seq<Member>, g: string, u: string)
    ensures AcceptedGroups(OutsideGroup(rows, g), u) == AcceptedGroups(rows, u) - {g}
  {
  }

  lemma CountAfterDeleteGroup(rows: seq<Member>, stats: Table, g: string, u: string)
    requires ValidRows(rows, stats) && DistinctUsers(AcceptedOf(rows, g))
    ensures Get(Decremented(stats, AcceptedOf(rows, g)), u, GroupsJoined) == |AcceptedGroups(OutsideGroup(rows, g), u)|
  {
    var list := AcceptedOf(rows, g);
    DecrementedGet(stats, list, u);
    AcceptedOutsideGroup(rows, g, u);
    if g in AcceptedGroups(rows, u) {
      var m :| m in rows && m.userId == u && m.status == Accepted && m.groupId == g;
      assert m in list;
      var k :| 0 <= k < |list| && list[k] == m;
    } else {
      forall i | 0 <= i < |list|
        ensures list[i].userId != u
      {
        assert list[i] in list;
      }
    }
  }

  // ---------------------------------------------------------------- post ids and chat order

  /** The largest value in `ids` that exceeds `floor`, else `floor`. */
  function MaxAbove(ids: seq<int>, floor: int): (m: int)
    ensures m >= floor && forall i :: 0 <= i < |ids| ==> ids[i] <= m
    ensures m == floor || m in ids
  {
    if ids == [] then floor
    else
      var rest := MaxAbove(ids[..|ids| - 1], floor);
      var last := ids[|ids| - 1];
      assert forall x :: x in ids[..|ids| - 1] ==> x in ids;
      if last > rest then last else rest
  }

  /**
   * `getNextAvailableID`: one more than the largest id in `posts` and `group_posts`
   * (ids are shared between the two tables), or 1 when both are empty.
   */
  function NextAvailableId(postIds: seq<int>, groupPostIds: seq<int>): (id: int)
    ensures id >= 1
    ensures forall i :: 0 <= i < |postIds| ==> postIds[i] < id
    ensures forall i :: 0 <= i < |groupPostIds| ==> groupPostIds[i] < id
    ensures id == 1 || id - 1 in postIds || id - 1 in groupPostIds
  {
    MaxAbove(groupPostIds, MaxAbove(postIds, 0)) + 1
  }

  /** Oldest first from newest first. */
  function Reversed<T>(s: seq<T>): (r: seq<T>)
    ensures |r| == |s| && forall i :: 0 <= i < |s| ==> r[i] == s[|s| - 1 - i]
  {
    if s == [] then [] else Reversed(s[1..]) + [s[0]]
  }

  lemma ReversedTwice<T>(s: seq<T>)
    ensures Reversed(Reversed(s)) == s
  {
  }

  /** Messages fetched newest first (`ORDER BY created_at DESC`) come out oldest first. */
  lemma ReversedOrder(page: seq<ChatMessage>)
    requires forall i, j :: 0 <= i <= j < |page| ==> page[i].createdAt >= page[j].createdAt
    ensures forall i, j :: 0 <= i <= j < |page| ==> Reversed(page)[i].createdAt <= Reversed(page)[j].createdAt
  {
  }

  /** The in-place swap loop of `GetGroupChatMessages` (and of the private chat's page). */
  method ReverseInPlace<T>(a: array<T>)
    modifies a
    ensures a[..] == Reversed(old(a[..]))
  {
    var i, j := 0, a.Length - 1;
    while i < j
      invariant 0 <= i <= a.Length && j == a.Length - 1 - i
      invariant forall k :: 0 <= k < i || j < k < a.Length ==> a[k] == old(a[a.Length - 1 - k])
      invariant forall k :: i <= k <= j ==> a[k] == old(a[k])
    {
      a[i], a[j] := a[j], a[i];
      i, j := i + 1, j - 1;
    }
  }

  // ---------------------------------------------------------------- the store

  class GroupStore {
    var groups: map<string, Group>
    var members: seq<Member>
    var stats: Table
    var groupPosts: map<int, GroupPost>
    var chat: seq<ChatMessage>

    /** The membership rows are uniform and `groups_joined` tracks them. */
    ghost predicate Valid()
      reads this
    {
      ValidRows(members, stats)
    }

    constructor()
      ensures groups == map[] && members == [] && stats == map[] && groupPosts == map[] && chat == []
      ensures Valid()
    {
      groups, members, stats, groupPosts, chat := map[], [], map[], map[], [];
    }

    /** `UpdateUserGroupCount`: one step of the user's `groups_joined`, returning the new value. */
    method UpdateUserGroupCount(user: string, increment: bool) returns (count: int)
      requires NonNegative(stats)
      modifies this
      ensures stats == Bump(old(stats), user, GroupsJoined, increment)
      ensures count == Get(stats, user, GroupsJoined)
      ensures count == if increment then Get(old(stats), user, GroupsJoined) + 1
        else if Get(old(stats), user, GroupsJoined) > 0 then Get(old(stats), user, GroupsJoined) - 1 else 0
      ensures NonNegative(stats)
      ensures groups == old(groups) && members == old(members) && groupPosts == old(groupPosts) && chat == old(chat)
    {
      BumpStep(stats, user, GroupsJoined, increment);
      stats := Bump(stats, user, GroupsJoined, increment);
      count := Get(stats, user, GroupsJoined);
    }

    /** `AddMember`: insert the row; an accepted row also counts one more group for its user. */
    method AddMember(m: Member)
      requires NonNegative(stats)
      modifies this
      ensures members == old(members) + [m]
      ensures stats == if m.status == Accepted then Bump(old(stats), m.userId, GroupsJoined, true) else old(stats)
      ensures groups == old(groups) && groupPosts == old(groupPosts) && chat == old(chat)
      ensures NonNegative(stats)
      ensures old(Valid()) && (m.status == Pending || m.status == Accepted)
        && (forall r :: r in old(members) && r.Of(m.groupId, m.userId) ==> r.status == m.status)
        && (m.status == Accepted ==> FirstMember(old(members), m.groupId, m.userId).None?)
        ==> Valid()
    {
      ghost var before := members;
      ghost var wasValid := Valid();
      members := members + [m];
      if m.status == Accepted {
        var _ := UpdateUserGroupCount(m.userId, true);
      }
      if wasValid && (m.status == Pending || m.status == Accepted)
        && (forall r :: r in before && r.Of(m.groupId, m.userId) ==> r.status == m.status)
        && (m.status == Accepted ==> FirstMember(before, m.groupId, m.userId).None?)
      {
        ValidAfterAppend(before, old(stats), m);
      }
    }

    /** `UpdateMemberStatus`: fails for a missing member; counts follow the first row's old status. */
    method UpdateMemberStatus(g: string, u: string, status: string) returns (r: Status)
      requires NonNegative(stats)
      modifies this
      ensures FirstMember(old(members), g, u).None? ==> r == Failure("member not found") && members == old(members) && stats == old(stats)
      ensures FirstMember(old(members), g, u).Some? ==> r == Success && members == WithStatus(old(members), g, u, status)
      ensures FirstMember(old(members), g, u).Some? ==>
        var was := FirstMember(old(members), g, u).value.status;
        stats == if was != Accepted && status == Accepted then Bump(old(stats), u, GroupsJoined, true)
                 else if was == Accepted && status != Accepted then Bump(old(stats), u, GroupsJoined, false)
                 else old(stats)
      ensures groups == old(groups) && groupPosts == old(groupPosts) && chat == old(chat)
      ensures NonNegative(stats)
      ensures old(Valid()) && (status == Pending || status == Accepted) ==> Valid()
    {
      var found := FirstMember(members, g, u);
      if found.None? {
        return Failure("member not found");
      }
      ghost var before := members;
      ghost var wasValid := Valid();
      members := WithStatus(members, g, u, status);
      if found.value.status != Accepted && status == Accepted {
        var _ := UpdateUserGroupCount(u, true);
      } else if found.value.status == Accepted && status != Accepted {
        var _ := UpdateUserGroupCount(u, false);
      }
      if wasValid && (status == Pending || status == Accepted) {
        ValidAfterWithStatus(before, old(stats), g, u, status);
      }
      return Success;
    }

    /** `UpdateMemberRole`: every row of the pair gets the role (a missing pair changes nothing). */
    method UpdateMemberRole(g: string, u: string, role: string)
      modifies this
      ensures members == WithRole(old(members), g, u, role)
      ensures groups == old(groups) && stats == old(stats) && groupPosts == old(groupPosts) && chat == old(chat)
      ensures old(Valid()) ==> Valid()
    {
      ghost var before := members;
      members := WithRole(members, g, u, role);
      forall v
        ensures AcceptedGroups(members, v) == AcceptedGroups(before, v)
      {
        forall x | x in AcceptedGroups(members, v) ensures x in AcceptedGroups(before, v)
        {
          var m :| m in members && m.userId == v && m.status == Accepted && m.groupId == x;
          var k :| 0 <= k < |members| && members[k] == m;
          assert before[k] in before;
        }
        forall x | x in AcceptedGroups(before, v) ensures x in AcceptedGroups(members, v)
        {
          var m :| m in before && m.userId == v && m.status == Accepted && m.groupId == x;
          var k :| 0 <= k < |before| && before[k] == m;
          assert members[k] in members;
        }
      }
    }

    /** `RemoveMember`: fails for a missing member; removing an accepted member counts one group less. */
    method RemoveMember(g: string, u: string) returns (r: Status)
      requires NonNegative(stats)
      modifies this
      ensures FirstMember(old(members), g, u).None? ==> r == Failure("member not found") && members == old(members) && stats == old(stats)
      ensures FirstMember(old(members), g, u).Some? ==> (r == Success && members == Without(old(members), g, u)
        && stats == if FirstMember(old(members), g, u).value.status == Accepted then Bump(old(stats), u, GroupsJoined, false) else old(stats))
      ensures groups == old(groups) && groupPosts == old(groupPosts) && chat == old(chat)
      ensures NonNegative(stats)
      ensures old(Valid()) ==> Valid()
    {
      var found := FirstMember(members, g, u);
      if found.None? {
        return Failure("member not found");
      }
      ghost var before := members;
      ghost var wasValid := Valid();
      members := Without(members, g, u);
      if found.value.status == Accepted {
        var _ := UpdateUserGroupCount(u, false);
      }
      if wasValid {
        forall v
          ensures Get(stats, v, GroupsJoined) == |AcceptedGroups(members, v)|
        {
          AcceptedAfterWithout(before, g, u, v);
          AcceptedByFirst(before, g, u);
          BumpStep(old(stats), u, GroupsJoined, false);
        }
        UniformAfterWithout(before, g, u);
      }
      return Success;
    }

    /**
     * `DeleteGroup`: the accepted rows are read first, then the group row and all its
     * member rows go, then each accepted row's user counts one group less.
     */
    method DeleteGroup(id: string)
      requires NonNegative(stats)
      modifies this
      ensures groups == old(groups) - {id}
      ensures members == OutsideGroup(old(members), id)
      ensures stats == Decremented(old(stats), AcceptedOf(old(members), id))
      ensures NonNegative(stats)
      ensures groupPosts == old(groupPosts) && chat == old(chat)
      ensures old(Valid()) && DistinctUsers(AcceptedOf(old(members), id)) ==> Valid()
    {
      var accepted := AcceptedOf(members, id);
      ghost var before := members;
      groups := groups - {id};
      members := OutsideGroup(members, id);
      DecrementAll(accepted);
      if old(Valid()) && DistinctUsers(accepted) {
        ValidAfterDeleteGroup(before, old(stats), id);
      }
    }

    /** The loop of `DeleteGroup`: one `UpdateUserGroupCount(user, false)` per listed row. */
    method DecrementAll(list: seq<Member>)
      requires NonNegative(stats)
      modifies this
      ensures stats == Decremented(old(stats), list) && NonNegative(stats)
      ensures groups == old(groups) && members == old(members) && groupPosts == old(groupPosts) && chat == old(chat)
    {
      for i := 0 to |list|
        invariant stats == Decremented(old(stats), list[..i]) && NonNegative(stats)
        invariant groups == old(groups) && members == old(members) && groupPosts == old(groupPosts) && chat == old(chat)
      {
        assert list[..i + 1][..i] == list[..i];
        var _ := UpdateUserGroupCount(list[i].userId, false);
      }
      assert list[..|list|] == list;
    }

    /** `CreateGroup`: the group row, then the creator as an accepted admin. */
    method CreateGroup(group: Group)
      requires NonNegative(stats)
      requires forall m :: m in members ==> m.groupId != group.id
      modifies this
      ensures groups == old(groups)[group.id := group]
      ensures members == old(members) + [Member(group.id, group.creatorId, Admin, Accepted, "")]
      ensures stats == Bump(old(stats), group.creatorId, GroupsJoined, true)
      ensures groupPosts == old(groupPosts) && chat == old(chat)
      ensures old(Valid()) ==> Valid()
    {
      groups := groups[group.id := group];
      AddMember(Member(group.id, group.creatorId, Admin, Accepted, ""));
    }

    /** `CreateGroupPost`: the row is stored under the id it was given. */
    method CreateGroupPost(post: GroupPost)
      modifies this
      ensures groupPosts == old(groupPosts)[post.id := post]
      ensures groups == old(groups) && members == old(members) && stats == old(stats) && chat == old(chat)
    {
      groupPosts := groupPosts[post.id := post];
    }

    /** `DeleteGroupPost`. */
    method DeleteGroupPost(id: int)
      modifies this
      ensures groupPosts == old(groupPosts) - {id}
      ensures groups == old(groups) && members == old(members) && stats == old(stats) && chat == old(chat)
    {
      groupPosts := groupPosts - {id};
    }

    /** `AddChatMessage`: the row gets the next autoincrement id. */
    method AddChatMessage(g: string, u: string, content: string, now: int) returns (message: ChatMessage)
      modifies this
      ensures message == ChatMessage(|old(chat)| + 1, g, u, content, now)
      ensures chat == old(chat) + [message]
      ensures groups == old(groups) && members == old(members) && stats == old(stats) && groupPosts == old(groupPosts)
    {
      message := ChatMessage(|chat| + 1, g, u, content, now);
      chat := chat + [message];
    }
  }

  /** The store invariant over values. */
  ghost predicate ValidRows(rows: seq<Member>, stats: Table)
  {
    Uniform(rows) && KnownStatuses(rows) && NonNegative(stats) && CountsTrack(rows, stats)
  }

  /** Appending a row of the pair's status (an accepted one only for a new pair) keeps the invariant. */
  lemma ValidAfterAppend(rows: seq<Member>, stats: Table, m: Member)
    requires ValidRows(rows, stats)
    requires m.status == Pending || m.status == Accepted
    requires forall r :: r in rows && r.Of(m.groupId, m.userId) ==> r.status == m.status
    requires m.status == Accepted ==> FirstMember(rows, m.groupId, m.userId).None?
    ensures ValidRows(rows + [m], if m.status == Accepted then Bump(stats, m.userId, GroupsJoined, true) else stats)
  {
    UniformAfterAppend(rows, m);
    BumpStep(stats, m.userId, GroupsJoined, true);
    CountsAfterAppend(rows, stats, m);
  }

  lemma CountsAfterAppend(rows: seq<Member>, stats: Table, m: Member)
    requires CountsTrack(rows, stats) && NonNegative(stats)
    requires m.status == Accepted ==> FirstMember(rows, m.groupId, m.userId).None?
    ensures CountsTrack(rows + [m], if m.status == Accepted then Bump(stats, m.userId, GroupsJoined, true) else stats)
  {
    var stats' := if m.status == Accepted then Bump(stats, m.userId, GroupsJoined, true) else stats;
    BumpStep(stats, m.userId, GroupsJoined, true);
    forall u
      ensures Get(stats', u, GroupsJoined) == |AcceptedGroups(rows + [m], u)|
    {
      AcceptedAfterAppend(rows, m, u);
    }
  }

  /** Setting a known status on every row of an existing pair keeps the invariant, with the counter step. */
  lemma ValidAfterWithStatus(rows: seq<Member>, stats: Table, g: string, u: string, status: string)
    requires ValidRows(rows, stats)
    requires FirstMember(rows, g, u).Some?
    requires status == Pending || status == Accepted
    ensures var was := FirstMember(rows, g, u).value.status;
      ValidRows(WithStatus(rows, g, u, status),
        if was != Accepted && status == Accepted then Bump(stats, u, GroupsJoined, true)
        else if was == Accepted && status != Accepted then Bump(stats, u, GroupsJoined, false)
        else stats)
  {
    CountsAfterWithStatus(rows, stats, g, u, status);
    UniformAfterWithStatus(rows, g, u, status);
  }

  lemma CountsAfterWithStatus(rows: seq<Member>, stats: Table, g: string, u: string, status: string)
    requires ValidRows(rows, stats)
    requires FirstMember(rows, g, u).Some?
    ensures var was := FirstMember(rows, g, u).value.status;
      CountsTrack(WithStatus(rows, g, u, status),
        if was != Accepted && status == Accepted then Bump(stats, u, GroupsJoined, true)
        else if was == Accepted && status != Accepted then Bump(stats, u, GroupsJoined, false)
        else stats)
  {
    var was := FirstMember(rows, g, u).value.status;
    var stats' := if was != Accepted && status == Accepted then Bump(stats, u, GroupsJoined, true)
      else if was == Accepted && status != Accepted then Bump(stats, u, GroupsJoined, false)
      else stats;
    AcceptedByFirst(rows, g, u);
    BumpStep(stats, u, GroupsJoined, true);
    BumpStep(stats, u, GroupsJoined, false);
    forall v
      ensures Get(stats', v, GroupsJoined) == |AcceptedGroups(WithStatus(rows, g, u, status), v)|
    {
      AcceptedAfterWithStatus(rows, g, u, status, v);
    }
  }

  lemma UniformAfterAppend(rows: seq<Member>, m: Member)
    requires Uniform(rows)
    requires forall r :: r in rows && r.Of(m.groupId, m.userId) ==> r.status == m.status
    ensures Uniform(rows + [m])
  {
    var after := rows + [m];
    forall i, j | 0 <= i < |after| && 0 <= j < |after| && after[i].Of(after[j].groupId, after[j].userId)
      ensures after[i].status == after[j].status
    {
      if i == |rows| && j < |rows| { assert rows[j] in rows; }
      if j == |rows| && i < |rows| { assert rows[i] in rows; }
    }
  }

  lemma UniformAfterWithStatus(rows: seq<Member>, g: string, u: string, status: string)
    requires Uniform(rows) && KnownStatuses(rows) && (status == Pending || status == Accepted)
    ensures Uniform(WithStatus(rows, g, u, status)) && KnownStatuses(WithStatus(rows, g, u, status))
  {
  }

  lemma UniformAfterWithout(rows: seq<Member>, g: string, u: string)
    requires Uniform(rows) && KnownStatuses(rows)
    ensures Uniform(Without(rows, g, u)) && KnownStatuses(Without(rows, g, u))
  {
    var r := Without(rows, g, u);
    forall i, j | 0 <= i < |r| && 0 <= j < |r| && r[i].Of(r[j].groupId, r[j].userId)
      ensures r[i].status == r[j].status
    {
      assert r[i] in r && r[j] in r;
      var a :| 0 <= a < |rows| && rows[a] == r[i];
      var b :| 0 <= b < |rows| && rows[b] == r[j];
    }
    forall i | 0 <= i < |r|
      ensures r[i].status == Pending || r[i].status == Accepted
    {
      assert r[i] in r;
      var a :| 0 <= a < |rows| && rows[a] == r[i];
    }
  }
}
