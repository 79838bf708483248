/**
 * The web client's group-chat hook for one group: the message list, the unread counter and the
 * list of users seen joining, each replaced by an updated copy on every event. Events for another
 * group are ignored. Request outcomes (`ok`) are parameters; group messages are stored as
 * `ClientMessage`s whose `receiverId` is the group id.
 */
module GroupChat {
  import opened Wrappers
  import opened ChatClient

  /** An entry of `activeUsers`. */
  datatype ActiveUser = ActiveUser(id: string, name: string, avatar: string, isOnline: bool)

  /** The hook's `messages`, `unreadCounts` (a single number here) and `activeUsers`. */
  datatype GroupChatState = GroupChatState(messages: seq<ClientMessage>, unread: int, activeUsers: seq<ActiveUser>)

  /** A `group_message` push. */
  datatype GroupPushed = GroupPushed(id: int, content: string, createdAt: int, groupId: string, senderId: string)

  /** A `group_messages_read` push. */
  datatype GroupRead = GroupRead(groupId: string, userId: string)

  /** A `group_user_joined` or `group_user_left` push. */
  datatype Presence = Presence(groupId: string, userId: string, userName: string, avatar: string)

  /** Whether the list already holds a message with that id. */
  predicate HasId(list: seq<ClientMessage>, id: MessageId)
  {
    exists i :: 0 <= i < |list| && list[i].id == id
  }

  /** The `data.filter(msg => !prev.some(m => m.id === msg.id))` of `loadMessages`, in page order. */
  function NewOnly(prev: seq<ClientMessage>, data: seq<ClientMessage>): (r: seq<ClientMessage>)
    ensures |r| <= |data|
  {
    if data == [] then []
    else
      var last := data[|data| - 1];
      NewOnly(prev, data[..|data| - 1]) + (if HasId(prev, last.id) then [] else [last])
  }

  /** The page's messages that come back are exactly those whose id the list does not hold yet. */
  lemma {:induction false} NewOnlyMembers(prev: seq<ClientMessage>, data: seq<ClientMessage>)
    ensures forall x :: x in NewOnly(prev, data) <==> x in data && !HasId(prev, x.id)
  {
    if data != [] {
      var init, last := data[..|data| - 1], data[|data| - 1];
      NewOnlyMembers(prev, init);
      assert data == init + [last];
    }
  }

  /** Filtering by `prev` after `prev` has taken the page in leaves nothing. */
  lemma {:induction false} NewOnlyOfKnown(prev: seq<ClientMessage>, data: seq<ClientMessage>)
    requires forall i :: 0 <= i < |data| ==> HasId(prev, data[i].id)
    ensures NewOnly(prev, data) == []
  {
    if data != [] {
      var init := data[..|data| - 1];
      assert forall i :: 0 <= i < |init| ==> init[i] == data[i];
      NewOnlyOfKnown(prev, init);
      assert HasId(prev, data[|data| - 1].id);
    }
  }

  /**
   * `loadMessages`: on failure nothing changes and `[]` is returned; an empty (`null`) response
   * empties the list; otherwise the page's messages with unseen ids are appended.
   */
  function LoadMessages(s: GroupChatState, ok: bool, data: Option<seq<ClientMessage>>): (r: (GroupChatState, seq<ClientMessage>))
    ensures !ok ==> r == (s, [])
    ensures ok && data.None? ==> r.0.messages == [] && r.1 == []
    ensures ok && data.Some? ==> r.1 == data.value && |s.messages| <= |r.0.messages| && r.0.messages[..|s.messages|] == s.messages
    ensures r.0.unread == s.unread && r.0.activeUsers == s.activeUsers
  {
    if !ok then (s, [])
    else match data
      case None => (s.(messages := []), [])
      case Some(page) =>
        var r := s.messages + NewOnly(s.messages, page);
        assert r[..|s.messages|] == s.messages;
        (s.(messages := r), page)
  }

  /** A load keeps what was there and adds each page message whose id was not there, and loading the same page again changes nothing. */
  lemma LoadMessagesEffect(s: GroupChatState, page: seq<ClientMessage>)
    ensures var m := LoadMessages(s, true, Some(page)).0.messages;
      (forall x :: x in m <==> x in s.messages || (x in page && !HasId(s.messages, x.id))) &&
      LoadMessages(LoadMessages(s, true, Some(page)).0, true, Some(page)).0.messages == m
  {
    var m := LoadMessages(s, true, Some(page)).0.messages;
    NewOnlyMembers(s.messages, page);
    assert m == s.messages + NewOnly(s.messages, page);
    forall i | 0 <= i < |page|
      ensures HasId(m, page[i].id)
    {
      if HasId(s.messages, page[i].id) {
        var j :| 0 <= j < |s.messages| && s.messages[j].id == page[i].id;
        assert m[j] == s.messages[j];
      } else {
        assert page[i] in NewOnly(s.messages, page);
        var j :| 0 <= j < |NewOnly(s.messages, page)| && NewOnly(s.messages, page)[j] == page[i];
        assert m[|s.messages| + j] == page[i];
      }
    }
    NewOnlyOfKnown(m, page);
    assert m + [] == m;
  }

  /** The stored form of a group push: a server message, unread, addressed to the group. */
  function FromGroupPush(p: GroupPushed): (m: ClientMessage)
    ensures m.id == Server(p.id) && !m.isTemp && !m.isRead
    ensures m.senderId == p.senderId && m.receiverId == p.groupId && m.content == p.content && m.createdAt == p.createdAt
  {
    ClientMessage(Server(p.id), p.senderId, p.groupId, p.content, p.createdAt, false, false)
  }

  /**
   * The `GROUP_MESSAGE` handler: a push for another group, or none, is ignored; otherwise it is
   * merged like a private message and counted unread when another user sent it.
   */
  function OnGroupMessage(s: GroupChatState, me: string, groupId: string, payload: Option<GroupPushed>): (r: GroupChatState)
    ensures payload.None? || payload.value.groupId != groupId ==> r == s
    ensures payload.Some? && payload.value.groupId == groupId ==>
      r.messages == Merged(s.messages, FromGroupPush(payload.value)) &&
      r.unread == (if payload.value.senderId != me then s.unread + 1 else s.unread)
    ensures r.activeUsers == s.activeUsers
  {
    match payload
    case None => s
    case Some(p) =>
      if p.groupId != groupId then s
      else
        var m := FromGroupPush(p);
        // every stored group push is unread, so only the sender decides
        s.(messages := Merged(s.messages, m), unread := if p.senderId != me then s.unread + 1 else s.unread)
  }

  /** After a push for this group the message is in the list by id, and a redelivery changes no message. */
  lemma GroupMessageFiled(s: GroupChatState, me: string, groupId: string, p: GroupPushed)
    requires p.groupId == groupId
    ensures var r := OnGroupMessage(s, me, groupId, Some(p));
      HasId(r.messages, Server(p.id)) && OnGroupMessage(r, me, groupId, Some(p)).messages == r.messages
  {
    MergedEffect(s.messages, FromGroupPush(p));
    MergedIdempotent(s.messages, FromGroupPush(p));
  }

  /** `isRead := true` on every unread message of the list. */
  function AllRead(list: seq<ClientMessage>): (r: seq<ClientMessage>)
    ensures |r| == |list|
    ensures forall i :: 0 <= i < |list| ==> r[i] == list[i].(isRead := true)
  {
    seq(|list|, i requires 0 <= i < |list| => if !list[i].isRead then list[i].(isRead := true) else list[i])
  }

  /** The `GROUP_MESSAGES_READ` handler: when this user read the group, the counter is 0 and every message is read. */
  function OnGroupRead(s: GroupChatState, me: string, groupId: string, payload: Option<GroupRead>): (r: GroupChatState)
    ensures payload.Some? && payload.value.groupId == groupId && payload.value.userId == me ==>
      r.unread == 0 && r.messages == AllRead(s.messages) && forall i :: 0 <= i < |r.messages| ==> r.messages[i].isRead
    ensures !(payload.Some? && payload.value.groupId == groupId && payload.value.userId == me) ==> r == s
    ensures r.activeUsers == s.activeUsers
  {
    match payload
    case None => s
    case Some(p) =>
      if p.groupId != groupId || p.userId != me then s
      else s.(unread := 0, messages := AllRead(s.messages))
  }

  /** Whether the list holds a user with that id. */
  predicate Listed(users: seq<ActiveUser>, id: string)
  {
    exists i :: 0 <= i < |users| && users[i].id == id
  }

  /** The `GROUP_USER_JOINED` handler: the user is appended, online, unless already listed. */
  function OnUserJoined(s: GroupChatState, groupId: string, payload: Option<Presence>): (r: GroupChatState)
    ensures payload.None? || payload.value.groupId != groupId || Listed(s.activeUsers, payload.value.userId) ==> r == s
    ensures payload.Some? && payload.value.groupId == groupId && !Listed(s.activeUsers, payload.value.userId) ==>
      r.activeUsers == s.activeUsers + [ActiveUser(payload.value.userId, payload.value.userName, payload.value.avatar, true)]
    ensures r.messages == s.messages && r.unread == s.unread
  {
    match payload
    case None => s
    case Some(p) =>
      if p.groupId != groupId || Listed(s.activeUsers, p.userId) then s
      else s.(activeUsers := s.activeUsers + [ActiveUser(p.userId, p.userName, p.avatar, true)])
  }

  /** The `filter(user => user.id !== userId)` of the leave handler. */
  function WithoutUser(users: seq<ActiveUser>, id: string): seq<ActiveUser>
  {
    if users == [] then []
    else WithoutUser(users[..|users| - 1], id) + (if users[|users| - 1].id == id then [] else [users[|users| - 1]])
  }

  /** The leave filter keeps exactly the users with another id, in order. */
  lemma {:induction false} WithoutUserMembers(users: seq<ActiveUser>, id: string)
    ensures forall x :: x in WithoutUser(users, id) <==> x in users && x.id != id
    ensures !Listed(users, id) ==> WithoutUser(users, id) == users
  {
    if users != [] {
      var init, last := users[..|users| - 1], users[|users| - 1];
      WithoutUserMembers(init, id);
      assert users == init + [last];
      if !Listed(users, id) {
        assert forall i :: 0 <= i < |init| ==> init[i] == users[i];
        assert last.id != id;
      }
    }
  }

  /** The `GROUP_USER_LEFT` handler: every entry with that user id is removed. */
  function OnUserLeft(s: GroupChatState, groupId: string, payload: Option<Presence>): (r: GroupChatState)
    ensures payload.None? || payload.value.groupId != groupId ==> r == s
    ensures payload.Some? && payload.value.groupId == groupId ==> r.activeUsers == WithoutUser(s.activeUsers, payload.value.userId)
    ensures r.messages == s.messages && r.unread == s.unread
  {
    match payload
    case None => s
    case Some(p) =>
      if p.groupId != groupId then s
      else s.(activeUsers := WithoutUser(s.activeUsers, p.userId))
  }

  /** A join is idempotent, and a leave removes the user so that nobody with that id is listed. */
  lemma JoinLeave(s: GroupChatState, groupId: string, p: Presence)
    requires p.groupId == groupId
    ensures var joined := OnUserJoined(s, groupId, Some(p));
      Listed(joined.activeUsers, p.userId) && OnUserJoined(joined, groupId, Some(p)) == joined
    ensures !Listed(OnUserLeft(s, groupId, Some(p)).activeUsers, p.userId)
    ensures forall u :: u in s.activeUsers && u.id != p.userId ==> u in OnUserLeft(s, groupId, Some(p)).activeUsers
  {
    var joined := OnUserJoined(s, groupId, Some(p));
    if !Listed(s.activeUsers, p.userId) {
      assert joined.activeUsers[|s.activeUsers|].id == p.userId;
    }
    var left := OnUserLeft(s, groupId, Some(p)).activeUsers;
    WithoutUserMembers(s.activeUsers, p.userId);
    assert forall i :: 0 <= i < |left| ==> left[i] in left;
  }
}
