/**
 * The private chat repository: the `private_messages` rows in insertion order, which is taken
 * to be their `created_at` order, and, read only, the `followers` rows and each user's
 * `is_public` flag. Rows are never deleted, so the autoincrement id of the k-th row is k.
 */
module ChatRepository {
  import opened Wrappers
  import Text
  import FollowRepository
  import GroupRepository

  datatype Message = Message(id: int, senderId: string, receiverId: string, content: string, createdAt: int, isRead: bool)

  /** A message of the conversation between `a` and `b`, in either direction. */
  predicate Between(m: Message, a: string, b: string)
  {
    (m.senderId == a && m.receiverId == b) || (m.senderId == b && m.receiverId == a)
  }

  /** `CanSendMessage`: a follow in either direction, or a public receiver. */
  function CanSendMessage(links: seq<FollowRepository.Link>, isPublic: map<string, bool>, sender: string, receiver: string): (b: bool)
    ensures b <==>
      (exists l :: l in links && ((l.follower == sender && l.following == receiver) || (l.follower == receiver && l.following == sender))) ||
      (receiver in isPublic && isPublic[receiver])
  {
    FollowRepository.IsFollowing(links, sender, receiver) || FollowRepository.IsFollowing(links, receiver, sender) ||
    (receiver in isPublic && isPublic[receiver])
  }

  /**
   * The follow half of the permission is symmetric: asking with the two users swapped gives a
   * different answer only when no follow joins them and exactly one of them is public.
   */
  lemma {:induction false} CanSendSwapped(links: seq<FollowRepository.Link>, isPublic: map<string, bool>, a: string, b: string)
    ensures CanSendMessage(links, isPublic, a, b) != CanSendMessage(links, isPublic, b, a) ==>
      !FollowRepository.IsFollowing(links, a, b) && !FollowRepository.IsFollowing(links, b, a) &&
      ((b in isPublic && isPublic[b]) != (a in isPublic && isPublic[a]))
  {
  }

  /** Ids strictly ascending, that is, oldest first. */
  predicate Ascending(ms: seq<Message>)
  {
    forall i, j :: 0 <= i < j < |ms| ==> ms[i].id < ms[j].id
  }

  /** The rows between `a` and `b`, in table order. */
  function Conversation(messages: seq<Message>, a: string, b: string): (r: seq<Message>)
    ensures forall m :: m in r <==> m in messages && Between(m, a, b)
    ensures Ascending(messages) ==> Ascending(r)
  {
    if messages == [] then []
    else
      var rest := Conversation(messages[1..], a, b);
      assert forall k :: 0 <= k < |rest| ==> rest[k] in messages[1..];
      (if Between(messages[0], a, b) then [messages[0]] else []) + rest
  }

  /**
   * `LIMIT limit OFFSET offset` as SQLite reads them: a negative offset counts as 0 and a
   * negative limit means no limit.
   */
  function Window<T>(rows: seq<T>, limit: int, offset: int): (r: seq<T>)
    ensures var start := if offset <= 0 then 0 else if offset < |rows| then offset else |rows|;
      (forall i :: 0 <= i < |r| ==> start + i < |rows| && r[i] == rows[start + i]) &&
      |r| == if 0 <= limit < |rows| - start then limit else |rows| - start
    ensures limit >= 0 ==> |r| <= limit
    ensures offset <= 0 && (limit < 0 || limit >= |rows|) ==> r == rows
  {
    var start := if offset <= 0 then 0 else if offset < |rows| then offset else |rows|;
    if 0 <= limit < |rows| - start then rows[start..start + limit] else rows[start..]
  }

  /**
   * `GetMessagesBetweenUsers`: the conversation newest first, one page of it, and that page
   * turned back to oldest first.
   */
  function MessagesBetween(messages: seq<Message>, a: string, b: string, limit: int, offset: int): (r: seq<Message>)
    ensures forall m :: m in r ==> m in messages && Between(m, a, b)
    ensures Ascending(messages) ==> Ascending(r)
    ensures limit >= 0 ==> |r| <= limit
  {
    var conversation := Conversation(messages, a, b);
    var r := GroupRepository.Reversed(Window(GroupRepository.Reversed(conversation), limit, offset));
    PageOfConversation(conversation, limit, offset);
    r
  }

  /** A page taken newest first and turned back holds rows of the sequence, oldest first. */
  lemma PageOfConversation(conversation: seq<Message>, limit: int, offset: int)
    ensures var r := GroupRepository.Reversed(Window(GroupRepository.Reversed(conversation), limit, offset));
      (forall m :: m in r ==> m in conversation) && (Ascending(conversation) ==> Ascending(r))
  {
    var newest := GroupRepository.Reversed(conversation);
    var page := Window(newest, limit, offset);
    var r := GroupRepository.Reversed(page);
    var start := if offset <= 0 then 0 else if offset < |newest| then offset else |newest|;
    assert forall i :: 0 <= i < |r| ==> r[i] == conversation[|conversation| - 1 - (start + |page| - 1 - i)] by {
      forall i | 0 <= i < |r| ensures r[i] == conversation[|conversation| - 1 - (start + |page| - 1 - i)] {
        assert r[i] == page[|page| - 1 - i] == newest[start + |page| - 1 - i];
      }
    }
  }

  /** The unread messages `sender` sent to `u`. */
  function UnreadFrom(messages: seq<Message>, sender: string, u: string): (n: nat)
    ensures n <= |messages|
  {
    if messages == [] then 0
    else
      var last := messages[|messages| - 1];
      UnreadFrom(messages[..|messages| - 1], sender, u) + (if last.senderId == sender && last.receiverId == u && !last.isRead then 1 else 0)
  }

  /** There is nothing unread from `sender` to `u` exactly when every such message is read. */
  lemma {:induction false} NoUnreadFrom(messages: seq<Message>, sender: string, u: string)
    ensures UnreadFrom(messages, sender, u) == 0 <==>
      forall i :: 0 <= i < |messages| && messages[i].senderId == sender && messages[i].receiverId == u ==> messages[i].isRead
  {
    if messages != [] {
      var init := messages[..|messages| - 1];
      NoUnreadFrom(init, sender, u);
      assert forall i :: 0 <= i < |init| ==> init[i] == messages[i];
    }
  }

  /** `UPDATE private_messages SET is_read = 1 WHERE sender_id = ? AND receiver_id = ? AND is_read = 0`. */
  function MarkedRead(messages: seq<Message>, sender: string, receiver: string): (r: seq<Message>)
    ensures |r| == |messages|
    ensures forall i :: 0 <= i < |messages| ==>
      r[i] == if messages[i].senderId == sender && messages[i].receiverId == receiver then messages[i].(isRead := true) else messages[i]
  {
    seq(|messages|, i requires 0 <= i < |messages| =>
      if messages[i].senderId == sender && messages[i].receiverId == receiver then messages[i].(isRead := true) else messages[i])
  }

  /** After marking, nothing from `sender` to `receiver` is unread and every other pair keeps its count. */
  lemma {:induction false} MarkedReadCounts(messages: seq<Message>, sender: string, receiver: string, s: string, u: string)
    ensures UnreadFrom(MarkedRead(messages, sender, receiver), s, u) ==
      if s == sender && u == receiver then 0 else UnreadFrom(messages, s, u)
  {
    if messages != [] {
      var init := messages[..|messages| - 1];
      assert MarkedRead(messages, sender, receiver)[..|messages| - 1] == MarkedRead(init, sender, receiver);
      MarkedReadCounts(init, sender, receiver, s, u);
    }
  }

  /** SQLite's `content LIKE '%query%'`: a substring test, case-insensitive for ASCII letters. */
  predicate Like(content: string, query: string)
  {
    Text.Contains(Text.ToLower(content), Text.ToLower(query))
  }

  /** The scope of `SearchMessages`: the conversation with `other`, or every message of `u` when `other` is empty. */
  predicate InScope(m: Message, u: string, other: string)
  {
    if other != "" then Between(m, u, other) else m.senderId == u || m.receiverId == u
  }

  /** The messages in scope whose content matches, in table order. */
  function Matching(messages: seq<Message>, u: string, query: string, other: string): (r: seq<Message>)
    ensures forall m :: m in r <==> m in messages && InScope(m, u, other) && Like(m.content, query)
  {
    if messages == [] then []
    else
      (if InScope(messages[0], u, other) && Like(messages[0].content, query) then [messages[0]] else [])
      + Matching(messages[1..], u, query, other)
  }

  /** `SearchMessages`: the matching messages in scope, newest first, at most `limit` of them. */
  function SearchMessages(messages: seq<Message>, u: string, query: string, other: string, limit: int): (r: seq<Message>)
    ensures forall m :: m in r ==> m in messages && InScope(m, u, other) && Like(m.content, query)
    ensures limit >= 0 ==> |r| <= limit
    ensures limit < 0 ==> |r| == |Matching(messages, u, query, other)|
  {
    var matching := Matching(messages, u, query, other);
    var r := Window(GroupRepository.Reversed(matching), limit, 0);
    assert forall m :: m in r ==> m in matching by {
      forall m | m in r ensures m in matching {
        var i :| 0 <= i < |r| && r[i] == m;
        assert r[i] == matching[|matching| - 1 - i];
      }
    }
    r
  }

  /** Rows are never deleted, so ids run 1, 2, 3, ... in table order. */
  predicate Numbered(messages: seq<Message>)
  {
    forall i :: 0 <= i < |messages| ==> messages[i].id == i + 1
  }

  lemma NumberedAscending(messages: seq<Message>)
    requires Numbered(messages)
    ensures Ascending(messages)
  {
  }

  class ChatStore {
    var messages: seq<Message>
    var links: seq<FollowRepository.Link>
    var isPublic: map<string, bool>

    ghost predicate Valid()
      reads this
    {
      Numbered(messages)
    }

    constructor(links: seq<FollowRepository.Link>, isPublic: map<string, bool>)
      ensures this.links == links && this.isPublic == isPublic && messages == []
      ensures Valid()
    {
      this.links, this.isPublic := links, isPublic;
      messages := [];
    }

    /** `SaveMessage`: the row is inserted and receives the next id. */
    method SaveMessage(m: Message) returns (saved: Message)
      modifies this
      ensures saved == m.(id := |old(messages)| + 1)
      ensures messages == old(messages) + [saved]
      ensures old(Valid()) ==> Valid()
      ensures links == old(links) && isPublic == old(isPublic)
    {
      saved := m.(id := |messages| + 1);
      messages := messages + [saved];
    }

    /** `GetMessagesBetweenUsers`: the page is read newest first and reversed in place. */
    method GetMessagesBetweenUsers(a: string, b: string, limit: int, offset: int) returns (r: seq<Message>)
      ensures r == MessagesBetween(messages, a, b, limit, offset)
    {
      var page := Window(GroupRepository.Reversed(Conversation(messages, a, b)), limit, offset);
      var rows := new Message[|page|](i requires 0 <= i < |page| => page[i]);
      assert rows[..] == page;
      GroupRepository.ReverseInPlace(rows);
      r := rows[..];
      assert r == GroupRepository.Reversed(page);
    }

    /** `GetUnreadMessagesCount`: each sender with unread messages to `u`, mapped to how many. */
    method GetUnreadMessagesCount(u: string) returns (counts: map<string, nat>)
      ensures forall s :: s in counts <==> UnreadFrom(messages, s, u) > 0
      ensures forall s :: s in counts ==> counts[s] == UnreadFrom(messages, s, u)
    {
      counts := map[];
      var i := 0;
      while i < |messages|
        invariant 0 <= i <= |messages|
        invariant forall s :: s in counts <==> UnreadFrom(messages[..i], s, u) > 0
        invariant forall s :: s in counts ==> counts[s] == UnreadFrom(messages[..i], s, u)
      {
        var m := messages[i];
        assert messages[..i + 1][..i] == messages[..i];
        if m.receiverId == u && !m.isRead {
          var before := if m.senderId in counts then counts[m.senderId] else 0;
          counts := counts[m.senderId := before + 1];
        }
        i := i + 1;
      }
      assert messages[..i] == messages;
    }

    /** `MarkMessagesAsRead`. */
    method MarkMessagesAsRead(sender: string, receiver: string)
      modifies this
      ensures messages == MarkedRead(old(messages), sender, receiver)
      ensures UnreadFrom(messages, sender, receiver) == 0
      ensures old(Valid()) ==> Valid()
      ensures links == old(links) && isPublic == old(isPublic)
    {
      MarkedReadCounts(messages, sender, receiver, sender, receiver);
      messages := MarkedRead(messages, sender, receiver);
    }
  }
}
