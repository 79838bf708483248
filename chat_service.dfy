/**
 * The private chat service: the permission guard in front of sending, reading, marking read and
 * typing. The WebSocket notifications it starts and the sender/receiver look-ups that only
 * decorate the reply are not modelled; the clock is the parameter `now`.
 */
module ChatService {
  import opened Wrappers
  import opened ChatRepository

  /** A message appended behind the rows adds one to its pair's unread count when it is unread. */
  lemma UnreadAfterAppend(messages: seq<Message>, m: Message, s: string, u: string)
    ensures UnreadFrom(messages + [m], s, u) ==
      UnreadFrom(messages, s, u) + (if m.senderId == s && m.receiverId == u && !m.isRead then 1 else 0)
  {
    assert (messages + [m])[..|messages|] == messages;
  }

  /** `SendMessage`: stored unread, and only when the sender may write to the receiver. */
  method SendMessage(store: ChatStore, sender: string, receiver: string, content: string, now: int) returns (r: Result<Message>)
    modifies store
    ensures r.Ok? <==> CanSendMessage(store.links, store.isPublic, sender, receiver)
    ensures r.Err? ==> r == Err("you cannot send messages to this user") && store.messages == old(store.messages)
    ensures r.Ok? ==> r.value == Message(|old(store.messages)| + 1, sender, receiver, content, now, false)
    ensures r.Ok? ==> store.messages == old(store.messages) + [r.value]
    ensures r.Ok? ==> UnreadFrom(store.messages, sender, receiver) == UnreadFrom(old(store.messages), sender, receiver) + 1
    ensures old(store.Valid()) ==> store.Valid()
    ensures store.links == old(store.links) && store.isPublic == old(store.isPublic)
  {
    if !CanSendMessage(store.links, store.isPublic, sender, receiver) {
      return Err("you cannot send messages to this user");
    }
    UnreadAfterAppend(store.messages, Message(|store.messages| + 1, sender, receiver, content, now, false), sender, receiver);
    var saved := store.SaveMessage(Message(0, sender, receiver, content, now, false));
    return Ok(saved);
  }

  /** `GetMessages`: one page of the conversation, oldest first, behind the same guard. */
  method GetMessages(store: ChatStore, a: string, b: string, limit: int, offset: int) returns (r: Result<seq<Message>>)
    ensures r.Ok? <==> CanSendMessage(store.links, store.isPublic, a, b)
    ensures r.Err? ==> r == Err("you cannot view messages with this user")
    ensures r.Ok? ==> r.value == MessagesBetween(store.messages, a, b, limit, offset)
    ensures r.Ok? ==> forall m :: m in r.value ==> m in store.messages && Between(m, a, b)
  {
    if !CanSendMessage(store.links, store.isPublic, a, b) {
      return Err("you cannot view messages with this user");
    }
    var page := store.GetMessagesBetweenUsers(a, b, limit, offset);
    return Ok(page);
  }

  /**
   * `MarkAsRead`: the receiver marks what the sender sent; the guard asks whether the receiver
   * may write to the sender (the arguments swapped).
   */
  method MarkAsRead(store: ChatStore, sender: string, receiver: string) returns (r: Status)
    modifies store
    ensures r.Success? <==> CanSendMessage(store.links, store.isPublic, receiver, sender)
    ensures r.Failure? ==> r == Failure("you cannot mark messages as read from this user") && store.messages == old(store.messages)
    ensures r.Success? ==> store.messages == MarkedRead(old(store.messages), sender, receiver)
    ensures r.Success? ==> UnreadFrom(store.messages, sender, receiver) == 0
    ensures old(store.Valid()) ==> store.Valid()
    ensures store.links == old(store.links) && store.isPublic == old(store.isPublic)
  {
    if !CanSendMessage(store.links, store.isPublic, receiver, sender) {
      return Failure("you cannot mark messages as read from this user");
    }
    store.MarkMessagesAsRead(sender, receiver);
    return Success;
  }

  /** `SendTypingIndicator`: allowed exactly when a message would be. */
  function SendTypingIndicator(store: ChatStore, sender: string, receiver: string): (r: Status)
    reads store
    ensures r.Success? <==> CanSendMessage(store.links, store.isPublic, sender, receiver)
    ensures r.Failure? ==> r == Failure("you cannot send typing indicators to this user")
  {
    if CanSendMessage(store.links, store.isPublic, sender, receiver) then Success
    else Failure("you cannot send typing indicators to this user")
  }
}
