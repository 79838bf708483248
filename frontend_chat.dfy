/**
 * The web client's private-chat hook: its state is three plain objects (messages per contact,
 * typing stamps, unread counters) that every event replaces with an updated copy. Each updater
 * is a function from the old state to the new one; request outcomes (`ok`) are parameters.
 */
module FrontendChat {
  import opened Wrappers
  import opened ChatClient

  /** The hook's `messages`, `typingUsers` and `unreadCounts`. */
  datatype ChatState = ChatState(
    messages: map<string, seq<ClientMessage>>, typing: map<string, int>, unread: map<string, int>)

  /** The delay after which a typing indicator's timer fires, in milliseconds. */
  const TypingDelayMs := 3000

  /** A timer armed by a typing indicator: after `delayMs` it expires the sender's entry if it still holds `armed`. */
  datatype TypingTimer = TypingTimer(sender: string, armed: int, delayMs: int)

  /** `loadMessages`: on success the contact's list becomes the fetched page; on failure nothing changes and `[]` is returned. */
  function LoadMessages(s: ChatState, contact: string, ok: bool, data: seq<ClientMessage>): (r: (ChatState, seq<ClientMessage>))
    ensures ok ==> r.1 == data && contact in r.0.messages && r.0.messages[contact] == data
    ensures !ok ==> r == (s, [])
    ensures forall c :: c != contact ==> ListOf(r.0.messages, c) == ListOf(s.messages, c)
    ensures r.0.typing == s.typing && r.0.unread == s.unread
  {
    if ok then (s.(messages := s.messages[contact := data]), data) else (s, [])
  }

  /** The `PRIVATE_MESSAGE` handler: merge into the other party's list, then count it when it is unread and addressed to `me`. */
  function OnPrivateMessage(s: ChatState, me: string, payload: Option<Pushed>): (r: ChatState)
    ensures payload.None? ==> r == s
    ensures payload.Some? ==> var p := payload.value; var c := ContactOf(me, p.senderId, p.receiverId);
      r.messages == s.messages[c := Merged(ListOf(s.messages, c), FromServer(p))] &&
      r.unread == Counted(s.unread, me, p)
    ensures r.typing == s.typing
  {
    match payload
    case None => s
    case Some(p) =>
      var c := ContactOf(me, p.senderId, p.receiverId);
      ChatState(s.messages[c := Merged(ListOf(s.messages, c), FromServer(p))], s.typing, Counted(s.unread, me, p))
  }

  /**
   * After a push the message is in the other party's list by its server id, no temp copy of it
   * remains there, and every other conversation is unchanged.
   */
  lemma PrivateMessageFiled(s: ChatState, me: string, p: Pushed)
    ensures var c := ContactOf(me, p.senderId, p.receiverId); var r := OnPrivateMessage(s, me, Some(p));
      c in r.messages &&
      (exists i :: 0 <= i < |r.messages[c]| && r.messages[c][i].id == Server(p.messageId)) &&
      (forall i :: 0 <= i < |r.messages[c]| ==> !TempMatch(r.messages[c][i], FromServer(p))) &&
      (forall d :: d != c ==> ListOf(r.messages, d) == ListOf(s.messages, d))
  {
    var c := ContactOf(me, p.senderId, p.receiverId);
    MergedEffect(ListOf(s.messages, c), FromServer(p));
  }

  /**
   * A push delivered twice leaves the message lists as one delivery does, but an unread message
   * addressed to `me` is counted twice.
   */
  lemma PrivateMessageRedelivered(s: ChatState, me: string, p: Pushed)
    ensures var once := OnPrivateMessage(s, me, Some(p)); var twice := OnPrivateMessage(once, me, Some(p));
      twice.messages == once.messages &&
      (p.receiverId == me && !p.isRead ==> CountOf(twice.unread, p.senderId) == CountOf(s.unread, p.senderId) + 2)
  {
    var c := ContactOf(me, p.senderId, p.receiverId);
    MergedIdempotent(ListOf(s.messages, c), FromServer(p));
  }

  /** The `MESSAGES_READ` handler: as the sender, `me`'s messages to the reader become read; as the reader, the counter drops to 0. */
  function OnMessagesRead(s: ChatState, me: string, payload: Option<ReadReceipt>): (r: ChatState)
    ensures payload.Some? && payload.value.senderId == me ==>
      r.messages == s.messages[payload.value.receiverId := MarkedFrom(ListOf(s.messages, payload.value.receiverId), me)]
    ensures !(payload.Some? && payload.value.senderId == me) ==> r.messages == s.messages
    ensures payload.Some? && payload.value.receiverId == me ==> r.unread == s.unread[payload.value.senderId := 0]
    ensures !(payload.Some? && payload.value.receiverId == me) ==> r.unread == s.unread
    ensures r.typing == s.typing
  {
    match payload
    case None => s
    case Some(p) =>
      var s1 := if p.senderId == me then s.(messages := s.messages[p.receiverId := MarkedFrom(ListOf(s.messages, p.receiverId), me)]) else s;
      if p.receiverId == me then s1.(unread := s1.unread[p.senderId := 0]) else s1
  }

  /** After a receipt for `me`'s messages, none of them in that conversation is unread, and nothing else in it changed. */
  lemma MessagesReadEffect(s: ChatState, me: string, reader: string)
    ensures var r := OnMessagesRead(s, me, Some(ReadReceipt(me, reader)));
      var before := ListOf(s.messages, reader); var after := ListOf(r.messages, reader);
      |after| == |before| &&
      (forall i :: 0 <= i < |after| && after[i].senderId == me ==> after[i].isRead) &&
      (forall i :: 0 <= i < |before| && before[i].senderId != me ==> after[i] == before[i])
  {
    MarkedFromEffect(ListOf(s.messages, reader), me);
  }

  /** The `USER_TYPING` handler: the stamp is stored and a 3-second timer is armed with it. */
  function OnTyping(s: ChatState, sender: string, stamp: int): (r: (ChatState, TypingTimer))
    ensures sender in r.0.typing && r.0.typing[sender] == stamp
    ensures forall v :: v != sender ==> (v in r.0.typing <==> v in s.typing) && (v in s.typing ==> r.0.typing[v] == s.typing[v])
    ensures r.1 == TypingTimer(sender, stamp, TypingDelayMs)
    ensures r.0.messages == s.messages && r.0.unread == s.unread
  {
    (s.(typing := s.typing[sender := stamp]), TypingTimer(sender, stamp, TypingDelayMs))
  }

  /** A timer firing: the sender's entry goes only if it still holds the armed stamp. */
  function OnTimer(s: ChatState, t: TypingTimer): (r: ChatState)
    ensures r.typing == TypingExpired(s.typing, t.sender, t.armed)
    ensures r.messages == s.messages && r.unread == s.unread
  {
    s.(typing := TypingExpired(s.typing, t.sender, t.armed))
  }

  /**
   * An indicator followed by its own timer clears the sender; a newer indicator arriving in
   * between survives the older timer.
   */
  lemma TypingTimerClears(s: ChatState, sender: string, older: int, newer: int)
    requires older != newer
    ensures var (s1, t) := OnTyping(s, sender, older); OnTimer(s1, t).typing == s.typing - {sender}
    ensures var (s1, t1) := OnTyping(s, sender, older); var (s2, t2) := OnTyping(s1, sender, newer);
      var s3 := OnTimer(s2, t1);
      sender in s3.typing && s3.typing[sender] == newer && OnTimer(s3, t2).typing == s.typing - {sender}
  {
    var (s1, t) := OnTyping(s, sender, older);
    assert OnTimer(s1, t).typing == s.typing[sender := older] - {sender};
    assert s.typing[sender := older] - {sender} == s.typing - {sender};
    var (s2, t2) := OnTyping(s1, sender, newer);
    assert s2.typing - {sender} == s.typing - {sender};
  }

  /** `markMessagesAsRead`: on success the sender's counter is 0 and the sender's unread messages are read. */
  function MarkMessagesAsRead(s: ChatState, sender: string, ok: bool): (r: (ChatState, bool))
    ensures r.1 == ok
    ensures ok ==> (r.0.unread == s.unread[sender := 0] &&
      r.0.messages == s.messages[sender := MarkedFrom(ListOf(s.messages, sender), sender)])
    ensures !ok ==> r.0 == s
    ensures r.0.typing == s.typing
  {
    if ok then (ChatState(s.messages[sender := MarkedFrom(ListOf(s.messages, sender), sender)], s.typing, s.unread[sender := 0]), true)
    else (s, false)
  }
}
