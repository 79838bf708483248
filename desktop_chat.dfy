/**
 * The desktop client's chat store: per-contact message lists, typing entries, unread counters
 * and the contact list, updated in place by WebSocket pushes and by the outcomes of its HTTP
 * calls. A request's outcome (`ok`) and the clock are parameters; desktop notifications, the
 * badge count and the listener calls are not modelled.
 */
module DesktopChat {
  import opened Wrappers
  import opened ChatClient

  /** A contact row of the chat sidebar. */
  datatype Contact = Contact(userId: string, name: string, lastMessage: string, lastMessageSenderId: string, lastSent: int, unreadCount: int)

  /** The first contact with the id, if any. */
  function FindContact(contacts: seq<Contact>, id: string): (k: Option<nat>)
    ensures k.Some? ==> (k.value < |contacts| && contacts[k.value].userId == id &&
      forall j :: 0 <= j < k.value ==> contacts[j].userId != id)
    ensures k.None? ==> forall j :: 0 <= j < |contacts| ==> contacts[j].userId != id
  {
    if contacts == [] then None
    else if contacts[0].userId == id then Some(0)
    else match FindContact(contacts[1..], id)
      case None => None
      case Some(k) => Some(k + 1)
  }

  /** `updateContactWithLatestMessage`: the first contact with the id takes the message; no match, no change. */
  function ContactUpdated(contacts: seq<Contact>, id: string, m: ClientMessage, unread: int): (r: seq<Contact>)
    ensures |r| == |contacts|
    ensures FindContact(contacts, id).None? ==> r == contacts
    ensures FindContact(contacts, id).Some? ==> var k := FindContact(contacts, id).value;
      r[k] == contacts[k].(lastMessage := m.content, lastMessageSenderId := m.senderId, lastSent := m.createdAt, unreadCount := unread) &&
      forall j :: 0 <= j < |contacts| && j != k ==> r[j] == contacts[j]
  {
    match FindContact(contacts, id)
    case None => contacts
    case Some(k) =>
      contacts[k := contacts[k].(lastMessage := m.content, lastMessageSenderId := m.senderId, lastSent := m.createdAt, unreadCount := unread)]
  }

  /** Only contacts with that id can change. */
  lemma ContactUpdatedOthers(contacts: seq<Contact>, id: string, m: ClientMessage, unread: int)
    ensures forall j :: 0 <= j < |contacts| && contacts[j].userId != id ==> ContactUpdated(contacts, id, m, unread)[j] == contacts[j]
  {
  }

  class ChatService {
    const me: string
    var messages: map<string, seq<ClientMessage>>
    var typing: map<string, int>
    var unreadCounts: map<string, int>
    var contacts: seq<Contact>

    constructor(me: string)
      ensures this.me == me && messages == map[] && typing == map[] && unreadCounts == map[] && contacts == []
    {
      this.me := me;
      messages, typing, unreadCounts, contacts := map[], map[], map[], [];
    }

    /**
     * `handleNewMessage`: the message is merged into the other party's list, counted unread when
     * it is addressed to this user and unread, and shown on that contact's row.
     */
    method HandleNewMessage(payload: Option<Pushed>)
      modifies this
      ensures payload.None? ==> messages == old(messages) && unreadCounts == old(unreadCounts) && contacts == old(contacts)
      ensures payload.Some? ==> var p := payload.value; var c := ContactOf(me, p.senderId, p.receiverId);
        messages == old(messages)[c := Merged(ListOf(old(messages), c), FromServer(p))] &&
        unreadCounts == Counted(old(unreadCounts), me, p) &&
        contacts == ContactUpdated(old(contacts), c, FromServer(p), CountOf(unreadCounts, c))
      ensures typing == old(typing)
    {
      if payload.None? {
        return;
      }
      var p := payload.value;
      var c := ContactOf(me, p.senderId, p.receiverId);
      var m := FromServer(p);
      if c !in messages {
        messages := messages[c := []];
      }
      var list := messages[c];
      if Known(list, m) {
        messages := messages[c := ReplaceTemps(list, m)];
      } else {
        messages := messages[c := list + [m]];
      }
      if p.receiverId == me && !p.isRead {
        unreadCounts := unreadCounts[p.senderId := CountOf(unreadCounts, p.senderId) + 1];
      }
      contacts := ContactUpdated(contacts, c, m, CountOf(unreadCounts, c));
    }

    /**
     * `handleMessagesRead`: as the sender, this user's messages to the reader become read; as
     * the reader, the sender's unread counter drops to 0.
     */
    method HandleMessagesRead(payload: Option<ReadReceipt>)
      modifies this
      ensures payload.Some? && payload.value.senderId == me ==>
        messages == old(messages)[payload.value.receiverId := MarkedFrom(ListOf(old(messages), payload.value.receiverId), me)]
      ensures !(payload.Some? && payload.value.senderId == me) ==> messages == old(messages)
      ensures payload.Some? && payload.value.receiverId == me ==> unreadCounts == old(unreadCounts)[payload.value.senderId := 0]
      ensures !(payload.Some? && payload.value.receiverId == me) ==> unreadCounts == old(unreadCounts)
      ensures typing == old(typing) && contacts == old(contacts)
    {
      if payload.None? {
        return;
      }
      var p := payload.value;
      if p.senderId == me {
        messages := messages[p.receiverId := MarkedFrom(ListOf(messages, p.receiverId), me)];
      }
      if p.receiverId == me {
        unreadCounts := unreadCounts[p.senderId := 0];
      }
    }

    /**
     * `handleTypingIndicator`: records the sender's stamp. The timer it arms later calls
     * `TypingTimeout` with that stamp; the earlier timer is cleared, so it never fires.
     */
    method HandleTypingIndicator(sender: string, stamp: int)
      modifies this
      ensures typing == old(typing)[sender := stamp]
      ensures messages == old(messages) && unreadCounts == old(unreadCounts) && contacts == old(contacts)
    {
      typing := typing[sender := stamp];
    }

    /** The 2-second typing timer armed with `armed`. */
    method TypingTimeout(sender: string, armed: int)
      modifies this
      ensures typing == TypingExpired(old(typing), sender, armed)
      ensures messages == old(messages) && unreadCounts == old(unreadCounts) && contacts == old(contacts)
    {
      if sender in typing && typing[sender] == armed {
        typing := typing - {sender};
      }
    }

    /** `loadMessages`: on success the contact's list becomes the fetched page (`data || []`). */
    method LoadMessages(contact: string, ok: bool, data: Option<seq<ClientMessage>>) returns (r: seq<ClientMessage>)
      modifies this
      ensures ok ==> r == (if data.Some? then data.value else []) && messages == old(messages)[contact := r]
      ensures !ok ==> r == [] && messages == old(messages)
      ensures typing == old(typing) && unreadCounts == old(unreadCounts) && contacts == old(contacts)
    {
      if !ok {
        return [];
      }
      r := if data.Some? then data.value else [];
      messages := messages[contact := r];
    }

    /**
     * `sendMessage`: a temp copy stamped `now` is shown at once; when the server refuses, exactly
     * the entries with that temp id are removed again.
     */
    method SendMessage(receiver: string, content: string, now: int, ok: bool) returns (r: Status)
      modifies this
      ensures var shown := ListOf(old(messages), receiver) + [ClientMessage(Temp(now), me, receiver, content, now, false, true)];
        ok ==> r == Success && messages == old(messages)[receiver := shown]
      ensures var shown := ListOf(old(messages), receiver) + [ClientMessage(Temp(now), me, receiver, content, now, false, true)];
        !ok ==> r == Failure("Failed to send message") && messages == old(messages)[receiver := WithoutId(shown, Temp(now))]
      ensures typing == old(typing) && unreadCounts == old(unreadCounts) && contacts == old(contacts)
    {
      var temp := ClientMessage(Temp(now), me, receiver, content, now, false, true);
      var shown := ListOf(messages, receiver) + [temp];
      messages := messages[receiver := shown];
      if !ok {
        messages := messages[receiver := WithoutId(shown, temp.id)];
        return Failure("Failed to send message");
      }
      return Success;
    }

    /** `markMessagesAsRead`: on success the sender's counter is 0 and the sender's messages are read. */
    method MarkMessagesAsRead(sender: string, ok: bool) returns (r: bool)
      modifies this
      ensures r == ok
      ensures ok ==> (unreadCounts == old(unreadCounts)[sender := 0] &&
        messages == old(messages)[sender := MarkedFrom(ListOf(old(messages), sender), sender)])
      ensures !ok ==> unreadCounts == old(unreadCounts) && messages == old(messages)
      ensures typing == old(typing) && contacts == old(contacts)
    {
      if !ok {
        return false;
      }
      unreadCounts := unreadCounts[sender := 0];
      messages := messages[sender := MarkedFrom(ListOf(messages, sender), sender)];
      return true;
    }
  }

  /** The `filter(msg => msg.id !== id)` of the rollback. */
  function WithoutId(list: seq<ClientMessage>, id: MessageId): (r: seq<ClientMessage>)
    ensures |r| <= |list|
  {
    if list == [] then []
    else WithoutId(list[..|list| - 1], id) + (if list[|list| - 1].id == id then [] else [list[|list| - 1]])
  }

  /** The rollback keeps exactly the messages with another id. */
  lemma {:induction false} WithoutIdMembers(list: seq<ClientMessage>, id: MessageId)
    ensures forall x :: x in WithoutId(list, id) <==> x in list && x.id != id
  {
    if list != [] {
      var init, last := list[..|list| - 1], list[|list| - 1];
      WithoutIdMembers(init, id);
      assert list == init + [last];
    }
  }

  /** Removing a temp id the list did not hold before restores the list. */
  lemma {:induction false} WithoutFreshId(list: seq<ClientMessage>, temp: ClientMessage)
    requires forall i :: 0 <= i < |list| ==> list[i].id != temp.id
    ensures WithoutId(list + [temp], temp.id) == list
  {
    assert (list + [temp])[..|list|] == list;
    WithoutAbsent(list, temp.id);
  }

  lemma {:induction false} WithoutAbsent(list: seq<ClientMessage>, id: MessageId)
    requires forall i :: 0 <= i < |list| ==> list[i].id != id
    ensures WithoutId(list, id) == list
  {
    if list != [] {
      var init, last := list[..|list| - 1], list[|list| - 1];
      assert forall i :: 0 <= i < |init| ==> init[i] == list[i];
      WithoutAbsent(init, id);
      assert last.id != id;
      assert list == init + [last];
    }
  }
}
