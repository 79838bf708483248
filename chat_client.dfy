/**
 * The message-list updaters the desktop chat store and the web chat hooks share: how a pushed
 * message is merged into a contact's list (replacing optimistic "temp" copies), how messages
 * are marked read, and how typing entries expire. Message lists are sequences in display order.
 */
module ChatClient {
  import opened Wrappers

  /** A server-assigned message id, or the `temp_<ms>` id of an optimistic copy. */
  datatype MessageId = Server(n: int) | Temp(stamp: int)

  /** A message as the client stores it. */
  datatype ClientMessage = ClientMessage(
    id: MessageId, senderId: string, receiverId: string, content: string, createdAt: int,
    isRead: bool, isTemp: bool)

  /** A `private_message` push. */
  datatype Pushed = Pushed(messageId: int, senderId: string, receiverId: string, content: string, createdAt: int, isRead: bool)

  /** A `messages_read` push: `receiverId` has read what `senderId` sent. */
  datatype ReadReceipt = ReadReceipt(senderId: string, receiverId: string)

  /** The stored form of a pushed message. */
  function FromServer(p: Pushed): (m: ClientMessage)
    ensures m.id == Server(p.messageId) && !m.isTemp
    ensures m.senderId == p.senderId && m.receiverId == p.receiverId && m.content == p.content
    ensures m.createdAt == p.createdAt && m.isRead == p.isRead
  {
    ClientMessage(Server(p.messageId), p.senderId, p.receiverId, p.content, p.createdAt, p.isRead, false)
  }

  /** The conversation a message belongs to: the other party, seen from `me`. */
  function ContactOf(me: string, senderId: string, receiverId: string): (c: string)
    ensures me == senderId ==> c == receiverId
    ensures me != senderId ==> c == senderId
  {
    if me == senderId then receiverId else senderId
  }

  /**
   * A stored temp copy that the server version `m` stands for: same sender and content. A
   * message the server has confirmed is never taken for a copy.
   */
  function TempMatch(x: ClientMessage, m: ClientMessage): (b: bool)
    ensures !x.isTemp ==> !b
    ensures b ==> x.senderId == m.senderId && x.content == m.content
  {
    x.isTemp && x.senderId == m.senderId && x.content == m.content
  }

  /** The duplicate test: a stored message with the same id, or a matching temp copy. */
  function Known(list: seq<ClientMessage>, m: ClientMessage): (b: bool)
    ensures b <==> (exists x :: x in list && x.id == m.id) || (exists x :: x in list && TempMatch(x, m))
  {
    exists i :: 0 <= i < |list| && (list[i].id == m.id || TempMatch(list[i], m))
  }

  /** The `map` that swaps every matching temp copy for `m`. */
  function ReplaceTemps(list: seq<ClientMessage>, m: ClientMessage): (r: seq<ClientMessage>)
    ensures |r| == |list|
    ensures forall i :: 0 <= i < |list| ==> r[i] == if TempMatch(list[i], m) then m else list[i]
  {
    seq(|list|, i requires 0 <= i < |list| => if TempMatch(list[i], m) then m else list[i])
  }

  /** A pushed message: appended when unknown, otherwise matching temp copies are replaced by it. */
  function Merged(list: seq<ClientMessage>, m: ClientMessage): (r: seq<ClientMessage>)
    ensures |list| <= |r| <= |list| + 1
    ensures exists i :: 0 <= i < |r| && r[i].id == m.id
    ensures forall i :: 0 <= i < |list| && !TempMatch(list[i], m) ==> r[i] == list[i]
  {
    if Known(list, m) then
      ReplacedKeepsId(list, m);
      ReplaceTemps(list, m)
    else
      assert (list + [m])[|list|] == m;
      list + [m]
  }

  /** Replacing the temp copies of a known message leaves an entry with its id. */
  lemma ReplacedKeepsId(list: seq<ClientMessage>, m: ClientMessage)
    requires Known(list, m)
    ensures exists i :: 0 <= i < |list| && ReplaceTemps(list, m)[i].id == m.id
  {
    var i :| 0 <= i < |list| && (list[i].id == m.id || TempMatch(list[i], m));
    assert ReplaceTemps(list, m)[i].id == m.id;
  }

  /**
   * After a merge the message is present by id, no temp copy of it is left, and the other
   * messages stay where they were.
   */
  lemma MergedEffect(list: seq<ClientMessage>, m: ClientMessage)
    requires !m.isTemp
    ensures var r := Merged(list, m);
      (exists i :: 0 <= i < |r| && r[i].id == m.id) &&
      (forall i :: 0 <= i < |r| ==> !TempMatch(r[i], m)) &&
      (!Known(list, m) ==> r == list + [m]) &&
      (Known(list, m) ==> |r| == |list| && forall i :: 0 <= i < |list| && !TempMatch(list[i], m) ==> r[i] == list[i])
  {
    var r := Merged(list, m);
    if Known(list, m) {
      var i :| 0 <= i < |list| && (list[i].id == m.id || TempMatch(list[i], m));
      assert r[i].id == m.id;
    } else {
      assert r[|list|] == m;
    }
  }

  /** A push delivered twice leaves the list as one delivery does. */
  lemma MergedIdempotent(list: seq<ClientMessage>, m: ClientMessage)
    requires !m.isTemp
    ensures Merged(Merged(list, m), m) == Merged(list, m)
  {
    var r := Merged(list, m);
    MergedEffect(list, m);
    var i :| 0 <= i < |r| && r[i].id == m.id;
    assert Known(r, m);
    assert ReplaceTemps(r, m) == r;
  }

  /** No two stored messages share an id. */
  predicate DistinctIds(list: seq<ClientMessage>)
  {
    forall i, j :: 0 <= i < j < |list| ==> list[i].id != list[j].id
  }

  /**
   * Two optimistic copies of the same text are both replaced by the first echo, so the list
   * shows that message twice although it had no duplicate before.
   */
  lemma TwoTempsBecomeDuplicates()
    ensures var me := "u1";
      var list := [ClientMessage(Temp(1), me, "u2", "ok", 1, false, true), ClientMessage(Temp(2), me, "u2", "ok", 2, false, true)];
      var echo := ClientMessage(Server(7), me, "u2", "ok", 3, false, false);
      DistinctIds(list) && Merged(list, echo) == [echo, echo] && !DistinctIds(Merged(list, echo))
  {
    var me := "u1";
    var list := [ClientMessage(Temp(1), me, "u2", "ok", 1, false, true), ClientMessage(Temp(2), me, "u2", "ok", 2, false, true)];
    var echo := ClientMessage(Server(7), me, "u2", "ok", 3, false, false);
    assert Known(list, echo) by {
      assert TempMatch(list[0], echo);
    }
    assert Merged(list, echo) == ReplaceTemps(list, echo);
    assert ReplaceTemps(list, echo)[0] == echo && ReplaceTemps(list, echo)[1] == echo;
  }

  /** The first index holding a matching temp copy, if any. */
  function FirstTemp(list: seq<ClientMessage>, m: ClientMessage): (k: Option<nat>)
    ensures k.Some? ==> k.value < |list| && TempMatch(list[k.value], m) && forall j :: 0 <= j < k.value ==> !TempMatch(list[j], m)
    ensures k.None? ==> forall j :: 0 <= j < |list| ==> !TempMatch(list[j], m)
  {
    if list == [] then None
    else if TempMatch(list[0], m) then Some(0)
    else match FirstTemp(list[1..], m)
      case None => None
      case Some(k) => Some(k + 1)
  }

  /** The merge as intended: a known id changes nothing, else one temp copy is replaced, else `m` is appended. */
  function MergedOnce(list: seq<ClientMessage>, m: ClientMessage): (r: seq<ClientMessage>)
    ensures |list| <= |r| <= |list| + 1
    ensures forall i :: 0 <= i < |list| && !TempMatch(list[i], m) ==> r[i] == list[i]
    ensures forall i, j :: 0 <= i < j < |list| && r[i] != list[i] ==> r[j] == list[j]
  {
    if exists i :: 0 <= i < |list| && list[i].id == m.id then list
    else match FirstTemp(list, m)
      case Some(k) => list[k := m]
      case None => list + [m]
  }

  /** The intended merge never creates a second message with the same id. */
  lemma MergedOnceKeepsIdsDistinct(list: seq<ClientMessage>, m: ClientMessage)
    requires DistinctIds(list)
    ensures DistinctIds(MergedOnce(list, m))
    ensures exists i :: 0 <= i < |MergedOnce(list, m)| && MergedOnce(list, m)[i].id == m.id
  {
    var r := MergedOnce(list, m);
    if exists i :: 0 <= i < |list| && list[i].id == m.id {
    } else {
      match FirstTemp(list, m)
      case Some(k) =>
        assert r[k] == m;
      case None =>
        assert r[|list|] == m;
    }
  }

  /** `isRead := true` on every unread message of `sender` (a read receipt or a local mark). */
  function MarkedFrom(list: seq<ClientMessage>, sender: string): (r: seq<ClientMessage>)
    ensures |r| == |list|
    ensures forall i :: 0 <= i < |list| ==>
      r[i] == if list[i].senderId == sender && !list[i].isRead then list[i].(isRead := true) else list[i]
  {
    seq(|list|, i requires 0 <= i < |list| =>
      if list[i].senderId == sender && !list[i].isRead then list[i].(isRead := true) else list[i])
  }

  /** Marking leaves nothing of `sender` unread, touches no other message, and a second mark changes nothing. */
  lemma MarkedFromEffect(list: seq<ClientMessage>, sender: string)
    ensures forall i :: 0 <= i < |list| && MarkedFrom(list, sender)[i].senderId == sender ==> MarkedFrom(list, sender)[i].isRead
    ensures forall i :: 0 <= i < |list| && list[i].senderId != sender ==> MarkedFrom(list, sender)[i] == list[i]
    ensures MarkedFrom(MarkedFrom(list, sender), sender) == MarkedFrom(list, sender)
  {
  }

  /** The list stored for a contact, `[]` when there is none yet (`messages[id] || []`). */
  function ListOf(messages: map<string, seq<ClientMessage>>, c: string): seq<ClientMessage>
  {
    if c in messages then messages[c] else []
  }

  /** A counter read with `|| 0`. */
  function CountOf(counts: map<string, int>, c: string): int
  {
    if c in counts then counts[c] else 0
  }

  /** The `(counts[sender] || 0) + 1` step for a message addressed to `me` and unread, else no change. */
  function Counted(counts: map<string, int>, me: string, p: Pushed): (r: map<string, int>)
    ensures p.receiverId == me && !p.isRead ==> r == counts[p.senderId := CountOf(counts, p.senderId) + 1]
    ensures !(p.receiverId == me && !p.isRead) ==> r == counts
  {
    if p.receiverId == me && !p.isRead then counts[p.senderId := CountOf(counts, p.senderId) + 1] else counts
  }

  /** The typing-timeout callback: the entry goes only if it still holds the stamp the timer was armed with. */
  function TypingExpired(typing: map<string, int>, sender: string, armed: int): (r: map<string, int>)
    ensures sender in typing && typing[sender] == armed ==> r == typing - {sender}
    ensures !(sender in typing && typing[sender] == armed) ==> r == typing
  {
    if sender in typing && typing[sender] == armed then typing - {sender} else typing
  }

  /** A newer indicator survives the timer of an older one. */
  lemma NewerTypingSurvives(typing: map<string, int>, sender: string, older: int, newer: int)
    requires older != newer
    ensures sender in TypingExpired(typing[sender := newer], sender, older)
    ensures TypingExpired(TypingExpired(typing[sender := newer], sender, older), sender, newer) == typing[sender := newer] - {sender}
  {
  }
}
