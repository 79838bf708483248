/**
 * The real-time connection registry of the back end (backend/pkg/websocket/websocket.go).
 *
 * The hub keeps a set of registered clients and, per user, a list of that
 * user's clients.  Every case of the hub's event loop, the heartbeat sweep,
 * the addressed send and the control frames a client sends are sequential
 * methods here.  A client's buffered Send channel is a bounded FIFO
 * (`queue`, capacity 256) with a closed flag; closing a closed channel or
 * sending on one is reported as a panic.  Goroutines the hub starts
 * (`go h.SetUserOffline(u)`, `go h.SetUserOnline(u)`) are recorded in the
 * `spawned` trace, and calls on the presence service in `notified`.
 * Time is an integer number of nanoseconds.
 */
module WebSocketHub {
  import opened Wrappers
  import Text

  /** Capacity of a client's Send channel. */
  const SendCapacity: nat := 256
  const Second: nat := 1_000_000_000
  /** A client silent for longer than this is evicted by the heartbeat sweep. */
  const HeartbeatTimeout: nat := 120 * Second

  /** The JSON text of the hub's `pong` reply and of its keep-alive `ping`. */
  const PongFrame: string := "{\"type\":\"pong\",\"payload\":null}"
  const PingFrame: string := "{\"type\":\"ping\"}"

  /** A presence change: started as a goroutine by the hub, or sent to the status service. */
  datatype StatusCall = SetOnline(user: string) | SetOffline(user: string)

  /** What happens to a blocking send on a client's channel. */
  datatype SendResult = Sent | Blocked | SendOnClosed

  /** What one turn of the write pump puts on the wire. */
  datatype WriteResult = TextFrame(text: string) | CloseFrame | Idle

  /** The fields of a client that the hub and the pumps update. */
  datatype ClientState = ClientState(
    isActive: bool, lastPingTime: int, queue: seq<string>,
    sendClosed: bool, connClosed: bool, doneClosed: bool)
  {
    /** Silent for longer than the heartbeat timeout while marked active. */
    predicate Stale(now: int)
    {
      isActive && now - lastPingTime > HeartbeatTimeout
    }

    /** Made inactive, closing the connection of a client that was active. */
    function Deactivated(): (s: ClientState)
      ensures !s.isActive && s.connClosed == (connClosed || isActive)
    {
      this.(isActive := false, connClosed := connClosed || isActive)
    }

    /** After the heartbeat sweep's eviction: inactive, connection, Send and Done closed. */
    function Evicted(): (s: ClientState)
      ensures !s.isActive && s.connClosed && s.sendClosed && s.doneClosed
      ensures s.queue == queue && s.lastPingTime == lastPingTime
    {
      this.(isActive := false, connClosed := true, sendClosed := true, doneClosed := true)
    }

    /** After a non-blocking send of `payload`: queued when there is room, dropped otherwise. */
    function Offered(payload: string): (s: ClientState)
      ensures |queue| < SendCapacity ==> s.queue == queue + [payload]
      ensures |queue| >= SendCapacity ==> s == this
      ensures s.(queue := queue) == this
    {
      if |queue| < SendCapacity then this.(queue := queue + [payload]) else this
    }
  }

  /** The write pump's batching: queued messages joined by newlines into one frame. */
  function JoinLines(msgs: seq<string>): string
  {
    Text.Join(msgs, '\n')
  }

  class Client {
    const id: string
    const userId: string
    var isActive: bool
    var lastPingTime: int
    /** Messages buffered in Send, oldest first. */
    var queue: seq<string>
    var sendClosed: bool
    var connClosed: bool
    var doneClosed: bool

    function State(): ClientState
      reads this
    {
      ClientState(isActive, lastPingTime, queue, sendClosed, connClosed, doneClosed)
    }

    /** A connection as the websocket handler creates it: active, pinged now, nothing queued. */
    constructor (id: string, userId: string, now: int)
      ensures this.id == id && this.userId == userId
      ensures isActive && lastPingTime == now && queue == []
      ensures !sendClosed && !connClosed && !doneClosed
    {
      this.id := id;
      this.userId := userId;
      isActive := true;
      lastPingTime := now;
      queue := [];
      sendClosed := false;
      connClosed := false;
      doneClosed := false;
    }

    /**
     * A `ping` frame: the ping time is refreshed, then a pong is sent with a
     * blocking send, which blocks on a full queue and panics on a closed one.
     */
    method HandlePing(now: int) returns (r: SendResult)
      modifies this
      ensures lastPingTime == now
      ensures r == if old(sendClosed) then SendOnClosed
                   else if |old(queue)| >= SendCapacity then Blocked
                   else Sent
      ensures queue == if r == Sent then old(queue) + [PongFrame] else old(queue)
      ensures isActive == old(isActive) && sendClosed == old(sendClosed)
      ensures connClosed == old(connClosed) && doneClosed == old(doneClosed)
    {
      lastPingTime := now;
      if sendClosed {
        r := SendOnClosed;
      } else if |queue| >= SendCapacity {
        r := Blocked;
      } else {
        queue := queue + [PongFrame];
        r := Sent;
      }
    }

    /**
     * One turn of the write pump: the first queued message and then every
     * message queued behind it go out as a single newline-separated text
     * frame.  A closed, drained channel yields a close frame and the
     * connection is closed; an open, empty one leaves the pump waiting.
     */
    method WriteBatch() returns (r: WriteResult)
      modifies this
      ensures old(queue) != [] ==> r == TextFrame(JoinLines(old(queue)))
      ensures old(queue) == [] ==> r == if old(sendClosed) then CloseFrame else Idle
      ensures queue == []
      ensures connClosed == (old(connClosed) || r == CloseFrame)
      ensures isActive == old(isActive) && lastPingTime == old(lastPingTime)
      ensures sendClosed == old(sendClosed) && doneClosed == old(doneClosed)
    {
      if queue == [] {
        if sendClosed {
          connClosed := true;
          r := CloseFrame;
        } else {
          r := Idle;
        }
        return;
      }
      var frame := queue[0];
      queue := queue[1..];
      var n := |queue|;
      var i := 0;
      while i < n
        invariant 0 <= i <= n
        invariant queue == old(queue)[1 + i..]
        invariant frame == JoinLines(old(queue)[..1 + i])
        invariant isActive == old(isActive) && lastPingTime == old(lastPingTime)
        invariant sendClosed == old(sendClosed) && doneClosed == old(doneClosed) && connClosed == old(connClosed)
      {
        Text.JoinSnoc(old(queue)[..1 + i], old(queue)[1 + i], '\n');
        assert old(queue)[..1 + i] + [old(queue)[1 + i]] == old(queue)[..2 + i];
        frame := frame + "\n" + queue[0];
        queue := queue[1..];
        i := i + 1;
      }
      assert old(queue)[..1 + n] == old(queue);
      r := TextFrame(frame);
    }
  }

  // ------------------------------------------------------------------ value-level views of the two maps

  predicate Distinct(list: seq<Client>)
  {
    forall i, j :: 0 <= i < j < |list| ==> list[i] != list[j]
  }

  /**
   * Every user's list holds at most one client: Register replaces a user's
   * list by a one-element list and every other operation only removes
   * entries, so the lists never grow beyond one.
   */
  predicate SingleEntries(m: map<string, seq<Client>>)
  {
    forall u :: u in m ==> |m[u]| <= 1
  }

  function Elements(list: seq<Client>): set<Client>
  {
    set c | c in list
  }

  function ListOf(m: map<string, seq<Client>>, u: string): seq<Client>
  {
    if u in m then m[u] else []
  }

  /**
   * The registry's consistency: every registered client is the single entry
   * of its user's list, and every user entry holds exactly one registered
   * client of that user.
   */
  predicate ConsistentMaps(cs: set<Client>, m: map<string, seq<Client>>)
  {
    (forall c :: c in cs ==> c.userId in m && m[c.userId] == [c]) &&
    (forall u :: u in m ==> |m[u]| == 1 && m[u][0] in cs && m[u][0].userId == u)
  }

  predicate HasId(list: seq<Client>, id: string)
  {
    exists k :: 0 <= k < |list| && list[k].id == id
  }

  /** The position of the first entry with the given ID. */
  function FirstWithId(list: seq<Client>, id: string): (k: nat)
    requires HasId(list, id)
    ensures k < |list| && list[k].id == id
    ensures forall j :: 0 <= j < k ==> list[j].id != id
  {
    if list[0].id == id then 0
    else
      assert HasId(list[1..], id) by {
        var k :| 0 <= k < |list| && list[k].id == id;
        assert list[1..][k - 1] == list[k];
      }
      1 + FirstWithId(list[1..], id)
  }

  /** The user's list after the hub's removal loop: the first entry with the ID is cut out. */
  function RemoveFirstId(list: seq<Client>, id: string): (r: seq<Client>)
    ensures |r| == if HasId(list, id) then |list| - 1 else |list|
    ensures Elements(r) <= Elements(list)
    ensures !HasId(list, id) ==> r == list
  {
    if HasId(list, id) then
      var k := FirstWithId(list, id);
      list[..k] + list[k + 1..]
    else list
  }

  /**
   * The removal loop of the unregister case: the list is scanned for the
   * first entry with the ID, which is cut out, and the scan stops there.
   */
  method RemoveById(list: seq<Client>, id: string) returns (r: seq<Client>)
    ensures r == RemoveFirstId(list, id)
  {
    var i := 0;
    while i < |list|
      invariant 0 <= i <= |list|
      invariant forall j :: 0 <= j < i ==> list[j].id != id
    {
      if list[i].id == id {
        assert FirstWithId(list, id) == i;
        return list[..i] + list[i + 1..];
      }
      i := i + 1;
    }
    return list;
  }


  /**
   * The user map after client `c` leaves it, the removal path shared by
   * Unregister and the heartbeat sweep: the first entry with c's ID is cut
   * out of c's user's list, and a list left empty is deleted.
   */
  function Detached(m: map<string, seq<Client>>, c: Client): (r: map<string, seq<Client>>)
    ensures forall u :: u != c.userId ==> (u in r <==> u in m)
    ensures forall u :: u != c.userId && u in m ==> r[u] == m[u]
    ensures c.userId in r ==> r[c.userId] == RemoveFirstId(ListOf(m, c.userId), c.id) && r[c.userId] != []
    ensures c.userId !in r ==> RemoveFirstId(ListOf(m, c.userId), c.id) == []
  {
    var rest := RemoveFirstId(ListOf(m, c.userId), c.id);
    if |rest| == 0 then m - {c.userId} else m[c.userId := rest]
  }

  /** A client leaving keeps every list at most one entry long. */
  lemma DetachedSingle(m: map<string, seq<Client>>, c: Client)
    requires SingleEntries(m)
    ensures SingleEntries(Detached(m, c))
  {
  }

  /** Leaving a consistent registry deletes exactly the leaver's user entry, and consistency is kept. */
  lemma DetachedConsistent(cs: set<Client>, m: map<string, seq<Client>>, c: Client)
    requires ConsistentMaps(cs, m) && c in cs
    ensures Detached(m, c) == m - {c.userId}
    ensures ConsistentMaps(cs - {c}, Detached(m, c))
  {
    assert m[c.userId] == [c];
    assert RemoveFirstId([c], c.id) == [];
    var r := Detached(m, c);
    forall d | d in cs - {c}
      ensures d.userId in r && r[d.userId] == [d]
    {
      assert d.userId != c.userId;
    }
  }

  // ------------------------------------------------------------------ deregistration as values

  /** The hub fields that deregistering clients changes. */
  datatype Registry = Registry(clients: set<Client>, userClients: map<string, seq<Client>>, spawned: seq<StatusCall>)

  /**
   * The ways the hub deregisters a client: the all-clients send's drop,
   * which touches only `Clients`; the same drop along the unregister path,
   * which also cuts the client out of its user's list; and the heartbeat
   * eviction, which in addition starts a SetUserOffline goroutine when the
   * user's entry is gone.
   */
  datatype Path = BroadcastDrop | UnregisterDrop | HeartbeatEvict

  /** One deregistration along `path`. */
  function Removal(r: Registry, c: Client, path: Path): (e: Registry)
  {
    if path == BroadcastDrop then r.(clients := r.clients - {c})
    else
      var m := Detached(r.userClients, c);
      Registry(r.clients - {c}, m, r.spawned + (if path == HeartbeatEvict && c.userId !in m then [SetOffline(c.userId)] else []))
  }

  /** Deregistering the clients of `list` one after the other. */
  function RemoveAll(r: Registry, list: seq<Client>, path: Path): Registry
  {
    if list == [] then r
    else Removal(RemoveAll(r, list[..|list| - 1], path), list[|list| - 1], path)
  }

  lemma RemoveAllSnoc(r: Registry, list: seq<Client>, c: Client, path: Path)
    ensures RemoveAll(r, list + [c], path) == Removal(RemoveAll(r, list, path), c, path)
  {
    assert (list + [c])[..|list|] == list;
  }

  /**
   * Every path deregisters exactly the listed clients; the broadcast drop
   * leaves the user lists and the goroutine trace as they were.
   */
  lemma {:induction false} RemoveAllClients(r: Registry, list: seq<Client>, path: Path)
    ensures RemoveAll(r, list, path).clients == r.clients - Elements(list)
    ensures path == BroadcastDrop ==>
              RemoveAll(r, list, path).userClients == r.userClients && RemoveAll(r, list, path).spawned == r.spawned
  {
    if list != [] {
      var init := list[..|list| - 1];
      RemoveAllClients(r, init, path);
      assert list == init + [list[|list| - 1]];
      assert Elements(list) == Elements(init) + {list[|list| - 1]};
    }
  }

  /** Deregistration keeps every user list at most one entry long. */
  lemma {:induction false} RemoveAllSingle(r: Registry, list: seq<Client>, path: Path)
    requires SingleEntries(r.userClients)
    ensures SingleEntries(RemoveAll(r, list, path).userClients)
  {
    if list != [] {
      RemoveAllSingle(r, list[..|list| - 1], path);
      DetachedSingle(RemoveAll(r, list[..|list| - 1], path).userClients, list[|list| - 1]);
    }
  }

  function UsersOf(list: seq<Client>): set<string>
  {
    set c | c in list :: c.userId
  }

  /** One SetUserOffline call per client of `list`, in order. */
  function OfflineAll(list: seq<Client>): (calls: seq<StatusCall>)
    ensures |calls| == |list|
    ensures forall k :: 0 <= k < |list| ==> calls[k] == SetOffline(list[k].userId)
  {
    if list == [] then [] else OfflineAll(list[..|list| - 1]) + [SetOffline(list[|list| - 1].userId)]
  }

  /** The closed form of deregistering `list` from a consistent registry (see RemoveAllConsistent). */
  function Removed(r: Registry, list: seq<Client>, path: Path): (e: Registry)
    ensures e.clients == r.clients - Elements(list) && e.userClients == r.userClients - UsersOf(list)
    ensures |e.spawned| == |r.spawned| + (if path == HeartbeatEvict then |list| else 0)
  {
    Registry(r.clients - Elements(list), r.userClients - UsersOf(list),
             r.spawned + (if path == HeartbeatEvict then OfflineAll(list) else []))
  }

  /** Deregistering a client of a consistent registry along the unregister path removes its user entry. */
  lemma RemovalConsistent(prev: Registry, last: Client, path: Path)
    requires path != BroadcastDrop
    requires ConsistentMaps(prev.clients, prev.userClients) && last in prev.clients
    ensures Removal(prev, last, path) ==
            Registry(prev.clients - {last}, prev.userClients - {last.userId},
                     prev.spawned + (if path == HeartbeatEvict then [SetOffline(last.userId)] else []))
    ensures ConsistentMaps(Removal(prev, last, path).clients, Removal(prev, last, path).userClients)
  {
    DetachedConsistent(prev.clients, prev.userClients, last);
  }

  lemma RemovedSnoc(r: Registry, init: seq<Client>, last: Client, path: Path)
    ensures Removed(r, init + [last], path) ==
            Registry(Removed(r, init, path).clients - {last}, Removed(r, init, path).userClients - {last.userId},
                     Removed(r, init, path).spawned + (if path == HeartbeatEvict then [SetOffline(last.userId)] else []))
  {
    var list := init + [last];
    assert list[..|list| - 1] == init;
    assert Elements(list) == Elements(init) + {last};
    assert UsersOf(list) == UsersOf(init) + {last.userId};
    assert OfflineAll(list) == OfflineAll(init) + [SetOffline(last.userId)];
  }

  /**
   * On a consistent registry, deregistering distinct registered clients
   * along the unregister path removes exactly their users' entries, a
   * heartbeat eviction starts one SetUserOffline per evicted client in
   * eviction order, and the registry stays consistent.
   */
  lemma {:induction false} RemoveAllConsistent(r: Registry, list: seq<Client>, path: Path)
    requires path != BroadcastDrop
    requires ConsistentMaps(r.clients, r.userClients) && Distinct(list) && Elements(list) <= r.clients
    ensures RemoveAll(r, list, path) == Removed(r, list, path)
    ensures ConsistentMaps(RemoveAll(r, list, path).clients, RemoveAll(r, list, path).userClients)
  {
    if list != [] {
      var init := list[..|list| - 1];
      var last := list[|list| - 1];
      assert list == init + [last];
      assert Distinct(init);
      assert Elements(init) <= Elements(list);
      RemoveAllConsistent(r, init, path);
      assert last !in Elements(init);
      RemoveAllSnoc(r, init, last, path);
      RemovalConsistent(RemoveAll(r, init, path), last, path);
      RemovedSnoc(r, init, last, path);
    }
  }

  /** On a consistent registry, Register's result is consistent again. */
  lemma RegisterConsistent(cs: set<Client>, m: map<string, seq<Client>>, client: Client)
    requires ConsistentMaps(cs, m) && client !in cs
    ensures ConsistentMaps(cs - Elements(ListOf(m, client.userId)) + {client}, m[client.userId := [client]])
  {
    var u := client.userId;
    var cs' := cs - Elements(ListOf(m, u)) + {client};
    var m' := m[u := [client]];
    forall c | c in cs' && c != client
      ensures c.userId != u
    {
      assert m[c.userId] == [c];
    }
    forall v | v in m' && v != u
      ensures m'[v][0] in cs'
    {
      assert m[v][0].userId == v;
      assert m[v][0] !in Elements(ListOf(m, u));
    }
  }

  /** A consistent registry holds at most one client per user. */
  lemma SingleSessionPerUser(cs: set<Client>, m: map<string, seq<Client>>, u: string)
    requires ConsistentMaps(cs, m)
    ensures |set c | c in cs && c.userId == u| <= 1
  {
    var mine := set c | c in cs && c.userId == u;
    if mine != {} {
      var c :| c in mine;
      assert mine == {c} by {
        forall d | d in mine ensures d == c {
          assert m[u] == [d] && m[u] == [c];
        }
      }
    }
  }

  /** The user's list after a `user_active` frame from a client with ID `id`: only entries with that ID stay. */
  function KeepId(list: seq<Client>, id: string): (r: seq<Client>)
    ensures forall k :: 0 <= k < |r| ==> r[k] in list && r[k].id == id
    ensures forall k :: 0 <= k < |list| && list[k].id == id ==> list[k] in r
    ensures |r| <= |list|
  {
    if list == [] then []
    else
      var init := list[..|list| - 1];
      var last := list[|list| - 1];
      assert forall k :: 0 <= k < |init| ==> init[k] == list[k];
      if last.id == id then KeepId(init, id) + [last] else KeepId(init, id)
  }

  /** The second loop of `user_active`: the entries of the user's list whose ID is `id`, in order. */
  method FilterById(list: seq<Client>, id: string) returns (kept: seq<Client>)
    ensures kept == KeepId(list, id)
  {
    kept := [];
    var i := 0;
    while i < |list|
      invariant 0 <= i <= |list|
      invariant kept == KeepId(list[..i], id)
    {
      assert list[..i + 1][..i] == list[..i];
      if list[i].id == id {
        kept := kept + [list[i]];
      }
      i := i + 1;
    }
    assert list[..|list|] == list;
  }

  /**
   * A `user_active` frame from a client that is no longer registered, sent
   * to a consistent registry whose entry for that user holds another tab,
   * empties that entry: the registry is then inconsistent.
   */
  lemma StaleActiveEmptiesEntry(cs: set<Client>, m: map<string, seq<Client>>, c: Client)
    requires ConsistentMaps(cs, m) && c.userId in m && m[c.userId][0].id != c.id
    ensures KeepId(m[c.userId], c.id) == []
    ensures !ConsistentMaps(cs, m[c.userId := KeepId(m[c.userId], c.id)])
  {
    var x := m[c.userId][0];
    assert m[c.userId] == [x];
    assert [x][..0] == [];
    var m' := m[c.userId := KeepId([x], c.id)];
    assert c.userId in m' && m'[c.userId] == [];
  }

  /** SetUserOffline on a consistent registry leaves the user's client registered but unlisted. */
  lemma OfflineBreaksConsistency(cs: set<Client>, m: map<string, seq<Client>>, u: string)
    requires ConsistentMaps(cs, m) && u in m
    ensures !ConsistentMaps(cs, m - {u})
  {
    var c := m[u][0];
    assert c in cs && c.userId == u;
    assert c.userId !in m - {u};
  }

  /** The broadcast-all drop on a consistent registry leaves the dropped client listed but unregistered. */
  lemma DropBreaksConsistency(cs: set<Client>, m: map<string, seq<Client>>, dropped: set<Client>)
    requires ConsistentMaps(cs, m) && dropped <= cs && dropped != {}
    ensures !ConsistentMaps(cs - dropped, m)
  {
    var c :| c in dropped;
    assert m[c.userId] == [c];
    assert m[c.userId][0] !in cs - dropped;
  }

  /**
   * The first loop of `user_active` over the user's list: every entry with
   * an ID other than the sender's that is active is deactivated and its
   * connection closed.  `wasOffline` tells whether none was active.
   */
  method CloseDuplicates(list: seq<Client>, c: Client) returns (wasOffline: bool)
    requires Distinct(list)
    modifies Elements(list)
    ensures wasOffline <==> forall k :: 0 <= k < |list| ==> !(list[k].id != c.id && old(list[k].isActive))
    ensures forall k :: 0 <= k < |list| ==>
              list[k].State() == if list[k].id != c.id then old(list[k].State()).Deactivated() else old(list[k].State())
  {
    wasOffline := true;
    var i := 0;
    while i < |list|
      invariant 0 <= i <= |list|
      invariant wasOffline <==> forall k :: 0 <= k < i ==> !(list[k].id != c.id && old(list[k].isActive))
      invariant forall k :: 0 <= k < i ==>
                  list[k].State() == if list[k].id != c.id then old(list[k].State()).Deactivated() else old(list[k].State())
      invariant forall k :: i <= k < |list| ==> list[k].State() == old(list[k].State())
    {
      var d := list[i];
      if d.id != c.id && d.isActive {
        wasOffline := false;
        d.isActive := false;
        d.connClosed := true;
      }
      i := i + 1;
    }
  }

  /** The state the heartbeat sweep leaves a client in. */
  function Swept(s: ClientState, now: int): (r: ClientState)
    ensures s.Stale(now) ==> r == s.Evicted()
    ensures !s.Stale(now) ==> r == s
  {
    if s.Stale(now) then s.Evicted() else s
  }

  /** Which clients a pass over the registry deregisters, by their state before the pass. */
  datatype Pick = StaleAt(now: int) | FullQueue(activeOnly: bool)
  {
    predicate Picks(s: ClientState)
    {
      match this
      case StaleAt(now) => s.Stale(now)
      case FullQueue(activeOnly) => Dropped(s, activeOnly)
    }
  }

  /**
   * The clients among the first `n` of `order` that a pass deregisters, in
   * visiting order, given the states they had before the pass.
   */
  function Picked(order: seq<Client>, states: seq<ClientState>, n: nat, f: Pick): seq<Client>
    requires |states| == |order| && n <= |order|
  {
    if n == 0 then []
    else Picked(order, states, n - 1, f) + (if f.Picks(states[n - 1]) then [order[n - 1]] else [])
  }

  lemma {:induction false} PickedSpec(order: seq<Client>, states: seq<ClientState>, n: nat, f: Pick)
    requires |states| == |order| && n <= |order|
    ensures Elements(Picked(order, states, n, f)) == set k | 0 <= k < n && f.Picks(states[k]) :: order[k]
  {
    if n > 0 {
      PickedSpec(order, states, n - 1, f);
      var extra := if f.Picks(states[n - 1]) then [order[n - 1]] else [];
      assert Picked(order, states, n, f) == Picked(order, states, n - 1, f) + extra;
      assert (set k | 0 <= k < n && f.Picks(states[k]) :: order[k]) ==
             (set k | 0 <= k < n - 1 && f.Picks(states[k]) :: order[k]) + Elements(extra);
    }
  }

  /** A pass picks each client at most once. */
  lemma {:induction false} PickedDistinct(order: seq<Client>, states: seq<ClientState>, n: nat, f: Pick)
    requires |states| == |order| && n <= |order| && Distinct(order)
    ensures Distinct(Picked(order, states, n, f))
  {
    if n > 0 && f.Picks(states[n - 1]) {
      PickedDistinct(order, states, n - 1, f);
      PickedSpec(order, states, n - 1, f);
      var r := Picked(order, states, n - 1, f);
      assert order[n - 1] !in Elements(r);
      var r2 := r + [order[n - 1]];
      assert Picked(order, states, n, f) == r2;
      assert forall k :: 0 <= k < |r| ==> r2[k] == r[k] && r[k] in Elements(r);
    } else if n > 0 {
      PickedDistinct(order, states, n - 1, f);
    }
  }

  /** A pass's visit of client `c` in state `s`: deregistered along `path` when `f` picks it. */
  function Visited(prev: Registry, c: Client, s: ClientState, f: Pick, path: Path): Registry
  {
    if f.Picks(s) then Removal(prev, c, path) else prev
  }

  /** The registry after a pass has visited the first `n` clients of `order`. */
  function RemovalFrom(r: Registry, order: seq<Client>, states: seq<ClientState>, n: nat, f: Pick, path: Path): Registry
    requires |states| == |order| && n <= |order|
  {
    if n == 0 then r
    else Visited(RemovalFrom(r, order, states, n - 1, f, path), order[n - 1], states[n - 1], f, path)
  }

  /** A pass's registry is the deregistration fold over the picked clients, in visiting order. */
  lemma {:induction false} RemovalFromSpec(r: Registry, order: seq<Client>, states: seq<ClientState>, n: nat, f: Pick, path: Path)
    requires |states| == |order| && n <= |order|
    ensures RemovalFrom(r, order, states, n, f, path) == RemoveAll(r, Picked(order, states, n, f), path)
  {
    if n > 0 {
      RemovalFromSpec(r, order, states, n - 1, f, path);
      var e := Picked(order, states, n - 1, f);
      if f.Picks(states[n - 1]) {
        assert Picked(order, states, n, f) == e + [order[n - 1]];
        RemoveAllSnoc(r, e, order[n - 1], path);
      } else {
        assert Picked(order, states, n, f) == e;
      }
    }
  }

  /** `pos` gives the position of every client of `order`, so no client occurs twice. */
  predicate IndexedBy(order: seq<Client>, pos: map<Client, int>)
  {
    forall k :: 0 <= k < |order| ==> order[k] in pos && pos[order[k]] == k
  }

  lemma PositionsOf(order: seq<Client>) returns (pos: map<Client, int>)
    requires Distinct(order)
    ensures IndexedBy(order, pos)
  {
    pos := map k | 0 <= k < |order| :: order[k] := k;
  }

  /** The states of the clients of `order`, in order. */
  ghost function StatesOf(order: seq<Client>): (r: seq<ClientState>)
    reads Elements(order)
    ensures |r| == |order| && forall k :: 0 <= k < |order| ==> r[k] == order[k].State()
  {
    seq(|order|, k requires 0 <= k < |order| reads Elements(order) => order[k].State())
  }

  /** Read in one heap: a pass picks exactly the clients of `order` whose state `f` picks. */
  lemma PickedStates(order: seq<Client>, f: Pick)
    ensures Elements(Picked(order, StatesOf(order), |order|, f)) == set c | c in order && f.Picks(c.State())
    ensures Distinct(order) ==> Distinct(Picked(order, StatesOf(order), |order|, f))
  {
    var states := StatesOf(order);
    PickedSpec(order, states, |order|, f);
    if Distinct(order) {
      PickedDistinct(order, states, |order|, f);
    }
    assert (set k | 0 <= k < |order| && f.Picks(states[k]) :: order[k]) ==
           set c | c in order && f.Picks(c.State());
  }

  /** The open-channel half of the hub invariant, read off an enumeration of the registered clients. */
  lemma OpenByIndex(cs: set<Client>, order: seq<Client>)
    requires cs <= Elements(order)
    requires forall k :: 0 <= k < |order| && order[k] in cs ==> !order[k].sendClosed && !order[k].doneClosed
    ensures forall c :: c in cs ==> !c.sendClosed && !c.doneClosed
  {
    forall c | c in cs
      ensures !c.sendClosed && !c.doneClosed
    {
      var k :| 0 <= k < |order| && order[k] == c;
    }
  }

  // ------------------------------------------------------------------ the hub

  /** Whether the all-clients send targets a client in state `s`. */
  predicate Targeted(s: ClientState, activeOnly: bool)
  {
    !activeOnly || s.isActive
  }

  /** A targeted client whose queue is full: its Send channel is closed and it is deregistered. */
  predicate Dropped(s: ClientState, activeOnly: bool)
  {
    Targeted(s, activeOnly) && |s.queue| >= SendCapacity
  }

  /** A client's state after the all-clients send. */
  function FannedOut(s: ClientState, payload: string, activeOnly: bool): (r: ClientState)
    ensures !Targeted(s, activeOnly) ==> r == s
    ensures Dropped(s, activeOnly) ==> r == s.(sendClosed := true)
    ensures Targeted(s, activeOnly) && !Dropped(s, activeOnly) ==> r.queue == s.queue + [payload]
    ensures r.isActive == s.isActive && r.doneClosed == s.doneClosed
    ensures r.sendClosed <==> s.sendClosed || Dropped(s, activeOnly)
  {
    if !Targeted(s, activeOnly) then s
    else if Dropped(s, activeOnly) then s.(sendClosed := true)
    else s.Offered(payload)
  }

  class Hub {
    /** `Clients`: the registered clients. */
    var clients: set<Client>
    /** `UserClients`: user ID to that user's clients. */
    var userClients: map<string, seq<Client>>
    /** Presence goroutines started by the hub and by the read pumps, oldest first. */
    var spawned: seq<StatusCall>
    /** Calls made on the status updater, oldest first. */
    var notified: seq<StatusCall>

    constructor ()
      ensures clients == {} && userClients == map[] && spawned == [] && notified == []
      ensures Valid() && Consistent()
    {
      clients := {};
      userClients := map[];
      spawned := [];
      notified := [];
    }

    function UserList(u: string): seq<Client>
      reads this
    {
      ListOf(userClients, u)
    }

    /**
     * Kept by every operation: a registered client's Send and Done channels
     * are open, and no user's list holds more than one client.
     */
    ghost predicate Valid()
      reads this, clients
    {
      (forall c :: c in clients ==> !c.sendClosed && !c.doneClosed) &&
      SingleEntries(userClients)
    }

    ghost predicate Consistent()
      reads this
    {
      ConsistentMaps(clients, userClients)
    }

    /**
     * The loop of the register case over the user's existing entries: each
     * is deregistered, its Send channel closed and its connection closed.
     * Closing a Send channel that is already closed panics.
     */
    method CloseExisting(existing: seq<Client>) returns (panicked: bool)
      requires Valid() && Distinct(existing)
      modifies this, Elements(existing)
      ensures Valid()
      ensures userClients == old(userClients) && spawned == old(spawned) && notified == old(notified)
      ensures panicked <==> exists k :: 0 <= k < |existing| && old(existing[k].sendClosed)
      ensures !panicked ==> clients == old(clients) - Elements(existing)
      ensures !panicked ==> forall k :: 0 <= k < |existing| ==>
                existing[k].State() == old(existing[k].State()).(sendClosed := true, connClosed := true)
    {
      var i := 0;
      while i < |existing|
        invariant 0 <= i <= |existing|
        invariant userClients == old(userClients) && spawned == old(spawned) && notified == old(notified)
        invariant clients == old(clients) - Elements(existing[..i])
        invariant forall k :: 0 <= k < i ==>
                    !old(existing[k].sendClosed) &&
                    existing[k].State() == old(existing[k].State()).(sendClosed := true, connClosed := true)
        invariant forall k :: i <= k < |existing| ==> existing[k].State() == old(existing[k].State())
        invariant forall c :: c in clients ==> !c.sendClosed && !c.doneClosed
      {
        var c := existing[i];
        if c.sendClosed {
          return true;
        }
        assert existing[..i + 1] == existing[..i] + [c];
        clients := clients - {c};
        c.sendClosed := true;
        c.connClosed := true;
        i := i + 1;
      }
      assert existing[..|existing|] == existing;
      return false;
    }

    /**
     * The register case of the event loop: every listed client of the user is
     * deregistered, its Send channel closed and its connection closed; then
     * the new client is registered as the user's only entry.  Closing an
     * already closed Send channel panics.
     */
    method Register(client: Client, ghost list: seq<Client>) returns (panicked: bool)
      requires Valid() && list == UserList(client.userId)
      requires client !in clients && client !in list
      requires !client.sendClosed && !client.doneClosed
      modifies this, Elements(list)
      ensures Valid()
      ensures panicked <==> exists k :: 0 <= k < |list| && old(list[k].sendClosed)
      ensures !panicked ==> clients == old(clients) - Elements(list) + {client}
      ensures !panicked ==> userClients == old(userClients)[client.userId := [client]]
      ensures !panicked ==> forall k :: 0 <= k < |list| ==>
                list[k].State() == old(list[k].State()).(sendClosed := true, connClosed := true)
      ensures spawned == old(spawned) && notified == old(notified)
      ensures old(Consistent()) ==> !panicked && Consistent()
      ensures old(Consistent()) ==> forall c :: c in clients && c.userId == client.userId ==> c == client
    {
      var u := client.userId;
      ghost var cs0 := clients;
      ghost var m0 := userClients;
      panicked := false;
      if u in userClients {
        var existing := userClients[u];
        panicked := CloseExisting(existing);
        if panicked {
          return;
        }
        userClients := userClients[u := []];
      }
      clients := clients + {client};
      userClients := userClients[u := [client]];
      if ConsistentMaps(cs0, m0) {
        RegisterConsistent(cs0, m0, client);
      }
    }

    /**
     * The unregister case: a registered client is deregistered, its Send
     * channel closed and the user map updated along the shared removal path;
     * a client that is not registered changes nothing, so a second
     * Unregister of the same client is a no-op.
     */
    method Unregister(client: Client)
      requires Valid()
      modifies this, client
      ensures Valid()
      ensures client !in clients
      ensures old(client in clients) ==>
                clients == old(clients) - {client} &&
                userClients == Detached(old(userClients), client) &&
                client.State() == old(client.State()).(sendClosed := true)
      ensures old(client !in clients) ==>
                clients == old(clients) && userClients == old(userClients) &&
                client.State() == old(client.State())
      ensures spawned == old(spawned) && notified == old(notified)
      ensures old(Consistent()) ==> Consistent()
      ensures old(Consistent()) && old(client in clients) ==> userClients == old(userClients) - {client.userId}
    {
      if client in clients {
        if ConsistentMaps(clients, userClients) {
          DetachedConsistent(clients, userClients, client);
        }
        DetachedSingle(userClients, client);
        clients := clients - {client};
        client.sendClosed := true;
        DetachById(client);
      }
    }

    /**
     * The addressed send: a message that failed to marshal (None) is dropped;
     * otherwise each active listed client gets it offered (queued when there
     * is room, dropped when the queue is full), and a closed Send channel
     * panics.
     */
    method BroadcastToUser(u: string, payload: Option<string>) returns (panicked: bool)
      requires Valid()
      modifies UserList(u)
      ensures Valid()
      ensures panicked <==> payload.Some? && exists c :: c in old(UserList(u)) && old(c.isActive) && old(c.sendClosed)
      ensures !panicked ==> forall c :: c in old(UserList(u)) ==>
                c.State() == if payload.Some? && old(c.isActive) then old(c.State()).Offered(payload.value)
                             else old(c.State())
      ensures old(Consistent()) ==> !panicked
    {
      panicked := false;
      if payload.None? || u !in userClients {
        return;
      }
      var list := userClients[u];
      var i := 0;
      while i < |list|
        invariant 0 <= i <= |list|
        invariant forall k :: 0 <= k < i ==> !(old(list[k].isActive) && old(list[k].sendClosed))
        invariant forall k :: 0 <= k < i ==>
                    list[k].State() == if old(list[k].isActive) then old(list[k].State()).Offered(payload.value)
                                       else old(list[k].State())
        invariant forall k :: i <= k < |list| ==> list[k].State() == old(list[k].State())
      {
        var c := list[i];
        if c.isActive {
          if c.sendClosed {
            panicked := true;
            return;
          }
          if |c.queue| < SendCapacity {
            c.queue := c.queue + [payload.value];
          }
        }
        i := i + 1;
      }
    }

    /** The fields deregistration changes, as one value. */
    function Reg(): Registry
      reads this
    {
      Registry(clients, userClients, spawned)
    }

    /** The unregister path's removal from the user map: the first entry with c's ID goes, an emptied entry too. */
    method DetachById(c: Client)
      modifies this
      ensures userClients == Detached(old(userClients), c)
      ensures clients == old(clients) && spawned == old(spawned) && notified == old(notified)
    {
      var rest := RemoveById(ListOf(userClients, c.userId), c.id);
      if |rest| == 0 {
        userClients := userClients - {c.userId};
      } else {
        userClients := userClients[c.userId := rest];
      }
    }

    /**
     * One client of an all-clients send: a targeted client gets the message
     * queued when there is room; when its queue is full its Send channel is
     * closed and it is deregistered along `path`.  The other clients of
     * `others` keep their state.
     */
    method Deliver(c: Client, payload: string, activeOnly: bool, path: Path, ghost others: seq<Client>)
      requires path != HeartbeatEvict && !c.sendClosed
      modifies this, c
      ensures c.State() == FannedOut(old(c.State()), payload, activeOnly)
      ensures Reg() == Visited(old(Reg()), c, old(c.State()), FullQueue(activeOnly), path)
      ensures notified == old(notified)
      ensures forall k :: 0 <= k < |others| && others[k] != c ==> others[k].State() == old(others[k].State())
    {
      if !activeOnly || c.isActive {
        if |c.queue| < SendCapacity {
          c.queue := c.queue + [payload];
        } else {
          c.sendClosed := true;
          clients := clients - {c};
          if path == UnregisterDrop {
            DetachById(c);
          }
        }
      }
    }

    /**
     * The loop of an all-clients send over the registered clients in the
     * map's iteration order `order`, whose states on entry are `before`.
     */
    method SendAll(payload: string, activeOnly: bool, path: Path, order: seq<Client>,
                   ghost pos: map<Client, int>, ghost before: seq<ClientState>)
      requires path != HeartbeatEvict
      requires |before| == |order| && IndexedBy(order, pos)
      requires forall k :: 0 <= k < |order| ==> order[k].State() == before[k] && !before[k].sendClosed
      modifies this, Elements(order)
      ensures Reg() == RemovalFrom(old(Reg()), order, before, |order|, FullQueue(activeOnly), path)
      ensures notified == old(notified)
      ensures forall k :: 0 <= k < |order| ==> order[k].State() == FannedOut(before[k], payload, activeOnly)
    {
      var i := 0;
      while i < |order|
        invariant 0 <= i <= |order|
        invariant Reg() == RemovalFrom(old(Reg()), order, before, i, FullQueue(activeOnly), path)
        invariant notified == old(notified)
        invariant forall k :: 0 <= k < |order| ==>
                    order[k].State() == if k < i then FannedOut(before[k], payload, activeOnly) else before[k]
      {
        Deliver(order[i], payload, activeOnly, path, order);
        i := i + 1;
      }
    }

    /**
     * The hub's all-clients send: with `activeOnly` false it is the broadcast
     * case of the event loop, with `activeOnly` true and the ping text the
     * keep-alive ping.  Every registered client is offered the message once,
     * in the map's iteration order `order` (see Deliver); a dropped client
     * leaves `Clients` but stays in its user's list.
     */
    method FanOut(payload: string, activeOnly: bool, order: seq<Client>)
      requires Valid()
      requires Distinct(order) && Elements(order) == clients
      modifies this, clients
      ensures Valid()
      ensures clients == old(clients) - set c | c in old(clients) && Dropped(old(c.State()), activeOnly)
      ensures forall k :: 0 <= k < |order| ==> order[k].State() == FannedOut(old(order[k].State()), payload, activeOnly)
      ensures userClients == old(userClients) && spawned == old(spawned) && notified == old(notified)
      ensures old(Consistent()) && (exists c :: c in old(clients) && Dropped(old(c.State()), activeOnly)) ==>
                !Consistent()
    {
      var f := FullQueue(activeOnly);
      PickedStates(order, f);
      ghost var before := StatesOf(order);
      ghost var pos := PositionsOf(order);
      ghost var dropped := Picked(order, before, |order|, f);
      PickedSpec(order, before, |order|, f);
      RemovalFromSpec(Reg(), order, before, |order|, f, BroadcastDrop);
      RemoveAllClients(Reg(), dropped, BroadcastDrop);
      ghost var cs0, m0 := clients, userClients;
      SendAll(payload, activeOnly, BroadcastDrop, order, pos, before);
      forall k | 0 <= k < |order| && order[k] in clients
        ensures !order[k].sendClosed && !order[k].doneClosed
      {
      }
      OpenByIndex(clients, order);
      if ConsistentMaps(cs0, m0) && Elements(dropped) != {} {
        DropBreaksConsistency(cs0, m0, Elements(dropped));
      }
    }

    /** Whether any client in the user's list is active. */
    method HasActiveClient(u: string) returns (r: bool)
      ensures r <==> exists c :: c in UserList(u) && c.isActive
    {
      if u !in userClients {
        return false;
      }
      var list := userClients[u];
      var i := 0;
      while i < |list|
        invariant 0 <= i <= |list|
        invariant forall k :: 0 <= k < i ==> !list[k].isActive
      {
        if list[i].isActive {
          return true;
        }
        i := i + 1;
      }
      return false;
    }

    /**
     * The number of registered, active clients of the user, counted over
     * the registry in its map iteration order `order`.
     */
    method GetActiveConnectionCount(u: string, order: seq<Client>) returns (count: nat)
      requires Distinct(order) && Elements(order) == clients
      ensures count == |set c | c in clients && c.userId == u && c.isActive|
    {
      ghost var mine: set<Client> := {};
      count := 0;
      var i := 0;
      while i < |order|
        invariant 0 <= i <= |order|
        invariant mine == set k | 0 <= k < i && order[k].userId == u && order[k].isActive :: order[k]
        invariant count == |mine|
      {
        var c := order[i];
        if c.userId == u && c.isActive {
          assert c !in mine;
          mine := mine + {c};
          count := count + 1;
        }
        i := i + 1;
      }
      assert mine == set c | c in clients && c.userId == u && c.isActive by {
        forall c | c in clients && c.userId == u && c.isActive ensures c in mine {
          var k :| 0 <= k < |order| && order[k] == c;
        }
      }
    }

    /** Whether a registered client with the ID is active, scanned in the map's iteration order `order`. */
    method HasClientWithID(id: string, order: seq<Client>) returns (r: bool)
      requires Elements(order) == clients
      ensures r <==> exists c :: c in clients && c.id == id && c.isActive
    {
      var i := 0;
      while i < |order|
        invariant 0 <= i <= |order|
        invariant forall k :: 0 <= k < i ==> !(order[k].id == id && order[k].isActive)
      {
        if order[i].id == id && order[i].isActive {
          return true;
        }
        i := i + 1;
      }
      assert forall c :: c in clients ==> !(c.id == id && c.isActive) by {
        forall c | c in clients ensures !(c.id == id && c.isActive) {
          var k :| 0 <= k < |order| && order[k] == c;
        }
      }
      return false;
    }

    /**
     * `CloseClientWithID`: the first registered client with the ID, in the
     * map's iteration order `order`, is made inactive and its connection
     * closed.  It stays registered, with its Send channel open, until its
     * read pump exits; the other clients are untouched.
     */
    method CloseClientWithID(id: string, order: seq<Client>) returns (found: bool)
      requires Valid() && Elements(order) == clients
      modifies clients
      ensures Valid()
      ensures found <==> HasId(order, id)
      ensures found ==> (order[FirstWithId(order, id)].State() ==
                         old(order[FirstWithId(order, id)].State()).(isActive := false, connClosed := true))
      ensures forall k :: 0 <= k < |order| && (!found || order[k] != order[FirstWithId(order, id)]) ==>
                order[k].State() == old(order[k].State())
    {
      var i := 0;
      while i < |order|
        invariant 0 <= i <= |order|
        invariant forall j :: 0 <= j < i ==> order[j].id != id
      {
        if order[i].id == id {
          assert FirstWithId(order, id) == i;
          order[i].isActive := false;
          order[i].connClosed := true;
          return true;
        }
        i := i + 1;
      }
      return false;
    }

    /**
     * The loop of `CloseUserConnections`: every active client of `list` is made
     * inactive with its connection closed, and collected in list order.
     */
    static method DeactivateActive(list: seq<Client>) returns (sent: seq<Client>)
      modifies list
      ensures forall c :: c in sent <==> c in list && old(c.isActive)
      ensures |sent| <= |list|
      ensures forall k :: 0 <= k < |list| ==>
                list[k].State() == if old(list[k].isActive) then old(list[k].State()).(isActive := false, connClosed := true)
                                   else old(list[k].State())
    {
      sent := [];
      var i := 0;
      while i < |list|
        invariant 0 <= i <= |list|
        invariant forall c :: c in sent <==> c in list[..i] && old(c.isActive)
        invariant |sent| <= i
        invariant forall k :: 0 <= k < i ==>
                    list[k].State() == if old(list[k].isActive) then old(list[k].State()).(isActive := false, connClosed := true)
                                       else old(list[k].State())
        invariant forall k :: i <= k < |list| && list[k] !in list[..i] ==> list[k].State() == old(list[k].State())
      {
        var c := list[i];
        if c.isActive {
          c.isActive := false;
          c.connClosed := true;
          sent := sent + [c];
        }
        assert list[..i + 1] == list[..i] + [list[i]];
        i := i + 1;
      }
      assert list[..i] == list;
    }

    /**
     * `CloseUserConnections`: under the hub's lock every active client in the
     * user's list is made inactive, its connection closed, and handed to the
     * unregister case; then the user's entry is deleted and the lock released,
     * and the event loop unregisters the handed-over client.  The hand-over is
     * an unbuffered send made while the lock is held: the loop takes it and
     * then waits for the lock, so a second send would block for ever.  A list
     * never holds more than one entry, so at most one client is handed over.
     * An inactive entry stays registered without a user entry.
     */
    method CloseUserConnections(u: string) returns (sent: seq<Client>)
      requires Valid()
      modifies this, UserList(u)
      ensures Valid()
      ensures |sent| <= 1
      ensures forall c :: c in sent <==> c in old(UserList(u)) && old(c.isActive)
      ensures forall d :: d in old(UserList(u)) && !old(d.isActive) ==> d.State() == old(d.State())
      ensures forall d :: d in sent ==>
                d.State() == old(d.State()).(isActive := false, connClosed := true,
                                             sendClosed := old(d.sendClosed) || old(d in clients))
      ensures clients == old(clients) - Elements(sent)
      ensures userClients == if sent != [] && sent[0] in old(clients) then Detached(old(userClients) - {u}, sent[0])
                             else old(userClients) - {u}
      ensures spawned == old(spawned) && notified == old(notified)
      ensures old(Consistent()) && sent != [] ==> Consistent() && userClients == old(userClients) - {u}
      ensures old(Consistent()) && u in old(userClients) && sent == [] ==> !Consistent()
    {
      var list := UserList(u);
      ghost var cs0 := clients;
      ghost var m0 := userClients;
      sent := DeactivateActive(list);
      userClients := userClients - {u};
      if sent == [] {
        if ConsistentMaps(cs0, m0) && u in m0 {
          OfflineBreaksConsistency(cs0, m0, u);
        }
      } else {
        var c := sent[0];
        assert c in sent;
        assert c in list;
        if ConsistentMaps(cs0, m0) {
          assert u in m0 && list == [m0[u][0]];
          DetachedConsistent(cs0, m0, c);
          assert Detached(m0 - {u}, c) == m0 - {u};
        }
        Unregister(c);
      }
    }

    /**
     * The body of the heartbeat sweep for one timed-out client: it is made
     * inactive, its connection, Send and Done channels are closed, and it
     * leaves both maps along the unregister path, with SetUserOffline started
     * when its user's entry is gone.  The other clients of `others` keep
     * their state.
     */
    method Evict(c: Client, ghost others: seq<Client>)
      modifies this, c
      ensures Reg() == Removal(old(Reg()), c, HeartbeatEvict)
      ensures notified == old(notified)
      ensures c.State() == old(c.State()).Evicted()
      ensures forall k :: 0 <= k < |others| && others[k] != c ==> others[k].State() == old(others[k].State())
    {
      c.isActive := false;
      c.connClosed := true;
      clients := clients - {c};
      c.sendClosed := true;
      c.doneClosed := true;
      DetachById(c);
      if c.userId !in userClients {
        spawned := spawned + [SetOffline(c.userId)];
      }
    }

    /**
     * One client of the heartbeat sweep: evicted when it is active and has
     * been silent for more than the timeout, left alone otherwise.  The
     * other clients of `order` keep their state.
     */
    method Visit(now: int, c: Client, ghost order: seq<Client>)
      modifies this, c
      ensures Reg() == Visited(old(Reg()), c, old(c.State()), StaleAt(now), HeartbeatEvict)
      ensures notified == old(notified)
      ensures c.State() == Swept(old(c.State()), now)
      ensures forall k :: 0 <= k < |order| && order[k] != c ==> order[k].State() == old(order[k].State())
    {
      if c.isActive && now - c.lastPingTime > HeartbeatTimeout {
        Evict(c, order);
      }
    }

    /**
     * The loop of the heartbeat sweep over the registered clients in the
     * map's iteration order `order`, whose states on entry are `before`.
     */
    method Sweep(now: int, order: seq<Client>, ghost pos: map<Client, int>, ghost before: seq<ClientState>)
      requires |before| == |order| && IndexedBy(order, pos)
      requires forall k :: 0 <= k < |order| ==> order[k].State() == before[k]
      modifies this, Elements(order)
      ensures Reg() == RemovalFrom(old(Reg()), order, before, |order|, StaleAt(now), HeartbeatEvict)
      ensures notified == old(notified)
      ensures forall k :: 0 <= k < |order| ==> order[k].State() == Swept(before[k], now)
    {
      ghost var cur := before;
      var i := 0;
      while i < |order|
        invariant 0 <= i <= |order|
        invariant Reg() == RemovalFrom(old(Reg()), order, before, i, StaleAt(now), HeartbeatEvict)
        invariant notified == old(notified)
        invariant |cur| == |order|
        invariant forall k :: 0 <= k < |order| ==> cur[k] == if k < i then Swept(before[k], now) else before[k]
        invariant forall k :: 0 <= k < |order| ==> order[k].State() == cur[k]
      {
        Visit(now, order[i], order);
        cur := cur[i := Swept(before[i], now)];
        i := i + 1;
      }
    }

    /**
     * The heartbeat sweep: every active client silent for more than the
     * timeout is evicted (see Evict), in the map's iteration order `order`.
     * The evicted clients are exactly the stale ones; on a consistent
     * registry their users' entries go, one SetUserOffline per evicted
     * client is started, and the registry stays consistent.
     */
    method CheckHeartbeats(now: int, order: seq<Client>)
      requires Valid()
      requires Distinct(order) && Elements(order) == clients
      modifies this, clients
      ensures Valid()
      ensures Elements(Picked(order, old(StatesOf(order)), |order|, StaleAt(now))) ==
              set c | c in old(clients) && old(c.State()).Stale(now)
      ensures Reg() == RemoveAll(old(Reg()), Picked(order, old(StatesOf(order)), |order|, StaleAt(now)), HeartbeatEvict)
      ensures clients == old(clients) - Elements(Picked(order, old(StatesOf(order)), |order|, StaleAt(now)))
      ensures notified == old(notified)
      ensures forall k :: 0 <= k < |order| ==> order[k].State() == Swept(old(order[k].State()), now)
      ensures old(Consistent()) ==> Consistent()
      ensures old(Consistent()) ==>
                Reg() == Removed(old(Reg()), Picked(order, old(StatesOf(order)), |order|, StaleAt(now)), HeartbeatEvict)
    {
      var f := StaleAt(now);
      PickedStates(order, f);
      ghost var before := StatesOf(order);
      ghost var pos := PositionsOf(order);
      ghost var evicted := Picked(order, before, |order|, f);
      PickedSpec(order, before, |order|, f);
      RemovalFromSpec(Reg(), order, before, |order|, f, HeartbeatEvict);
      RemoveAllClients(Reg(), evicted, HeartbeatEvict);
      RemoveAllSingle(Reg(), evicted, HeartbeatEvict);
      if ConsistentMaps(clients, userClients) {
        RemoveAllConsistent(Reg(), evicted, HeartbeatEvict);
      }
      Sweep(now, order, pos, before);
      forall k | 0 <= k < |order| && order[k] in clients
        ensures !order[k].sendClosed && !order[k].doneClosed
      {
      }
      OpenByIndex(clients, order);
    }

    /**
     * A `user_away` frame: the client becomes inactive, and when no other
     * listed client of the user (by ID) is active, a SetUserOffline goroutine
     * is started.
     */
    method UserAway(c: Client)
      requires Valid()
      modifies this, c
      ensures Valid()
      ensures c.State() == old(c.State()).(isActive := false)
      ensures spawned == old(spawned) +
                (if exists d :: d in old(UserList(c.userId)) && d.id != c.id && old(d.isActive)
                 then [] else [SetOffline(c.userId)])
      ensures clients == old(clients) && userClients == old(userClients) && notified == old(notified)
    {
      c.isActive := false;
      var other := false;
      var list := UserList(c.userId);
      var i := 0;
      while i < |list| && !other
        invariant 0 <= i <= |list|
        invariant forall k :: 0 <= k < i ==> !(list[k].id != c.id && old(list[k].isActive))
        invariant other ==> i < |list| && list[i].id != c.id && old(list[i].isActive)
        decreases |list| - i, if other then 0 else 1
      {
        var d := list[i];
        if d.id != c.id && d.isActive {
          other := true;
        } else {
          i := i + 1;
        }
      }
      if !other {
        spawned := spawned + [SetOffline(c.userId)];
      }
    }

    /**
     * The part of a `user_active` frame done under the hub lock: every other
     * listed client of the user (by ID) that is active is deactivated and
     * its connection closed, and the user's list keeps only the entries with
     * the sender's ID.  `wasOffline` tells whether no other client was active.
     */
    method CloseOtherTabs(c: Client, ghost list: seq<Client>) returns (wasOffline: bool)
      requires Valid() && list == UserList(c.userId)
      modifies this, Elements(list)
      ensures Valid()
      ensures wasOffline <==> forall k :: 0 <= k < |list| ==> !(list[k].id != c.id && old(list[k].isActive))
      ensures forall k :: 0 <= k < |list| ==>
                list[k].State() == if list[k].id != c.id then old(list[k].State()).Deactivated() else old(list[k].State())
      ensures clients == old(clients) && notified == old(notified) && spawned == old(spawned)
      ensures userClients == if c.userId in old(userClients) then old(userClients)[c.userId := KeepId(list, c.id)]
                             else old(userClients)
      ensures old(Consistent()) && c in old(clients) ==> Consistent()
    {
      wasOffline := true;
      if c.userId in userClients {
        var entries := userClients[c.userId];
        wasOffline := CloseDuplicates(entries, c);
        if ConsistentMaps(old(clients), old(userClients)) && c in old(clients) {
          assert entries == [c];
        }
        var kept := FilterById(entries, c.id);
        userClients := userClients[c.userId := kept];
      }
    }

    /**
     * A `user_active` frame: the client becomes active, its other tabs are
     * closed (CloseOtherTabs), and when no other client was active a
     * SetUserOnline goroutine is started.
     */
    method UserActive(c: Client, ghost list: seq<Client>)
      requires Valid() && list == UserList(c.userId)
      modifies this, c, Elements(list)
      ensures Valid()
      ensures c.State() == old(c.State()).(isActive := true)
      ensures forall k :: 0 <= k < |list| && list[k] != c ==>
                list[k].State() == if list[k].id != c.id then old(list[k].State()).Deactivated() else old(list[k].State())
      ensures clients == old(clients) && notified == old(notified)
      ensures userClients == if c.userId in old(userClients) then old(userClients)[c.userId := KeepId(list, c.id)]
                             else old(userClients)
      ensures spawned == old(spawned) +
                (if exists k :: 0 <= k < |list| && list[k].id != c.id && old(list[k].isActive) then [] else [SetOnline(c.userId)])
      ensures old(Consistent()) && c in old(clients) ==> Consistent()
    {
      // The source marks the sender active before taking the hub lock; the
      // sender shares its own ID, so CloseOtherTabs never reads or writes it
      // and the update can equally come after.
      var wasOffline := CloseOtherTabs(c, list);
      c.isActive := true;
      if wasOffline {
        spawned := spawned + [SetOnline(c.userId)];
      }
    }

    /** The hub's SetUserOnline: the status service is told only when the user has no listed client. */
    method SetUserOnline(u: string)
      modifies this
      ensures notified == old(notified) + (if |old(UserList(u))| > 0 then [] else [SetOnline(u)])
      ensures clients == old(clients) && userClients == old(userClients) && spawned == old(spawned)
    {
      if u in userClients && |userClients[u]| > 0 {
        return;
      }
      notified := notified + [SetOnline(u)];
    }

    /**
     * The hub's SetUserOffline: every active listed client of the user is
     * deactivated and its connection closed, the user's entry is deleted
     * (the clients stay registered), and the status service is told.
     */
    method SetUserOffline(u: string)
      requires Valid()
      modifies this, UserList(u)
      ensures Valid()
      ensures userClients == old(userClients) - {u}
      ensures clients == old(clients) && spawned == old(spawned)
      ensures notified == old(notified) + [SetOffline(u)]
      ensures forall d :: d in old(UserList(u)) ==> d.State() == old(d.State()).Deactivated()
      ensures old(Consistent()) && u in old(userClients) ==> !Consistent()
    {
      var list := UserList(u);
      var i := 0;
      while i < |list|
        invariant 0 <= i <= |list|
        invariant userClients == old(userClients) && clients == old(clients)
        invariant spawned == old(spawned) && notified == old(notified)
        invariant forall k :: 0 <= k < i ==> list[k].State() == old(list[k].State()).Deactivated()
        invariant forall k :: i <= k < |list| ==> list[k].State() == old(list[k].State())
      {
        var d := list[i];
        if d.isActive {
          d.isActive := false;
          d.connClosed := true;
        }
        i := i + 1;
      }
      if ConsistentMaps(clients, userClients) && u in userClients {
        OfflineBreaksConsistency(clients, userClients, u);
      }
      userClients := userClients - {u};
      notified := notified + [SetOffline(u)];
    }

    /**
     * The deferred exit of a read pump: the client is unregistered, its
     * connection closed, and its Done channel closed, which panics when the
     * heartbeat sweep has closed Done already.
     */
    method Disconnect(c: Client) returns (panicked: bool)
      requires Valid()
      modifies this, c
      ensures panicked <==> old(c.doneClosed)
      ensures c.connClosed && c.doneClosed && c !in clients
      ensures userClients == if old(c in clients) then Detached(old(userClients), c) else old(userClients)
      ensures Valid()
    {
      Unregister(c);
      c.connClosed := true;
      if c.doneClosed {
        return true;
      }
      c.doneClosed := true;
      return false;
    }

    /**
     * Disconnect with Done closed at most once: the exit leaves the same
     * registry and never panics, also after a heartbeat eviction.
     */
    method DisconnectOnce(c: Client)
      requires Valid()
      modifies this, c
      ensures c.connClosed && c.doneClosed && c !in clients
      ensures userClients == if old(c in clients) then Detached(old(userClients), c) else old(userClients)
      ensures Valid()
    {
      Unregister(c);
      c.connClosed := true;
      if !c.doneClosed {
        c.doneClosed := true;
      }
    }

    /**
     * The all-clients send with the drop path of Unregister: a dropped client
     * also leaves its user's list, so a consistent registry stays consistent
     * and exactly the dropped clients' users lose their entries.
     */
    method FanOutDetaching(payload: string, activeOnly: bool, order: seq<Client>)
      requires Valid() && Consistent()
      requires Distinct(order) && Elements(order) == clients
      modifies this, clients
      ensures Valid() && Consistent()
      ensures Elements(Picked(order, old(StatesOf(order)), |order|, FullQueue(activeOnly))) ==
              set c | c in old(clients) && Dropped(old(c.State()), activeOnly)
      ensures Reg() == Removed(old(Reg()), Picked(order, old(StatesOf(order)), |order|, FullQueue(activeOnly)), UnregisterDrop)
      ensures forall k :: 0 <= k < |order| ==> order[k].State() == FannedOut(old(order[k].State()), payload, activeOnly)
      ensures notified == old(notified)
    {
      var f := FullQueue(activeOnly);
      PickedStates(order, f);
      ghost var before := StatesOf(order);
      ghost var pos := PositionsOf(order);
      ghost var dropped := Picked(order, before, |order|, f);
      PickedSpec(order, before, |order|, f);
      RemovalFromSpec(Reg(), order, before, |order|, f, UnregisterDrop);
      RemoveAllSingle(Reg(), dropped, UnregisterDrop);
      RemoveAllConsistent(Reg(), dropped, UnregisterDrop);
      SendAll(payload, activeOnly, UnregisterDrop, order, pos, before);
      forall k | 0 <= k < |order| && order[k] in clients
        ensures !order[k].sendClosed && !order[k].doneClosed
      {
      }
      OpenByIndex(clients, order);
    }
  }

  /**
   * A user whose only client has a full queue, then a broadcast, then a new
   * tab of the same user: the broadcast drops the client from the registry
   * but leaves it listed, so the register closes its Send channel a second
   * time and panics.
   */
  method DropThenRegister() returns (panicked: bool)
    ensures panicked
  {
    var hub := new Hub();
    var a := new Client("u:1", "u", 0);
    var first := hub.Register(a, []);
    a.queue := seq(SendCapacity, _ => "m");
    hub.FanOut("x", false, [a]);
    assert hub.UserList("u") == [a] && a.sendClosed;
    var b := new Client("u:2", "u", 0);
    panicked := hub.Register(b, [a]);
  }

  /** The same sequence with FanOutDetaching: the later register finds nothing to close. */
  method DropThenRegisterDetaching() returns (panicked: bool)
    ensures !panicked
  {
    var hub := new Hub();
    var a := new Client("u:1", "u", 0);
    var first := hub.Register(a, []);
    a.queue := seq(SendCapacity, _ => "m");
    hub.FanOutDetaching("x", false, [a]);
    var b := new Client("u:2", "u", 0);
    panicked := hub.Register(b, hub.UserList("u"));
  }

  /**
   * An active client that stops pinging: the heartbeat sweep evicts it and
   * closes its Done channel, and its read pump's exit closes Done again.
   */
  method TimeoutThenDisconnect() returns (panicked: bool)
    ensures panicked
  {
    var hub := new Hub();
    var a := new Client("u:1", "u", 0);
    var first := hub.Register(a, []);
    assert a.State().Stale(HeartbeatTimeout + 1);
    hub.CheckHeartbeats(HeartbeatTimeout + 1, [a]);
    assert [a][0] == a && a.doneClosed;
    panicked := hub.Disconnect(a);
  }
}
