/**
 * The desktop client's `WebSocketService`: the listener table, the handling of incoming frames
 * (split into lines, pings answered, pongs timed, everything else dispatched), the debounced
 * status message, the heartbeat check and the reconnect counter. The socket is reduced to its
 * ready state; what is sent is recorded in `sent`, and every listener call in `delivered`. The
 * clock, `navigator.onLine`, the connection type, the authentication check and `JSON.parse` are
 * parameters; timers are pending-state fields whose firing is a method.
 */
module DesktopSocket {
  import opened Wrappers
  import Text
  import WebSocketHub

  /** `socket` is `null`, or a socket in one of its ready states (a closed socket is replaced by `null`). */
  datatype Ready = NoSocket | Connecting | Open | Closing

  /** `connectionQuality`. */
  datatype Quality = Good | Fair | Poor | Offline

  /** What a listener receives: a pushed payload (as its JSON text) or one of the service's own events. */
  datatype Payload =
    | Raw(json: string)
    | ConnectionUp(quality: Quality)
    | ConnectionDown(reason: string)
    | NetworkChange(online: bool, wasOnline: bool, connectionQuality: Quality)

  /** One listener call. */
  datatype Delivery = Delivery(callback: nat, kind: string, payload: Payload)

  /** A parsed message: its `type` and its `payload` as JSON text. */
  datatype Envelope = Envelope(kind: string, payload: string)

  /** The service's fields at one moment. */
  datatype SocketView = SocketView(
    socket: Ready,
    listeners: map<string, seq<nat>>,
    delivered: seq<Delivery>,
    sent: seq<string>,
    reconnectAttempts: nat,
    reconnectDelay: Option<real>,
    heartbeat: bool,
    pendingStatus: Option<string>,
    lastStatus: Option<string>,
    isOnline: bool,
    quality: Quality,
    lastPongTime: int,
    loggedOut: bool)

  const MaxReconnectAttempts := 5

  /** `JSON.stringify({ type: t })` (no escaping is modelled). */
  function TypeFrame(t: string): (f: string)
    ensures Text.StartsWith(f, "{\"type\":\"") && Text.EndsWith(f, "\"}")
  {
    "{\"type\":\"" + t + "\"}"
  }

  // ---------------------------------------------------------------- listeners

  /** `this.listeners[eventType] || []`. */
  function ListenersOf(table: map<string, seq<nat>>, kind: string): (cbs: seq<nat>)
    ensures kind !in table ==> cbs == []
    ensures kind in table ==> cbs == table[kind]
  {
    if kind in table then table[kind] else []
  }

  /** The calls of one `notifyListeners`: each callback of the type, in subscription order, with the payload. */
  function Calls(cbs: seq<nat>, kind: string, payload: Payload): (r: seq<Delivery>)
    ensures |r| == |cbs|
    ensures forall i :: 0 <= i < |cbs| ==> r[i] == Delivery(cbs[i], kind, payload)
  {
    seq(|cbs|, i requires 0 <= i < |cbs| => Delivery(cbs[i], kind, payload))
  }

  /** The `filter(cb => cb !== callback)` of `unsubscribe`. */
  function Without(cbs: seq<nat>, callback: nat): (r: seq<nat>)
    ensures |r| <= |cbs|
  {
    if cbs == [] then []
    else Without(cbs[..|cbs| - 1], callback) + (if cbs[|cbs| - 1] == callback then [] else [cbs[|cbs| - 1]])
  }

  /** The filter keeps every other callback, in order, and drops every copy of the removed one. */
  lemma {:induction false} WithoutMembers(cbs: seq<nat>, callback: nat)
    ensures forall c :: c in Without(cbs, callback) <==> c in cbs && c != callback
    ensures callback !in cbs ==> Without(cbs, callback) == cbs
  {
    if cbs != [] {
      var init := cbs[..|cbs| - 1];
      WithoutMembers(init, callback);
      assert cbs == init + [cbs[|cbs| - 1]];
    }
  }

  /** Unsubscribing right after subscribing leaves the type's list as before, when the callback was not on it. */
  lemma SubscribeThenUnsubscribe(table: map<string, seq<nat>>, kind: string, callback: nat)
    requires callback !in ListenersOf(table, kind)
    ensures Without(ListenersOf(table, kind) + [callback], callback) == ListenersOf(table, kind)
  {
    var cbs := ListenersOf(table, kind);
    WithoutMembers(cbs, callback);
    assert (cbs + [callback])[..|cbs|] == cbs;
  }

  // ---------------------------------------------------------------- frames

  /** A piece that ended right before a "\r\n" lost its '\r' to the separator. */
  function StripCr(p: string): (r: string)
    ensures (p == [] || p[|p| - 1] != '\r') ==> r == p
  {
    if |p| > 0 && p[|p| - 1] == '\r' then p[..|p| - 1] else p
  }

  /** `data.split(/\n|\r\n/)`: split at each '\n', a '\r' right before it belonging to the separator. */
  function SplitLines(data: string): (pieces: seq<string>)
    ensures |pieces| >= 1
  {
    var parts := Text.Split(data, '\n');
    seq(|parts|, i requires 0 <= i < |parts| => if i < |parts| - 1 then StripCr(parts[i]) else parts[i])
  }

  /** The pieces that survive `if (!message.trim()) continue`, in order. */
  function NonBlank(pieces: seq<string>): (r: seq<string>)
    ensures |r| <= |pieces|
    ensures forall i :: 0 <= i < |r| ==> !Text.Blank(r[i])
  {
    if pieces == [] then []
    else
      var last := pieces[|pieces| - 1];
      NonBlank(pieces[..|pieces| - 1]) + (if Text.Blank(last) then [] else [last])
  }

  /** The messages `handleMessage` tries to parse, in order. */
  function Frames(data: string): (msgs: seq<string>)
    ensures |msgs| <= |Text.Split(data, '\n')|
    ensures forall i :: 0 <= i < |msgs| ==> !Text.Blank(msgs[i])
  {
    NonBlank(SplitLines(data))
  }

  /** A list of non-blank pieces passes the blank filter whole. */
  lemma {:induction false} NonBlankKeeps(pieces: seq<string>)
    requires forall i :: 0 <= i < |pieces| ==> !Text.Blank(pieces[i])
    ensures NonBlank(pieces) == pieces
  {
    if pieces != [] {
      var init := pieces[..|pieces| - 1];
      assert forall i :: 0 <= i < |init| ==> init[i] == pieces[i];
      NonBlankKeeps(init);
      assert pieces == init + [pieces[|pieces| - 1]];
    }
  }

  /** What the server may put in one line of a batch: no newline, no trailing '\r', not all white space. */
  predicate Line(m: string)
  {
    '\n' !in m && (m == [] || m[|m| - 1] != '\r') && !Text.Blank(m)
  }

  /**
   * Splitting undoes the server's batching: a frame that the write pump built by joining messages
   * with '\n' yields exactly those messages, in order.
   */
  lemma FramesOfBatch(msgs: seq<string>)
    requires forall i :: 0 <= i < |msgs| ==> Line(msgs[i])
    ensures Frames(WebSocketHub.JoinLines(msgs)) == msgs
  {
    if msgs == [] {
      assert Text.Split("", '\n') == [""];
      assert SplitLines("") == [""];
      assert Text.Blank("");
      assert NonBlank([""]) == NonBlank([]) + [];
    } else {
      Text.SplitJoin(msgs, '\n');
      var parts := Text.Split(WebSocketHub.JoinLines(msgs), '\n');
      assert parts == msgs;
      assert SplitLines(WebSocketHub.JoinLines(msgs)) == msgs;
      NonBlankKeeps(msgs);
    }
  }

  // ---------------------------------------------------------------- incoming messages

  /** One message of a frame: unparsable is skipped, a ping is answered when open, a pong is timed, anything else is dispatched. */
  function Absorb1(v: SocketView, msg: string, now: int, parse: string -> Option<Envelope>): (r: SocketView)
    ensures |v.delivered| <= |r.delivered| && r.delivered[..|v.delivered|] == v.delivered
    ensures r.(delivered := v.delivered, sent := v.sent, lastPongTime := v.lastPongTime) == v
  {
    match parse(msg)
    case None => v
    case Some(e) =>
      if e.kind == "ping" then
        (if v.socket == Open then v.(sent := v.sent + [TypeFrame("pong")]) else v)
      else if e.kind == "pong" then v.(lastPongTime := now)
      else v.(delivered := v.delivered + Calls(ListenersOf(v.listeners, e.kind), e.kind, Raw(e.payload)))
  }

  /** The messages of a frame, taken in order. */
  function Absorb(v: SocketView, msgs: seq<string>, now: int, parse: string -> Option<Envelope>): (r: SocketView)
    ensures |v.delivered| <= |r.delivered| && r.delivered[..|v.delivered|] == v.delivered
    ensures r.(delivered := v.delivered, sent := v.sent, lastPongTime := v.lastPongTime) == v
  {
    if msgs == [] then v
    else
      var mid := Absorb(v, msgs[..|msgs| - 1], now, parse);
      var r := Absorb1(mid, msgs[|msgs| - 1], now, parse);
      assert r.delivered[..|v.delivered|] == mid.delivered[..|v.delivered|];
      r
  }

  /** Each message in a frame of its own. */
  function AbsorbFrames(v: SocketView, msgs: seq<string>, now: int, parse: string -> Option<Envelope>): (r: SocketView)
  {
    if msgs == [] then v
    else Absorb(AbsorbFrames(v, msgs[..|msgs| - 1], now, parse), Frames(msgs[|msgs| - 1]), now, parse)
  }

  /** A line sent in a frame of its own is the frame's one message. */
  lemma FramesOfLine(m: string)
    requires Line(m)
    ensures Frames(m) == [m]
  {
    FramesOfBatch([m]);
    assert WebSocketHub.JoinLines([m]) == m;
  }

  /** Lines sent one frame each are taken exactly as the same lines in one run. */
  lemma {:induction false} OneFrameEach(v: SocketView, msgs: seq<string>, now: int, parse: string -> Option<Envelope>)
    requires forall i :: 0 <= i < |msgs| ==> Line(msgs[i])
    ensures AbsorbFrames(v, msgs, now, parse) == Absorb(v, msgs, now, parse)
  {
    if msgs != [] {
      var init, last := msgs[..|msgs| - 1], msgs[|msgs| - 1];
      OneFrameEach(v, init, now, parse);
      FramesOfLine(last);
      var mid := Absorb(v, init, now, parse);
      assert Absorb(mid, [last], now, parse) == Absorb1(mid, last, now, parse) by {
        assert [last][..0] == [];
      }
    }
  }

  /** The client reacts to one batched frame exactly as to the same messages sent one frame each. */
  lemma BatchingIsTransparent(v: SocketView, msgs: seq<string>, now: int, parse: string -> Option<Envelope>)
    requires forall i :: 0 <= i < |msgs| ==> Line(msgs[i])
    ensures Absorb(v, Frames(WebSocketHub.JoinLines(msgs)), now, parse) == AbsorbFrames(v, msgs, now, parse)
  {
    FramesOfBatch(msgs);
    OneFrameEach(v, msgs, now, parse);
  }

  /** No delivery from position `k` on is a ping or a pong. */
  predicate NoControlFrom(d: seq<Delivery>, k: nat)
  {
    forall i :: k <= i < |d| ==> d[i].kind != "ping" && d[i].kind != "pong"
  }

  /** Pings and pongs never reach a listener. */
  lemma {:induction false} PingPongNotDispatched(v: SocketView, msgs: seq<string>, now: int, parse: string -> Option<Envelope>)
    ensures NoControlFrom(Absorb(v, msgs, now, parse).delivered, |v.delivered|)
  {
    if msgs != [] {
      var init := msgs[..|msgs| - 1];
      PingPongNotDispatched(v, init, now, parse);
      var mid := Absorb(v, init, now, parse);
      var r := Absorb1(mid, msgs[|msgs| - 1], now, parse);
      assert Absorb(v, msgs, now, parse) == r;
      Absorb1NoPing(mid, msgs[|msgs| - 1], now, parse);
      forall i | |v.delivered| <= i < |r.delivered|
        ensures r.delivered[i].kind != "ping" && r.delivered[i].kind != "pong"
      {
        if i < |mid.delivered| {
          assert r.delivered[i] == r.delivered[..|mid.delivered|][i] == mid.delivered[i];
        }
      }
    }
  }

  /** One message hands no ping or pong to a listener. */
  lemma Absorb1NoPing(v: SocketView, msg: string, now: int, parse: string -> Option<Envelope>)
    ensures NoControlFrom(Absorb1(v, msg, now, parse).delivered, |v.delivered|)
  {
    var r := Absorb1(v, msg, now, parse);
    if parse(msg).Some? {
      var e := parse(msg).value;
      if e.kind != "ping" && e.kind != "pong" {
        var calls := Calls(ListenersOf(v.listeners, e.kind), e.kind, Raw(e.payload));
        assert r.delivered == v.delivered + calls;
        assert forall i :: |v.delivered| <= i < |r.delivered| ==> r.delivered[i] == calls[i - |v.delivered|];
      }
    }
  }

  /** The messages that parse as pings. */
  function PingCount(msgs: seq<string>, parse: string -> Option<Envelope>): (n: nat)
    ensures n <= |msgs|
  {
    if msgs == [] then 0
    else PingCount(msgs[..|msgs| - 1], parse) + (if parse(msgs[|msgs| - 1]).Some? && parse(msgs[|msgs| - 1]).value.kind == "ping" then 1 else 0)
  }

  /** `n` pong frames. */
  function Pongs(n: nat): (r: seq<string>)
    ensures |r| == n && forall i :: 0 <= i < n ==> r[i] == TypeFrame("pong")
  {
    seq(n, i => TypeFrame("pong"))
  }

  /** An open socket answers every ping with one pong, in order; any other socket sends nothing. */
  lemma {:induction false} PingsAnswered(v: SocketView, msgs: seq<string>, now: int, parse: string -> Option<Envelope>)
    ensures Absorb(v, msgs, now, parse).sent == v.sent + (if v.socket == Open then Pongs(PingCount(msgs, parse)) else [])
  {
    if msgs != [] {
      var init := msgs[..|msgs| - 1];
      PingsAnswered(v, init, now, parse);
      if v.socket == Open {
        var n := PingCount(init, parse);
        assert Pongs(n) + [TypeFrame("pong")] == Pongs(n + 1);
      }
    }
  }

  /** The pong time is `now` exactly when some message of the run was a pong. */
  lemma {:induction false} PongTimed(v: SocketView, msgs: seq<string>, now: int, parse: string -> Option<Envelope>)
    ensures (exists i :: 0 <= i < |msgs| && parse(msgs[i]).Some? && parse(msgs[i]).value.kind == "pong") ==>
      Absorb(v, msgs, now, parse).lastPongTime == now
    ensures (forall i :: 0 <= i < |msgs| ==> !(parse(msgs[i]).Some? && parse(msgs[i]).value.kind == "pong")) ==>
      Absorb(v, msgs, now, parse).lastPongTime == v.lastPongTime
  {
    if msgs != [] {
      var init := msgs[..|msgs| - 1];
      PongTimed(v, init, now, parse);
      assert forall i :: 0 <= i < |init| ==> init[i] == msgs[i];
    }
  }

  // ---------------------------------------------------------------- reconnect delay

  function Pow15(k: nat): (p: real)
    ensures p >= 1.0
  {
    if k == 0 then 1.0 else 1.5 * Pow15(k - 1)
  }

  /** `Math.min(baseReconnectDelay * 1.5^(attempts - 1), 30000)`. */
  function ReconnectDelay(attempts: nat): (ms: real)
    requires attempts >= 1
    ensures 3000.0 <= ms <= 30000.0
  {
    var d := 3000.0 * Pow15(attempts - 1);
    if d < 30000.0 then d else 30000.0
  }

  /** With at most five attempts the delays run 3 s, 4.5 s, 6.75 s, 10.125 s, 15.1875 s: the 30 s cap is never reached. */
  lemma ReconnectDelays()
    ensures ReconnectDelay(1) == 3000.0 && ReconnectDelay(2) == 4500.0 && ReconnectDelay(3) == 6750.0
    ensures ReconnectDelay(4) == 10125.0 && ReconnectDelay(5) == 15187.5
    ensures forall n :: 1 <= n <= MaxReconnectAttempts ==> ReconnectDelay(n) < 30000.0
  {
    assert Pow15(1) == 1.5;
    assert Pow15(2) == 2.25;
    assert Pow15(3) == 3.375;
    assert Pow15(4) == 5.0625;
  }

  /** `updateConnectionQuality`: offline wins; otherwise the connection type decides when the browser reports one. */
  function UpdatedQuality(q: Quality, online: bool, effectiveType: Option<string>): (r: Quality)
    ensures !online ==> r == Offline
    ensures online && effectiveType.None? ==> r == q
    ensures online && effectiveType.Some? ==> (r == Good <==> effectiveType.value == "4g") && (r == Fair <==> effectiveType.value == "3g")
  {
    if !online then Offline
    else match effectiveType
      case None => q
      case Some(t) => if t == "4g" then Good else if t == "3g" then Fair else Poor
  }

  /** The counter after `scheduleReconnect`: one more, falling back to four first once it reached five. */
  function NextAttempts(n: nat): (m: nat)
    ensures 1 <= m <= MaxReconnectAttempts
    ensures n < MaxReconnectAttempts ==> m == n + 1
    ensures n >= MaxReconnectAttempts ==> m == MaxReconnectAttempts
  {
    (if n >= MaxReconnectAttempts then MaxReconnectAttempts - 1 else n) + 1
  }

  /** A close that logs the user out: a 1006 whose reason mentions "unauthorized", or a 1008. */
  function LogsOut(code: int, reason: string): (b: bool)
    ensures b ==> code == 1006 || code == 1008
    ensures code == 1008 ==> b
    ensures code == 1006 && !Text.Contains(reason, "unauthorized") ==> !b
  {
    (code == 1006 && Text.Contains(reason, "unauthorized")) || code == 1008
  }

  // ---------------------------------------------------------------- the service

  class WebSocketService {
    var socket: Ready
    var listeners: map<string, seq<nat>>
    var delivered: seq<Delivery>
    var sent: seq<string>
    var reconnectAttempts: nat
    /** The pending reconnect timer and its delay, if any. */
    var reconnectDelay: Option<real>
    /** Whether the ping and heartbeat intervals run. */
    var heartbeat: bool
    /** The pending debounced status message, if any. */
    var pendingStatus: Option<string>
    var lastStatus: Option<string>
    var isOnline: bool
    var quality: Quality
    var lastPongTime: int
    /** Whether `authService.logout` was requested. */
    var loggedOut: bool

    function State(): (v: SocketView)
      reads this
    {
      SocketView(socket, listeners, delivered, sent, reconnectAttempts, reconnectDelay, heartbeat,
        pendingStatus, lastStatus, isOnline, quality, lastPongTime, loggedOut)
    }

    constructor(online: bool, now: int)
      ensures State() == SocketView(NoSocket, map[], [], [], 0, None, false, None, None, online, Good, now, false)
    {
      socket, listeners, delivered, sent := NoSocket, map[], [], [];
      reconnectAttempts, reconnectDelay, heartbeat := 0, None, false;
      pendingStatus, lastStatus, isOnline, quality, lastPongTime, loggedOut := None, None, online, Good, now, false;
    }

    /** `isConnected`. */
    function IsConnected(): (b: bool)
      reads this
      ensures b <==> socket == Open
    {
      socket == Open
    }

    /** `subscribe`: the callback goes to the end of the type's list. */
    method Subscribe(kind: string, callback: nat)
      modifies this
      ensures State() == old(State()).(listeners := old(listeners)[kind := ListenersOf(old(listeners), kind) + [callback]])
    {
      listeners := listeners[kind := ListenersOf(listeners, kind) + [callback]];
    }

    /** `unsubscribe`: every copy of the callback leaves the type's list; other types are untouched. */
    method Unsubscribe(kind: string, callback: nat)
      modifies this
      ensures kind !in old(listeners) ==> State() == old(State())
      ensures kind in old(listeners) ==> State() == old(State()).(listeners := old(listeners)[kind := Without(old(listeners)[kind], callback)])
      ensures callback !in ListenersOf(listeners, kind)
    {
      if kind in listeners {
        WithoutMembers(listeners[kind], callback);
        listeners := listeners[kind := Without(listeners[kind], callback)];
      }
    }

    /** `notifyListeners`: every callback of the type is called in order; one that throws does not stop the rest. */
    method NotifyListeners(kind: string, payload: Payload)
      modifies this
      ensures State() == old(State()).(delivered := old(delivered) + Calls(ListenersOf(old(listeners), kind), kind, payload))
    {
      var cbs := ListenersOf(listeners, kind);
      var i := 0;
      while i < |cbs|
        invariant 0 <= i <= |cbs|
        invariant State() == old(State()).(delivered := old(delivered) + Calls(cbs[..i], kind, payload))
      {
        assert Calls(cbs[..i + 1], kind, payload) == Calls(cbs[..i], kind, payload) + [Delivery(cbs[i], kind, payload)];
        delivered := delivered + [Delivery(cbs[i], kind, payload)];
        i := i + 1;
      }
      assert cbs[..|cbs|] == cbs;
    }

    /** `sendMessage`: only an open socket sends. */
    method SendMessage(frame: string) returns (ok: bool)
      modifies this
      ensures ok <==> old(socket) == Open
      ensures State() == old(State()).(sent := if ok then old(sent) + [frame] else old(sent))
    {
      if socket == Open {
        sent := sent + [frame];
        return true;
      }
      return false;
    }

    /** One parsed line of `handleMessage`. */
    method HandleLine(msg: string, now: int, parse: string -> Option<Envelope>)
      modifies this
      ensures State() == Absorb1(old(State()), msg, now, parse)
    {
      var m := parse(msg);
      if m.None? {
        return;
      }
      var e := m.value;
      if e.kind == "ping" {
        if socket == Open {
          sent := sent + [TypeFrame("pong")];
        }
      } else if e.kind == "pong" {
        lastPongTime := now;
      } else {
        NotifyListeners(e.kind, Raw(e.payload));
      }
    }

    /** `handleMessage`: the frame's non-blank lines are taken one by one. */
    method HandleMessage(data: string, now: int, parse: string -> Option<Envelope>)
      modifies this
      ensures State() == Absorb(old(State()), Frames(data), now, parse)
    {
      var msgs := Frames(data);
      var i := 0;
      while i < |msgs|
        invariant 0 <= i <= |msgs|
        invariant State() == Absorb(old(State()), msgs[..i], now, parse)
      {
        assert msgs[..i + 1][..i] == msgs[..i];
        HandleLine(msgs[i], now, parse);
        i := i + 1;
      }
      assert msgs[..|msgs|] == msgs;
    }

    /** The ping interval: an open socket sends a ping. */
    method PingTick()
      modifies this
      ensures State() == old(State()).(sent := if old(socket) == Open then old(sent) + [TypeFrame("ping")] else old(sent))
    {
      if socket == Open {
        sent := sent + [TypeFrame("ping")];
      }
    }

    /**
     * `sendStatusMessage`: the pending status message is cancelled; unless the status is the last
     * one sent, a new one is scheduled.
     */
    method SendStatusMessage(status: string)
      modifies this
      ensures State() == old(State()).(pendingStatus := if old(lastStatus) == Some(status) then None else Some(status))
    {
      pendingStatus := None;
      if lastStatus == Some(status) {
        return;
      }
      pendingStatus := Some(status);
    }

    /** The status timer: the pending status is sent, and becomes the last status only when the send succeeded. */
    method StatusTimerFires()
      modifies this
      ensures old(pendingStatus).None? ==> State() == old(State())
      ensures old(pendingStatus).Some? && old(socket) == Open ==>
        State() == old(State()).(sent := old(sent) + [TypeFrame(old(pendingStatus).value)], lastStatus := old(pendingStatus), pendingStatus := None)
      ensures old(pendingStatus).Some? && old(socket) != Open ==> State() == old(State()).(pendingStatus := None)
    {
      if pendingStatus.None? {
        return;
      }
      var status := pendingStatus.value;
      var ok := SendMessage(TypeFrame(status));
      if ok {
        lastStatus := Some(status);
      }
      pendingStatus := None;
    }

    /** `checkConnectionQuality`: more than 60 s without a pong is poor, more than 90 s closes the socket. */
    method CheckConnectionQuality(now: int)
      modifies this
      ensures old(socket) != Open || now - old(lastPongTime) <= 60000 ==> State() == old(State())
      ensures old(socket) == Open && 60000 < now - old(lastPongTime) <= 90000 ==> State() == old(State()).(quality := Poor)
      ensures old(socket) == Open && now - old(lastPongTime) > 90000 ==> State() == old(State()).(quality := Poor, socket := Closing)
    {
      if socket != Open {
        return;
      }
      var sinceLastPong := now - lastPongTime;
      if sinceLastPong > 60000 {
        quality := Poor;
        if sinceLastPong > 90000 {
          socket := Closing;
        }
      }
    }

    /**
     * `connect`: offline, listeners hear "device_offline"; unauthenticated, or with a socket open
     * or opening, nothing happens; otherwise a new socket starts connecting.
     */
    method Connect(online: bool, authenticated: bool)
      modifies this
      ensures !online ==> State() == old(State()).(delivered := old(delivered) + Calls(ListenersOf(old(listeners), "connection"), "connection", ConnectionDown("device_offline")))
      ensures online && (!authenticated || old(socket) == Open || old(socket) == Connecting) ==> State() == old(State())
      ensures online && authenticated && old(socket) != Open && old(socket) != Connecting ==> State() == old(State()).(socket := Connecting)
    {
      if !online {
        NotifyListeners("connection", ConnectionDown("device_offline"));
        return;
      }
      if !authenticated {
        return;
      }
      if socket == Open || socket == Connecting {
        return;
      }
      socket := Connecting;
    }

    /** `handleOpen`: the counter and the pong time are reset, the intervals start and listeners hear of the connection. */
    method HandleOpen(now: int)
      modifies this
      ensures State() == old(State()).(reconnectAttempts := 0, lastPongTime := now, socket := Open, heartbeat := true,
        delivered := old(delivered) + Calls(ListenersOf(old(listeners), "connection"), "connection", ConnectionUp(old(quality))))
    {
      reconnectAttempts := 0;
      lastPongTime := now;
      socket := Open;
      heartbeat := true;
      NotifyListeners("connection", ConnectionUp(quality));
    }

    /**
     * `scheduleReconnect`: nothing offline; otherwise the counter goes up by one, falling back to
     * four first once it reached five, and a reconnect is scheduled after the matching delay.
     */
    method ScheduleReconnect(online: bool)
      modifies this
      ensures !online ==> State() == old(State())
      ensures online ==> State() == old(State()).(reconnectAttempts := NextAttempts(old(reconnectAttempts)),
        reconnectDelay := Some(ReconnectDelay(NextAttempts(old(reconnectAttempts)))))
    {
      if !online {
        return;
      }
      if reconnectAttempts >= MaxReconnectAttempts {
        reconnectAttempts := MaxReconnectAttempts - 1;
      }
      reconnectAttempts := reconnectAttempts + 1;
      reconnectDelay := Some(ReconnectDelay(reconnectAttempts));
    }

    /** The reconnect timer: online and authenticated, `connect` runs. */
    method ReconnectTimerFires(online: bool, authenticated: bool)
      modifies this
      ensures !(online && authenticated) ==> State() == old(State()).(reconnectDelay := None)
      ensures online && authenticated && (old(socket) == Open || old(socket) == Connecting) ==> State() == old(State()).(reconnectDelay := None)
      ensures online && authenticated && old(socket) != Open && old(socket) != Connecting ==>
        State() == old(State()).(reconnectDelay := None, socket := Connecting)
    {
      reconnectDelay := None;
      if online && authenticated {
        Connect(online, authenticated);
      }
    }

    /**
     * `handleClose`: the socket is gone and the intervals stop. A 1006 whose reason mentions
     * "unauthorized", or a 1008, logs out. Otherwise an abnormal close by an authenticated user
     * reconnects when online (or tells listeners the device is offline), and listeners hear
     * "server_disconnected".
     */
    method HandleClose(code: int, reason: string, authenticated: bool, online: bool)
      modifies this
      ensures LogsOut(code, reason) ==> State() == old(State()).(socket := NoSocket, heartbeat := false, loggedOut := true)
      ensures !LogsOut(code, reason) && code != 1000 && authenticated && online ==>
        State() == old(State()).(socket := NoSocket, heartbeat := false,
          reconnectAttempts := NextAttempts(old(reconnectAttempts)),
          reconnectDelay := Some(ReconnectDelay(NextAttempts(old(reconnectAttempts)))),
          delivered := old(delivered) + Calls(ListenersOf(old(listeners), "connection"), "connection", ConnectionDown("server_disconnected")))
      ensures !LogsOut(code, reason) && !(code != 1000 && authenticated && online) ==>
        State() == old(State()).(socket := NoSocket, heartbeat := false,
          delivered := old(delivered) +
            (if code != 1000 && authenticated then Calls(ListenersOf(old(listeners), "connection"), "connection", ConnectionDown("device_offline")) else []) +
            Calls(ListenersOf(old(listeners), "connection"), "connection", ConnectionDown("server_disconnected")))
    {
      socket := NoSocket;
      heartbeat := false;
      if LogsOut(code, reason) {
        loggedOut := true;
        return;
      }
      if code != 1000 && authenticated {
        if online {
          ScheduleReconnect(online);
        } else {
          NotifyListeners("connection", ConnectionDown("device_offline"));
        }
      }
      NotifyListeners("connection", ConnectionDown("server_disconnected"));
    }

    /** The two transitions of `handleNetworkChange`: back online resets the counter and connects; going offline is announced. */
    method Reachability(wasOnline: bool, online: bool, authenticated: bool)
      modifies this
      ensures !wasOnline && online && authenticated && old(socket) != Open && old(socket) != Connecting ==>
        State() == old(State()).(reconnectAttempts := 0, socket := Connecting)
      ensures !wasOnline && online && !(authenticated && old(socket) != Open && old(socket) != Connecting) ==>
        State() == old(State()).(reconnectAttempts := 0)
      ensures wasOnline && !online ==>
        State() == old(State()).(delivered := old(delivered) + Calls(ListenersOf(old(listeners), "connection"), "connection", ConnectionDown("network_offline")))
      ensures wasOnline == online ==> State() == old(State())
    {
      if !wasOnline && online {
        reconnectAttempts := 0;
        if socket != Open {
          Connect(online, authenticated);
        }
      } else if wasOnline && !online {
        NotifyListeners("connection", ConnectionDown("network_offline"));
      }
    }

    /** The end of `handleNetworkChange`: the quality is recomputed and the network listeners hear of the change. */
    method Announce(wasOnline: bool, effectiveType: Option<string>)
      modifies this
      ensures State() == old(State()).(quality := UpdatedQuality(old(quality), old(isOnline), effectiveType),
        delivered := old(delivered) + Calls(ListenersOf(old(listeners), "network_change"), "network_change",
          NetworkChange(old(isOnline), wasOnline, UpdatedQuality(old(quality), old(isOnline), effectiveType))))
    {
      quality := UpdatedQuality(quality, isOnline, effectiveType);
      NotifyListeners("network_change", NetworkChange(isOnline, wasOnline, quality));
    }

    /**
     * `handleNetworkChange`: coming back online resets the reconnect counter and connects;
     * going offline tells the connection listeners; the quality is recomputed and the network
     * listeners always hear of the change.
     */
    method HandleNetworkChange(online: bool, effectiveType: Option<string>, authenticated: bool)
      modifies this
      ensures isOnline == online
      ensures !old(isOnline) && online ==> reconnectAttempts == 0
      ensures !(!old(isOnline) && online) ==> reconnectAttempts == old(reconnectAttempts)
      ensures quality == UpdatedQuality(old(quality), online, effectiveType)
      ensures socket == (if !old(isOnline) && online && authenticated && old(socket) != Open && old(socket) != Connecting then Connecting else old(socket))
      ensures delivered == old(delivered) +
        (if old(isOnline) && !online then Calls(ListenersOf(old(listeners), "connection"), "connection", ConnectionDown("network_offline")) else []) +
        Calls(ListenersOf(old(listeners), "network_change"), "network_change", NetworkChange(online, old(isOnline), quality))
      ensures listeners == old(listeners) && sent == old(sent) && reconnectDelay == old(reconnectDelay) && heartbeat == old(heartbeat)
      ensures pendingStatus == old(pendingStatus) && lastStatus == old(lastStatus) && lastPongTime == old(lastPongTime) && loggedOut == old(loggedOut)
    {
      var wasOnline := isOnline;
      isOnline := online;
      Reachability(wasOnline, online, authenticated);
      Announce(wasOnline, effectiveType);
    }

    /** `disconnect`: timers cancelled, socket dropped, listener table emptied and the counter reset. */
    method Disconnect()
      modifies this
      ensures State() == old(State()).(reconnectDelay := None, heartbeat := false, pendingStatus := None, socket := NoSocket,
        listeners := map[], reconnectAttempts := 0)
    {
      reconnectDelay := None;
      heartbeat := false;
      pendingStatus := None;
      socket := NoSocket;
      listeners := map[];
      reconnectAttempts := 0;
    }
  }
}
