/**
 * The client's WebSocket connection manager and event decoder
 * (`WebSocketProvider`). The browser socket and the reconnect timer are
 * explicit fields of the state; the socket callbacks, the timer callback and
 * the functions the provider exposes are transitions of that state.
 *
 * Every socket ever created stays in `sockets`, because a replaced socket's
 * callbacks keep running: its close event still reaches `onclose`. Timers are
 * kept the same way; `armed` holds the ones that are set and not yet cleared
 * or fired, and `timerRef` is `reconnectTimeoutRef.current`.
 */
module Connection {
  import opened Wrappers
  import opened Text
  import opened Messages
  import opened Framing

  /** The `user` and `token` the provider's callbacks close over. */
  datatype Creds = Creds(user: Option<string>, token: Option<string>)
  {
    /** `user && token`: a user object and a non-empty token. */
    predicate Present()
    {
      user.Some? && token.Some? && token.value != ""
    }
  }

  datatype ReadyState = Connecting | Open | Closing | Closed

  /** A browser socket: its URL, the credentials of the `connect` call that
      created it (its callbacks close over them), and its `readyState`. */
  datatype Socket = Socket(url: string, creds: Creds, ready: ReadyState)

  /** A reconnect timer: its delay and the credentials its callback sees. */
  datatype Timer = Timer(delay: nat, creds: Creds)

  datatype CloseInfo = CloseInfo(code: int, reason: string)

  /** What the provider publishes to other components as window events. */
  datatype Notification = VoteUpdate(data: Data) | NewComment(data: Data) | NewReply(data: Data)

  datatype State = State(
    base: string,
    sockets: seq<Socket>,
    current: Option<nat>,
    timers: seq<Timer>,
    timerRef: Option<nat>,
    armed: set<nat>,
    attempts: nat,
    isConnected: bool,
    onlineUsers: Option<seq<OnlineUser>>,
    typingUsers: map<string, string>,
    lastError: Option<string>,
    lastClose: Option<CloseInfo>,
    sent: seq<Outgoing>,
    warnings: nat,
    published: seq<Notification>)

  /** The provider's state on mount, with `base` the socket endpoint. */
  function Init(base: string): State
  {
    State(base, [], None, [], None, {}, 0, false, Some([]), map[], None, None, [], 0, [])
  }

  /** The cap on the reconnect counter. */
  const MaxAttempts := 10
  /** The cap on the reconnect delay, in milliseconds. */
  const MaxDelay := 30000

  function Pow2(n: nat): (p: nat)
    ensures p >= 1
  {
    if n == 0 then 1 else 2 * Pow2(n - 1)
  }

  /** `Math.min(30000, 1000 * Math.pow(2, n - 1))` for a counter n >= 1. */
  function Delay(n: nat): (d: nat)
    requires n >= 1
    ensures 1000 <= d <= MaxDelay
  {
    if 1000 * Pow2(n - 1) < MaxDelay then 1000 * Pow2(n - 1) else MaxDelay
  }

  /** The endpoint `connect` builds: the base, then `&` if the base already
      has a query and `?` otherwise, then `token=` and the encoded token. */
  function Url(base: string, token: string): (url: string)
    ensures |url| >= |base| + 7 && url[..|base|] == base
    ensures url[|base|] == (if '?' in base then '&' else '?')
    ensures url[|base| + 1..|base| + 7] == "token="
    ensures forall i :: |base| + 7 <= i < |url| ==> IsUriUnreserved(url[i]) || url[i] == '%'
  {
    base + [if '?' in base then '&' else '?'] + "token=" + EncodeUriComponent(token)
  }

  /** `socket.close()`: a connecting or open socket starts closing; a closing
      or closed one is left alone. */
  function CloseRequested(r: ReadyState): ReadyState
  {
    if r == Connecting || r == Open then Closing else r
  }

  /** Applies `close()` to socket `i`. */
  function CloseSocket(s: State, i: nat): (r: State)
    requires i < |s.sockets|
    ensures |r.sockets| == |s.sockets|
    ensures r.sockets[i].ready == CloseRequested(s.sockets[i].ready)
    ensures forall j :: 0 <= j < |s.sockets| && j != i ==> r.sockets[j] == s.sockets[j]
    ensures r.sockets[i].url == s.sockets[i].url && r.sockets[i].creds == s.sockets[i].creds
    ensures r == s.(sockets := r.sockets)
  {
    s.(sockets := s.sockets[i := s.sockets[i].(ready := CloseRequested(s.sockets[i].ready))])
  }

  /** `clearTimeout(t)`: a timer that has not fired yet never fires. */
  function ClearTimer(s: State, t: Option<nat>): (r: State)
    ensures r == s.(armed := if t.Some? then s.armed - {t.value} else s.armed)
  {
    if t.Some? then s.(armed := s.armed - {t.value}) else s
  }

  /** `connect()` with the credentials it closes over. Without both a user and
      a token it does nothing; otherwise it closes and drops the current
      socket and installs a fresh connecting one. */
  function Connect(s: State, c: Creds): (r: State)
    requires s.current.Some? ==> s.current.value < |s.sockets|
    ensures !c.Present() ==> r == s
    ensures c.Present() ==>
              && |r.sockets| == |s.sockets| + 1
              && r.current == Some(|s.sockets|)
              && r.sockets[|s.sockets|] == Socket(Url(s.base, c.token.value), c, Connecting)
    ensures c.Present() ==>
              forall i :: 0 <= i < |s.sockets| ==>
                r.sockets[i].ready == (if s.current == Some(i) then CloseRequested(s.sockets[i].ready) else s.sockets[i].ready)
    ensures c.Present() ==>
              r == s.(sockets := r.sockets, current := r.current)
  {
    if !c.Present() then s
    else
      var url := Url(s.base, c.token.value);
      var s1 := if s.current.Some? then CloseSocket(s, s.current.value).(current := None) else s;
      s1.(sockets := s1.sockets + [Socket(url, c, Connecting)], current := Some(|s1.sockets|))
  }

  /** `disconnect()`: closes and drops the current socket, clears and drops
      the reconnect timer, and reports the connection down. */
  function Disconnect(s: State): (r: State)
    requires s.current.Some? ==> s.current.value < |s.sockets|
    ensures r.current == None && r.timerRef == None && !r.isConnected
    ensures s.timerRef.Some? ==> s.timerRef.value !in r.armed
    ensures |r.sockets| == |s.sockets|
    ensures forall i :: 0 <= i < |s.sockets| ==>
              r.sockets[i].ready == (if s.current == Some(i) then CloseRequested(s.sockets[i].ready) else s.sockets[i].ready)
    ensures r.attempts == s.attempts && r.timers == s.timers
  {
    var s1 := if s.current.Some? then CloseSocket(s, s.current.value).(current := None) else s;
    ClearTimer(s1, s.timerRef).(timerRef := None, isConnected := false)
  }

  /** `ws.onopen` of socket `sid`. */
  function OnOpen(s: State, sid: nat): (r: State)
    requires sid < |s.sockets|
    ensures r.isConnected && r.attempts == 0 && r.timerRef == None
    ensures s.timerRef.Some? ==> s.timerRef.value !in r.armed
    ensures r.armed <= s.armed
    ensures |r.sockets| == |s.sockets| && r.sockets[sid].ready == Open
  {
    var s1 := s.(sockets := s.sockets[sid := s.sockets[sid].(ready := Open)], isConnected := true, attempts := 0);
    ClearTimer(s1, s.timerRef).(timerRef := None)
  }

  /** `ws.onclose` of socket `sid`: reports the connection down, records the
      close, clears the previous timer, bumps the counter up to its cap and
      arms a new timer whose callback reconnects with the credentials that
      socket was created with. */
  function OnClose(s: State, sid: nat, info: CloseInfo): (r: State)
    requires sid < |s.sockets|
    ensures !r.isConnected && r.lastClose == Some(info)
    ensures r.attempts == if s.attempts + 1 < MaxAttempts then s.attempts + 1 else MaxAttempts
    ensures 1 <= r.attempts <= MaxAttempts
    ensures |r.timers| == |s.timers| + 1 && r.timers[..|s.timers|] == s.timers
    ensures r.timers[|s.timers|] == Timer(Delay(r.attempts), s.sockets[sid].creds)
    ensures r.timerRef == Some(|s.timers|)
    ensures r.armed == (if s.timerRef.Some? then s.armed - {s.timerRef.value} else s.armed) + {|s.timers|}
    ensures |r.sockets| == |s.sockets| && r.sockets[sid].ready == Closed
  {
    var n := if s.attempts + 1 < MaxAttempts then s.attempts + 1 else MaxAttempts;
    var s1 := ClearTimer(s, s.timerRef);
    s1.(sockets := s.sockets[sid := s.sockets[sid].(ready := Closed)],
        isConnected := false,
        lastClose := Some(info),
        attempts := n,
        timers := s.timers + [Timer(Delay(n), s.sockets[sid].creds)],
        timerRef := Some(|s.timers|),
        armed := s1.armed + {|s.timers|})
  }

  /** `ws.onerror` of socket `sid`: records the error, closes that socket
      (not necessarily the current one) and reports the connection down. */
  function OnError(s: State, sid: nat, err: string): (r: State)
    requires sid < |s.sockets|
    ensures r.lastError == Some(err) && !r.isConnected
    ensures |r.sockets| == |s.sockets| && r.sockets[sid].ready == CloseRequested(s.sockets[sid].ready)
  {
    CloseSocket(s, sid).(lastError := Some(err), isConnected := false)
  }

  /** The reconnect timer `t` fires: if it is still armed, its callback runs
      `connect` with the credentials it closes over. The ref is not reset. */
  function OnTimer(s: State, t: nat): (r: State)
    requires s.current.Some? ==> s.current.value < |s.sockets|
    requires t in s.armed ==> t < |s.timers|
    ensures t !in s.armed ==> r == s
    ensures t in s.armed ==> t !in r.armed && r.timerRef == s.timerRef
    ensures t in s.armed && s.timers[t].creds.Present() ==> r.current == Some(|s.sockets|)
  {
    if t !in s.armed then s
    else Connect(s.(armed := s.armed - {t}), s.timers[t].creds)
  }

  /** `sendMessage`: transmits only while the current socket is open;
      otherwise warns and drops the message. Nothing is queued. */
  function Send(s: State, m: Outgoing): (r: State)
    requires s.current.Some? ==> s.current.value < |s.sockets|
    ensures IsOpen(s) ==> r == s.(sent := s.sent + [m])
    ensures !IsOpen(s) ==> r == s.(warnings := s.warnings + 1)
  {
    if IsOpen(s) then s.(sent := s.sent + [m]) else s.(warnings := s.warnings + 1)
  }

  predicate IsOpen(s: State)
    requires s.current.Some? ==> s.current.value < |s.sockets|
  {
    s.current.Some? && s.sockets[s.current.value].ready == Open
  }

  /** `sendTyping(postId)`. */
  function SendTyping(s: State, postId: string): State
    requires s.current.Some? ==> s.current.value < |s.sockets|
  {
    Send(s, Outgoing(KindTyping, postId))
  }

  /** `sendStopTyping(postId)`. */
  function SendStopTyping(s: State, postId: string): State
    requires s.current.Some? ==> s.current.value < |s.sockets|
  {
    Send(s, Outgoing(KindStopTyping, postId))
  }

  // ---------------------------------------------------------------------
  // Routing of decoded messages
  // ---------------------------------------------------------------------

  /** The eight message types the router acts on. */
  predicate Routed(kind: string)
  {
    kind in {KindVote, KindComment, KindReply, KindUserJoined, KindUserLeft,
             KindOnlineUsers, KindTyping, KindStopTyping}
  }

  /** `handleUserJoined`: appends `{id, username}` unless an entry has that id. */
  function UserJoined(users: seq<OnlineUser>, id: string, name: string): (r: seq<OnlineUser>)
    ensures HasUser(users, id) ==> r == users
    ensures !HasUser(users, id) ==> r == users + [OnlineUser(id, name)]
  {
    if exists i :: 0 <= i < |users| && users[i].id == id then users
    else users + [OnlineUser(id, name)]
  }

  /** `handleUserLeft`: keeps the entries whose id differs. */
  function UserLeft(users: seq<OnlineUser>, id: string): (r: seq<OnlineUser>)
    ensures forall i :: 0 <= i < |r| ==> r[i].id != id
    ensures forall u :: u in users && u.id != id ==> u in r
    ensures forall u :: u in r ==> u in users
    ensures |r| <= |users|
  {
    if |users| == 0 then []
    else if users[0].id == id then UserLeft(users[1..], id)
    else [users[0]] + UserLeft(users[1..], id)
  }

  /** `handleMessage` on one decoded object. Each branch runs a state
      updater; unknown types only log. */
  function Route(s: State, m: Message): (r: State)
  {
    if m.kind == KindVote then s.(published := s.published + [VoteUpdate(m.data)])
    else if m.kind == KindComment then s.(published := s.published + [NewComment(m.data)])
    else if m.kind == KindReply then s.(published := s.published + [NewReply(m.data)])
    else if m.kind == KindUserJoined then
      s.(onlineUsers := if s.onlineUsers.Some? then Some(UserJoined(s.onlineUsers.value, m.userId, m.username)) else None)
    else if m.kind == KindUserLeft then
      s.(onlineUsers := if s.onlineUsers.Some? then Some(UserLeft(s.onlineUsers.value, m.userId)) else None)
    else if m.kind == KindOnlineUsers then
      s.(onlineUsers := if m.data.Users? then Some(m.data.users) else None)
    else if m.kind == KindTyping then s.(typingUsers := s.typingUsers[m.userId := m.username])
    else if m.kind == KindStopTyping then s.(typingUsers := s.typingUsers - {m.userId})
    else s
  }

  /** `handleMessage` on any parsed value: only objects have a `type` that
      can match. (`null` throws; the decoder stops before it.) */
  function HandleValue(s: State, v: Json): State
  {
    if v.JObject? then Route(s, v.msg) else s
  }

  // ---------------------------------------------------------------------
  // Decoding of a received payload
  // ---------------------------------------------------------------------

  /** The values one parsed segment dispatches: an array's elements one by
      one, anything else as itself. */
  function Expand(v: Json): seq<Json>
  {
    if v.JArray? then v.items else [v]
  }

  /** Handles values in order until one is `null`, on which `handleMessage`
      throws. The flag is false when that happened. */
  function HandleValues(s: State, vs: seq<Json>): (State, bool)
    decreases |vs|
  {
    if |vs| == 0 then (s, true)
    else if vs[0].JNull? then (s, false)
    else HandleValues(HandleValue(s, vs[0]), vs[1..])
  }

  /** The body of `ws.onmessage` over the segments of a payload: a segment
      that does not parse is skipped; a throw abandons the rest. */
  function HandleSegments(s: State, segs: seq<string>, parse: string -> Option<Json>): State
    decreases |segs|
  {
    if |segs| == 0 then s
    else
      match parse(segs[0])
      case None => HandleSegments(s, segs[1..], parse)
      case Some(v) =>
        var (s1, ok) := HandleValues(s, Expand(v));
        if ok then HandleSegments(s1, segs[1..], parse) else s1
  }

  /** `ws.onmessage` with payload `raw`. */
  function Receive(s: State, raw: string, parse: string -> Option<Json>): State
  {
    HandleSegments(s, Segments(raw), parse)
  }

  // ---------------------------------------------------------------------
  // Events
  // ---------------------------------------------------------------------

  datatype Event =
    | ConnectCall(creds: Creds)
    | DisconnectCall
    | AuthChanged(creds: Creds)
    | SocketOpen(sid: nat)
    | SocketClose(sid: nat, info: CloseInfo)
    | SocketError(sid: nat, err: string)
    | SocketMessage(sid: nat, raw: string)
    | TimerFire(timer: nat)
    | SendCall(msg: Outgoing)

  /** The references the state keeps point at existing sockets and timers. */
  predicate WellFormed(s: State)
  {
    && (s.current.Some? ==> s.current.value < |s.sockets|)
    && (s.timerRef.Some? ==> s.timerRef.value < |s.timers|)
    && (forall t :: t in s.armed ==> t < |s.timers|)
  }

  /** The login effect: its cleanup disconnects, then it connects when both a
      user and a token are present and disconnects otherwise. */
  function OnAuthChanged(s: State, c: Creds): State
    requires WellFormed(s)
  {
    var d := Disconnect(s);
    if c.Present() then Connect(d, c) else Disconnect(d)
  }

  /** One event. The browser only opens a connecting socket, only reports
      an error or a close for a socket not yet closed, and only delivers
      messages on an open socket; any other socket event changes nothing. */
  function Step(s: State, e: Event, parse: string -> Option<Json>): State
    requires WellFormed(s)
  {
    match e
    case ConnectCall(c) => Connect(s, c)
    case DisconnectCall => Disconnect(s)
    case AuthChanged(c) => OnAuthChanged(s, c)
    case SocketOpen(sid) =>
      if sid < |s.sockets| && s.sockets[sid].ready == Connecting then OnOpen(s, sid) else s
    case SocketClose(sid, info) =>
      if sid < |s.sockets| && s.sockets[sid].ready != Closed then OnClose(s, sid, info) else s
    case SocketError(sid, err) =>
      if sid < |s.sockets| && s.sockets[sid].ready != Closed then OnError(s, sid, err) else s
    case SocketMessage(sid, raw) =>
      if sid < |s.sockets| && s.sockets[sid].ready == Open then Receive(s, raw, parse) else s
    case TimerFire(t) => OnTimer(s, t)
    case SendCall(m) => Send(s, m)
  }
}
