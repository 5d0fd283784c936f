/**
 * The server's WebSocket endpoint (`HandleWebSocket`) and a client's two
 * pumps: the read pump stamps and relays inbound messages, the write pump
 * sends everything queued for the client in one newline-joined frame.
 * Token validation and JSON decoding are parameters.
 */
module WsHandler {
  import opened Wrappers
  import opened Text
  import opened Messages
  import opened Framing
  import opened Hub

  /** The claims a valid token carries. */
  datatype Claims = Claims(userId: string)

  /** The endpoint's answer to an upgrade request. */
  datatype Upgrade = Rejected(status: int, error: string) | Accepted(userId: string, username: string)

  const StatusUnauthorized := 401
  /** The read limit set on every connection, in bytes. */
  const MaxMessageSize := 512

  /** `HandleWebSocket` up to the upgrade: a missing token and an invalid
      one are refused with 401; otherwise the client's user id and name are
      both the token's user id. */
  function Authorize(token: string, validate: string -> Option<Claims>): (r: Upgrade)
    ensures r.Accepted? <==> token != "" && validate(token).Some?
    ensures token == "" ==> r == Rejected(StatusUnauthorized, "Token required")
    ensures token != "" && validate(token).None? ==> r == Rejected(StatusUnauthorized, "Invalid token")
    ensures r.Accepted? ==> r.userId == r.username == validate(token).value.userId
  {
    if token == "" then Rejected(StatusUnauthorized, "Token required")
    else match validate(token)
      case None => Rejected(StatusUnauthorized, "Invalid token")
      case Some(claims) => Accepted(claims.userId, claims.userId)
  }

  /** A request that passes the gate is registered with the hub; one that
      does not leaves the hub as it was. */
  function Open(h: Hub, token: string, validate: string -> Option<Claims>, now: int,
                marshal: Message -> Option<string>): (r: (Hub, Upgrade))
    ensures r.1 == Authorize(token, validate)
    ensures r.1.Rejected? ==> r.0 == h
    ensures r.1.Accepted? ==> r.0 == Register(h, r.1.userId, r.1.username, now, marshal)
  {
    match Authorize(token, validate)
    case Rejected(st, e) => (h, Rejected(st, e))
    case Accepted(u, n) => (Register(h, u, n, now, marshal), Accepted(u, n))
  }

  /** The types `Client.handleMessage` rebroadcasts. */
  predicate Relayed(kind: string)
  {
    kind in {KindTyping, KindStopTyping, KindVote, KindComment, KindReply}
  }

  /** `Client.handleMessage`: the five relayed types go to every client, any
      other type is only logged. */
  function HandleInbound(h: Hub, m: Message, marshal: Message -> Option<string>): Hub
  {
    if Relayed(m.kind) then BroadcastMessage(h, m, marshal) else h
  }

  /** The connection's own identity replaces whatever the message claimed. */
  function Stamp(m: Message, userId: string, username: string, now: int): (r: Message)
    ensures r.userId == userId && r.username == username && r.timestamp == now
    ensures r.kind == m.kind && r.data == m.data
  {
    m.(userId := userId, username := username, timestamp := now)
  }

  /** A text frame read from the socket, with the time it was read. */
  datatype Inbound = Inbound(payload: string, at: int)

  /** The read loop over the frames of a connection: a frame over the read
      limit is a read error that ends the loop; a frame that does not
      unmarshal is skipped; any other is stamped and handled. */
  function ReadLoop(h: Hub, userId: string, username: string, frames: seq<Inbound>,
                    unmarshal: string -> Option<Message>, marshal: Message -> Option<string>): (r: Hub)
    ensures |r.log| >= |h.log| && r.log[..|h.log|] == h.log
    ensures forall i :: |h.log| <= i < |r.log| ==>
              r.log[i].userId == userId && r.log[i].username == username && Relayed(r.log[i].kind)
    decreases |frames|
  {
    if |frames| == 0 then h
    else if Utf8Len(frames[0].payload) > MaxMessageSize then h
    else match unmarshal(frames[0].payload)
      case None => ReadLoop(h, userId, username, frames[1..], unmarshal, marshal)
      case Some(m) =>
        var h1 := HandleInbound(h, Stamp(m, userId, username, frames[0].at), marshal);
        ReadLoop(h1, userId, username, frames[1..], unmarshal, marshal)
  }

  /** `readPump`: the read loop, then the deferred unregister. */
  function ReadPump(h: Hub, c: Client, frames: seq<Inbound>, closedAt: int,
                    unmarshal: string -> Option<Message>, marshal: Message -> Option<string>): Hub
  {
    Unregister(ReadLoop(h, c.userId, c.username, frames, unmarshal, marshal), c.id, c.userId, c.username, closedAt, marshal)
  }

  /** What one turn of the write pump puts on the wire. */
  datatype Outbound = Idle | Text(frame: string) | CloseFrame

  /** Empties the buffer of client `id`, leaving every other client as is. */
  function ClearQueue(cs: seq<Client>, id: nat): (r: seq<Client>)
    ensures IdSet(r) == IdSet(cs)
    ensures DistinctIds(cs) ==> DistinctIds(r)
    ensures Find(cs, id).Some? ==> Find(r, id) == Some(Find(cs, id).value.(queue := []))
    ensures forall x :: x != id ==> Find(r, x) == Find(cs, x)
  {
    if |cs| == 0 then []
    else [if cs[0].id == id then cs[0].(queue := []) else cs[0]] + ClearQueue(cs[1..], id)
  }

  /** `writePump` on one wake-up: the first pending message and every
      message already queued behind it go out as one frame, joined by '\n'.
      A closed `Send` (the client is no longer registered) still yields what
      it buffers, the same way, and the close frame once it is empty. */
  function WritePump(h: Hub, id: nat): (r: (Hub, Outbound))
    ensures Find(h.clients, id).None? && (id !in h.drains || h.drains[id] == []) ==> r == (h, CloseFrame)
    ensures Find(h.clients, id).None? && id in h.drains && h.drains[id] != [] ==>
              && r.1 == Text(Frame(h.drains[id]))
              && r.0.clients == h.clients && r.0.closes == h.closes && r.0.log == h.log
              && r.0.drains == h.drains[id := []]
    ensures Find(h.clients, id).Some? && Find(h.clients, id).value.queue == [] ==> r == (h, Idle)
    ensures Find(h.clients, id).Some? && Find(h.clients, id).value.queue != [] ==>
              && r.1 == Text(Frame(Find(h.clients, id).value.queue))
              && Find(r.0.clients, id) == Some(Find(h.clients, id).value.(queue := []))
              && (forall x :: x != id ==> Find(r.0.clients, x) == Find(h.clients, x))
  {
    match Find(h.clients, id)
    case None =>
      if id in h.drains && h.drains[id] != [] then (h.(drains := h.drains[id := []]), Text(Frame(h.drains[id])))
      else (h, CloseFrame)
    case Some(c) =>
      if c.queue == [] then (h, Idle)
      else (h.(clients := ClearQueue(h.clients, id)), Text(Frame(c.queue)))
  }

  // ---------------------------------------------------------------------
  // Properties
  // ---------------------------------------------------------------------

  /** `handleMessage` rebroadcasts exactly the five relayed types. */
  lemma RelayWhitelist(h: Hub, m: Message, marshal: Message -> Option<string>)
    ensures Relayed(m.kind) ==> HandleInbound(h, m, marshal).log == h.log + [m]
    ensures !Relayed(m.kind) ==> HandleInbound(h, m, marshal) == h
    ensures Relayed(m.kind) <==> m.kind in {"typing", "stop_typing", "vote", "comment", "reply"}
  {
  }

  /** A frame over the read limit ends the loop: nothing after it is read. */
  lemma OversizedFrameEndsLoop(h: Hub, userId: string, username: string, f: Inbound, rest: seq<Inbound>,
                               unmarshal: string -> Option<Message>, marshal: Message -> Option<string>)
    requires Utf8Len(f.payload) > MaxMessageSize
    ensures ReadLoop(h, userId, username, [f] + rest, unmarshal, marshal) == h
  {
  }

  /** An ASCII frame of at most 512 characters is within the read limit;
      512 characters of non-ASCII text may not be. */
  lemma AsciiFrameWithinLimit(f: Inbound)
    requires |f.payload| <= MaxMessageSize
    requires forall i :: 0 <= i < |f.payload| ==> f.payload[i] as int < 0x80
    ensures Utf8Len(f.payload) <= MaxMessageSize
  {
    AsciiUtf8Len(f.payload);
  }

  /** A frame that does not unmarshal is skipped and the loop goes on. */
  lemma UnparsableFrameSkipped(h: Hub, userId: string, username: string, f: Inbound, rest: seq<Inbound>,
                               unmarshal: string -> Option<Message>, marshal: Message -> Option<string>)
    requires Utf8Len(f.payload) <= MaxMessageSize && unmarshal(f.payload).None?
    ensures ReadLoop(h, userId, username, [f] + rest, unmarshal, marshal) ==
            ReadLoop(h, userId, username, rest, unmarshal, marshal)
  {
    assert ([f] + rest)[1..] == rest;
  }

  /** A relayed frame is broadcast under the connection's identity and the
      time it was read, whatever identity it claimed. */
  lemma RelayedFrameStamped(h: Hub, userId: string, username: string, f: Inbound,
                            unmarshal: string -> Option<Message>, marshal: Message -> Option<string>)
    requires Utf8Len(f.payload) <= MaxMessageSize && unmarshal(f.payload).Some?
    requires Relayed(unmarshal(f.payload).value.kind)
    ensures var m := unmarshal(f.payload).value;
            ReadLoop(h, userId, username, [f], unmarshal, marshal).log ==
              h.log + [Message(m.kind, m.data, userId, username, f.at)]
  {
    assert [f][1..] == [];
  }

  /** What the write pump sends is what the client decodes: messages that
      are trimmed, non-empty and free of line breaks come back in order. */
  lemma WriteThenDecode(h: Hub, id: nat)
    requires Find(h.clients, id).Some? && Find(h.clients, id).value.queue != []
    requires forall i :: 0 <= i < |Find(h.clients, id).value.queue| ==> Framable(Find(h.clients, id).value.queue[i])
    ensures WritePump(h, id).1.Text?
    ensures Segments(WritePump(h, id).1.frame) == Find(h.clients, id).value.queue
  {
    SegmentsOfFrame(Find(h.clients, id).value.queue);
  }

  /** When the hub unregisters a client, its write pump still sends every
      message that was waiting for it, in order and as one frame, and then
      the close frame; nothing is lost and nothing follows. */
  lemma UnregisteredClientDrains(h: Hub, id: nat, userId: string, username: string, now: int,
                                 marshal: Message -> Option<string>)
    requires Inv(h) && Find(h.clients, id).Some?
    requires forall i :: 0 <= i < |Find(h.clients, id).value.queue| ==> Framable(Find(h.clients, id).value.queue[i])
    ensures var q := Find(h.clients, id).value.queue;
            var h1 := Unregister(h, id, userId, username, now, marshal);
            var (h2, first) := WritePump(h1, id);
            && (q == [] ==> first == CloseFrame)
            && (q != [] ==> first.Text? && Segments(first.frame) == q && WritePump(h2, id).1 == CloseFrame)
  {
    var q := Find(h.clients, id).value.queue;
    var e := Evict(h, id);
    assert id !in IdSet(e.clients);
    UnregisterKeepsDrain(e, id, userId, username, now, marshal);
    if q != [] {
      SegmentsOfFrame(q);
    }
  }

  /** The broadcasts that follow an eviction neither register the evicted
      id again nor touch its drained buffer. */
  lemma UnregisterKeepsDrain(e: Hub, id: nat, userId: string, username: string, now: int,
                             marshal: Message -> Option<string>)
    requires id !in IdSet(e.clients) && id in e.drains
    ensures var h1 := if CountUser(e.clients, userId) == 0 then
                        var h2 := BroadcastMessage(e, Message(KindUserLeft, NoData, userId, username, now), marshal);
                        BroadcastMessage(h2, Snapshot(UniqueOnlineUsers(h2.clients), now), marshal)
                      else e;
            id !in IdSet(h1.clients) && id in h1.drains && h1.drains[id] == e.drains[id]
  {
  }

  /** The write pump keeps the hub's invariant. */
  lemma WritePumpPreservesInv(h: Hub, id: nat)
    requires Inv(h)
    ensures Inv(WritePump(h, id).0)
  {
    var r := WritePump(h, id).0;
    if r.clients != h.clients {
      assert r.clients == ClearQueue(h.clients, id);
      forall i | 0 <= i < |r.clients| ensures |r.clients[i].queue| <= SendCapacity {
        ClearQueueBounded(h.clients, id, i);
      }
    }
  }

  lemma {:induction false} ClearQueueBounded(cs: seq<Client>, id: nat, i: nat)
    requires Bounded(cs) && i < |ClearQueue(cs, id)|
    ensures |ClearQueue(cs, id)[i].queue| <= SendCapacity
  {
    if i > 0 {
      ClearQueueBounded(cs[1..], id, i - 1);
    }
  }
}
