/**
 * The server's WebSocket hub (`Hub.Run` and its helpers) as a sequential
 * state machine. The registry is the sequence of registered clients in
 * registration order (Go's map iteration order is unspecified; any order is
 * one of the orders Go may pick). Each client carries the messages waiting
 * in its buffered `Send` channel; `closes` logs every `close(client.Send)`,
 * `drains` keeps what each closed channel still buffers for its write pump,
 * and `log` records every message handed to `broadcastMessage`.
 *
 * `Register` and `Unregister` deliver their broadcasts directly. The code as
 * written sends them on the hub's own unbuffered channel from inside `Run`,
 * which blocks; `RegisterAsWritten` and `UnregisterAsWritten` model that.
 */
module Hub {
  import opened Wrappers
  import opened Messages

  /** The buffer size of a client's `Send` channel. */
  const SendCapacity := 256

  /** A registered connection: `id` stands for the `*Client` value, `queue`
      for the frames waiting in its `Send` channel. */
  datatype Client = Client(id: nat, userId: string, username: string, queue: seq<string>)

  datatype Hub = Hub(clients: seq<Client>, nextId: nat, closes: seq<nat>, log: seq<Message>,
                     drains: map<nat, seq<string>>)

  function Empty(): Hub
  {
    Hub([], 0, [], [], map[])
  }

  // ---------------------------------------------------------------------
  // The registry
  // ---------------------------------------------------------------------

  function IdSet(cs: seq<Client>): set<nat>
  {
    if |cs| == 0 then {} else {cs[0].id} + IdSet(cs[1..])
  }

  function UserIdSet(cs: seq<Client>): set<string>
  {
    if |cs| == 0 then {} else {cs[0].userId} + UserIdSet(cs[1..])
  }

  /** Each client id is in the map at most once. */
  predicate DistinctIds(cs: seq<Client>)
  {
    |cs| == 0 || (cs[0].id !in IdSet(cs[1..]) && DistinctIds(cs[1..]))
  }

  predicate NoDuplicates(xs: seq<nat>)
  {
    forall i, j :: 0 <= i < j < |xs| ==> xs[i] != xs[j]
  }

  /** The registered client with that id, if any. */
  function Find(cs: seq<Client>, id: nat): (r: Option<Client>)
    ensures r.Some? <==> id in IdSet(cs)
    ensures r.Some? ==> r.value.id == id && r.value in cs
  {
    if |cs| == 0 then None
    else if cs[0].id == id then Some(cs[0])
    else Find(cs[1..], id)
  }

  /** The number of registered clients of a user (`prevCount`, `remaining`). */
  function CountUser(cs: seq<Client>, userId: string): (n: nat)
    ensures n <= |cs|
    ensures n == 0 <==> userId !in UserIdSet(cs)
  {
    if |cs| == 0 then 0
    else (if cs[0].userId == userId then 1 else 0) + CountUser(cs[1..], userId)
  }

  /** `delete(h.clients, client)`. */
  function Remove(cs: seq<Client>, id: nat): (r: seq<Client>)
    ensures IdSet(r) == IdSet(cs) - {id}
    ensures DistinctIds(cs) ==> DistinctIds(r)
    ensures forall x :: x != id ==> Find(r, x) == Find(cs, x)
    ensures forall i :: 0 <= i < |r| ==> r[i] in cs
  {
    if |cs| == 0 then []
    else if cs[0].id == id then Remove(cs[1..], id)
    else [cs[0]] + Remove(cs[1..], id)
  }

  /** Every queue is within the channel's capacity. */
  predicate Bounded(cs: seq<Client>)
  {
    forall i :: 0 <= i < |cs| ==> |cs[i].queue| <= SendCapacity
  }

  /** The hub's bookkeeping invariant: each id registered once, fresh
      ids above every used one, each `Send` closed at most once and
      never while registered, and no buffer over capacity. */
  predicate Inv(h: Hub)
  {
    && DistinctIds(h.clients)
    && (forall x :: x in IdSet(h.clients) ==> x < h.nextId)
    && NoDuplicates(h.closes)
    && (forall i :: 0 <= i < |h.closes| ==> h.closes[i] < h.nextId && h.closes[i] !in IdSet(h.clients))
    && Bounded(h.clients)
  }

  // ---------------------------------------------------------------------
  // Delivery
  // ---------------------------------------------------------------------

  /** The send loop targets every client, or only those of one user. */
  predicate Targeted(c: Client, to: Option<string>)
  {
    to.None? || c.userId == to.value
  }

  predicate Room(c: Client)
  {
    |c.queue| < SendCapacity
  }

  /** A non-blocking send to each targeted client in order; a client whose
      buffer is full is removed. Untargeted clients are untouched. */
  function Fanout(cs: seq<Client>, data: string, to: Option<string>): (r: seq<Client>)
    ensures |r| <= |cs|
    ensures IdSet(r) <= IdSet(cs)
    ensures DistinctIds(cs) ==> DistinctIds(r)
    ensures Bounded(cs) ==> Bounded(r)
  {
    if |cs| == 0 then []
    else
      var c := cs[0];
      var rest := Fanout(cs[1..], data, to);
      if !Targeted(c, to) then [c] + rest
      else if Room(c) then [c.(queue := c.queue + [data])] + rest
      else rest
  }

  /** The clients the loop collected in `toRemove`, in order. */
  function Dropped(cs: seq<Client>, to: Option<string>): (r: seq<nat>)
    ensures forall i :: 0 <= i < |r| ==> r[i] in IdSet(cs)
  {
    if |cs| == 0 then []
    else (if Targeted(cs[0], to) && !Room(cs[0]) then [cs[0].id] else []) + Dropped(cs[1..], to)
  }

  /** The buffers of the collected clients, still waiting in their closed
      channels. */
  function DroppedQueues(cs: seq<Client>, to: Option<string>): (r: map<nat, seq<string>>)
    ensures forall x :: x in r <==> x in Dropped(cs, to)
  {
    if |cs| == 0 then map[]
    else (if Targeted(cs[0], to) && !Room(cs[0]) then map[cs[0].id := cs[0].queue] else map[]) + DroppedQueues(cs[1..], to)
  }

  /** The send loop followed by closing and deleting the collected clients. */
  function Deliver(h: Hub, data: string, to: Option<string>): Hub
  {
    h.(clients := Fanout(h.clients, data, to), closes := h.closes + Dropped(h.clients, to),
       drains := h.drains + DroppedQueues(h.clients, to))
  }

  /** `BroadcastToUser`: a message that does not marshal is dropped. */
  function BroadcastToUser(h: Hub, userId: string, m: Message, marshal: Message -> Option<string>): Hub
  {
    match marshal(m)
    case None => h
    case Some(data) => Deliver(h, data, Some(userId))
  }

  /** `broadcastMessage` together with the `broadcast` case of `Run`. */
  function BroadcastMessage(h: Hub, m: Message, marshal: Message -> Option<string>): Hub
  {
    var h1 := h.(log := h.log + [m]);
    match marshal(m)
    case None => h1
    case Some(data) => Deliver(h1, data, None)
  }

  // ---------------------------------------------------------------------
  // Presence
  // ---------------------------------------------------------------------

  /** The clients in order, keeping the first of each user not yet seen. */
  function Dedupe(cs: seq<Client>, seen: set<string>): (r: seq<OnlineUser>)
    ensures UniqueIds(r)
    ensures forall i :: 0 <= i < |r| ==> r[i].id !in seen
    ensures forall id :: HasUser(r, id) <==> id !in seen && id in UserIdSet(cs)
    ensures |r| <= |cs|
  {
    if |cs| == 0 then []
    else if cs[0].userId in seen then Dedupe(cs[1..], seen)
    else
      var rest := Dedupe(cs[1..], seen + {cs[0].userId});
      var u := OnlineUser(cs[0].userId, cs[0].username);
      HasUserPrepend(u, rest);
      [u] + rest
  }

  lemma HasUserPrepend(u: OnlineUser, rest: seq<OnlineUser>)
    ensures forall id :: HasUser([u] + rest, id) <==> u.id == id || HasUser(rest, id)
  {
    forall id ensures HasUser([u] + rest, id) <==> u.id == id || HasUser(rest, id) {
      HasUserPrependOne(u, rest, id);
    }
  }

  lemma HasUserPrependOne(u: OnlineUser, rest: seq<OnlineUser>, id: string)
    ensures HasUser([u] + rest, id) <==> u.id == id || HasUser(rest, id)
  {
    var l := [u] + rest;
    if HasUser(rest, id) {
      var k :| 0 <= k < |rest| && rest[k].id == id;
      assert l[k + 1] == rest[k];
    }
    if HasUser(l, id) && u.id != id {
      var k :| 0 <= k < |l| && l[k].id == id;
      assert rest[k - 1] == l[k];
    }
    if u.id == id {
      assert l[0] == u;
    }
  }

  /** The deduplicated presence list. */
  function UniqueOnlineUsers(cs: seq<Client>): (r: seq<OnlineUser>)
    ensures UniqueIds(r)
    ensures forall id :: HasUser(r, id) <==> id in UserIdSet(cs)
  {
    Dedupe(cs, {})
  }

  /** `GetUniqueOnlineUsers`: one entry per user, the first client's name. */
  method GetUniqueOnlineUsers(h: Hub) returns (users: seq<OnlineUser>)
    ensures UniqueIds(users)
    ensures forall id :: HasUser(users, id) <==> id in UserIdSet(h.clients)
    ensures users == UniqueOnlineUsers(h.clients)
  {
    var cs := h.clients;
    var seen: set<string> := {};
    users := [];
    var i := 0;
    while i < |cs|
      invariant 0 <= i <= |cs|
      invariant users + Dedupe(cs[i..], seen) == Dedupe(cs, {})
    {
      assert cs[i..][1..] == cs[i + 1..];
      if cs[i].userId !in seen {
        var u := OnlineUser(cs[i].userId, cs[i].username);
        assert users + Dedupe(cs[i..], seen) == (users + [u]) + Dedupe(cs[i + 1..], seen + {cs[i].userId});
        users := users + [u];
        seen := seen + {cs[i].userId};
      }
      i := i + 1;
    }
    assert cs[i..] == [];
    assert users + [] == users;
  }

  /** `GetOnlineUsers`: one entry per client, duplicates included. */
  function GetOnlineUsers(h: Hub): (r: seq<OnlineUser>)
    ensures |r| == GetOnlineCount(h)
    ensures forall i :: 0 <= i < |r| ==> r[i].id == h.clients[i].userId && r[i].username == h.clients[i].username
  {
    seq(|h.clients|, i requires 0 <= i < |h.clients| => OnlineUser(h.clients[i].userId, h.clients[i].username))
  }

  /** `GetOnlineCount`: the number of registered clients. */
  function GetOnlineCount(h: Hub): nat
  {
    |h.clients|
  }

  function Snapshot(users: seq<OnlineUser>, now: int): Message
  {
    Message(KindOnlineUsers, Users(users), "", "", now)
  }

  // ---------------------------------------------------------------------
  // Register and unregister
  // ---------------------------------------------------------------------

  /** The `register` case up to the two broadcasts: the client is added, and
      its user's sockets are sent the deduplicated list that includes it. */
  function Admit(h: Hub, userId: string, username: string, now: int, marshal: Message -> Option<string>): Hub
  {
    var h1 := h.(clients := h.clients + [Client(h.nextId, userId, username, [])], nextId := h.nextId + 1);
    BroadcastToUser(h1, userId, Snapshot(UniqueOnlineUsers(h1.clients), now), marshal)
  }

  /** The `register` case with its broadcasts delivered: `user_joined` and the
      new list go to everyone only when the user had no connection before. */
  function Register(h: Hub, userId: string, username: string, now: int, marshal: Message -> Option<string>): Hub
  {
    var users := UniqueOnlineUsers(h.clients + [Client(h.nextId, userId, username, [])]);
    var h2 := Admit(h, userId, username, now, marshal);
    if CountUser(h.clients, userId) == 0 then
      BroadcastMessage(BroadcastMessage(h2, Message(KindUserJoined, NoData, userId, username, now), marshal),
                       Snapshot(users, now), marshal)
    else h2
  }

  /** The `unregister` case up to its broadcasts: the client is deleted and
      its `Send` closed only if it is still registered. */
  function Evict(h: Hub, id: nat): Hub
  {
    match Find(h.clients, id)
    case Some(c) => h.(clients := Remove(h.clients, id), closes := h.closes + [id], drains := h.drains[id := c.queue])
    case None => h
  }

  /** The `unregister` case with its broadcasts delivered: `user_left` and the
      new list go to everyone when no connection of the user remains. */
  function Unregister(h: Hub, id: nat, userId: string, username: string, now: int, marshal: Message -> Option<string>): Hub
  {
    var h1 := Evict(h, id);
    if CountUser(h1.clients, userId) == 0 then
      var h2 := BroadcastMessage(h1, Message(KindUserLeft, NoData, userId, username, now), marshal);
      BroadcastMessage(h2, Snapshot(UniqueOnlineUsers(h2.clients), now), marshal)
    else h1
  }

  /** `Run`'s `register` case as written: `broadcastMessage` sends on the
      unbuffered `broadcast` channel, whose only receiver is `Run` itself, so
      the first message that marshals blocks the hub for good. */
  function RegisterAsWritten(h: Hub, userId: string, username: string, now: int, marshal: Message -> Option<string>): (Hub, bool)
  {
    var users := UniqueOnlineUsers(h.clients + [Client(h.nextId, userId, username, [])]);
    var h2 := Admit(h, userId, username, now, marshal);
    var blocks := CountUser(h.clients, userId) == 0 &&
                  (marshal(Message(KindUserJoined, NoData, userId, username, now)).Some? ||
                   marshal(Snapshot(users, now)).Some?);
    (h2, blocks)
  }

  /** `Run`'s `unregister` case as written, blocking the same way. */
  function UnregisterAsWritten(h: Hub, id: nat, userId: string, username: string, now: int, marshal: Message -> Option<string>): (Hub, bool)
  {
    var h1 := Evict(h, id);
    var blocks := CountUser(h1.clients, userId) == 0 &&
                  (marshal(Message(KindUserLeft, NoData, userId, username, now)).Some? ||
                   marshal(Snapshot(UniqueOnlineUsers(h1.clients), now)).Some?);
    (h1, blocks)
  }

  /** What `Run` receives: a registration, an unregistration, or a message on
      the `broadcast` channel. */
  datatype HubEvent =
    | Join(userId: string, username: string, now: int)
    | Leave(id: nat, userId: string, username: string, now: int)
    | Relay(m: Message)

  /** The hub as written, with whether `Run` is stuck sending on its own
      channel. */
  datatype Running = Running(hub: Hub, blocked: bool)

  /** One turn of `Run` as written. Once `Run` is stuck nothing receives on
      any of its channels, so every later event leaves the state alone. */
  function StepAsWritten(s: Running, e: HubEvent, marshal: Message -> Option<string>): Running
  {
    if s.blocked then s
    else match e
      case Join(userId, username, now) =>
        var r := RegisterAsWritten(s.hub, userId, username, now, marshal);
        Running(r.0, r.1)
      case Leave(id, userId, username, now) =>
        var r := UnregisterAsWritten(s.hub, id, userId, username, now, marshal);
        Running(r.0, r.1)
      case Relay(m) => Running(BroadcastMessage(s.hub, m, marshal), false)
  }

  /** `Run` as written over a sequence of events, in arrival order. */
  function RunAsWritten(s: Running, es: seq<HubEvent>, marshal: Message -> Option<string>): Running
    decreases |es|
  {
    if |es| == 0 then s else RunAsWritten(StepAsWritten(s, es[0], marshal), es[1..], marshal)
  }
}
