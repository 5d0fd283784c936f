/**
 * Properties of the hub: delivery and removal on a full buffer, the
 * bookkeeping invariant every case of `Run` preserves, the join/leave
 * broadcast rule, the snapshot a new connection receives, and the blocking
 * of the code as written.
 */
module HubProofs {
  import opened Wrappers
  import opened Messages
  import opened Hub

  // ---------------------------------------------------------------------
  // Sequences of clients
  // ---------------------------------------------------------------------

  lemma {:induction false} AppendClient(cs: seq<Client>, c: Client)
    ensures IdSet(cs + [c]) == IdSet(cs) + {c.id}
    ensures UserIdSet(cs + [c]) == UserIdSet(cs) + {c.userId}
    ensures DistinctIds(cs) && c.id !in IdSet(cs) ==> DistinctIds(cs + [c])
    ensures Find(cs + [c], c.id) == (if c.id in IdSet(cs) then Find(cs, c.id) else Some(c))
    ensures forall x :: x != c.id ==> Find(cs + [c], x) == Find(cs, x)
    ensures CountUser(cs + [c], c.userId) == CountUser(cs, c.userId) + 1
    decreases |cs|
  {
    if |cs| == 0 {
      assert cs + [c] == [c];
    } else {
      assert (cs + [c])[0] == cs[0];
      assert (cs + [c])[1..] == cs[1..] + [c];
      AppendClient(cs[1..], c);
    }
  }

  lemma {:induction false} InIdSet(cs: seq<Client>, i: nat)
    requires i < |cs|
    ensures cs[i].id in IdSet(cs) && cs[i].userId in UserIdSet(cs)
  {
    if i > 0 {
      InIdSet(cs[1..], i - 1);
    }
  }

  // ---------------------------------------------------------------------
  // Delivery
  // ---------------------------------------------------------------------

  /** What a delivery does to one client: an untargeted client is
      untouched, a targeted one with room gets the frame at the end of its
      buffer, and a targeted one with a full buffer is gone. */
  function Outcome(c: Client, data: string, to: Option<string>): Option<Client>
  {
    if !Targeted(c, to) then Some(c)
    else if Room(c) then Some(c.(queue := c.queue + [data]))
    else None
  }

  lemma {:induction false} FanoutFind(cs: seq<Client>, data: string, to: Option<string>, id: nat)
    requires DistinctIds(cs)
    ensures Find(Fanout(cs, data, to), id) ==
              (if Find(cs, id).Some? then Outcome(Find(cs, id).value, data, to) else None)
    ensures id in Dropped(cs, to) <==> Find(cs, id).Some? && Outcome(Find(cs, id).value, data, to).None?
    decreases |cs|
  {
    if |cs| > 0 {
      FanoutFind(cs[1..], data, to, id);
      var rest := Fanout(cs[1..], data, to);
      var d := if Targeted(cs[0], to) && !Room(cs[0]) then [cs[0].id] else [];
      assert Dropped(cs, to) == d + Dropped(cs[1..], to);
      if cs[0].id == id {
        assert id !in IdSet(rest);
        assert id !in Dropped(cs[1..], to);
      }
    }
  }

  lemma {:induction false} DroppedDistinct(cs: seq<Client>, to: Option<string>)
    requires DistinctIds(cs)
    ensures NoDuplicates(Dropped(cs, to))
    decreases |cs|
  {
    if |cs| > 0 {
      DroppedDistinct(cs[1..], to);
      var rest := Dropped(cs[1..], to);
      if Targeted(cs[0], to) && !Room(cs[0]) {
        assert Dropped(cs, to) == [cs[0].id] + rest;
        assert cs[0].id !in rest;
      }
    }
  }

  /** A broadcast delivers the frame to every client with buffer room and
      removes and closes every client whose buffer is full. */
  lemma BroadcastDelivery(h: Hub, m: Message, marshal: Message -> Option<string>, id: nat)
    requires Inv(h) && marshal(m).Some?
    ensures var r := BroadcastMessage(h, m, marshal);
            && Find(r.clients, id) == (if Find(h.clients, id).Some? then Outcome(Find(h.clients, id).value, marshal(m).value, None) else None)
            && (id in r.closes[|h.closes|..] <==> Find(h.clients, id).Some? && !Room(Find(h.clients, id).value))
  {
    var r := BroadcastMessage(h, m, marshal);
    FanoutFind(h.clients, marshal(m).value, None, id);
    assert r.closes[|h.closes|..] == Dropped(h.clients, None);
  }

  /** `BroadcastToUser` leaves the clients of every other user untouched and
      closes none of them. */
  lemma BroadcastToUserTargetsOnlyUser(h: Hub, userId: string, m: Message, marshal: Message -> Option<string>, id: nat)
    requires Inv(h) && Find(h.clients, id).Some? && Find(h.clients, id).value.userId != userId
    ensures Find(BroadcastToUser(h, userId, m, marshal).clients, id) == Find(h.clients, id)
    ensures id !in BroadcastToUser(h, userId, m, marshal).closes
  {
    if marshal(m).Some? {
      FanoutFind(h.clients, marshal(m).value, Some(userId), id);
      var r := BroadcastToUser(h, userId, m, marshal);
      assert r.closes == h.closes + Dropped(h.clients, Some(userId));
      forall i | 0 <= i < |h.closes| ensures h.closes[i] != id {
      }
    } else {
      forall i | 0 <= i < |h.closes| ensures h.closes[i] != id {
      }
    }
  }

  // ---------------------------------------------------------------------
  // The invariant
  // ---------------------------------------------------------------------

  lemma InitInv()
    ensures Inv(Empty())
  {
  }

  lemma DeliverPreservesInv(h: Hub, data: string, to: Option<string>)
    requires Inv(h)
    ensures Inv(Deliver(h, data, to))
  {
    var r := Deliver(h, data, to);
    var dr := Dropped(h.clients, to);
    DroppedDistinct(h.clients, to);
    forall i, j | 0 <= i < j < |r.closes| ensures r.closes[i] != r.closes[j] {
      if j >= |h.closes| && i < |h.closes| {
        assert r.closes[j] == dr[j - |h.closes|];
        assert r.closes[j] in IdSet(h.clients);
      } else if i >= |h.closes| {
        assert r.closes[i] == dr[i - |h.closes|] && r.closes[j] == dr[j - |h.closes|];
      }
    }
    forall i | 0 <= i < |r.closes| ensures r.closes[i] < r.nextId && r.closes[i] !in IdSet(r.clients) {
      if i >= |h.closes| {
        var x := dr[i - |h.closes|];
        assert r.closes[i] == x;
        FanoutFind(h.clients, data, to, x);
      }
    }
  }

  lemma AdmitPreservesInv(h: Hub, userId: string, username: string, now: int, marshal: Message -> Option<string>)
    requires Inv(h)
    ensures Inv(Admit(h, userId, username, now, marshal))
  {
    var c := Client(h.nextId, userId, username, []);
    AppendClient(h.clients, c);
    var h1 := h.(clients := h.clients + [c], nextId := h.nextId + 1);
    assert Inv(h1);
    if marshal(Snapshot(UniqueOnlineUsers(h1.clients), now)).Some? {
      DeliverPreservesInv(h1, marshal(Snapshot(UniqueOnlineUsers(h1.clients), now)).value, Some(userId));
    }
  }

  lemma BroadcastPreservesInv(h: Hub, m: Message, marshal: Message -> Option<string>)
    requires Inv(h)
    ensures Inv(BroadcastMessage(h, m, marshal))
  {
    if marshal(m).Some? {
      DeliverPreservesInv(h.(log := h.log + [m]), marshal(m).value, None);
    }
  }

  lemma EvictPreservesInv(h: Hub, id: nat)
    requires Inv(h)
    ensures Inv(Evict(h, id))
  {
  }

  lemma RegisterPreservesInv(h: Hub, userId: string, username: string, now: int, marshal: Message -> Option<string>)
    requires Inv(h)
    ensures Inv(Register(h, userId, username, now, marshal))
  {
    AdmitPreservesInv(h, userId, username, now, marshal);
    var h2 := Admit(h, userId, username, now, marshal);
    var joined := Message(KindUserJoined, NoData, userId, username, now);
    BroadcastPreservesInv(h2, joined, marshal);
    var users := UniqueOnlineUsers(h.clients + [Client(h.nextId, userId, username, [])]);
    BroadcastPreservesInv(BroadcastMessage(h2, joined, marshal), Snapshot(users, now), marshal);
  }

  lemma UnregisterPreservesInv(h: Hub, id: nat, userId: string, username: string, now: int, marshal: Message -> Option<string>)
    requires Inv(h)
    ensures Inv(Unregister(h, id, userId, username, now, marshal))
  {
    EvictPreservesInv(h, id);
    var h1 := Evict(h, id);
    var left := Message(KindUserLeft, NoData, userId, username, now);
    BroadcastPreservesInv(h1, left, marshal);
    var h2 := BroadcastMessage(h1, left, marshal);
    BroadcastPreservesInv(h2, Snapshot(UniqueOnlineUsers(h2.clients), now), marshal);
  }

  /** A repeated unregister never closes a `Send` channel twice: the first
      one deletes and closes, the second finds the client gone. */
  lemma UnregisterTwiceClosesOnce(h: Hub, id: nat, userId: string, username: string, now: int, marshal: Message -> Option<string>)
    requires Inv(h) && id in IdSet(h.clients)
    ensures var r1 := Unregister(h, id, userId, username, now, marshal);
            var r2 := Unregister(r1, id, userId, username, now, marshal);
            && r1.closes[|h.closes|] == id
            && id !in IdSet(r1.clients)
            && NoDuplicates(r2.closes)
  {
    UnregisterPreservesInv(h, id, userId, username, now, marshal);
    var r1 := Unregister(h, id, userId, username, now, marshal);
    UnregisterPreservesInv(r1, id, userId, username, now, marshal);
    var h1 := Evict(h, id);
    assert h1.closes == h.closes + [id];
    if CountUser(h1.clients, userId) == 0 {
      var left := Message(KindUserLeft, NoData, userId, username, now);
      var h2 := BroadcastMessage(h1, left, marshal);
      assert h2.closes[..|h1.closes|] == h1.closes;
      assert r1.closes[..|h2.closes|] == h2.closes by {
        if marshal(Snapshot(UniqueOnlineUsers(h2.clients), now)).Some? {
        }
      }
      assert r1.closes[|h.closes|] == h2.closes[|h.closes|];
    }
  }

  // ---------------------------------------------------------------------
  // Join and leave broadcasts
  // ---------------------------------------------------------------------

  lemma BroadcastToUserKeepsLog(h: Hub, userId: string, m: Message, marshal: Message -> Option<string>)
    ensures BroadcastToUser(h, userId, m, marshal).log == h.log
  {
  }

  /** `user_joined` and the new list are broadcast exactly when the user had
      no connection before (`prevCount == 0`). */
  lemma RegisterBroadcastsIffFirst(h: Hub, userId: string, username: string, now: int, marshal: Message -> Option<string>)
    ensures var r := Register(h, userId, username, now, marshal);
            var users := UniqueOnlineUsers(h.clients + [Client(h.nextId, userId, username, [])]);
            && (CountUser(h.clients, userId) == 0 ==>
                  r.log == h.log + [Message(KindUserJoined, NoData, userId, username, now), Snapshot(users, now)])
            && (CountUser(h.clients, userId) != 0 ==> r.log == h.log)
    ensures CountUser(h.clients, userId) == 0 <==> userId !in UserIdSet(h.clients)
  {
    var h1 := h.(clients := h.clients + [Client(h.nextId, userId, username, [])], nextId := h.nextId + 1);
    BroadcastToUserKeepsLog(h1, userId, Snapshot(UniqueOnlineUsers(h1.clients), now), marshal);
  }

  /** `user_left` and the new list are broadcast exactly when no other
      connection of the user remains. */
  lemma UnregisterBroadcastsIffLast(h: Hub, id: nat, userId: string, username: string, now: int, marshal: Message -> Option<string>)
    ensures var r := Unregister(h, id, userId, username, now, marshal);
            var rest := Evict(h, id).clients;
            var left := Message(KindUserLeft, NoData, userId, username, now);
            var after := BroadcastMessage(Evict(h, id), left, marshal).clients;
            && (userId !in UserIdSet(rest) ==>
                  && r.log == h.log + [left, Snapshot(UniqueOnlineUsers(after), now)]
                  && UserIdSet(after) <= UserIdSet(rest)
                  && forall u :: HasUser(UniqueOnlineUsers(after), u) ==> u in UserIdSet(rest) && u != userId)
            && (userId in UserIdSet(rest) ==> r.log == h.log)
  {
    var left := Message(KindUserLeft, NoData, userId, username, now);
    var h1 := Evict(h, id);
    if marshal(left).Some? {
      FanoutUsers(h1.clients, marshal(left).value, None);
    }
  }

  lemma {:induction false} FanoutUsers(cs: seq<Client>, data: string, to: Option<string>)
    ensures UserIdSet(Fanout(cs, data, to)) <= UserIdSet(cs)
    decreases |cs|
  {
    if |cs| > 0 {
      FanoutUsers(cs[1..], data, to);
    }
  }

  lemma AdmitQueuesSnapshot(h: Hub, userId: string, username: string, now: int, marshal: Message -> Option<string>)
    requires Inv(h)
    requires marshal(Snapshot(UniqueOnlineUsers(h.clients + [Client(h.nextId, userId, username, [])]), now)).Some?
    ensures var snap := marshal(Snapshot(UniqueOnlineUsers(h.clients + [Client(h.nextId, userId, username, [])]), now)).value;
            Find(Admit(h, userId, username, now, marshal).clients, h.nextId) == Some(Client(h.nextId, userId, username, [snap]))
  {
    var c := Client(h.nextId, userId, username, []);
    AppendClient(h.clients, c);
    var h1 := h.(clients := h.clients + [c], nextId := h.nextId + 1);
    assert h.nextId !in IdSet(h.clients);
    var snap := marshal(Snapshot(UniqueOnlineUsers(h1.clients), now)).value;
    assert Admit(h, userId, username, now, marshal).clients == Fanout(h1.clients, snap, Some(userId));
    FanoutFind(h1.clients, snap, Some(userId), h.nextId);
    assert Find(h1.clients, h.nextId) == Some(c);
    assert c.queue + [snap] == [snap];
    assert Outcome(c, snap, Some(userId)) == Some(Client(h.nextId, userId, username, [snap]));
  }

  lemma BroadcastAppends(h: Hub, m: Message, marshal: Message -> Option<string>, c: Client)
    requires Inv(h) && marshal(m).Some? && Find(h.clients, c.id) == Some(c) && Room(c)
    ensures Find(BroadcastMessage(h, m, marshal).clients, c.id) == Some(c.(queue := c.queue + [marshal(m).value]))
  {
    BroadcastDelivery(h, m, marshal, c.id);
  }

  /** The new connection's own buffer starts with the deduplicated list,
      and that list already contains its user. */
  lemma NewClientReceivesSnapshot(h: Hub, userId: string, username: string, now: int, marshal: Message -> Option<string>)
    requires Inv(h)
    requires forall m: Message :: marshal(m).Some?
    ensures var r := Register(h, userId, username, now, marshal);
            var users := UniqueOnlineUsers(h.clients + [Client(h.nextId, userId, username, [])]);
            && Find(r.clients, h.nextId).Some?
            && |Find(r.clients, h.nextId).value.queue| >= 1
            && Find(r.clients, h.nextId).value.queue[0] == marshal(Snapshot(users, now)).value
            && HasUser(users, userId)
  {
    var c := Client(h.nextId, userId, username, []);
    var users := UniqueOnlineUsers(h.clients + [c]);
    AppendClient(h.clients, c);
    var snap := marshal(Snapshot(users, now)).value;
    AdmitQueuesSnapshot(h, userId, username, now, marshal);
    AdmitPreservesInv(h, userId, username, now, marshal);
    var h2 := Admit(h, userId, username, now, marshal);
    var c1 := Client(h.nextId, userId, username, [snap]);
    if CountUser(h.clients, userId) == 0 {
      var joined := Message(KindUserJoined, NoData, userId, username, now);
      BroadcastAppends(h2, joined, marshal, c1);
      var h3 := BroadcastMessage(h2, joined, marshal);
      BroadcastPreservesInv(h2, joined, marshal);
      var c2 := c1.(queue := c1.queue + [marshal(joined).value]);
      BroadcastAppends(h3, Snapshot(users, now), marshal, c2);
    }
  }

  /** `GetOnlineCount` counts connections, `GetUniqueOnlineUsers` users: the
      deduplicated list is never longer than the full one. */
  lemma UniqueListNoLonger(h: Hub)
    ensures |UniqueOnlineUsers(h.clients)| <= |GetOnlineUsers(h)| == GetOnlineCount(h)
  {
  }

  // ---------------------------------------------------------------------
  // The code as written
  // ---------------------------------------------------------------------

  /** Once `Run` is stuck it stays stuck: no later registration,
      unregistration or broadcast changes anything. */
  lemma {:induction false} BlockedStaysBlocked(s: Running, es: seq<HubEvent>, marshal: Message -> Option<string>)
    requires s.blocked
    ensures RunAsWritten(s, es, marshal) == s
    decreases |es|
  {
    if |es| > 0 {
      BlockedStaysBlocked(StepAsWritten(s, es[0], marshal), es[1..], marshal);
    }
  }

  /** As written, the first connection of a user blocks the hub: `Run`
      waits on its own unbuffered channel, and from then on no event is
      logged, delivered, registered or unregistered. */
  lemma FirstConnectionBlocksHub(h: Hub, userId: string, username: string, now: int, marshal: Message -> Option<string>)
    requires userId !in UserIdSet(h.clients)
    requires marshal(Message(KindUserJoined, NoData, userId, username, now)).Some?
    ensures RegisterAsWritten(h, userId, username, now, marshal).1
    ensures var s := StepAsWritten(Running(h, false), Join(userId, username, now), marshal);
            s.blocked && forall es :: RunAsWritten(s, es, marshal) == s
  {
    var s := StepAsWritten(Running(h, false), Join(userId, username, now), marshal);
    forall es ensures RunAsWritten(s, es, marshal) == s {
      BlockedStaysBlocked(s, es, marshal);
    }
  }

  /** On the empty hub the very first registration blocks, so the hub never
      holds more than that one connection and never logs a message. */
  lemma EmptyHubBlocksOnFirstRegister(userId: string, now: int, marshal: Message -> Option<string>)
    requires forall m: Message :: marshal(m).Some?
    ensures RegisterAsWritten(Empty(), userId, userId, now, marshal).1
    ensures var s := StepAsWritten(Running(Empty(), false), Join(userId, userId, now), marshal);
            forall es :: var r := RunAsWritten(s, es, marshal).hub;
                         |r.clients| == 1 && r.clients[0].userId == userId && r.log == []
  {
    var s := StepAsWritten(Running(Empty(), false), Join(userId, userId, now), marshal);
    forall es ensures RunAsWritten(s, es, marshal) == s {
      BlockedStaysBlocked(s, es, marshal);
    }
  }

  /** As written, the last disconnection of a user blocks the hub too, and
      nothing afterwards is logged or delivered. */
  lemma LastDisconnectionBlocksHub(h: Hub, id: nat, userId: string, username: string, now: int, marshal: Message -> Option<string>)
    requires userId !in UserIdSet(Evict(h, id).clients)
    requires marshal(Message(KindUserLeft, NoData, userId, username, now)).Some?
    ensures UnregisterAsWritten(h, id, userId, username, now, marshal).1
    ensures var s := StepAsWritten(Running(h, false), Leave(id, userId, username, now), marshal);
            s.blocked && s.hub == Evict(h, id) && forall es :: RunAsWritten(s, es, marshal) == s
  {
    var s := StepAsWritten(Running(h, false), Leave(id, userId, username, now), marshal);
    forall es ensures RunAsWritten(s, es, marshal) == s {
      BlockedStaysBlocked(s, es, marshal);
    }
  }

  /** The as-written and corrected cases agree on the registry whenever the
      as-written one does not block. */
  lemma AsWrittenAgreesWhenNotBlocked(h: Hub, userId: string, username: string, now: int, marshal: Message -> Option<string>)
    requires !RegisterAsWritten(h, userId, username, now, marshal).1
    ensures RegisterAsWritten(h, userId, username, now, marshal).0.clients == Register(h, userId, username, now, marshal).clients
  {
  }
}
