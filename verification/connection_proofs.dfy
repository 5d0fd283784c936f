/**
 * Properties of the client connection manager: the invariant every event
 * preserves (one live socket, one pending reconnect timer, a bounded
 * counter), the reconnect schedule, the decoder's order/skip/abort
 * behaviour, and the router's effect on presence and typing state.
 */
module ConnectionProofs {
  import opened Wrappers
  import opened Messages
  import opened Framing
  import opened Connection

  // ---------------------------------------------------------------------
  // The invariant
  // ---------------------------------------------------------------------

  /** A socket whose callbacks may still report it connected. */
  predicate Live(k: Socket)
  {
    k.ready == Connecting || k.ready == Open
  }

  /** Only the referenced socket can be live, at most one reconnect timer is
      pending and it is the referenced one, and the counter stays capped. */
  predicate Inv(s: State)
  {
    && WellFormed(s)
    && s.attempts <= MaxAttempts
    && (forall t :: t in s.armed ==> s.timerRef == Some(t))
    && (forall i :: 0 <= i < |s.sockets| && Live(s.sockets[i]) ==> s.current == Some(i))
  }

  lemma InitInv(base: string)
    ensures Inv(Init(base))
  {
  }

  /** At most one reconnect timer is ever pending. */
  lemma AtMostOneTimer(s: State)
    requires Inv(s)
    ensures |s.armed| <= 1
    ensures s.armed != {} ==> s.timerRef.Some? && s.armed == {s.timerRef.value}
  {
    if s.armed != {} {
      var t :| t in s.armed;
      assert s.armed == {t};
    }
  }

  /** At most one socket is live, and it is the referenced one. */
  lemma AtMostOneLiveSocket(s: State, i: nat, j: nat)
    requires Inv(s)
    requires i < |s.sockets| && j < |s.sockets| && Live(s.sockets[i]) && Live(s.sockets[j])
    ensures i == j && s.current == Some(i)
  {
  }

  /** The fields a decoded message never touches. */
  predicate SameConnection(a: State, b: State)
  {
    && a.base == b.base && a.sockets == b.sockets && a.current == b.current
    && a.timers == b.timers && a.timerRef == b.timerRef && a.armed == b.armed
    && a.attempts == b.attempts && a.isConnected == b.isConnected
    && a.lastError == b.lastError && a.lastClose == b.lastClose
    && a.sent == b.sent && a.warnings == b.warnings
  }

  lemma {:induction false} HandleValuesKeepsConnection(s: State, vs: seq<Json>)
    ensures SameConnection(s, HandleValues(s, vs).0)
    decreases |vs|
  {
    if |vs| > 0 && !vs[0].JNull? {
      HandleValueKeepsConnection(s, vs[0]);
      HandleValuesKeepsConnection(HandleValue(s, vs[0]), vs[1..]);
    }
  }

  /** One routed message changes only what the subscribers see. */
  lemma HandleValueKeepsConnection(s: State, v: Json)
    ensures SameConnection(s, HandleValue(s, v))
  {
  }

  lemma {:induction false} HandleSegmentsKeepsConnection(s: State, segs: seq<string>, parse: string -> Option<Json>)
    ensures SameConnection(s, HandleSegments(s, segs, parse))
    decreases |segs|
  {
    if |segs| > 0 {
      match parse(segs[0])
      case None => HandleSegmentsKeepsConnection(s, segs[1..], parse);
      case Some(v) =>
        HandleValuesKeepsConnection(s, Expand(v));
        var (s1, ok) := HandleValues(s, Expand(v));
        if ok {
          HandleSegmentsKeepsConnection(s1, segs[1..], parse);
        }
    }
  }

  lemma ConnectPreservesInv(s: State, c: Creds)
    requires Inv(s)
    ensures Inv(Connect(s, c))
  {
    var r := Connect(s, c);
    if c.Present() {
      forall i | 0 <= i < |s.sockets|
        ensures !Live(r.sockets[i])
      {
        assert r.sockets[i].ready == (if s.current == Some(i) then CloseRequested(s.sockets[i].ready) else s.sockets[i].ready);
      }
    }
  }

  lemma DisconnectPreservesInv(s: State)
    requires Inv(s)
    ensures Inv(Disconnect(s))
  {
    var r := Disconnect(s);
    assert r.armed <= s.armed;
    forall i | 0 <= i < |r.sockets|
      ensures !Live(r.sockets[i])
    {
      assert r.sockets[i].ready == (if s.current == Some(i) then CloseRequested(s.sockets[i].ready) else s.sockets[i].ready);
    }
  }

  lemma OpenPreservesInv(s: State, sid: nat)
    requires Inv(s) && sid < |s.sockets| && s.sockets[sid].ready == Connecting
    ensures Inv(OnOpen(s, sid))
  {
    assert Live(s.sockets[sid]);
    var r := OnOpen(s, sid);
    assert r.armed <= s.armed;
  }

  lemma ClosePreservesInv(s: State, sid: nat, info: CloseInfo)
    requires Inv(s) && sid < |s.sockets|
    ensures Inv(OnClose(s, sid, info))
  {
    var r := OnClose(s, sid, info);
    assert r.armed <= {|s.timers|};
  }

  lemma TimerPreservesInv(s: State, t: nat)
    requires Inv(s)
    ensures Inv(OnTimer(s, t))
  {
    if t in s.armed {
      var s1 := s.(armed := s.armed - {t});
      assert Inv(s1);
      ConnectPreservesInv(s1, s.timers[t].creds);
    }
  }

  /** Every event keeps the references valid and the invariant true. */
  lemma StepPreservesInv(s: State, e: Event, parse: string -> Option<Json>)
    requires Inv(s)
    ensures Inv(Step(s, e, parse))
  {
    match e
    case ConnectCall(c) => ConnectPreservesInv(s, c);
    case DisconnectCall => DisconnectPreservesInv(s);
    case AuthChanged(c) =>
      DisconnectPreservesInv(s);
      var d := Disconnect(s);
      ConnectPreservesInv(d, c);
      DisconnectPreservesInv(d);
    case SocketOpen(sid) =>
      if sid < |s.sockets| && s.sockets[sid].ready == Connecting {
        OpenPreservesInv(s, sid);
      }
    case SocketClose(sid, info) =>
      if sid < |s.sockets| && s.sockets[sid].ready != Closed {
        ClosePreservesInv(s, sid, info);
      }
    case SocketError(sid, err) =>
    case SocketMessage(sid, raw) =>
      if sid < |s.sockets| && s.sockets[sid].ready == Open {
        HandleSegmentsKeepsConnection(s, Segments(raw), parse);
      }
    case TimerFire(t) => TimerPreservesInv(s, t);
    case SendCall(m) =>
  }

  // ---------------------------------------------------------------------
  // Reconnect schedule
  // ---------------------------------------------------------------------

  lemma {:induction false} Pow2AtLeast32(n: nat)
    requires n >= 5
    ensures Pow2(n) >= 32
  {
    if n > 5 {
      Pow2AtLeast32(n - 1);
    }
  }

  /** Exponential backoff: each further attempt doubles the delay until it
      reaches the cap, and the delay never shrinks. */
  lemma DelayDoubles(n: nat)
    requires n >= 1
    ensures Delay(n + 1) == if 2 * Delay(n) < MaxDelay then 2 * Delay(n) else MaxDelay
    ensures Delay(n) <= Delay(n + 1)
  {
    assert Pow2(n) == 2 * Pow2(n - 1);
  }

  /** The delays are 1, 2, 4, 8 and 16 seconds, then 30 seconds forever. */
  lemma DelaySchedule(n: nat)
    requires n >= 1
    ensures n == 1 ==> Delay(n) == 1000
    ensures n == 2 ==> Delay(n) == 2000
    ensures n == 3 ==> Delay(n) == 4000
    ensures n == 4 ==> Delay(n) == 8000
    ensures n == 5 ==> Delay(n) == 16000
    ensures n >= 6 ==> Delay(n) == MaxDelay
  {
    if n >= 6 {
      Pow2AtLeast32(n - 1);
    } else {
      assert Pow2(0) == 1 && Pow2(1) == 2 && Pow2(2) == 4 && Pow2(3) == 8 && Pow2(4) == 16;
    }
  }

  /** Once the counter has reached its cap, every further close schedules a
      30-second reconnect and keeps the counter at 10. */
  lemma CloseAtCap(s: State, sid: nat, info: CloseInfo)
    requires Inv(s) && sid < |s.sockets| && s.sockets[sid].ready != Closed
    requires s.attempts == MaxAttempts
    ensures var r := Step(s, SocketClose(sid, info), p => None);
            r.attempts == MaxAttempts && r.timers[|s.timers|].delay == MaxDelay
  {
    DelaySchedule(MaxAttempts);
  }

  /** An open resets the counter and leaves no reconnect timer pending. */
  lemma OpenClearsTimer(s: State, sid: nat)
    requires Inv(s) && sid < |s.sockets| && s.sockets[sid].ready == Connecting
    ensures var r := Step(s, SocketOpen(sid), p => None);
            r.attempts == 0 && r.armed == {} && r.isConnected
  {
    AtMostOneTimer(s);
  }

  /** `disconnect()` does not stop reconnection: when the socket it closed
      reports its close, a reconnect timer is armed with that socket's
      credentials, and when it fires it opens a new socket. */
  lemma DisconnectDoesNotSuppressReconnect(s: State, info: CloseInfo)
    requires Inv(s) && s.current.Some? && s.sockets[s.current.value].ready == Open
    requires s.sockets[s.current.value].creds.Present()
    ensures var sid := s.current.value;
            var d := Step(s, DisconnectCall, p => None);
            var c := Step(d, SocketClose(sid, info), p => None);
            var t := |s.timers|;
            && d.sockets[sid].ready == Closing
            && c.timerRef == Some(t) && t in c.armed
            && c.timers[t].creds == s.sockets[sid].creds
            && Step(c, TimerFire(t), p => None).current == Some(|s.sockets|)
  {
    var sid := s.current.value;
    var d := Step(s, DisconnectCall, p => None);
    assert d.sockets[sid].ready == Closing;
    var c := Step(d, SocketClose(sid, info), p => None);
    assert c == OnClose(d, sid, info);
  }

  // ---------------------------------------------------------------------
  // Decoder
  // ---------------------------------------------------------------------

  predicate NullFree(vs: seq<Json>)
  {
    forall i :: 0 <= i < |vs| ==> !vs[i].JNull?
  }

  /** The values the segments dispatch, in textual order, before any throw. */
  function Dispatched(segs: seq<string>, parse: string -> Option<Json>): seq<Json>
  {
    if |segs| == 0 then []
    else (if parse(segs[0]).Some? then Expand(parse(segs[0]).value) else []) + Dispatched(segs[1..], parse)
  }

  /** The values before the first `null`. */
  function UntilNull(vs: seq<Json>): (r: seq<Json>)
    ensures NullFree(r) && |r| <= |vs| && r == vs[..|r|]
    ensures NullFree(vs) ==> r == vs
  {
    if |vs| == 0 then []
    else if vs[0].JNull? then []
    else [vs[0]] + UntilNull(vs[1..])
  }

  /** `handleMessage` applied to each value in order. */
  function HandleAll(s: State, vs: seq<Json>): State
    decreases |vs|
  {
    if |vs| == 0 then s else HandleAll(HandleValue(s, vs[0]), vs[1..])
  }

  lemma {:induction false} HandleAllAppend(s: State, a: seq<Json>, b: seq<Json>)
    ensures HandleAll(s, a + b) == HandleAll(HandleAll(s, a), b)
    decreases |a|
  {
    if |a| > 0 {
      assert (a + b)[1..] == a[1..] + b;
      HandleAllAppend(HandleValue(s, a[0]), a[1..], b);
    } else {
      assert a + b == b;
    }
  }

  lemma NullFreeTail(a: seq<Json>)
    requires |a| > 0 && !a[0].JNull?
    ensures NullFree(a) <==> NullFree(a[1..])
  {
    if NullFree(a[1..]) {
      forall i | 0 <= i < |a| ensures !a[i].JNull? {
        if i > 0 { assert a[i] == a[1..][i - 1]; }
      }
    }
  }

  lemma {:induction false} UntilNullAppend(a: seq<Json>, b: seq<Json>)
    ensures NullFree(a) ==> UntilNull(a + b) == a + UntilNull(b)
    ensures !NullFree(a) ==> UntilNull(a + b) == UntilNull(a)
    decreases |a|
  {
    if |a| == 0 {
      assert a + b == b;
    } else {
      var ab := a + b;
      assert ab[0] == a[0];
      assert ab[1..] == a[1..] + b;
      UntilNullAppend(a[1..], b);
      if !a[0].JNull? {
        NullFreeTail(a);
        assert UntilNull(ab) == [a[0]] + UntilNull(a[1..] + b);
        if NullFree(a) {
          assert a == [a[0]] + a[1..];
          assert [a[0]] + (a[1..] + UntilNull(b)) == a + UntilNull(b);
        }
      }
    }
  }

  lemma {:induction false} HandleValuesSpec(s: State, vs: seq<Json>)
    ensures HandleValues(s, vs) == (HandleAll(s, UntilNull(vs)), NullFree(vs))
    decreases |vs|
  {
    if |vs| > 0 && !vs[0].JNull? {
      HandleValuesSpec(HandleValue(s, vs[0]), vs[1..]);
      NullFreeTail(vs);
      assert ([vs[0]] + UntilNull(vs[1..]))[1..] == UntilNull(vs[1..]);
    }
  }

  /** The decoder handles, in textual order, every value of every segment
      that parses (an array contributing its elements one by one), skipping
      segments that do not parse and stopping at the first `null`. */
  lemma {:induction false} HandleSegmentsSpec(s: State, segs: seq<string>, parse: string -> Option<Json>)
    ensures HandleSegments(s, segs, parse) == HandleAll(s, UntilNull(Dispatched(segs, parse)))
    decreases |segs|
  {
    if |segs| > 0 {
      var rest := Dispatched(segs[1..], parse);
      match parse(segs[0])
      case None =>
        HandleSegmentsSpec(s, segs[1..], parse);
        assert Dispatched(segs, parse) == [] + rest;
        assert [] + rest == rest;
      case Some(v) =>
        var e := Expand(v);
        assert Dispatched(segs, parse) == e + rest;
        HandleValuesSpec(s, e);
        UntilNullAppend(e, rest);
        if NullFree(e) {
          HandleSegmentsSpec(HandleAll(s, e), segs[1..], parse);
          HandleAllAppend(s, e, UntilNull(rest));
        }
    }
  }

  lemma {:induction false} DispatchedAppend(a: seq<string>, b: seq<string>, parse: string -> Option<Json>)
    ensures Dispatched(a + b, parse) == Dispatched(a, parse) + Dispatched(b, parse)
    decreases |a|
  {
    if |a| == 0 {
      assert a + b == b;
    } else {
      assert (a + b)[0] == a[0];
      assert (a + b)[1..] == a[1..] + b;
      DispatchedAppend(a[1..], b, parse);
    }
  }

  /** A segment that fails to parse is skipped and the later ones are
      still handled. */
  lemma SkipUnparsable(s: State, a: seq<string>, bad: string, b: seq<string>, parse: string -> Option<Json>)
    requires parse(bad).None?
    ensures HandleSegments(s, a + [bad] + b, parse) == HandleSegments(s, a + b, parse)
  {
    DispatchedAppend(a + [bad], b, parse);
    DispatchedAppend(a, [bad], parse);
    DispatchedAppend(a, b, parse);
    assert Dispatched([bad], parse) == [];
    assert Dispatched(a, parse) + [] == Dispatched(a, parse);
    HandleSegmentsSpec(s, a + [bad] + b, parse);
    HandleSegmentsSpec(s, a + b, parse);
  }

  /** A segment that parses to `null` makes `handleMessage` throw, and the
      rest of the payload is abandoned. */
  lemma NullAbandonsRest(s: State, a: seq<string>, p: string, b: seq<string>, parse: string -> Option<Json>)
    requires parse(p) == Some(JNull)
    ensures HandleSegments(s, a + [p] + b, parse) == HandleSegments(s, a, parse)
  {
    DispatchedAppend(a + [p], b, parse);
    DispatchedAppend(a, [p], parse);
    assert Dispatched([p], parse) == [JNull];
    var da := Dispatched(a, parse);
    var db := Dispatched(b, parse);
    assert Dispatched(a + [p] + b, parse) == da + ([JNull] + db);
    UntilNullAppend(da, [JNull] + db);
    UntilNullAppend([JNull], db);
    if NullFree(da) {
      assert UntilNull(da) == da;
      assert da + [] == da;
    }
    HandleSegmentsSpec(s, a + [p] + b, parse);
    HandleSegmentsSpec(s, a, parse);
  }

  /** An array segment is dispatched element by element. */
  lemma ArrayDispatchedElementwise(s: State, seg: string, items: seq<Json>, parse: string -> Option<Json>)
    requires parse(seg) == Some(JArray(items)) && NullFree(items)
    ensures HandleSegments(s, [seg], parse) == HandleAll(s, items)
  {
    HandleSegmentsSpec(s, [seg], parse);
    assert Dispatched([seg], parse) == items + [];
    assert items + [] == items;
  }

  // ---------------------------------------------------------------------
  // Router
  // ---------------------------------------------------------------------

  /** Any type outside the eight only logs: the state is unchanged. */
  lemma RouteUnknown(s: State, m: Message)
    requires !Routed(m.kind)
    ensures Route(s, m) == s
  {
  }

  /** A vote, a comment and a reply are each published once, as the window
      event of their kind carrying the message's `data`; nothing else in
      the provider's state changes. */
  lemma RouteKnown(s: State, m: Message)
    requires m.kind in {KindVote, KindComment, KindReply}
    ensures var r := Route(s, m);
            && r == s.(published := r.published)
            && |r.published| == |s.published| + 1 && r.published[..|s.published|] == s.published
            && r.published[|s.published|].data == m.data
            && (r.published[|s.published|].VoteUpdate? <==> m.kind == KindVote)
            && (r.published[|s.published|].NewComment? <==> m.kind == KindComment)
            && (r.published[|s.published|].NewReply? <==> m.kind == KindReply)
  {
  }

  /** `user_joined` keeps a duplicate-free list duplicate-free and leaves the
      id present. */
  lemma JoinKeepsUnique(users: seq<OnlineUser>, id: string, name: string)
    requires UniqueIds(users)
    ensures UniqueIds(UserJoined(users, id, name))
    ensures HasUser(UserJoined(users, id, name), id)
  {
    if !HasUser(users, id) {
      assert UserJoined(users, id, name)[|users|].id == id;
    }
  }

  /** `user_left` removes every entry with that id and keeps the others. */
  lemma LeaveRemovesExactly(users: seq<OnlineUser>, id: string, u: OnlineUser)
    ensures u in UserLeft(users, id) <==> u in users && u.id != id
  {
  }

  /** `online_users` replaces the list wholesale. */
  lemma SnapshotReplaces(s: State, list: seq<OnlineUser>, uid: string, name: string, ts: int)
    ensures Route(s, Message(KindOnlineUsers, Users(list), uid, name, ts)).onlineUsers == Some(list)
  {
  }

  /** `typing` sets the sender's entry, `stop_typing` deletes it; no other
      key changes, and nothing else expires entries. */
  lemma TypingUpdatesOneKey(s: State, m: Message, k: string)
    requires k != m.userId
    ensures m.kind == KindTyping ==>
              Route(s, m).typingUsers[m.userId] == m.username
    ensures m.kind == KindStopTyping ==> m.userId !in Route(s, m).typingUsers
    ensures (k in Route(s, m).typingUsers) == (k in s.typingUsers)
    ensures k in s.typingUsers ==> Route(s, m).typingUsers[k] == s.typingUsers[k]
  {
  }

  /** Typing entries change only through received messages: no other event
      touches them. */
  lemma TypingOnlyChangedByMessages(s: State, e: Event, parse: string -> Option<Json>)
    requires Inv(s) && !e.SocketMessage?
    ensures Step(s, e, parse).typingUsers == s.typingUsers
  {
  }
}
