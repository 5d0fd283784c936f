/**
 * The connection indicator in the layout (`ConnectionStatus`): the state
 * of the socket, the number of users online, an error marker, and a button
 * that disconnects and connects again 300 ms later.
 */
module ConnectionStatus {
  import opened Wrappers
  import opened Messages
  import opened Connection
  import ConnectionProofs

  datatype Indicator = Connected | Reconnecting(attempts: nat) | Disconnected

  datatype Color = Green | Yellow | Red

  /** The delay between the button's disconnect and its connect. */
  const ReconnectGap := 300

  function Status(isConnected: bool, attempts: nat): Indicator
  {
    if isConnected then Connected
    else if attempts > 0 then Reconnecting(attempts)
    else Disconnected
  }

  function ColorOf(i: Indicator): Color
  {
    match i
    case Connected => Green
    case Reconnecting(_) => Yellow
    case Disconnected => Red
  }

  /** `onlineUsers?.length || 0`. */
  function OnlineCount(users: Option<seq<OnlineUser>>): nat
  {
    if users.Some? then |users.value| else 0
  }

  /** What the indicator shows for a provider state. */
  datatype Shown = Shown(status: Indicator, color: Color, online: nat, error: bool)

  function Render(s: State): Shown
  {
    var st := Status(s.isConnected, s.attempts);
    Shown(st, ColorOf(st), OnlineCount(s.onlineUsers), Truthy(s.lastError))
  }

  /** When the replaced socket's close event arrives, relative to the
      `connect` the button runs 300 ms after its `disconnect`: in the gap,
      while the new socket connects, or after it has opened. */
  datatype CloseOrder = BeforeConnect | BeforeOpen | AfterOpen

  /** The socket whose close event is still to come once `disconnect()` has
      closed it: the current one, unless it has already closed. */
  function PendingClose(s: State): Option<nat>
    requires s.current.Some? ==> s.current.value < |s.sockets|
  {
    if s.current.Some? && s.sockets[s.current.value].ready != Closed then s.current else None
  }

  /** The button: `disconnect()` now, then `connect()` with the credentials
      of the render that handled the click, with the replaced socket's
      `onclose` delivered at the point `order` names. */
  function ForceReconnect(s: State, c: Creds, order: CloseOrder, info: CloseInfo): State
    requires s.current.Some? ==> s.current.value < |s.sockets|
  {
    var d := Disconnect(s);
    match PendingClose(s)
    case None => Connect(d, c)
    case Some(prev) =>
      if order == BeforeConnect then Connect(OnClose(d, prev, info), c)
      else
        var k := Connect(d, c);
        if order == AfterOpen && c.Present() then OnClose(OnOpen(k, |s.sockets|), prev, info)
        else OnClose(k, prev, info)
  }

  // ---------------------------------------------------------------------
  // Properties
  // ---------------------------------------------------------------------

  /** The three statuses partition the states, each with its own color. */
  lemma StatusCases(isConnected: bool, attempts: nat)
    ensures Status(isConnected, attempts) == Connected <==> isConnected
    ensures Status(isConnected, attempts) == Reconnecting(attempts) <==> !isConnected && attempts > 0
    ensures Status(isConnected, attempts) == Disconnected <==> !isConnected && attempts == 0
    ensures ColorOf(Status(isConnected, attempts)) == Green <==> isConnected
    ensures ColorOf(Status(isConnected, attempts)) == Red <==> !isConnected && attempts == 0
  {
  }

  /** In a reachable state a reconnecting count is between 1 and 10. */
  lemma ReconnectingCountBounded(s: State)
    requires ConnectionProofs.Inv(s)
    ensures Render(s).status.Reconnecting? ==> 1 <= Render(s).status.attempts <= MaxAttempts
  {
  }

  /** The online count is the length of the list, zero when there is none. */
  lemma OnlineCountOf(users: seq<OnlineUser>)
    ensures OnlineCount(Some(users)) == |users| && OnlineCount(None) == 0
  {
  }

  /** The attempt count after the button when a close event was pending:
      one more than before, capped, or 1 when the new socket had already
      opened and reset the counter. */
  function CountAfterClose(s: State, c: Creds, order: CloseOrder): nat
  {
    if order == AfterOpen && c.Present() then 1
    else if s.attempts + 1 < MaxAttempts then s.attempts + 1 else MaxAttempts
  }

  /** The button keeps the provider's invariant and, with credentials,
      leaves a fresh socket as the current one. Without a pending close it
      leaves no reconnect timer and the counter as it was; with one, the
      replaced socket's `onclose` bumps the counter and arms a back-off
      timer with that socket's credentials, which `connect` does not clear. */
  lemma ForceReconnectEffect(s: State, c: Creds, order: CloseOrder, info: CloseInfo)
    requires ConnectionProofs.Inv(s)
    ensures var r := ForceReconnect(s, c, order, info);
            && ConnectionProofs.Inv(r)
            && (c.Present() ==> && |r.sockets| == |s.sockets| + 1 && r.current == Some(|s.sockets|)
                                && r.sockets[|s.sockets|].ready ==
                                     (if order == AfterOpen && PendingClose(s).Some? then Open else Connecting))
            && (!c.Present() ==> r.current.None?)
    ensures var r := ForceReconnect(s, c, order, info);
            PendingClose(s).None? ==> && r.timerRef.None? && r.armed == {} && !r.isConnected
                                      && r.attempts == s.attempts
    ensures var r := ForceReconnect(s, c, order, info);
            PendingClose(s).Some? ==>
              var prev := PendingClose(s).value;
              && !r.isConnected && r.lastClose == Some(info)
              && r.attempts == CountAfterClose(s, c, order)
              && r.timerRef == Some(|s.timers|) && r.armed == {|s.timers|}
              && r.timers[|s.timers|] == Timer(Delay(r.attempts), s.sockets[prev].creds)
              && r.sockets[prev].ready == Closed
  {
    if PendingClose(s).None? {
      ForceReconnectNoClose(s, c, order, info);
    } else if order == BeforeConnect {
      ForceReconnectCloseFirst(s, c, order, info);
    } else if order == AfterOpen && c.Present() {
      ForceReconnectCloseAfterOpen(s, c, order, info);
    } else {
      ForceReconnectCloseLater(s, c, order, info);
    }
  }

  lemma ForceReconnectNoClose(s: State, c: Creds, order: CloseOrder, info: CloseInfo)
    requires ConnectionProofs.Inv(s) && PendingClose(s).None?
    ensures var r := ForceReconnect(s, c, order, info);
            && ConnectionProofs.Inv(r)
            && (c.Present() ==> && |r.sockets| == |s.sockets| + 1 && r.current == Some(|s.sockets|)
                                && r.sockets[|s.sockets|].ready == Connecting)
            && (!c.Present() ==> r.current.None?)
            && r.timerRef.None? && r.armed == {} && !r.isConnected && r.attempts == s.attempts
  {
    var d := Disconnect(s);
    ConnectionProofs.DisconnectPreservesInv(s);
    ConnectionProofs.AtMostOneTimer(d);
    ConnectionProofs.ConnectPreservesInv(d, c);
  }

  lemma ForceReconnectCloseFirst(s: State, c: Creds, order: CloseOrder, info: CloseInfo)
    requires ConnectionProofs.Inv(s) && PendingClose(s).Some? && order == BeforeConnect
    ensures var r := ForceReconnect(s, c, order, info);
            var prev := PendingClose(s).value;
            && ConnectionProofs.Inv(r)
            && (c.Present() ==> && |r.sockets| == |s.sockets| + 1 && r.current == Some(|s.sockets|)
                                && r.sockets[|s.sockets|].ready == Connecting)
            && (!c.Present() ==> r.current.None?)
            && !r.isConnected && r.lastClose == Some(info)
            && r.attempts == CountAfterClose(s, c, order)
            && r.timerRef == Some(|s.timers|) && r.armed == {|s.timers|}
            && r.timers[|s.timers|] == Timer(Delay(r.attempts), s.sockets[prev].creds)
            && r.sockets[prev].ready == Closed
  {
    var d := Disconnect(s);
    ConnectionProofs.DisconnectPreservesInv(s);
    ConnectionProofs.AtMostOneTimer(d);
    var prev := PendingClose(s).value;
    ConnectionProofs.ClosePreservesInv(d, prev, info);
    ConnectionProofs.ConnectPreservesInv(OnClose(d, prev, info), c);
  }

  lemma ForceReconnectCloseAfterOpen(s: State, c: Creds, order: CloseOrder, info: CloseInfo)
    requires ConnectionProofs.Inv(s) && PendingClose(s).Some? && order == AfterOpen && c.Present()
    ensures var r := ForceReconnect(s, c, order, info);
            var prev := PendingClose(s).value;
            && ConnectionProofs.Inv(r)
            && (c.Present() ==> && |r.sockets| == |s.sockets| + 1 && r.current == Some(|s.sockets|)
                                && r.sockets[|s.sockets|].ready == Open)
            && !r.isConnected && r.lastClose == Some(info)
            && r.attempts == CountAfterClose(s, c, order)
            && r.timerRef == Some(|s.timers|) && r.armed == {|s.timers|}
            && r.timers[|s.timers|] == Timer(Delay(r.attempts), s.sockets[prev].creds)
            && r.sockets[prev].ready == Closed
  {
    var d := Disconnect(s);
    ConnectionProofs.DisconnectPreservesInv(s);
    ConnectionProofs.AtMostOneTimer(d);
    var prev := PendingClose(s).value;
    var k := Connect(d, c);
    ConnectionProofs.ConnectPreservesInv(d, c);
    ConnectionProofs.OpenPreservesInv(k, |s.sockets|);
    ConnectionProofs.ClosePreservesInv(OnOpen(k, |s.sockets|), prev, info);
  }

  lemma ForceReconnectCloseLater(s: State, c: Creds, order: CloseOrder, info: CloseInfo)
    requires ConnectionProofs.Inv(s) && PendingClose(s).Some? && order != BeforeConnect && !(order == AfterOpen && c.Present())
    ensures var r := ForceReconnect(s, c, order, info);
            var prev := PendingClose(s).value;
            && ConnectionProofs.Inv(r)
            && (c.Present() ==> && |r.sockets| == |s.sockets| + 1 && r.current == Some(|s.sockets|)
                                && r.sockets[|s.sockets|].ready == Connecting)
            && (!c.Present() ==> r.current.None?)
            && !r.isConnected && r.lastClose == Some(info)
            && r.attempts == CountAfterClose(s, c, order)
            && r.timerRef == Some(|s.timers|) && r.armed == {|s.timers|}
            && r.timers[|s.timers|] == Timer(Delay(r.attempts), s.sockets[prev].creds)
            && r.sockets[prev].ready == Closed
  {
    var d := Disconnect(s);
    ConnectionProofs.DisconnectPreservesInv(s);
    ConnectionProofs.AtMostOneTimer(d);
    var prev := PendingClose(s).value;
    var k := Connect(d, c);
    ConnectionProofs.ConnectPreservesInv(d, c);
    ConnectionProofs.ClosePreservesInv(k, prev, info);
  }

  /** Once the replaced socket's close event has arrived the indicator shows
      the bumped count, even when the button's new socket is already open;
      when no close is pending it shows the old count, not connected. */
  lemma ForceReconnectShowsCount(s: State, c: Creds, order: CloseOrder, info: CloseInfo)
    requires ConnectionProofs.Inv(s)
    ensures var r := ForceReconnect(s, c, order, info);
            && (PendingClose(s).None? ==> Render(r).status == Status(false, s.attempts))
            && (PendingClose(s).Some? ==> Render(r).status == Reconnecting(CountAfterClose(s, c, order))
                                          && Render(r).color == Yellow)
            && (PendingClose(s).Some? && order == AfterOpen && c.Present() ==>
                  r.sockets[r.current.value].ready == Open && Render(r).status == Reconnecting(1))
  {
    ForceReconnectEffect(s, c, order, info);
  }

  /** The timer the replaced socket's close arms outlives the button: if it
      fires before the new socket opens, it closes that socket and connects
      yet again with the replaced socket's credentials. */
  lemma StrayTimerReplacesNewSocket(s: State, c: Creds, order: CloseOrder, info: CloseInfo)
    requires ConnectionProofs.Inv(s) && PendingClose(s).Some? && order != AfterOpen
    requires c.Present() && s.sockets[PendingClose(s).value].creds.Present()
    ensures var r := ForceReconnect(s, c, order, info);
            var f := OnTimer(r, |s.timers|);
            && f.current == Some(|s.sockets| + 1)
            && f.sockets[|s.sockets|].ready == Closing
            && f.sockets[|s.sockets| + 1].creds == s.sockets[PendingClose(s).value].creds
  {
    ForceReconnectEffect(s, c, order, info);
  }

  /** If instead the new socket opens first, its `onopen` clears the stray
      timer and the counter. */
  lemma OpenDisarmsStrayTimer(s: State, c: Creds, order: CloseOrder, info: CloseInfo)
    requires ConnectionProofs.Inv(s) && PendingClose(s).Some? && order != AfterOpen && c.Present()
    ensures var r := OnOpen(ForceReconnect(s, c, order, info), |s.sockets|);
            r.armed == {} && r.timerRef.None? && r.attempts == 0 && Render(r).status == Connected
  {
    ForceReconnectEffect(s, c, order, info);
  }
}
