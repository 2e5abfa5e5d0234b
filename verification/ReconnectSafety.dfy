/** The reconnect loop never gets stuck and never doubles up. */
module ReconnectSafety {
  import opened Prelude
  import opened Protocol
  import opened ClientFrames
  import opened ClientModel

  ghost predicate ShutDown(c: Client) {
    c.isShuttingDown && c.ws.None? && c.liveTimers == {} && c.status == Disconnected
  }

  ghost predicate OnSocket(c: Client) {
    !c.isShuttingDown && HasLiveSocket(c) && c.liveTimers == {} && c.status != Disconnected
  }

  ghost predicate Waiting(c: Client) {
    && !c.isShuttingDown && !HasLiveSocket(c) && c.status == Disconnected
    && c.reconnectTimeout.Some? && c.liveTimers == {c.reconnectTimeout.value}
  }

  /**
   Exactly one of: shut down, a live or closing socket, or one live reconnect timer. The timer field is
   never stale, attempts stay within the maximum, and standby means the attempts are used up.
   */
  ghost predicate Inv(cfg: ClientConfig, c: Client) {
    && (ShutDown(c) || OnSocket(c) || Waiting(c))
    && c.liveTimers == (if c.reconnectTimeout.Some? then {c.reconnectTimeout.value} else {})
    && c.reconnectAttempts <= cfg.maxReconnectAttempts
    && (c.retryPhase == Standby ==> c.reconnectAttempts == cfg.maxReconnectAttempts)
    && (!HasLiveSocket(c) ==> c.pairingId.None? && c.grantedScopes == [] && c.authStatus == Unconnected)
  }

  lemma StepKeepsInv(cfg: ClientConfig, c: Client, e: Event)
    requires Enabled(c, e) && Inv(cfg, c)
    ensures Inv(cfg, Step(cfg, c, e))
  {
    if e.Receives? {
      MessageKeepsInv(cfg, c, e.msg, e.nonce);
    } else if e.ManualReconnect? {
      DisconnectShutsDown(cfg, c.(reconnectAttempts := 0));
      ConnectKeepsInv(cfg, Disconnect(cfg, c.(reconnectAttempts := 0)), e.draw);
    } else if e.Shutdown? {
      DisconnectShutsDown(cfg, c);
    } else if e.ReconnectTimer? || e.Nudge? || e.Wake? {
      AttemptKeepsInv(cfg, c, e);
    } else if e.HandlerDone? {
      RespondingKeepsInv(cfg, c, e.task, e.reply);
    } else {
      SocketKeepsInv(cfg, c, e);
    }
  }

  lemma AttemptKeepsInv(cfg: ClientConfig, c: Client, e: Event)
    requires (e.ReconnectTimer? || e.Nudge? || e.Wake?) && Enabled(c, e) && Inv(cfg, c)
    ensures Inv(cfg, Step(cfg, c, e))
  {
    if e.ReconnectTimer? {
      ConnectKeepsInv(cfg, c.(liveTimers := {}, reconnectTimeout := None), e.draw);
    } else if !c.isShuttingDown && c.status == Disconnected {
      var d := CancelReconnect(c);
      ConnectKeepsInv(
        cfg, if e.Wake? then d.(reconnectAttempts := 0, retryPhase := Burst) else d, e.draw);
    }
  }

  lemma RespondingKeepsInv(cfg: ClientConfig, c: Client, i: nat, reply: Reply)
    requires Inv(cfg, c) && i < |c.tasks|
    ensures Inv(cfg, FinishTask(c, i, reply))
  {
  }

  lemma SocketKeepsInv(cfg: ClientConfig, c: Client, e: Event)
    requires (e.Opens? || e.StartsClosing? || e.Closes? || e.SubmitCode?) && Enabled(c, e) && Inv(cfg, c)
    ensures Inv(cfg, Step(cfg, c, e))
  {
  }

  /** No socket, no timer, and nothing left of an earlier connection. */
  ghost predicate ReadyToConnect(cfg: ClientConfig, c: Client) {
    && !HasLiveSocket(c) && c.liveTimers == {} && c.reconnectTimeout.None?
    && c.reconnectAttempts <= cfg.maxReconnectAttempts
    && (c.retryPhase == Standby ==> c.reconnectAttempts == cfg.maxReconnectAttempts)
    && c.pairingId.None? && c.grantedScopes == [] && c.authStatus == Unconnected
  }

  /** Connecting with no socket and no timer ends on a socket, or waiting on one new timer. */
  lemma ConnectKeepsInv(cfg: ClientConfig, c: Client, d: Draw)
    requires ReadyToConnect(cfg, c)
    ensures Inv(cfg, Connect(cfg, c, d))
  {
  }

  lemma MessageKeepsInv(cfg: ClientConfig, c: Client, m: ToBridge, nonce: Uuid)
    requires IsOpen(c) && Inv(cfg, c)
    ensures Inv(cfg, HandleMessage(cfg, c, m, nonce))
  {
    if m.Request? { RequestEffect(cfg, c, m.request); }
  }

  /** The current socket has just closed, and its close event is about to be handled. */
  ghost predicate JustClosed(cfg: ClientConfig, c: Client) {
    c.ws.Some? && c.ws.value.ready == Closed && Inv(cfg, c.(ws := Some(c.ws.value.(ready := Closing))))
  }

  /** Disconnecting leaves no socket and no timer, whatever was going on. */
  lemma DisconnectShutsDown(cfg: ClientConfig, c: Client)
    requires Inv(cfg, c) || Inv(cfg, c.(retryPhase := Idle))
    ensures ShutDown(Disconnect(cfg, c)) && Inv(cfg, Disconnect(cfg, c))
    ensures Disconnect(cfg, c).reconnectAttempts == c.reconnectAttempts
  {
  }

  /** In every state of every run. */
  lemma {:induction false} NeverStuck(
    cfg: ClientConfig, secret: Option<Uuid>, first: Draw, events: seq<Event>, trace: seq<Client>, k: nat)
    requires IsRun(cfg, secret, first, events, trace) && k < |trace|
    ensures Inv(cfg, trace[k])
  {
    if k == 0 {
      ConnectKeepsInv(cfg, Create(secret), first);
    } else {
      NeverStuck(cfg, secret, first, events, trace, k - 1);
      StepKeepsInv(cfg, trace[k - 1], events[k - 1]);
    }
  }

  /** A waiting client whose timer fires is on a socket again, or waits on exactly one new timer. */
  lemma WaitingMakesProgress(cfg: ClientConfig, c: Client, d: Draw)
    requires Inv(cfg, c) && Waiting(c) && FreshDraw(c, d)
    ensures var n := Step(cfg, c, ReconnectTimer(c.reconnectTimeout.value, d));
            if d.throws then Waiting(n) && n.reconnectTimeout == Some(d.timer)
            else OnSocket(n) && n.ws == Some(Transport(d.conn, Connecting))
  {
  }

  /**
   The close handler run for some socket while the client's own socket is as it was keeps the invariant exactly
   when the client is shut down: late close events of replaced sockets are what the assumption on close order
   rules out.
   */
  lemma CloseHandlerSafeIff(cfg: ClientConfig, c: Client, timer: TimerId)
    requires Inv(cfg, c) && timer !in c.liveTimers
    ensures Inv(cfg, OnClose(cfg, c, timer)) <==> ShutDown(c)
  {
  }

  /** So a close event delivered late, after `reconnect` opened a successor, always breaks the loop. */
  lemma LateCloseBreaksReconnect(cfg: ClientConfig, c: Client, d: Draw, timer: TimerId)
    requires Inv(cfg, c) && FreshDraw(c, d) && !d.throws
    ensures OnSocket(Reconnect(cfg, c, d))
    ensures !Inv(cfg, OnClose(cfg, Reconnect(cfg, c, d), timer))
    ensures HasLiveSocket(OnClose(cfg, Reconnect(cfg, c, d), timer))
    ensures timer in OnClose(cfg, Reconnect(cfg, c, d), timer).liveTimers
  {
    DisconnectShutsDown(cfg, c.(reconnectAttempts := 0));
  }
}
