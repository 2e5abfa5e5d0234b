/** How the reconnect loop counts: bursts up to the maximum, then standby, and what each way to try again does. */
module ReconnectAttempts {
  import opened Prelude
  import opened ClientModel
  import opened ReconnectSafety

  /** One more attempt is counted up to the maximum; past it the client is on standby. It waits on this timer. */
  ghost predicate Counted(cfg: ClientConfig, n: Client, before: nat, timer: TimerId) {
    && Waiting(n) && n.reconnectTimeout == Some(timer)
    && if before < cfg.maxReconnectAttempts then n.reconnectAttempts == before + 1 && n.retryPhase == Burst
       else n.reconnectAttempts == before && n.retryPhase == Standby
  }

  /** A new socket is connecting, or the constructor threw and that was counted. */
  ghost predicate Tries(cfg: ClientConfig, n: Client, before: nat, d: Draw) {
    if d.throws then Counted(cfg, n, before, d.timer)
    else
      && OnSocket(n) && n.ws == Some(Transport(d.conn, Connecting)) && n.reconnectAttempts == before
      && n.authStatus == Authenticating && n.status == IsConnecting && d.conn in n.wires && n.wires[d.conn] == []
  }

  /** A waiting client that is woken tries at once, with the attempts starting over. */
  lemma WakingTries(cfg: ClientConfig, c: Client, d: Draw)
    requires Inv(cfg, c) && FreshDraw(c, d)
    ensures var n := WakeReconnect(cfg, c, d);
      if Waiting(c) then Tries(cfg, n, 0, d) && (!d.throws ==> n.retryPhase == Burst) else n == c
  {
  }

  /** A nudge tries at once, too, but keeps the count. */
  lemma NudgingTries(cfg: ClientConfig, c: Client, d: Draw)
    requires Inv(cfg, c) && FreshDraw(c, d)
    ensures var n := NudgeReconnect(cfg, c, d);
      if Waiting(c) then Tries(cfg, n, c.reconnectAttempts, d) && (!d.throws ==> n.retryPhase == c.retryPhase)
      else n == c
  {
  }

  lemma TimerTries(cfg: ClientConfig, c: Client, d: Draw)
    requires Inv(cfg, c) && Waiting(c) && FreshDraw(c, d)
    ensures Tries(cfg, TimerFires(cfg, c, c.reconnectTimeout.value, d), c.reconnectAttempts, d)
  {
  }

  /** `reconnect` gives up whatever there is and tries with the attempts starting over. */
  lemma ReconnectingTries(cfg: ClientConfig, c: Client, d: Draw)
    requires Inv(cfg, c) && FreshDraw(c, d)
    ensures Tries(cfg, Reconnect(cfg, c, d), 0, d)
  {
    DisconnectShutsDown(cfg, c.(reconnectAttempts := 0));
  }

  /** A socket that opens ends the count. */
  lemma OpeningEndsCount(cfg: ClientConfig, c: Client)
    requires Inv(cfg, c) && c.ws.Some? && c.ws.value.ready == Connecting
    ensures var n := Step(cfg, c, Opens);
      && n == c.(ws := Some(Transport(c.ws.value.id, Open)), reconnectAttempts := 0, retryPhase := Idle)
      && OnSocket(n)
  {
  }

  /** A socket that closes is counted, and nothing of its authentication is left. */
  lemma ClosingIsCounted(cfg: ClientConfig, c: Client, timer: TimerId)
    requires Inv(cfg, c) && HasLiveSocket(c) && timer !in c.liveTimers
    ensures var n := Step(cfg, c, Closes(timer));
      && Counted(cfg, n, c.reconnectAttempts, timer)
      && n.authStatus == Unconnected && n.grantedScopes == [] && n.pairingId.None?
      && n.pairingSecret == c.pairingSecret
  {
  }

  /** The client after its timer fired and the constructor threw, as often as there are fresh timers. */
  ghost function AfterFailures(cfg: ClientConfig, c: Client, timers: seq<TimerId>): Client {
    if timers == [] then c
    else
      var b := AfterFailures(cfg, c, timers[..|timers| - 1]);
      if b.reconnectTimeout.None? then b
      else TimerFires(cfg, b, b.reconnectTimeout.value, Draw(0, timers[|timers| - 1], true))
  }

  /** Failures in a row are counted up to the maximum, and from then on the client stays on standby. */
  lemma {:induction false} FailuresAreCounted(cfg: ClientConfig, c: Client, timers: seq<TimerId>)
    requires Inv(cfg, c) && Waiting(c) && timers != []
    ensures var n, all := AfterFailures(cfg, c, timers), c.reconnectAttempts + |timers|;
      && Inv(cfg, n) && Waiting(n) && n.reconnectTimeout == Some(timers[|timers| - 1])
      && n.reconnectAttempts == Min(all, cfg.maxReconnectAttempts)
      && (n.retryPhase == Standby <==> all > cfg.maxReconnectAttempts)
  {
    var before := timers[..|timers| - 1];
    if before != [] { FailuresAreCounted(cfg, c, before); }
    var b, d := AfterFailures(cfg, c, before), Draw(0, timers[|timers| - 1], true);
    FailureIsCounted(cfg, b, d);
  }

  lemma FailureIsCounted(cfg: ClientConfig, c: Client, d: Draw)
    requires Inv(cfg, c) && Waiting(c) && d.throws
    ensures var n := TimerFires(cfg, c, c.reconnectTimeout.value, d);
      Inv(cfg, n) && Counted(cfg, n, c.reconnectAttempts, d.timer)
  {
  }
}
