/** What survives when the close event of a replaced socket arrives at any later time. */
module LateCloses {
  import opened Prelude
  import opened Protocol
  import opened ClientModel
  import ClientFrames

  /** A usual event, or the close handler running for a socket that is no longer the client's. */
  datatype LooseEvent = Usual(event: Event) | LateClose(timer: TimerId)

  ghost predicate LooselyEnabled(c: Client, e: LooseEvent) {
    match e
    case Usual(event) => Enabled(c, event)
    case LateClose(timer) => timer !in c.liveTimers
  }

  ghost function LooseStep(cfg: ClientConfig, c: Client, e: LooseEvent): Client
    requires LooselyEnabled(c, e)
  {
    match e
    case Usual(event) => Step(cfg, c, event)
    case LateClose(timer) => OnClose(cfg, c, timer)
  }

  ghost predicate IsLooseRun(
    cfg: ClientConfig, secret: Option<Uuid>, first: Draw, events: seq<LooseEvent>, trace: seq<Client>)
  {
    && |trace| == |events| + 1
    && trace[0] == Connect(cfg, Create(secret), first)
    && forall i {:trigger events[i]} :: 0 <= i < |events| ==>
         LooselyEnabled(trace[i], events[i]) && trace[i + 1] == LooseStep(cfg, trace[i], events[i])
  }

  /** Shut down without a socket, or something is left that will act: a socket that has not closed, or a live timer. */
  ghost predicate NotStranded(c: Client) {
    if c.isShuttingDown then c.ws.None? else HasLiveSocket(c) || c.liveTimers != {}
  }

  lemma ConnectIsNotStranded(cfg: ClientConfig, c: Client, d: Draw)
    requires c.isShuttingDown ==> c.ws.None?
    ensures NotStranded(Connect(cfg, c, d))
  {
    if !(c.ws.Some? && (c.ws.value.ready == Open || c.ws.value.ready == Connecting)) && d.throws {
      assert d.timer in Connect(cfg, c, d).liveTimers;
    }
  }

  lemma CloseIsNotStranded(cfg: ClientConfig, c: Client, timer: TimerId)
    requires c.isShuttingDown ==> c.ws.None?
    ensures NotStranded(OnClose(cfg, c, timer))
  {
    if !c.isShuttingDown { assert timer in OnClose(cfg, c, timer).liveTimers; }
  }

  lemma LooseStepKeeps(cfg: ClientConfig, c: Client, e: LooseEvent)
    requires LooselyEnabled(c, e) && NotStranded(c)
    ensures NotStranded(LooseStep(cfg, c, e))
  {
    match e
    case LateClose(timer) => CloseIsNotStranded(cfg, c, timer);
    case Usual(event) =>
      match event
      case Receives(m, nonce) => if m.Request? { ClientFrames.RequestEffect(cfg, c, m.request); }
      case Closes(t) => CloseIsNotStranded(cfg, c.(ws := Some(c.ws.value.(ready := Closed))), t);
      case ReconnectTimer(t, d) =>
        ConnectIsNotStranded(cfg, c.(liveTimers := c.liveTimers - {t}, reconnectTimeout := None), d);
      case Nudge(d) => ConnectIsNotStranded(cfg, CancelReconnect(c), d);
      case Wake(d) =>
        ConnectIsNotStranded(cfg, CancelReconnect(c).(reconnectAttempts := 0, retryPhase := Burst), d);
      case ManualReconnect(d) => ConnectIsNotStranded(cfg, Disconnect(cfg, c.(reconnectAttempts := 0)), d);
      case HandlerDone(i, reply) =>
      case Opens =>
      case StartsClosing =>
      case Shutdown =>
      case SubmitCode(_) =>
  }

  /** Even with late close events a client is never left without a socket, a timer and a shutdown. */
  lemma {:induction false} NeverStranded(
    cfg: ClientConfig, secret: Option<Uuid>, first: Draw, events: seq<LooseEvent>, trace: seq<Client>, k: nat)
    requires IsLooseRun(cfg, secret, first, events, trace) && k < |trace|
    ensures NotStranded(trace[k])
  {
    if k == 0 {
      ConnectIsNotStranded(cfg, Create(secret), first);
    } else {
      NeverStranded(cfg, secret, first, events, trace, k - 1);
      LooseStepKeeps(cfg, trace[k - 1], events[k - 1]);
    }
  }
}
