/** The bridge plugin's WebSocket client as a function from state and event to state. */
module ClientModel {
  import opened Prelude
  import opened JsMap
  import opened Protocol
  import opened ResponseCache

  type ConnId = nat
  type TimerId = nat

  datatype ReadyState = Connecting | Open | Closing | Closed

  datatype Transport = Transport(id: ConnId, ready: ReadyState)

  datatype ConnectionStatus = Disconnected | IsConnecting | IsConnected

  datatype AuthStatus = Unconnected | Authenticating | PairingNeeded | Authenticated | AuthFailed

  datatype RetryPhase = Idle | Burst | Standby

  /** A request handler in progress, and the socket that was current when it began. */
  datatype Task = Task(request: BridgeRequest, socket: Option<ConnId>)

  /** History: a request, and the reply that the handler or the bridge itself gave to it. */
  datatype Replied = Replied(request: BridgeRequest, reply: Reply)

  datatype ClientConfig = ClientConfig(
    installationId: Uuid, bridgeVersion: nat, capabilities: seq<Capability>,
    maxReconnectAttempts: nat, hasHandler: bool)

  datatype Client = Client(
    ws: Option<Transport>,
    reconnectAttempts: nat,
    reconnectTimeout: Option<TimerId>,
    liveTimers: set<TimerId>,
    status: ConnectionStatus,
    authStatus: AuthStatus,
    retryPhase: RetryPhase,
    isShuttingDown: bool,
    pairingId: Option<Uuid>,
    grantedScopes: seq<Scope>,
    pairingSecret: Option<Uuid>,
    responseCache: Cache,
    tasks: seq<Task>,
    wires: map<ConnId, seq<ToServer>>,
    history: History)

  /**
   What happened: operations received, requests whose handler was started, replies of handlers, refusals by the
   bridge itself, responses cached, how many pairing codes were sent on each connection, and the proofs made.
   */
  datatype History = History(
    received: set<Uuid>,
    started: seq<BridgeRequest>,
    handled: seq<Replied>,
    refused: seq<Replied>,
    cached: seq<Entry<Uuid, BridgeResponse>>,
    submitted: map<ConnId, nat>,
    signed: set<Proof>)

  const NO_HISTORY := History({}, [], [], [], [], map[], {})

  function Create(pairingSecret: Option<Uuid>): Client {
    Client(None, 0, None, {}, Disconnected, Unconnected, Idle, false, None, [], pairingSecret,
           [], [], map[], NO_HISTORY)
  }

  predicate IsOpen(c: Client) { c.ws.Some? && c.ws.value.ready == Open }

  /** A socket that has not yet reported its close. */
  predicate HasLiveSocket(c: Client) { c.ws.Some? && c.ws.value.ready != Closed }

  /** Fresh values one call may draw, and whether the WebSocket constructor throws. */
  datatype Draw = Draw(conn: ConnId, timer: TimerId, throws: bool)

  // ---- connecting ----

  function ScheduleReconnect(cfg: ClientConfig, c: Client, timer: TimerId): Client {
    if c.isShuttingDown then c
    else
      var d := if c.reconnectAttempts < cfg.maxReconnectAttempts
               then c.(reconnectAttempts := c.reconnectAttempts + 1, retryPhase := Burst)
               else c.(retryPhase := Standby);
      d.(reconnectTimeout := Some(timer), liveTimers := c.liveTimers + {timer})
  }

  function CancelReconnect(c: Client): Client {
    match c.reconnectTimeout
    case None => c
    case Some(t) => c.(reconnectTimeout := None, liveTimers := c.liveTimers - {t})
  }

  function Connect(cfg: ClientConfig, c: Client, d: Draw): Client {
    if c.ws.Some? && (c.ws.value.ready == Open || c.ws.value.ready == Connecting) then c
    else if d.throws then
      ScheduleReconnect(cfg, c.(isShuttingDown := false, authStatus := Unconnected, status := Disconnected), d.timer)
    else
      c.(isShuttingDown := false, status := IsConnecting, authStatus := Authenticating,
         ws := Some(Transport(d.conn, Connecting)), wires := c.wires[d.conn := []],
         history := c.history.(submitted := c.history.submitted[d.conn := 0]))
  }

  function OnOpen(c: Client): Client { c.(reconnectAttempts := 0, retryPhase := Idle) }

  /** The close handler. It does not look at which socket closed. */
  function OnClose(cfg: ClientConfig, c: Client, timer: TimerId): Client {
    ScheduleReconnect(
      cfg, c.(pairingId := None, grantedScopes := [], authStatus := Unconnected, status := Disconnected), timer)
  }

  /** Closing a socket that is not closed delivers its close event before anything else happens. */
  function Disconnect(cfg: ClientConfig, c: Client): Client {
    var d := CancelReconnect(c.(isShuttingDown := true));
    var e := if HasLiveSocket(d) then OnClose(cfg, d, 0) else d;
    e.(ws := None, retryPhase := Idle, authStatus := Unconnected, status := Disconnected)
  }

  function Reconnect(cfg: ClientConfig, c: Client, d: Draw): Client {
    Connect(cfg, Disconnect(cfg, c.(reconnectAttempts := 0)), d)
  }

  function WakeReconnect(cfg: ClientConfig, c: Client, d: Draw): Client {
    if c.isShuttingDown || c.status != Disconnected then c
    else Connect(cfg, CancelReconnect(c).(reconnectAttempts := 0, retryPhase := Burst), d)
  }

  function NudgeReconnect(cfg: ClientConfig, c: Client, d: Draw): Client {
    if c.isShuttingDown || c.status != Disconnected then c
    else Connect(cfg, CancelReconnect(c), d)
  }

  function TimerFires(cfg: ClientConfig, c: Client, timer: TimerId, d: Draw): Client {
    Connect(cfg, c.(liveTimers := c.liveTimers - {timer}, reconnectTimeout := None), d)
  }

  // ---- messages ----

  function Send(c: Client, m: ToServer): Client {
    if IsOpen(c) && c.ws.value.id in c.wires
    then c.(wires := c.wires[c.ws.value.id := c.wires[c.ws.value.id] + [m]])
    else c
  }

  function HandleServerChallenge(cfg: ClientConfig, c: Client, m: ToBridge, nonce: Uuid): Client
    requires m.ServerChallenge?
  {
    if m.protocolVersion != PROTOCOL_VERSION then c
    else
      var signed := AuthMessage(m.serverInstanceId, m.nonce, nonce, cfg.installationId, cfg.bridgeVersion,
                                PROTOCOL_VERSION);
      var proof := if c.pairingSecret.Some? then Some(Hmac(c.pairingSecret.value, signed)) else None;
      Send(NoteProof(c, proof), Hello(ClientHello(true, PROTOCOL_VERSION, cfg.bridgeVersion, cfg.installationId, nonce,
                                cfg.capabilities, proof)))
  }

  function NoteProof(c: Client, proof: Option<Proof>): Client {
    match proof
    case None => c
    case Some(p) => c.(history := c.history.(signed := c.history.signed + {p}))
  }

  /** Why the bridge would refuse a request without running its handler. */
  function Gate(cfg: ClientConfig, c: Client, r: BridgeRequest): Option<ErrorCode> {
    if c.authStatus != Authenticated then Some(NotAuthenticated)
    else if GetActionPolicy(r.action).None? || r.scope != GetActionPolicy(r.action).value.scope then
      Some(PolicyMismatch)
    else if r.scope !in c.grantedScopes then Some(ScopeDenied)
    else if !Advertised(cfg.capabilities, r.action) then Some(CapabilityUnavailable)
    else if !cfg.hasHandler then Some(NoHandler)
    else None
  }

  /** A response is cached, then sent if the socket it belongs to is still the current open one. */
  function Respond(c: Client, t: Task, reply: Reply): Client {
    var response := BridgeResponse(t.request.id, t.request.operationId, reply);
    var d := c.(responseCache := Remember(c.responseCache, t.request.operationId, response),
                history := c.history.(cached := c.history.cached + [Entry(t.request.operationId, response)]));
    if IsOpen(c) && t.socket == Some(c.ws.value.id) then Send(d, Response(response)) else d
  }

  function CurrentSocket(c: Client): Option<ConnId> {
    if c.ws.Some? then Some(c.ws.value.id) else None
  }

  /** A remembered response is sent again, a refused request is answered, any other gets a task. */
  function Decide(c: Client, r: BridgeRequest, held: Option<BridgeResponse>, refused: Option<ErrorCode>): Client {
    match held
    case Some(cached) => Send(c, Response(cached))
    case None =>
      var t := Task(r, CurrentSocket(c));
      match refused
      case Some(code) =>
        Respond(c.(history := c.history.(refused := c.history.refused + [Replied(r, Error(code))])), t, Error(code))
      case None => c.(tasks := c.tasks + [t], history := c.history.(started := c.history.started + [r]))
  }

  function HandleRequest(cfg: ClientConfig, b: Client, r: BridgeRequest): Client {
    var c := b.(history := b.history.(received := b.history.received + {r.operationId}));
    Decide(c, r, Get(c.responseCache, r.operationId), Gate(cfg, c, r))
  }

  /** The handler of task `i` returns, throws, or is timed out. */
  function FinishTask(c: Client, i: nat, reply: Reply): Client
    requires i < |c.tasks|
  {
    var t := c.tasks[i];
    var d := c.(tasks := c.tasks[..i] + c.tasks[i + 1..],
                history := c.history.(handled := c.history.handled + [Replied(t.request, reply)]));
    Respond(d, t, reply)
  }

  function HandleMessage(cfg: ClientConfig, c: Client, m: ToBridge, nonce: Uuid): Client {
    match m
    case PingToBridge => Send(c, PongToServer)
    case CompanionInfo => c
    case ServerChallenge(_, _, _, _) => HandleServerChallenge(cfg, c, m, nonce)
    case PairingRequired(id) => c.(pairingId := Some(id), authStatus := PairingNeeded)
    case PairingComplete(secret, scopes) => c.(pairingSecret := Some(secret), grantedScopes := scopes)
    case AuthAccepted(scopes) =>
      c.(pairingId := None, grantedScopes := scopes, authStatus := Authenticated, status := IsConnected)
    case AuthRejected(reset) =>
      c.(pairingSecret := if reset then None else c.pairingSecret, authStatus := AuthFailed)
    case PongToBridge => c
    case Request(r) => HandleRequest(cfg, c, r)
  }

  function ConfirmPairing(cfg: ClientConfig, c: Client, code: nat): Client {
    if code >= 1_000_000 || c.pairingId.None? || !IsOpen(c) then c
    else
      Send(CountCode(c), Confirm(PairingConfirm(c.pairingId.value, code, cfg.installationId, cfg.bridgeVersion)))
      .(authStatus := Authenticating)
  }

  function CountCode(c: Client): Client
    requires c.ws.Some?
  {
    var k := c.ws.value.id;
    var n := if k in c.history.submitted then c.history.submitted[k] else 0;
    c.(history := c.history.(submitted := c.history.submitted[k := n + 1]))
  }

  // ---- runs ----

  datatype Event =
    | Opens
    | Receives(msg: ToBridge, nonce: Uuid)
    | StartsClosing
    | Closes(timer: TimerId)
    | ReconnectTimer(timer: TimerId, draw: Draw)
    | Nudge(draw: Draw)
    | Wake(draw: Draw)
    | ManualReconnect(draw: Draw)
    | Shutdown
    | SubmitCode(code: nat)
    | HandlerDone(task: nat, reply: Reply)

  /**
   Messages arrive only in OPEN, a socket closes once, only a live timer fires, and new timers and
   connections are fresh.
   */
  ghost predicate Enabled(c: Client, e: Event) {
    match e
    case Opens => c.ws.Some? && c.ws.value.ready == Connecting
    case Receives(_, _) => IsOpen(c)
    case StartsClosing => HasLiveSocket(c)
    case Closes(t) => HasLiveSocket(c) && t !in c.liveTimers
    case ReconnectTimer(t, d) => t in c.liveTimers && FreshDraw(c, d)
    case Nudge(d) => FreshDraw(c, d)
    case Wake(d) => FreshDraw(c, d)
    case ManualReconnect(d) => FreshDraw(c, d)
    case Shutdown => true
    case SubmitCode(_) => true
    case HandlerDone(i, reply) =>
      i < |c.tasks| && (reply.Error? ==> reply.code == ActionTimeout || reply.code == ActionFailed)
  }

  ghost predicate FreshDraw(c: Client, d: Draw) { d.conn !in c.wires && d.timer !in c.liveTimers }

  function Step(cfg: ClientConfig, c: Client, e: Event): Client
    requires Enabled(c, e)
  {
    match e
    case Opens => OnOpen(c.(ws := Some(c.ws.value.(ready := Open))))
    case Receives(m, nonce) => HandleMessage(cfg, c, m, nonce)
    case StartsClosing => c.(ws := Some(c.ws.value.(ready := Closing)))
    case Closes(t) => OnClose(cfg, c.(ws := Some(c.ws.value.(ready := Closed))), t)
    case ReconnectTimer(t, d) => TimerFires(cfg, c, t, d)
    case Nudge(d) => NudgeReconnect(cfg, c, d)
    case Wake(d) => WakeReconnect(cfg, c, d)
    case ManualReconnect(d) => Reconnect(cfg, c, d)
    case Shutdown => Disconnect(cfg, c)
    case SubmitCode(code) => ConfirmPairing(cfg, c, code)
    case HandlerDone(i, reply) => FinishTask(c, i, reply)
  }

  /** A run: the runtime's first `connect`, then events. */
  ghost predicate IsRun(cfg: ClientConfig, secret: Option<Uuid>, first: Draw, events: seq<Event>, trace: seq<Client>) {
    && |trace| == |events| + 1
    && trace[0] == Connect(cfg, Create(secret), first)
    && forall i {:trigger events[i]} :: 0 <= i < |events| ==>
         Enabled(trace[i], events[i]) && trace[i + 1] == Step(cfg, trace[i], events[i])
  }
}
