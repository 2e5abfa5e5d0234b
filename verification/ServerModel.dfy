/** The companion's WebSocket server as a function from state and event to state. */
module ServerModel {
  import opened Prelude
  import opened JsMap
  import opened Protocol
  import opened AuthState
  import opened RequestLedger

  type ConnId = nat

  const MAX_REQUEST_TIMEOUT_MS := 60_000

  /** How a connection authenticated, kept as history; by pairing, with the number of codes it took. */
  datatype Via = Unauthenticated | ByPairing(scopes: seq<Scope>, codes: nat) | ByProof(scopes: seq<Scope>)

  /**
   One accepted transport: the server's ready state, what it sent that the peer has not yet received, and as
   history how it authenticated, how many pairing codes were read from it while it was the client, and the nonce
   drawn for it.
   */
  datatype Socket = Socket(open: bool, out: seq<ToBridge>, via: Via, codes: nat, nonce: Uuid)

  /** What never changes while the server runs. */
  datatype ServerConfig = ServerConfig(serverInstanceId: Uuid, compatible: nat -> bool)

  datatype Server = Server(
    sockets: map<ConnId, Socket>,
    client: Option<ConnId>,
    clientAccepted: bool,
    clientHello: Option<ClientHello>,
    bridgeInstallationId: Option<Uuid>,
    bridgeCapabilities: seq<Capability>,
    grantedScopes: seq<Scope>,
    serverNonce: Option<Uuid>,
    helloTimeout: Option<ConnId>,
    helloTimers: set<ConnId>,
    auth: Auth,
    ledger: Ledger)

  function Start(stored: Option<PairedBridge>): Server {
    Server(map[], None, false, None, None, [], [], None, None, {}, Auth(stored, None), EMPTY_LEDGER)
  }

  predicate ClientOpen(s: Server) {
    s.client.Some? && s.client.value in s.sockets && s.sockets[s.client.value].open
  }

  predicate IsConnected(s: Server) { ClientOpen(s) && s.clientAccepted }

  // ---- sending, closing, clearing ----

  function Send(s: Server, m: ToBridge): Server {
    if ClientOpen(s) then
      var k := s.sockets[s.client.value];
      s.(sockets := s.sockets[s.client.value := k.(out := k.out + [m])])
    else s
  }

  function CloseClient(s: Server): Server {
    if ClientOpen(s) then
      s.(sockets := s.sockets[s.client.value := s.sockets[s.client.value].(open := false)])
    else s
  }

  function ClearHelloTimeout(s: Server): Server {
    match s.helloTimeout
    case None => s
    case Some(c) => s.(helloTimeout := None, helloTimers := s.helloTimers - {c})
  }

  function ClearClientState(s: Server): Server {
    ClearHelloTimeout(
      s.(client := None, clientAccepted := false, clientHello := None, bridgeInstallationId := None,
         bridgeCapabilities := [], grantedScopes := [], serverNonce := None))
  }

  function RejectBridge(s: Server): Server { CloseClient(ClearHelloTimeout(s)) }

  function RejectAuthentication(s: Server, resetPairing: bool): Server {
    RejectBridge(Send(s, AuthRejected(resetPairing)))
  }

  function AcceptBridge(s: Server, scopes: seq<Scope>, via: Via): Server {
    var t := Send(s.(grantedScopes := scopes, clientAccepted := true), AuthAccepted(scopes));
    if ClientOpen(t) then
      t.(sockets := t.sockets[t.client.value := t.sockets[t.client.value].(via := via)])
    else t
  }

  // ---- handlers ----

  function Greeting(cfg: ServerConfig, s: Server, nonce: Uuid): seq<ToBridge> {
    [CompanionInfo, ServerChallenge(PROTOCOL_VERSION, cfg.serverInstanceId, nonce, s.auth.paired.None?)]
  }

  function HandleConnection(cfg: ServerConfig, s: Server, c: ConnId, nonce: Uuid): Server {
    if ClientOpen(s) then s.(sockets := s.sockets[c := Socket(false, [], Unauthenticated, 0, nonce)])
    else
      s.(sockets := s.sockets[c := Socket(true, Greeting(cfg, s, nonce), Unauthenticated, 0, nonce)],
         client := Some(c), clientAccepted := false, clientHello := None, serverNonce := Some(nonce),
         helloTimeout := Some(c), helloTimers := s.helloTimers + {c})
  }

  function RecordHello(s: Server, h: ClientHello): Server {
    ClearHelloTimeout(
      s.(clientHello := Some(h), bridgeInstallationId := Some(h.installationId),
         bridgeCapabilities := h.capabilities))
  }

  function SignedBy(cfg: ServerConfig, serverNonce: Uuid, h: ClientHello): AuthMessage {
    AuthMessage(cfg.serverInstanceId, serverNonce, h.clientNonce, h.installationId, h.bridgeVersion,
                h.protocolVersion)
  }

  function RequirePairing(s: Server, installationId: Uuid, d: Draw): Server {
    var a := EnsureChallenge(s.auth, installationId, d);
    Send(s.(auth := a), PairingRequired(a.challenge.value.pairingId))
  }

  /** Unpaired: ask for a code. Paired: accept a valid reconnect proof and reject anything else. */
  function AnswerHello(cfg: ServerConfig, s: Server, h: ClientHello, d: Draw): Server {
    if s.auth.paired.None? then RequirePairing(s, h.installationId, d)
    else if h.proof.None? || s.serverNonce.None? then RejectAuthentication(s, false)
    else if VerifyProof(s.auth, SignedBy(cfg, s.serverNonce.value, h), h.proof.value) then
      AcceptBridge(s, s.auth.paired.value.scopes, ByProof(s.auth.paired.value.scopes))
    else RejectAuthentication(s, true)
  }

  function HandleClientHello(cfg: ServerConfig, s: Server, h: ClientHello, d: Draw): Server {
    if h.protocolVersion != PROTOCOL_VERSION || !h.wellTyped || !cfg.compatible(h.bridgeVersion)
    then RejectBridge(s)
    else AnswerHello(cfg, RecordHello(s, h), h, d)
  }

  /** How many codes were read from the current socket. */
  function CodesRead(s: Server): nat {
    if s.client.Some? && s.client.value in s.sockets then s.sockets[s.client.value].codes else 0
  }

  function CountCode(s: Server): Server {
    if s.client.Some? && s.client.value in s.sockets then
      var k := s.sockets[s.client.value];
      s.(sockets := s.sockets[s.client.value := k.(codes := k.codes + 1)])
    else s
  }

  function HandlePairingConfirm(s: Server, c: PairingConfirm, d: Draw): Server {
    if s.clientHello.None? || s.clientHello.value.installationId != c.installationId
       || s.clientHello.value.bridgeVersion != c.bridgeVersion
    then RejectAuthentication(s, false)
    else
      var t := s.(auth := CompletePairing(s.auth, c, d));
      if Confirms(s.auth, c, d.now) then
        var p := t.auth.paired.value;
        AcceptBridge(Send(t, PairingComplete(p.secret, p.scopes)), p.scopes, ByPairing(p.scopes, CodesRead(s)))
      else Send(t, AuthRejected(false))
  }

  function OutcomeOf(p: Pending, r: BridgeResponse): Outcome {
    if r.operationId != p.operationId then Rejected(IdentityMismatch)
    else match r.reply
      case Error(code) => Rejected(BridgeFailed(code))
      case Value(v) => Resolved(v)
  }

  function HandleResponse(s: Server, r: BridgeResponse): Server {
    if !s.clientAccepted then RejectBridge(s)
    else match Get(s.ledger.pending, r.id)
      case None => s
      case Some(p) => s.(ledger := Settle(s.ledger, r.id, OutcomeOf(p, r)))
  }

  /** A message from any socket but the current one changes nothing. */
  function HandleMessage(cfg: ServerConfig, s: Server, c: ConnId, m: ToServer, d: Draw): Server {
    if s.client != Some(c) then s
    else match m
      case Hello(h) => HandleClientHello(cfg, s, h, d)
      case Confirm(pc) => HandlePairingConfirm(CountCode(s), pc, d)
      case Ping => Send(s, PongToBridge)
      case PongToServer => s
      case Response(r) => HandleResponse(s, r)
      case Unclassified => if s.clientAccepted then s else RejectBridge(s)
      case Malformed => if s.clientAccepted then s else RejectBridge(s)
  }

  ghost function HandleClose(s: Server, c: ConnId): Server {
    if s.client != Some(c) then s
    else ClearClientState(s).(ledger := SettleAll(s.ledger, Rejected(ConnectionLost)))
  }

  function HelloTimerFires(s: Server, c: ConnId): Server {
    var t := s.(helloTimers := s.helloTimers - {c});
    if t.client == Some(c) && t.clientHello.None? && ClientOpen(t) then RejectBridge(t) else t
  }

  function RequestTimerFires(s: Server, id: Uuid): Server {
    s.(ledger := Settle(s.ledger, id, Rejected(TimedOut)))
  }

  datatype SendError = NotConnected | BadTimeout | UnknownAction | ScopeNotGranted | NotAdvertised

  function CheckRequest(s: Server, action: string, timeoutMs: int): Option<SendError> {
    if !IsConnected(s) then Some(NotConnected)
    else if timeoutMs < 1 || timeoutMs > MAX_REQUEST_TIMEOUT_MS then Some(BadTimeout)
    else match GetActionPolicy(action)
      case None => Some(UnknownAction)
      case Some(policy) =>
        if policy.scope !in s.grantedScopes then Some(ScopeNotGranted)
        else if !Advertised(s.bridgeCapabilities, action) then Some(NotAdvertised)
        else None
  }

  /** A request that passes every check is booked, then written to the current socket; writing may throw. */
  function SendRequest(s: Server, action: string, payload: Json, timeoutMs: int,
                       id: Uuid, operationId: Uuid, throws: bool): Server {
    if CheckRequest(s, action, timeoutMs).Some? then s
    else
      var policy := GetActionPolicy(action).value;
      var r := BridgeRequest(id, operationId, action, policy.scope, payload);
      var t := s.(ledger := Accept(s.ledger, r, policy));
      if throws then t.(ledger := Settle(t.ledger, id, Rejected(SendFailed))) else Send(t, Request(r))
  }

  function ResetPairing(s: Server): Server {
    ClearClientState(CloseClient(s.(auth := Auth(None, None))))
  }

  function Stop(s: Server): Server {
    if s.client.Some? then ClearClientState(CloseClient(s)) else s
  }

  // ---- runs ----

  datatype Event =
    | Connection(conn: ConnId, nonce: Uuid)
    | Message(conn: ConnId, msg: ToServer, draw: Draw)
    | LeavesOpen(conn: ConnId)
    | Closed(conn: ConnId)
    | HelloTimer(conn: ConnId)
    | RequestTimer(id: Uuid)
    | Sending(action: string, payload: Json, timeoutMs: int, id: Uuid, operationId: Uuid, throws: bool)
    | Reset
    | Stopping

  /** Ids are fresh, only a live timer fires, and a socket is closed only after leaving OPEN. */
  ghost predicate Enabled(s: Server, e: Event) {
    match e
    case Connection(c, _) => c !in s.sockets
    case Message(c, _, _) => c in s.sockets
    case LeavesOpen(c) => c in s.sockets
    case Closed(c) => c in s.sockets && !s.sockets[c].open
    case HelloTimer(c) => c in s.helloTimers
    case RequestTimer(id) => id in s.ledger.timers
    case Sending(_, _, _, id, op, _) => id != EMPTY_ID && op != EMPTY_ID && Fresh(s.ledger, id, op)
    case Reset => true
    case Stopping => true
  }

  ghost function Step(cfg: ServerConfig, s: Server, e: Event): Server
    requires Enabled(s, e)
  {
    match e
    case Connection(c, nonce) => HandleConnection(cfg, s, c, nonce)
    case Message(c, m, d) => HandleMessage(cfg, s, c, m, d)
    case LeavesOpen(c) => s.(sockets := s.sockets[c := s.sockets[c].(open := false)])
    case Closed(c) => HandleClose(s, c)
    case HelloTimer(c) => HelloTimerFires(s, c)
    case RequestTimer(id) => RequestTimerFires(s, id)
    case Sending(a, p, t, id, op, throws) => SendRequest(s, a, p, t, id, op, throws)
    case Reset => ResetPairing(s)
    case Stopping => Stop(s)
  }

  /** `trace` is a run from a fresh server: one state more than events. */
  ghost predicate IsRun(cfg: ServerConfig, stored: Option<PairedBridge>, events: seq<Event>, trace: seq<Server>) {
    && |trace| == |events| + 1
    && trace[0] == Start(stored)
    && forall i {:trigger events[i]} :: 0 <= i < |events| ==>
         Enabled(trace[i], events[i]) && trace[i + 1] == Step(cfg, trace[i], events[i])
  }
}
