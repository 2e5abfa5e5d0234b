/** What the bridge does with every message and request, and which requests ever reach a handler. */
module BridgeAnswers {
  import opened Prelude
  import opened JsMap
  import opened Protocol
  import opened ResponseCache
  import opened ClientModel
  import ClientFrames
  import Replay
  import Settling

  // ---- requests ----

  /** Authenticated, under the action's own scope, which was granted, for an action the bridge offers. */
  ghost predicate MayRun(cfg: ClientConfig, c: Client, r: BridgeRequest) {
    && c.authStatus == Authenticated && GetActionPolicy(r.action).Some?
    && r.scope == GetActionPolicy(r.action).value.scope && r.scope in c.grantedScopes
    && Settling.FirstIsAvailable(cfg.capabilities, r.action) && cfg.hasHandler
  }

  /** The first reason, in this order. */
  ghost predicate RefusedFor(cfg: ClientConfig, c: Client, r: BridgeRequest, code: ErrorCode) {
    var policy := GetActionPolicy(r.action);
    if c.authStatus != Authenticated then code == NotAuthenticated
    else if policy.None? || r.scope != policy.value.scope then code == PolicyMismatch
    else if r.scope !in c.grantedScopes then code == ScopeDenied
    else if !Settling.FirstIsAvailable(cfg.capabilities, r.action) then code == CapabilityUnavailable
    else code == NoHandler && !cfg.hasHandler
  }

  /** Nothing but the wire of the current socket, tasks, cache and history changed; this was added to the wire. */
  ghost predicate Sends(c: Client, n: Client, messages: seq<ToServer>) {
    && c.ws.Some? && c.ws.value.id in c.wires && ClientFrames.SameLink(c, n)
    && n.wires == c.wires[c.ws.value.id := c.wires[c.ws.value.id] + messages]
  }

  /** Answered from memory, given to the handler, or refused for the first reason, and the refusal remembered. */
  ghost predicate Decided(cfg: ClientConfig, c: Client, n: Client, r: BridgeRequest) {
    if Get(c.responseCache, r.operationId).Some? then
      && Sends(c, n, [Response(Get(c.responseCache, r.operationId).value)])
      && n.tasks == c.tasks && n.responseCache == c.responseCache && n.history.started == c.history.started
    else if MayRun(cfg, c, r) then
      && Sends(c, n, []) && n.tasks == c.tasks + [Task(r, Some(c.ws.value.id))]
      && n.responseCache == c.responseCache && n.history.started == c.history.started + [r]
    else
      exists code :: RefusedFor(cfg, c, r, code) && Refuses(c, n, r, code)
  }

  ghost predicate Refuses(c: Client, n: Client, r: BridgeRequest, code: ErrorCode) {
    var response := BridgeResponse(r.id, r.operationId, Error(code));
    && Sends(c, n, [Response(response)]) && n.tasks == c.tasks && n.history.started == c.history.started
    && n.history.refused == c.history.refused + [Replied(r, Error(code))]
    && n.history.cached == c.history.cached + [Entry(r.operationId, response)]
  }

  lemma RequestDecided(cfg: ClientConfig, c: Client, r: BridgeRequest)
    requires IsOpen(c) && c.ws.value.id in c.wires
    ensures Decided(cfg, c, HandleRequest(cfg, c, r), r)
  {
    Settling.AdvertisedIff(cfg.capabilities, r.action);
    var b := c.(history := c.history.(received := c.history.received + {r.operationId}));
    var held, refused := Get(b.responseCache, r.operationId), Gate(cfg, b, r);
    if held.Some? {
      assert HandleRequest(cfg, c, r) == Send(b, Response(held.value));
    } else if refused.Some? {
      assert RefusedFor(cfg, c, r, refused.value);
      RefusalSent(b, r, refused.value);
      assert Refuses(c, HandleRequest(cfg, c, r), r, refused.value);
    } else {
      var wire := c.wires[c.ws.value.id];
      assert wire + [] == wire;
    }
  }

  lemma RefusalSent(c: Client, r: BridgeRequest, code: ErrorCode)
    requires IsOpen(c) && c.ws.value.id in c.wires && Get(c.responseCache, r.operationId).None?
    ensures Refuses(c, Decide(c, r, None, Some(code)), r, code)
  {
  }

  /** In every run a handler starts only at the delivery of its request, which may run and was not answered before. */
  lemma StartsOnlyWhatMayRun(
    cfg: ClientConfig, secret: Option<Uuid>, first: Draw, events: seq<Event>, trace: seq<Client>, k: nat)
    requires IsRun(cfg, secret, first, events, trace) && k < |events|
    requires trace[k + 1].history.started != trace[k].history.started
    ensures events[k].Receives? && events[k].msg.Request?
    ensures var r := events[k].msg.request;
      && trace[k + 1].history.started == trace[k].history.started + [r]
      && MayRun(cfg, trace[k], r) && Get(trace[k].responseCache, r.operationId).None?
  {
    Replay.StepShape(cfg, trace[k], events[k]);
    if events[k].Receives? && events[k].msg.Request? {
      Settling.AdvertisedIff(cfg.capabilities, events[k].msg.request.action);
    }
  }

  /** A finished handler's reply is remembered, and sent only if the socket that asked is still the open one. */
  lemma ReplySent(c: Client, i: nat, reply: Reply)
    requires i < |c.tasks| && (c.ws.Some? ==> c.ws.value.id in c.wires)
    ensures var n, t := FinishTask(c, i, reply), c.tasks[i];
      var response := BridgeResponse(t.request.id, t.request.operationId, reply);
      && n.tasks == c.tasks[..i] + c.tasks[i + 1..]
      && n.history.handled == c.history.handled + [Replied(t.request, reply)]
      && n.history.cached == c.history.cached + [Entry(t.request.operationId, response)]
      && if c.ws.Some? && c.ws.value.ready == Open && t.socket == Some(c.ws.value.id)
         then Sends(c, n, [Response(response)])
         else n.wires == c.wires && ClientFrames.SameLink(c, n)
  {
  }

  // ---- the handshake ----

  /** Everything the handshake messages change. */
  ghost predicate Heard(c: Client, n: Client, m: ToBridge) {
    match m
    case PairingRequired(id) => n == c.(pairingId := Some(id), authStatus := PairingNeeded)
    case PairingComplete(secret, scopes) => n == c.(pairingSecret := Some(secret), grantedScopes := scopes)
    case AuthAccepted(scopes) =>
      n == c.(pairingId := None, grantedScopes := scopes, authStatus := Authenticated, status := IsConnected)
    case AuthRejected(reset) =>
      && n == c.(authStatus := AuthFailed, pairingSecret := n.pairingSecret)
      && n.pairingSecret == (if reset then None else c.pairingSecret)
    case PingToBridge => Sends(c, n, [PongToServer]) && n.tasks == c.tasks && n.responseCache == c.responseCache
    case PongToBridge => n == c
    case CompanionInfo => n == c
    case _ => true
  }

  lemma MessageHeard(cfg: ClientConfig, c: Client, m: ToBridge, nonce: Uuid)
    requires IsOpen(c) && c.ws.value.id in c.wires
    ensures Heard(c, HandleMessage(cfg, c, m, nonce), m)
  {
  }

  /** A challenge of version 2 is answered with a hello, signed if a secret is stored; any other is ignored. */
  lemma ChallengeAnswered(cfg: ClientConfig, c: Client, m: ToBridge, nonce: Uuid)
    requires IsOpen(c) && c.ws.value.id in c.wires && m.ServerChallenge?
    ensures var n := HandleMessage(cfg, c, m, nonce);
      if m.protocolVersion != 2 then n == c
      else
        var proof := if c.pairingSecret.None? then None else Some(Hmac(
          c.pairingSecret.value,
          AuthMessage(m.serverInstanceId, m.nonce, nonce, cfg.installationId, cfg.bridgeVersion, 2)));
        && n == c.(wires := n.wires, history := n.history)
        && n.wires == c.wires[c.ws.value.id := c.wires[c.ws.value.id] + [Hello(ClientHello(
             true, 2, cfg.bridgeVersion, cfg.installationId, nonce, cfg.capabilities, proof))]]
  {
  }

  /** A code of six digits is sent for the pairing request on record, on the open socket. */
  lemma CodeSent(cfg: ClientConfig, c: Client, code: nat)
    requires c.ws.Some? ==> c.ws.value.id in c.wires
    ensures var n := ConfirmPairing(cfg, c, code);
      if code < 1_000_000 && c.pairingId.Some? && c.ws.Some? && c.ws.value.ready == Open then
        && n == c.(authStatus := Authenticating, wires := n.wires, history := n.history)
        && n.wires == c.wires[c.ws.value.id := c.wires[c.ws.value.id] + [Confirm(
             PairingConfirm(c.pairingId.value, code, cfg.installationId, cfg.bridgeVersion))]]
      else n == c
  {
  }
}
