/**
 The protocol can do its job: whatever a paired bridge may be asked, some run authenticates it by reconnect
 proof, delivers the request and resolves it with the handler's value.
 */
module Reachability {
  import opened Prelude
  import opened Protocol
  import opened RequestLedger
  import opened BridgeSystem
  import A = AuthState
  import S = ServerModel
  import C = ClientModel

  const CONN: ConnId := 1
  const NONCE: Uuid := 2
  const CLIENT_NONCE: Uuid := 3
  const ID: Uuid := 4
  const OPERATION: Uuid := 5
  const DRAW := A.Draw(0, 0, 0, 0)

  /** Compatible, paired with each other, and with a handler. */
  ghost predicate Paired(cfg: Config, p: A.PairedBridge) {
    && cfg.server.compatible(cfg.client.bridgeVersion)
    && cfg.client.installationId == p.installationId && cfg.client.hasHandler
  }

  /** Granted by the pairing and advertised by the bridge. */
  ghost predicate Permitted(cfg: Config, p: A.PairedBridge, action: string) {
    && GetActionPolicy(action).Some? && GetActionPolicy(action).value.scope in p.scopes
    && Advertised(cfg.client.capabilities, action)
  }

  ghost function Asked(action: string, payload: Json): BridgeRequest
    requires GetActionPolicy(action).Some?
  {
    BridgeRequest(ID, OPERATION, action, GetActionPolicy(action).value.scope, payload)
  }

  ghost predicate Quietly(b: C.Client, p: A.PairedBridge) {
    && b.ws == Some(C.Transport(CONN, C.Open)) && b.pairingSecret == Some(p.secret)
    && b.responseCache == [] && b.tasks == [] && CONN in b.wires && b.wires[CONN] == []
  }

  ghost predicate Slot(s: S.Server, p: A.PairedBridge, out: seq<ToBridge>) {
    && s.client == Some(CONN) && CONN in s.sockets && s.sockets[CONN].open && s.sockets[CONN].out == out
    && s.auth == A.Auth(Some(p), None) && s.serverNonce == Some(NONCE)
  }

  // ---- the states of the run ----

  ghost predicate Opened(cfg: Config, p: A.PairedBridge, a: System) {
    && Quietly(a.client, p) && a.server.ledger == EMPTY_LEDGER
    && Slot(a.server, p, [CompanionInfo, ServerChallenge(PROTOCOL_VERSION, cfg.server.serverInstanceId, NONCE, false)])
  }

  ghost predicate Accepted(cfg: Config, p: A.PairedBridge, a: System) {
    && Quietly(a.client, p) && a.server.ledger == EMPTY_LEDGER && Slot(a.server, p, [AuthAccepted(p.scopes)])
    && a.server.clientAccepted && a.server.grantedScopes == p.scopes
    && a.server.bridgeCapabilities == cfg.client.capabilities
    && a.server.sockets[CONN].via == S.ByProof(p.scopes)
  }

  ghost predicate Booked(a: System, p: A.PairedBridge, r: BridgeRequest, policy: ActionPolicy) {
    && a.server.client == Some(CONN) && a.server.clientAccepted
    && a.server.ledger == Accept(EMPTY_LEDGER, r, policy)
    && CONN in a.server.sockets && a.server.sockets[CONN].open
  }

  ghost predicate Delivered(a: System, p: A.PairedBridge, r: BridgeRequest, policy: ActionPolicy) {
    && Booked(a, p, r, policy)
    && a.client.ws == Some(C.Transport(CONN, C.Open)) && CONN in a.client.wires && a.client.wires[CONN] == []
    && a.client.tasks == [C.Task(r, Some(CONN))]
  }

  ghost predicate Reachable(cfg: Config, a: System) {
    exists steps, trace :: IsRun(cfg, steps, trace) && trace[|trace| - 1] == a
  }

  lemma Begins(cfg: Config, a: System)
    requires Initial(cfg, a)
    ensures Reachable(cfg, a)
  {
    assert IsRun(cfg, [], [a]);
  }

  lemma Continues(cfg: Config, a: System, b: System, step: Step)
    requires Reachable(cfg, a) && Next(cfg, a, b, step)
    ensures Reachable(cfg, b)
  {
    var steps, trace :| IsRun(cfg, steps, trace) && trace[|trace| - 1] == a;
    assert IsRun(cfg, steps + [step], trace + [b]);
  }

  lemma Start(cfg: Config, p: A.PairedBridge) returns (a: System)
    ensures Reachable(cfg, a) && Opened(cfg, p, a)
  {
    var d := C.Draw(CONN, 0, false);
    var a0 := System(S.Start(Some(p)), C.Connect(cfg.client, C.Create(Some(p.secret)), d));
    Begins(cfg, a0);
    var a1 := a0.(server := S.Step(cfg.server, a0.server, S.Connection(CONN, NONCE)));
    Continues(cfg, a0, a1, ServerAccepts(CONN, NONCE));
    a := a1.(client := C.Step(cfg.client, a1.client, C.Opens));
    Continues(cfg, a1, a, BridgeLocal(C.Opens));
  }

  /** The greeting arrives and the hello with its proof leaves. */
  lemma Greet(cfg: Config, p: A.PairedBridge, a: System) returns (b: System, c: System)
    requires Opened(cfg, p, a)
    ensures Next(cfg, a, b, BridgeReceives(0)) && Next(cfg, b, c, BridgeReceives(CLIENT_NONCE))
    ensures HelloSent(cfg, p, c)
  {
    b := System(PopFromServer(a.server, CONN), C.Step(cfg.client, a.client, C.Receives(NextMessage(a), 0)));
    c := System(PopFromServer(b.server, CONN), C.Step(cfg.client, b.client, C.Receives(NextMessage(b), CLIENT_NONCE)));
  }

  ghost predicate HelloSent(cfg: Config, p: A.PairedBridge, a: System) {
    && a.server.ledger == EMPTY_LEDGER && Slot(a.server, p, [])
    && CONN in a.client.wires && |a.client.wires[CONN]| == 1 && a.client.wires[CONN][0].Hello?
    && Quietly(a.client.(wires := a.client.wires[CONN := []]), p)
    && var h := a.client.wires[CONN][0].hello;
       h == ClientHello(true, PROTOCOL_VERSION, cfg.client.bridgeVersion, cfg.client.installationId, CLIENT_NONCE,
                        cfg.client.capabilities, Some(Hmac(p.secret, S.SignedBy(cfg.server, NONCE, h))))
  }

  /** The server verifies the proof. */
  lemma Verify(cfg: Config, p: A.PairedBridge, a: System) returns (b: System)
    requires Paired(cfg, p) && HelloSent(cfg, p, a)
    ensures Next(cfg, a, b, ServerReceives(CONN, DRAW)) && Accepted(cfg, p, b)
  {
    b := System(S.Step(cfg.server, a.server, S.Message(CONN, a.client.wires[CONN][0], DRAW)),
                PopFromBridge(a.client, CONN));
    ProofAccepted(cfg, p, a.server, a.client.wires[CONN][0].hello);
  }

  lemma ProofAccepted(cfg: Config, p: A.PairedBridge, s: S.Server, h: ClientHello)
    requires Paired(cfg, p) && Slot(s, p, [])
    requires h == ClientHello(true, PROTOCOL_VERSION, cfg.client.bridgeVersion, cfg.client.installationId,
                              CLIENT_NONCE, cfg.client.capabilities,
                              Some(Hmac(p.secret, S.SignedBy(cfg.server, NONCE, h))))
    ensures var t := S.HandleClientHello(cfg.server, s, h, DRAW);
      && Slot(t, p, [AuthAccepted(p.scopes)]) && t.ledger == s.ledger
      && t.clientAccepted && t.grantedScopes == p.scopes && t.bridgeCapabilities == cfg.client.capabilities
      && t.sockets[CONN].via == S.ByProof(p.scopes)
  {
  }

  ghost predicate Ready(cfg: Config, p: A.PairedBridge, a: System) {
    && Quietly(a.client, p) && a.client.authStatus == C.Authenticated && a.client.grantedScopes == p.scopes
    && Slot(a.server, p, []) && a.server.ledger == EMPTY_LEDGER
    && a.server.clientAccepted && a.server.grantedScopes == p.scopes
    && a.server.bridgeCapabilities == cfg.client.capabilities
  }

  lemma HearAcceptance(cfg: Config, p: A.PairedBridge, a: System) returns (b: System)
    requires Accepted(cfg, p, a)
    ensures Next(cfg, a, b, BridgeReceives(0)) && Ready(cfg, p, b)
  {
    b := System(PopFromServer(a.server, CONN), C.Step(cfg.client, a.client, C.Receives(NextMessage(a), 0)));
  }

  ghost function Ask(action: string, payload: Json): Step {
    ServerLocal(S.Sending(action, payload, 1000, ID, OPERATION, false))
  }

  lemma Request(cfg: Config, p: A.PairedBridge, a: System, action: string, payload: Json) returns (b: System, c: System)
    requires Paired(cfg, p) && Permitted(cfg, p, action) && Ready(cfg, p, a)
    ensures Next(cfg, a, b, Ask(action, payload)) && Next(cfg, b, c, BridgeReceives(0))
    ensures Delivered(c, p, Asked(action, payload), GetActionPolicy(action).value)
  {
    b := Send(cfg, p, a, action, payload);
    c := Deliver(cfg, p, b, Asked(action, payload));
  }

  lemma Deliver(cfg: Config, p: A.PairedBridge, a: System, r: BridgeRequest) returns (b: System)
    requires Paired(cfg, p) && Permitted(cfg, p, r.action) && r.scope == GetActionPolicy(r.action).value.scope
    requires Quietly(a.client, p) && a.client.authStatus == C.Authenticated && a.client.grantedScopes == p.scopes
    requires Booked(a, p, r, GetActionPolicy(r.action).value) && a.server.sockets[CONN].out == [ToBridge.Request(r)]
    ensures Next(cfg, a, b, BridgeReceives(0)) && Delivered(b, p, r, GetActionPolicy(r.action).value)
  {
    b := System(PopFromServer(a.server, CONN), C.Step(cfg.client, a.client, C.Receives(NextMessage(a), 0)));
    StartsTask(cfg, p, a.client, r);
  }

  lemma Send(cfg: Config, p: A.PairedBridge, a: System, action: string, payload: Json) returns (b: System)
    requires Paired(cfg, p) && Permitted(cfg, p, action) && Ready(cfg, p, a)
    ensures Next(cfg, a, b, Ask(action, payload)) && b.client == a.client
    ensures Booked(b, p, Asked(action, payload), GetActionPolicy(action).value)
    ensures b.server.sockets[CONN].out == [ToBridge.Request(Asked(action, payload))]
  {
    b := a.(server := S.Step(cfg.server, a.server, Ask(action, payload).serverEvent));
  }

  lemma StartsTask(cfg: Config, p: A.PairedBridge, b: C.Client, r: BridgeRequest)
    requires Paired(cfg, p) && Permitted(cfg, p, r.action) && r.scope == GetActionPolicy(r.action).value.scope
    requires Quietly(b, p) && b.authStatus == C.Authenticated && b.grantedScopes == p.scopes
    ensures var n := C.HandleRequest(cfg.client, b, r);
      n.ws == b.ws && n.wires == b.wires && n.tasks == [C.Task(r, Some(CONN))]
  {
  }

  lemma Answer(cfg: Config, p: A.PairedBridge, a: System, r: BridgeRequest, policy: ActionPolicy, value: Json)
    returns (b: System, c: System)
    requires Delivered(a, p, r, policy) && r.id == ID && r.operationId == OPERATION
    ensures Next(cfg, a, b, BridgeLocal(C.HandlerDone(0, Value(value)))) && Next(cfg, b, c, ServerReceives(CONN, DRAW))
    ensures c.server.ledger.issued == [r] && c.server.ledger.settled == [Settlement(ID, OPERATION, Resolved(value))]
  {
    b := HandlerAnswers(cfg, p, a, r, policy, value);
    c := System(S.Step(cfg.server, b.server, S.Message(CONN, b.client.wires[CONN][0], DRAW)),
                PopFromBridge(b.client, CONN));
    Settles(b.server, p, r, policy, value);
  }

  lemma HandlerAnswers(
    cfg: Config, p: A.PairedBridge, a: System, r: BridgeRequest, policy: ActionPolicy, value: Json)
    returns (b: System)
    requires Delivered(a, p, r, policy) && r.id == ID && r.operationId == OPERATION
    ensures Next(cfg, a, b, BridgeLocal(C.HandlerDone(0, Value(value)))) && b.server == a.server
    ensures CONN in b.client.wires
    ensures b.client.wires[CONN] == [Response(BridgeResponse(ID, OPERATION, Value(value)))]
  {
    b := a.(client := C.Step(cfg.client, a.client, C.HandlerDone(0, Value(value))));
  }

  lemma Settles(s: S.Server, p: A.PairedBridge, r: BridgeRequest, policy: ActionPolicy, value: Json)
    requires s.clientAccepted && s.ledger == Accept(EMPTY_LEDGER, r, policy) && r.id == ID && r.operationId == OPERATION
    ensures var l := S.HandleResponse(s, BridgeResponse(ID, OPERATION, Value(value))).ledger;
      l.issued == [r] && l.settled == [Settlement(ID, OPERATION, Resolved(value))]
  {
  }

  /** A paired bridge can authenticate by reconnect proof. */
  lemma Authenticates(cfg: Config, p: A.PairedBridge) returns (a: System)
    requires Paired(cfg, p)
    ensures Reachable(cfg, a) && Ready(cfg, p, a)
  {
    var a0 := Start(cfg, p);
    var a1, a2 := Greet(cfg, p, a0);
    Continues(cfg, a0, a1, BridgeReceives(0));
    Continues(cfg, a1, a2, BridgeReceives(CLIENT_NONCE));
    var a3 := Verify(cfg, p, a2);
    Continues(cfg, a2, a3, ServerReceives(CONN, DRAW));
    a := HearAcceptance(cfg, p, a3);
    Continues(cfg, a3, a, BridgeReceives(0));
  }

  lemma Delivers(cfg: Config, p: A.PairedBridge, action: string, payload: Json) returns (a: System)
    requires Paired(cfg, p) && Permitted(cfg, p, action)
    ensures Reachable(cfg, a) && Delivered(a, p, Asked(action, payload), GetActionPolicy(action).value)
  {
    var a0 := Authenticates(cfg, p);
    var a1, a2 := Request(cfg, p, a0, action, payload);
    Continues(cfg, a0, a1, Ask(action, payload));
    Continues(cfg, a1, a2, BridgeReceives(0));
    a := a2;
  }

  /** Every permitted request to a paired bridge can be resolved, with any value its handler returns. */
  lemma PermittedRequestCanResolve(cfg: Config, p: A.PairedBridge, action: string, payload: Json, value: Json)
    returns (a: System)
    requires Paired(cfg, p) && Permitted(cfg, p, action)
    ensures Reachable(cfg, a)
    ensures a.server.ledger.issued == [Asked(action, payload)]
    ensures a.server.ledger.settled == [Settlement(ID, OPERATION, Resolved(value))]
  {
    var r, policy := Asked(action, payload), GetActionPolicy(action).value;
    var a0 := Delivers(cfg, p, action, payload);
    a := Resolves(cfg, p, a0, r, policy, value);
  }

  lemma Resolves(cfg: Config, p: A.PairedBridge, a: System, r: BridgeRequest, policy: ActionPolicy, value: Json)
    returns (c: System)
    requires Reachable(cfg, a) && Delivered(a, p, r, policy) && r.id == ID && r.operationId == OPERATION
    ensures Reachable(cfg, c)
    ensures c.server.ledger.issued == [r] && c.server.ledger.settled == [Settlement(ID, OPERATION, Resolved(value))]
  {
    var b;
    b, c := Answer(cfg, p, a, r, policy, value);
    Continues(cfg, a, b, BridgeLocal(C.HandlerDone(0, Value(value))));
    Continues(cfg, b, c, ServerReceives(CONN, DRAW));
  }
}
