/**
 The gates can disagree: from an unpaired start, a bridge that sends its pairing code twice before the answer arrives
 ends up refusing a request that the server has granted.
 */
module SecondCode {
  import opened Prelude
  import opened Protocol
  import opened BridgeSystem
  import opened PairingAgreement
  import opened PairingBoundary
  import opened Reachability
  import A = AuthState
  import S = ServerModel
  import C = ClientModel

  /** The bridge is on its first connection and has sent so many codes on it. */
  ghost predicate Online(b: C.Client, wire: seq<ToServer>, codes: nat) {
    && b.ws == Some(C.Transport(CONN, C.Open)) && CONN in b.wires && b.wires[CONN] == wire
    && b.pairingSecret.None? && Submitted(b, CONN) == codes
  }

  ghost predicate Held(s: S.Server, out: seq<ToBridge>, codes: nat) {
    && s.client == Some(CONN) && CONN in s.sockets && s.sockets[CONN].open && s.sockets[CONN].out == out
    && s.sockets[CONN].codes == codes
  }

  /** The code shown: the first one drawn, valid for ten minutes from time zero. */
  ghost function Shown(cfg: Config): A.PairingChallenge {
    A.PairingChallenge(0, 0, cfg.client.installationId, A.PAIRING_TTL_MS)
  }

  ghost function Code(cfg: Config): ToServer {
    Confirm(PairingConfirm(0, 0, cfg.client.installationId, cfg.client.bridgeVersion))
  }

  ghost predicate Introduced(cfg: Config, s: S.Server) {
    && s.clientHello.Some? && s.clientHello.value.installationId == cfg.client.installationId
    && s.clientHello.value.bridgeVersion == cfg.client.bridgeVersion
    && s.auth == A.Auth(None, Some(Shown(cfg)))
    && CONN in s.sockets && s.sockets[CONN].via.Unauthenticated?
  }

  ghost function Heard(cfg: Config, a: System): System
    requires Deliverable(a)
  {
    System(PopFromServer(a.server, a.client.ws.value.id),
           C.Step(cfg.client, a.client, C.Receives(NextMessage(a), CLIENT_NONCE)))
  }

  ghost function Read(cfg: Config, a: System): System
    requires CONN in a.client.wires && a.client.wires[CONN] != [] && CONN in a.server.sockets
  {
    System(S.Step(cfg.server, a.server, S.Message(CONN, a.client.wires[CONN][0], Reachability.DRAW)),
           PopFromBridge(a.client, CONN))
  }

  ghost function SubmittedBy(cfg: Config, a: System): System {
    a.(client := C.Step(cfg.client, a.client, C.SubmitCode(0)))
  }

  lemma HeardReachable(cfg: Config, a: System)
    requires Reachable(cfg, a) && Deliverable(a)
    ensures Reachable(cfg, Heard(cfg, a))
  {
    Continues(cfg, a, Heard(cfg, a), BridgeReceives(CLIENT_NONCE));
  }

  lemma ReadReachable(cfg: Config, a: System)
    requires Reachable(cfg, a)
    requires CONN in a.client.wires && a.client.wires[CONN] != [] && CONN in a.server.sockets
    ensures Reachable(cfg, Read(cfg, a))
  {
    Continues(cfg, a, Read(cfg, a), ServerReceives(CONN, Reachability.DRAW));
  }

  lemma SubmittingReachable(cfg: Config, a: System)
    requires Reachable(cfg, a)
    ensures Reachable(cfg, SubmittedBy(cfg, a))
  {
    Continues(cfg, a, SubmittedBy(cfg, a), BridgeLocal(C.SubmitCode(0)));
  }

  /** Both ends have met: the server asks for a code. */
  lemma Meet(cfg: Config) returns (a: System)
    requires cfg.server.compatible(cfg.client.bridgeVersion)
    ensures Reachable(cfg, a) && Online(a.client, [], 0)
    ensures Held(a.server, [PairingRequired(0)], 0) && Introduced(cfg, a.server)
  {
    var a0 := System(S.Start(None), C.Connect(cfg.client, C.Create(None), C.Draw(CONN, 0, false)));
    Begins(cfg, a0);
    var a1 := a0.(server := S.Step(cfg.server, a0.server, S.Connection(CONN, NONCE)));
    Continues(cfg, a0, a1, ServerAccepts(CONN, NONCE));
    var a2 := a1.(client := C.Step(cfg.client, a1.client, C.Opens));
    Continues(cfg, a1, a2, BridgeLocal(C.Opens));
    a := SayHello(cfg, a2);
  }

  ghost function Greets(cfg: Config): ToServer {
    Hello(ClientHello(true, PROTOCOL_VERSION, cfg.client.bridgeVersion, cfg.client.installationId, CLIENT_NONCE,
                      cfg.client.capabilities, None))
  }

  lemma SayHello(cfg: Config, a: System) returns (b: System)
    requires cfg.server.compatible(cfg.client.bridgeVersion) && Reachable(cfg, a)
    requires Online(a.client, [], 0) && a.server.auth == A.Auth(None, None)
    requires Held(a.server, S.Greeting(cfg.server, a.server, NONCE), 0)
    requires a.server.sockets[CONN].via.Unauthenticated?
    ensures Reachable(cfg, b) && Online(b.client, [], 0)
    ensures Held(b.server, [PairingRequired(0)], 0) && Introduced(cfg, b.server)
  {
    var a1 := Heard(cfg, a);
    HeardReachable(cfg, a);
    var a2 := Heard(cfg, a1);
    HeardReachable(cfg, a1);
    b := AskForCode(cfg, a2);
  }

  lemma AskForCode(cfg: Config, a: System) returns (b: System)
    requires cfg.server.compatible(cfg.client.bridgeVersion) && Reachable(cfg, a)
    requires Online(a.client, [Greets(cfg)], 0) && a.server.auth == A.Auth(None, None) && Held(a.server, [], 0)
    requires a.server.sockets[CONN].via.Unauthenticated?
    ensures Reachable(cfg, b) && Online(b.client, [], 0)
    ensures Held(b.server, [PairingRequired(0)], 0) && Introduced(cfg, b.server)
  {
    b := Read(cfg, a);
    ReadReachable(cfg, a);
    ShowsCode(cfg, a.server);
  }

  /** An unpaired server that reads the bridge's hello shows a code. */
  lemma ShowsCode(cfg: Config, s: S.Server)
    requires cfg.server.compatible(cfg.client.bridgeVersion)
    requires s.auth == A.Auth(None, None) && Held(s, [], 0) && s.sockets[CONN].via.Unauthenticated?
    ensures var t := S.HandleClientHello(cfg.server, s, Greets(cfg).hello, Reachability.DRAW);
      Held(t, [PairingRequired(0)], 0) && Introduced(cfg, t)
  {
    assert A.EnsureChallenge(s.auth, cfg.client.installationId, Reachability.DRAW)
        == A.Auth(None, Some(Shown(cfg)));
  }

  ghost predicate Invited(b: C.Client) { b.pairingId == Some(0) }

  lemma SubmitOnce(cfg: Config, a: System, wire: seq<ToServer>, codes: nat) returns (b: System)
    requires Reachable(cfg, a) && Online(a.client, wire, codes) && Invited(a.client)
    ensures Reachable(cfg, b) && Online(b.client, wire + [Code(cfg)], codes + 1) && Invited(b.client)
    ensures b.server == a.server
  {
    b := SubmittedBy(cfg, a);
    SubmittingReachable(cfg, a);
  }

  /** The bridge is asked for a code and sends it twice. */
  lemma SendTwice(cfg: Config, a: System) returns (b: System)
    requires Reachable(cfg, a) && Online(a.client, [], 0)
    requires Held(a.server, [PairingRequired(0)], 0) && Introduced(cfg, a.server)
    ensures Reachable(cfg, b) && Online(b.client, [Code(cfg), Code(cfg)], 2)
    ensures Held(b.server, [], 0) && Introduced(cfg, b.server)
  {
    var a1 := Heard(cfg, a);
    HeardReachable(cfg, a);
    var a2 := SubmitOnce(cfg, a1, [], 0);
    b := SubmitOnce(cfg, a2, [] + [Code(cfg)], 1);
    assert [] + [Code(cfg)] + [Code(cfg)] == [Code(cfg), Code(cfg)];
  }

  ghost predicate FirstTaken(s: S.Server, out: seq<ToBridge>) {
    Held(s, out, 1) && s.sockets[CONN].via == S.ByPairing(CAPABILITY_SCOPES, 1)
  }

  /** The server accepts the first of the two, and the bridge hears it. */
  lemma AcceptFirst(cfg: Config, a: System) returns (b: System)
    requires Reachable(cfg, a) && Online(a.client, [Code(cfg), Code(cfg)], 2)
    requires Held(a.server, [], 0) && Introduced(cfg, a.server)
    ensures Reachable(cfg, b) && HeardOn(b, CONN, S.ByPairing(CAPABILITY_SCOPES, 1)) && Submitted(b.client, CONN) == 2
  {
    var a1 := Read(cfg, a);
    ReadReachable(cfg, a);
    assert Online(a1.client, [Code(cfg)], 2);
    b := HearAcceptance(cfg, a1);
  }

  lemma HearAcceptance(cfg: Config, a: System) returns (b: System)
    requires Reachable(cfg, a) && Online(a.client, [Code(cfg)], 2)
    requires FirstTaken(a.server, [PairingComplete(0, CAPABILITY_SCOPES), AuthAccepted(CAPABILITY_SCOPES)])
    ensures Reachable(cfg, b) && HeardOn(b, CONN, S.ByPairing(CAPABILITY_SCOPES, 1)) && Submitted(b.client, CONN) == 2
  {
    var a1 := Heard(cfg, a);
    HeardReachable(cfg, a);
    b := Heard(cfg, a1);
    HeardReachable(cfg, a1);
    assert b.server.sockets[CONN].out == [];
  }

  lemma ReachesOn(cfg: Config, a: System, b: System)
    requires Reachable(cfg, a) && Leads(cfg, a, b)
    ensures Reachable(cfg, b)
  {
    var s1, t1 :| IsRun(cfg, s1, t1) && t1[|t1| - 1] == a;
    var s2, t2 :| IsPath(cfg, s2, t2) && t2[0] == a && t2[|t2| - 1] == b;
    assert IsRun(cfg, s1 + s2, t1 + t2[1..]);
  }

  lemma ReachableIsSound(cfg: Config, a: System)
    requires Reachable(cfg, a)
    ensures Sound(cfg, a)
  {
    var steps, trace :| IsRun(cfg, steps, trace) && trace[|trace| - 1] == a;
    RunIsSound(cfg, steps, trace, |steps|);
  }

  /** What the bridge sends when it refuses. */
  lemma RefusalIsSent(cfg: Config, a: System, action: string, payload: Json)
    requires Refuses(cfg, a, CONN, action, payload) && CONN in a.client.wires
    ensures var r, b := NextMessage(a).request, Heard(cfg, a);
      && CONN in b.client.wires
      && b.client.wires[CONN]
           == a.client.wires[CONN] + [Response(BridgeResponse(r.id, r.operationId, Error(NotAuthenticated)))]
  {
  }

  /**
   Whatever action the bridge advertises: some run from an unpaired start delivers a request for it that the server
   has granted, and the bridge answers NOT_AUTHENTICATED.
   */
  lemma TwoCodesDisagree(cfg: Config, action: string, payload: Json) returns (a: System)
    requires cfg.server.compatible(cfg.client.bridgeVersion)
    requires Grants(cfg, S.ByPairing(CAPABILITY_SCOPES, 1), action)
    ensures Reachable(cfg, a) && Refuses(cfg, a, CONN, action, payload)
    ensures var r, b := NextMessage(a).request, Heard(cfg, a);
      && Reachable(cfg, b) && CONN in a.client.wires && CONN in b.client.wires
      && b.client.wires[CONN]
           == a.client.wires[CONN] + [Response(BridgeResponse(r.id, r.operationId, Error(NotAuthenticated)))]
  {
    var a0 := Meet(cfg);
    var a1 := SendTwice(cfg, a0);
    var a2 := AcceptFirst(cfg, a1);
    ReachableIsSound(cfg, a2);
    a := FurtherCodeRefuses(cfg, a2, CONN, S.ByPairing(CAPABILITY_SCOPES, 1), action, payload);
    ReachesOn(cfg, a2, a);
    ReachableIsSound(cfg, a);
    HeardReachable(cfg, a);
    RefusalIsSent(cfg, a, action, payload);
  }
}
