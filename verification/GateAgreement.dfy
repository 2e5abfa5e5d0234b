/**
 On a connection authenticated by reconnect proof both ends gate requests alike: what the server lets
 through, the bridge does not refuse.
 */
module GateAgreement {
  import opened Prelude
  import opened JsMap
  import opened Protocol
  import opened BridgeSystem
  import A = AuthState
  import S = ServerModel
  import C = ClientModel
  import SF = ServerFrames
  import CF = ClientFrames
  import ServerSafety
  import ReconnectSafety
  import SystemSafety
  import OnceOnly

  /** What the server checked before sending: policy, scope and capability. */
  ghost predicate Passes(cfg: C.ClientConfig, scopes: seq<Scope>, r: BridgeRequest) {
    && GetActionPolicy(r.action).Some? && r.scope == GetActionPolicy(r.action).value.scope
    && r.scope in scopes && Advertised(cfg.capabilities, r.action)
  }

  /** The challenge is on its way, at the end of the greeting. */
  ghost predicate Greeting(out: seq<ToBridge>) {
    1 <= |out| <= 2 && out[|out| - 1].ServerChallenge? && (|out| == 2 ==> out[0].CompanionInfo?)
  }

  ghost predicate AcceptancePending(out: seq<ToBridge>) { out != [] && out[0].AuthAccepted? }

  /** Before the server has answered a hello: nothing granted, no code asked for, no request in progress. */
  ghost predicate Early(a: System, c: ConnId) {
    && (a.server.client == Some(c) ==> a.server.clientHello.None? && !a.server.clientAccepted)
    && (a.client.ws.Some? && a.client.ws.value.id == c && C.HasLiveSocket(a.client) ==> a.client.pairingId.None?)
    && NoTaskOn(a.client, c)
  }

  ghost predicate NoTaskOn(b: C.Client, c: ConnId) {
    forall i :: 0 <= i < |b.tasks| ==> b.tasks[i].socket != Some(c)
  }

  ghost predicate Greeted(k: S.Socket, w: seq<ToServer>) {
    Greeting(k.out) && w == [] && k.via.Unauthenticated?
  }

  ghost predicate HelloSent(cfg: C.ClientConfig, k: S.Socket, w: seq<ToServer>) {
    && k.out == [] && k.via.Unauthenticated?
    && |w| == 1 && w[0].Hello? && w[0].hello.capabilities == cfg.capabilities
  }

  /** Past the hello: no second challenge and no second hello will ever travel. */
  ghost predicate Late(k: S.Socket, w: seq<ToServer>) {
    && (forall i :: 0 <= i < |k.out| ==> !k.out[i].ServerChallenge?)
    && (forall i :: 0 <= i < |w| ==> !w[i].Hello?)
  }

  /** In flight: to the bridge the acceptance, then passing requests; to the server responses only. */
  ghost predicate ProofTraffic(cfg: C.ClientConfig, scopes: seq<Scope>, out: seq<ToBridge>, w: seq<ToServer>) {
    && (forall i :: 0 <= i < |w| ==> w[i].Response?)
    && (forall i :: 0 <= i < |out| ==>
          (i == 0 && out[i] == AuthAccepted(scopes)) || (out[i].Request? && Passes(cfg, scopes, out[i].request)))
  }

  /** The server's current connection was granted exactly these scopes and advertised the bridge's capabilities. */
  ghost predicate ServerAgrees(cfg: C.ClientConfig, scopes: seq<Scope>, s: S.Server, c: ConnId) {
    s.client == Some(c) ==>
      s.clientAccepted && s.grantedScopes == scopes && s.bridgeCapabilities == cfg.capabilities
  }

  /** Once the acceptance has arrived the bridge holds the same scopes; no pairing code can be submitted. */
  ghost predicate BridgeAgrees(scopes: seq<Scope>, b: C.Client, c: ConnId, pending: bool) {
    b.ws.Some? && b.ws.value.id == c && (b.ws.value.ready == C.Connecting || b.ws.value.ready == C.Open) ==>
      && b.ws.value.ready == C.Open && b.pairingId.None?
      && (pending || (b.authStatus == C.Authenticated && b.grantedScopes == scopes))
  }

  ghost predicate ConnInv(cfg: C.ClientConfig, a: System, c: ConnId)
    requires c in a.client.wires
  {
    var w := a.client.wires[c];
    if c !in a.server.sockets then w == [] && Early(a, c)
    else
      var k := a.server.sockets[c];
      || (Greeted(k, w) && Early(a, c))
      || (HelloSent(cfg, k, w) && Early(a, c)
          && (a.client.ws.Some? && a.client.ws.value.id == c ==> a.client.ws.value.ready != C.Connecting))
      || (Late(k, w) && (k.via.ByProof? ==>
            && ProofTraffic(cfg, k.via.scopes, k.out, w)
            && ServerAgrees(cfg, k.via.scopes, a.server, c)
            && BridgeAgrees(k.via.scopes, a.client, c, AcceptancePending(k.out))))
  }

  ghost predicate Known(a: System) {
    && (forall i :: 0 <= i < |a.client.tasks| ==>
          a.client.tasks[i].socket.Some? ==> a.client.tasks[i].socket.value in a.client.wires)
    && (a.client.ws.Some? ==> a.client.ws.value.id in a.client.wires)
  }

  ghost predicate Inv(cfg: Config, a: System) {
    Known(a) && forall c :: c in a.client.wires ==> ConnInv(cfg.client, a, c)
  }

  // ---- the server's steps ----

  lemma ServerAcceptsKeepsConn(cfg: Config, a: System, b: System, conn: ConnId, nonce: Uuid, c: ConnId)
    requires Next(cfg, a, b, ServerAccepts(conn, nonce)) && Known(a)
    requires c in a.client.wires && ConnInv(cfg.client, a, c)
    ensures ConnInv(cfg.client, b, c)
  {
  }

  lemma HelloArrives(cfg: Config, a: System, b: System, c: ConnId, d: A.Draw)
    requires Next(cfg, a, b, ServerReceives(c, d)) && ServerSafety.Handshake(a.server)
    requires HelloSent(cfg.client, a.server.sockets[c], a.client.wires[c]) && Early(a, c)
    requires a.client.ws.Some? && a.client.ws.value.id == c ==> a.client.ws.value.ready != C.Connecting
    ensures ConnInv(cfg.client, b, c)
  {
    if a.server.client == Some(c) {
      HelloOutcome(cfg.server, a.server, c, a.client.wires[c][0].hello, d);
    }
  }

  /** The server's first answer: if it accepts by proof, the acceptance is all it sends. */
  lemma HelloOutcome(cfg: S.ServerConfig, s: S.Server, c: ConnId, h: ClientHello, d: A.Draw)
    requires s.client == Some(c) && c in s.sockets && s.sockets[c].out == [] && s.sockets[c].via.Unauthenticated?
    ensures var t := S.HandleClientHello(cfg, s, h, d);
            && t.client == s.client && t.sockets.Keys == s.sockets.Keys && Late(t.sockets[c], [])
            && (t.sockets[c].via.ByProof? ==>
                  && t.sockets[c].out == [AuthAccepted(t.sockets[c].via.scopes)]
                  && t.clientAccepted && t.grantedScopes == t.sockets[c].via.scopes
                  && t.bridgeCapabilities == h.capabilities)
  {
    if h.protocolVersion != PROTOCOL_VERSION || !h.wellTyped || !cfg.compatible(h.bridgeVersion) {
      RejectionKeepsLate(s, c, false);
    } else {
      AnswerOutcome(cfg, S.RecordHello(s, h), c, h, d);
    }
  }

  lemma AnswerOutcome(cfg: S.ServerConfig, s: S.Server, c: ConnId, h: ClientHello, d: A.Draw)
    requires s.client == Some(c) && c in s.sockets && s.sockets[c].out == [] && s.sockets[c].via.Unauthenticated?
    ensures var t := S.AnswerHello(cfg, s, h, d);
            && t.client == s.client && t.sockets.Keys == s.sockets.Keys && Late(t.sockets[c], [])
            && (t.sockets[c].via.ByProof? ==>
                  && t.sockets[c].out == [AuthAccepted(t.sockets[c].via.scopes)]
                  && t.clientAccepted && t.grantedScopes == t.sockets[c].via.scopes
                  && t.bridgeCapabilities == s.bridgeCapabilities)
  {
    if s.auth.paired.None? {
    } else if h.proof.None? || s.serverNonce.None? {
      RejectionKeepsLate(s, c, false);
    } else if !A.VerifyProof(s.auth, S.SignedBy(cfg, s.serverNonce.value, h), h.proof.value) {
      RejectionKeepsLate(s, c, true);
    }
  }

  ghost predicate StaysLate(s: S.Server, t: S.Server, c: ConnId) {
    && t.client == s.client && t.sockets.Keys == s.sockets.Keys
    && c in t.sockets && c in s.sockets && Late(t.sockets[c], []) && t.sockets[c].via == s.sockets[c].via
  }

  lemma RejectionKeepsLate(s: S.Server, c: ConnId, resetPairing: bool)
    requires s.client == Some(c) && c in s.sockets && Late(s.sockets[c], [])
    ensures StaysLate(s, S.RejectBridge(s), c) && StaysLate(s, S.RejectAuthentication(s, resetPairing), c)
  {
  }

  lemma LateMessageArrives(cfg: Config, a: System, b: System, c: ConnId, d: A.Draw)
    requires Next(cfg, a, b, ServerReceives(c, d)) && ConnInv(cfg.client, a, c)
    requires Late(a.server.sockets[c], a.client.wires[c])
    ensures ConnInv(cfg.client, b, c)
  {
    var m := a.client.wires[c][0];
    if a.server.client == Some(c) && !m.Response? {
      assert m in a.client.wires[c];
      LateMessageKeepsLate(a.server, c, m, d, cfg.server);
    }
  }

  /** Nothing but a hello makes the server answer with a challenge or accept by proof. */
  lemma LateMessageKeepsLate(s: S.Server, c: ConnId, m: ToServer, d: A.Draw, cfg: S.ServerConfig)
    requires s.client == Some(c) && c in s.sockets && !m.Hello? && !m.Response?
    requires Late(s.sockets[c], [])
    ensures var t := S.HandleMessage(cfg, s, c, m, d);
            && c in t.sockets && Late(t.sockets[c], [])
            && (t.sockets[c].via.ByProof? ==> s.sockets[c].via.ByProof?)
  {
    if m.Confirm? {
      ConfirmKeepsLate(S.CountCode(s), c, m.confirm, d);
    }
  }

  lemma ConfirmKeepsLate(s: S.Server, c: ConnId, m: PairingConfirm, d: A.Draw)
    requires s.client == Some(c) && c in s.sockets && Late(s.sockets[c], [])
    ensures var t := S.HandlePairingConfirm(s, m, d);
            && c in t.sockets && Late(t.sockets[c], [])
            && (t.sockets[c].via.ByProof? ==> s.sockets[c].via.ByProof?)
  {
    RejectionKeepsLate(s, c, false);
    var t := s.(auth := A.CompletePairing(s.auth, m, d));
    if A.Confirms(s.auth, m, d.now) {
      var p := t.auth.paired.value;
      AcceptanceKeepsLate(S.Send(t, PairingComplete(p.secret, p.scopes)), c, p.scopes, S.CodesRead(s));
    }
  }

  lemma AcceptanceKeepsLate(s: S.Server, c: ConnId, scopes: seq<Scope>, codes: nat)
    requires s.client == Some(c) && c in s.sockets && Late(s.sockets[c], [])
    ensures var t := S.AcceptBridge(s, scopes, S.ByPairing(scopes, codes));
            && c in t.sockets && Late(t.sockets[c], [])
            && (t.sockets[c].via.ByProof? ==> s.sockets[c].via.ByProof?)
  {
  }

  lemma ServerReceivesElsewhere(cfg: Config, a: System, b: System, conn: ConnId, d: A.Draw, c: ConnId)
    requires Next(cfg, a, b, ServerReceives(conn, d)) && c != conn
    requires c in a.client.wires && ConnInv(cfg.client, a, c)
    ensures ConnInv(cfg.client, b, c)
  {
    if a.server.client == Some(conn) {
      MessageTouchesOnlyClient(cfg.server, a.server, conn, a.client.wires[conn][0], d);
    }
  }

  lemma MessageTouchesOnlyClient(cfg: S.ServerConfig, s: S.Server, c: ConnId, m: ToServer, d: A.Draw)
    ensures SF.OnlyClient(s, S.HandleMessage(cfg, s, c, m, d))
  {
    if m.Response? {
      SF.ResponseStep(s, m.response);
    } else {
      SF.MessageIsQuiet(cfg, s, c, m, d);
    }
  }

  lemma ServerLocalKeepsConn(cfg: Config, a: System, b: System, e: S.Event, c: ConnId)
    requires Next(cfg, a, b, ServerLocal(e)) && ServerSafety.Handshake(a.server)
    requires c in a.client.wires && ConnInv(cfg.client, a, c)
    ensures ConnInv(cfg.client, b, c)
  {
    if e.Sending? {
      SendingKeepsConn(cfg, a, b, e, c);
    } else {
      LocalEffect(cfg.server, a.server, e);
    }
  }

  /** Nothing is sent; the current connection keeps its standing or is dropped. */
  ghost predicate SendsNothing(s: S.Server, t: S.Server) {
    && t.sockets.Keys == s.sockets.Keys
    && (forall c :: c in s.sockets ==> t.sockets[c].out == s.sockets[c].out && t.sockets[c].via == s.sockets[c].via)
    && (t.client.Some? ==>
          && t.client == s.client && t.clientAccepted == s.clientAccepted && t.clientHello == s.clientHello
          && t.grantedScopes == s.grantedScopes && t.bridgeCapabilities == s.bridgeCapabilities)
  }

  /** Timers, closes and resets send nothing. */
  lemma LocalEffect(cfg: S.ServerConfig, s: S.Server, e: S.Event)
    requires S.Enabled(s, e) && !e.Connection? && !e.Message? && !e.Sending?
    ensures SendsNothing(s, S.Step(cfg, s, e))
  {
    if e.HelloTimer? {
      ClosingEffect(s.(helloTimers := s.helloTimers - {e.conn}));
    } else if e.Reset? || e.Stopping? {
      GivingUpEffect(s, e);
    }
  }

  lemma ClosingEffect(s: S.Server)
    ensures SendsNothing(s, S.CloseClient(s)) && SendsNothing(s, S.RejectBridge(s))
  {
  }

  lemma GivingUpEffect(s: S.Server, e: S.Event)
    requires e.Reset? || e.Stopping?
    ensures SendsNothing(s, if e.Reset? then S.ResetPairing(s) else S.Stop(s))
  {
  }

  lemma SendingKeepsConn(cfg: Config, a: System, b: System, e: S.Event, c: ConnId)
    requires e.Sending? && Next(cfg, a, b, ServerLocal(e)) && ServerSafety.Handshake(a.server)
    requires c in a.client.wires && ConnInv(cfg.client, a, c)
    ensures ConnInv(cfg.client, b, c)
  {
    SendingEffect(a.server, e);
    if a.server.client == Some(c) && b.server.sockets != a.server.sockets { SentKeepsConn(cfg.client, a, b, e, c); }
  }

  /** A request that is sent has passed every check and goes to the current connection. */
  ghost predicate Sent(s: S.Server, t: S.Server, e: S.Event)
    requires e.Sending?
  {
    && S.CheckRequest(s, e.action, e.timeoutMs).None? && S.ClientOpen(s)
    && var k := s.sockets[s.client.value];
       var r := BridgeRequest(e.id, e.operationId, e.action, GetActionPolicy(e.action).value.scope, e.payload);
       t.sockets == s.sockets[s.client.value := k.(out := k.out + [Request(r)])]
  }

  lemma SendingEffect(s: S.Server, e: S.Event)
    requires e.Sending?
    ensures var t := S.SendRequest(s, e.action, e.payload, e.timeoutMs, e.id, e.operationId, e.throws);
      && t == s.(sockets := t.sockets, ledger := t.ledger) && (t.sockets == s.sockets || Sent(s, t, e))
  {
  }

  lemma SentKeepsConn(cfg: C.ClientConfig, a: System, b: System, e: S.Event, c: ConnId)
    requires e.Sending? && Sent(a.server, b.server, e) && b.client == a.client && a.server.client == Some(c)
    requires b.server == a.server.(sockets := b.server.sockets, ledger := b.server.ledger)
    requires ServerSafety.Handshake(a.server) && c in a.client.wires && ConnInv(cfg, a, c)
    ensures ConnInv(cfg, b, c)
  {
  }

  // ---- the bridge's steps ----

  lemma BridgeReceivesKeepsConn(cfg: Config, a: System, b: System, nonce: Uuid, c: ConnId)
    requires Next(cfg, a, b, BridgeReceives(nonce)) && Known(a)
    requires c in a.client.wires && ConnInv(cfg.client, a, c)
    ensures c in b.client.wires && ConnInv(cfg.client, b, c)
  {
    var m := NextMessage(a);
    if m.Request? {
      RequestArrives(cfg, a, b, nonce, c);
    } else if c != a.client.ws.value.id {
      MessageElsewhere(cfg.client, a.client, m, nonce, c);
    } else {
      MessageArrivesHere(cfg.client, a, b, nonce, c);
    }
  }

  lemma MessageArrivesHere(cfg: C.ClientConfig, a: System, b: System, nonce: Uuid, c: ConnId)
    requires Deliverable(a) && !NextMessage(a).Request? && a.client.ws.value.id == c && c in a.client.wires
    requires ConnInv(cfg, a, c) && b.server == PopFromServer(a.server, c)
    requires b.client == C.HandleMessage(cfg, a.client, NextMessage(a), nonce)
    ensures c in b.client.wires && ConnInv(cfg, b, c)
  {
    if NextMessage(a).ServerChallenge? { ChallengeArrivesHere(cfg, a, b, nonce, c); }
  }

  lemma ChallengeArrivesHere(cfg: C.ClientConfig, a: System, b: System, nonce: Uuid, c: ConnId)
    requires Deliverable(a) && NextMessage(a).ServerChallenge? && a.client.ws.value.id == c && c in a.client.wires
    requires ConnInv(cfg, a, c) && b.server == PopFromServer(a.server, c)
    requires b.client == C.HandleServerChallenge(cfg, a.client, NextMessage(a), nonce)
    ensures c in b.client.wires && ConnInv(cfg, b, c)
  {
  }

  lemma MessageElsewhere(cfg: C.ClientConfig, b: C.Client, m: ToBridge, nonce: Uuid, c: ConnId)
    requires C.IsOpen(b) && !m.Request? && c in b.wires && b.ws.value.id != c
    ensures var n := C.HandleMessage(cfg, b, m, nonce);
            c in n.wires && n.wires[c] == b.wires[c] && n.tasks == b.tasks && n.ws == b.ws
  {
  }

  lemma RequestArrives(cfg: Config, a: System, b: System, nonce: Uuid, c: ConnId)
    requires Next(cfg, a, b, BridgeReceives(nonce)) && Known(a) && NextMessage(a).Request?
    requires c in a.client.wires && ConnInv(cfg.client, a, c)
    ensures c in b.client.wires && ConnInv(cfg.client, b, c)
  {
    RequestTaken(cfg, a, b, nonce);
    if c == a.client.ws.value.id {
      RequestArrivesHere(cfg.client, a, b, c);
    } else {
      RequestArrivesElsewhere(cfg.client, a, b, c);
    }
  }

  /** What taking a request from the queue does to both ends. */
  lemma RequestTaken(cfg: Config, a: System, b: System, nonce: Uuid)
    requires Next(cfg, a, b, BridgeReceives(nonce)) && Known(a) && NextMessage(a).Request?
    ensures b.server == PopFromServer(a.server, a.client.ws.value.id) && CF.SameLink(a.client, b.client)
    ensures CF.AddsResponse(a.client, b.client, a.client.ws.value.id)
    ensures
      || b.client.tasks == a.client.tasks
      || exists r :: b.client.tasks == a.client.tasks + [C.Task(r, Some(a.client.ws.value.id))]
  {
    var r := NextMessage(a).request;
    assert b.client == C.HandleRequest(cfg.client, a.client, r);
    CF.RequestEffect(cfg.client, a.client, r);
  }

  lemma RequestArrivesElsewhere(cfg: C.ClientConfig, a: System, b: System, c: ConnId)
    requires Deliverable(a) && c in a.client.wires && ConnInv(cfg, a, c) && a.client.ws.value.id != c
    requires b.server == PopFromServer(a.server, a.client.ws.value.id) && CF.SameLink(a.client, b.client)
    requires CF.AddsResponse(a.client, b.client, a.client.ws.value.id)
    requires
      || b.client.tasks == a.client.tasks
      || exists r :: b.client.tasks == a.client.tasks + [C.Task(r, Some(a.client.ws.value.id))]
    ensures c in b.client.wires && ConnInv(cfg, b, c)
  {
    assert NoTaskOn(a.client, c) ==> NoTaskOn(b.client, c);
  }

  /** A request is at the head only of a connection past its hello, and it takes a response at most. */
  lemma RequestArrivesHere(cfg: C.ClientConfig, a: System, b: System, c: ConnId)
    requires Deliverable(a) && NextMessage(a).Request? && a.client.ws.value.id == c && c in a.client.wires
    requires ConnInv(cfg, a, c) && b.server == PopFromServer(a.server, c)
    requires CF.SameLink(a.client, b.client) && CF.AddsResponse(a.client, b.client, c)
    ensures ConnInv(cfg, b, c)
  {
  }

  /** The bridge's wires and tasks stay; its socket, if still live, is the same one and keeps its standing. */
  lemma IdleClientKeepsConn(cfg: C.ClientConfig, a: System, n: C.Client, c: ConnId)
    requires c in a.client.wires && ConnInv(cfg, a, c)
    requires n.wires == a.client.wires && n.tasks == a.client.tasks
    requires !C.HasLiveSocket(n) || (a.client.ws.Some? && n.ws.Some? && n.ws.value.id == a.client.ws.value.id
               && C.HasLiveSocket(a.client) && n.pairingId == a.client.pairingId
               && (n.ws.value.ready == a.client.ws.value.ready || n.ws.value.ready == C.Closing
                   || (a.client.ws.value.ready == C.Connecting && n.ws.value.ready == C.Open))
               && n.authStatus == a.client.authStatus && n.grantedScopes == a.client.grantedScopes)
    ensures ConnInv(cfg, a.(client := n), c)
  {
  }

  lemma ConnectKeepsConn(cfg: Config, a: System, d: C.Draw, c: ConnId)
    requires Known(a) && C.FreshDraw(a.client, d) && !C.HasLiveSocket(a.client) && a.client.pairingId.None?
    requires d.conn !in a.server.sockets
    requires a.server.client.Some? ==> a.server.client.value in a.server.sockets
    requires c in a.client.wires ==> ConnInv(cfg.client, a, c)
    requires c in C.Connect(cfg.client, a.client, d).wires
    ensures ConnInv(cfg.client, a.(client := C.Connect(cfg.client, a.client, d)), c)
  {
  }

  lemma HandlerDoneKeepsConn(cfg: Config, a: System, i: nat, reply: Reply, c: ConnId)
    requires i < |a.client.tasks| && c in a.client.wires && ConnInv(cfg.client, a, c)
    ensures var n := C.FinishTask(a.client, i, reply); c in n.wires && ConnInv(cfg.client, a.(client := n), c)
  {
    CF.FinishEffect(a.client, i, reply);
    FinishedKeepsConn(cfg.client, a, C.FinishTask(a.client, i, reply), i, c);
  }

  lemma FinishedKeepsConn(cfg: C.ClientConfig, a: System, n: C.Client, i: nat, c: ConnId)
    requires i < |a.client.tasks| && c in a.client.wires && ConnInv(cfg, a, c) && CF.SameLink(a.client, n)
    requires n.tasks == a.client.tasks[..i] + a.client.tasks[i + 1..]
    requires
      || n.wires == a.client.wires
      || (C.IsOpen(a.client) && a.client.tasks[i].socket == Some(a.client.ws.value.id)
          && CF.AddsResponse(a.client, n, a.client.ws.value.id))
    ensures c in n.wires && ConnInv(cfg, a.(client := n), c)
  {
    assert a.client.tasks[i].socket == Some(c) ==> !NoTaskOn(a.client, c);
    assert forall j :: 0 <= j < |n.tasks| ==> n.tasks[j] == a.client.tasks[if j < i then j else j + 1];
  }

  lemma SubmitCodeKeepsConn(cfg: Config, a: System, code: nat, c: ConnId)
    requires c in a.client.wires && ConnInv(cfg.client, a, c)
    ensures var n := C.ConfirmPairing(cfg.client, a.client, code);
            c in n.wires && ConnInv(cfg.client, a.(client := n), c)
  {
  }

  /** Connecting again: the old socket, if any, is given up first. */
  lemma ReopeningKeepsConn(cfg: Config, a: System, idle: C.Client, d: C.Draw, c: ConnId)
    requires Known(a) && idle.wires == a.client.wires && idle.tasks == a.client.tasks
    requires !C.HasLiveSocket(idle) && idle.pairingId.None? && C.FreshDraw(idle, d) && d.conn !in a.server.sockets
    requires idle.ws.Some? ==> idle.ws == a.client.ws
    requires a.server.client.Some? ==> a.server.client.value in a.server.sockets
    requires c in a.client.wires ==> ConnInv(cfg.client, a, c)
    requires c in C.Connect(cfg.client, idle, d).wires
    ensures ConnInv(cfg.client, a.(client := C.Connect(cfg.client, idle, d)), c)
  {
    if c in a.client.wires { IdleClientKeepsConn(cfg.client, a, idle, c); }
    ConnectKeepsConn(cfg, a.(client := idle), d, c);
  }

  lemma GivingUpSocket(cfg: C.ClientConfig, b: C.Client)
    requires ReconnectSafety.Inv(cfg, b) || ReconnectSafety.Inv(cfg, b.(retryPhase := C.Idle))
    ensures var n := C.Disconnect(cfg, b);
            && n.ws.None? && n.pairingId.None? && n.wires == b.wires && n.tasks == b.tasks
            && n.liveTimers <= b.liveTimers
  {
    ReconnectSafety.DisconnectShutsDown(cfg, b);
    CF.DisconnectIsQuiet(cfg, b);
  }

  lemma BridgeLocalKeepsConn(cfg: Config, a: System, b: System, e: C.Event, c: ConnId)
    requires Next(cfg, a, b, BridgeLocal(e)) && Known(a) && ReconnectSafety.Inv(cfg.client, a.client)
    requires a.server.client.Some? ==> a.server.client.value in a.server.sockets
    requires c in b.client.wires && (c in a.client.wires ==> ConnInv(cfg.client, a, c))
    ensures ConnInv(cfg.client, b, c)
  {
    if e.SubmitCode? {
      SubmitCodeKeepsConn(cfg, a, e.code, c);
    } else if e.HandlerDone? {
      HandlerDoneKeepsConn(cfg, a, e.task, e.reply, c);
    } else if e.Opens? || e.StartsClosing? || e.Closes? {
      IdleClientKeepsConn(cfg.client, a, b.client, c);
    } else if e.Shutdown? {
      GivingUpSocket(cfg.client, a.client);
      IdleClientKeepsConn(cfg.client, a, b.client, c);
    } else {
      ReconnectingKeepsConn(cfg, a, b, e, c);
    }
  }

  lemma ReconnectingKeepsConn(cfg: Config, a: System, b: System, e: C.Event, c: ConnId)
    requires e.ReconnectTimer? || e.Nudge? || e.Wake? || e.ManualReconnect?
    requires Next(cfg, a, b, BridgeLocal(e)) && Known(a) && ReconnectSafety.Inv(cfg.client, a.client)
    requires a.server.client.Some? ==> a.server.client.value in a.server.sockets
    requires c in b.client.wires && (c in a.client.wires ==> ConnInv(cfg.client, a, c))
    ensures ConnInv(cfg.client, b, c)
  {
    var k := a.client;
    match e
    case ReconnectTimer(t, d) =>
      ReopeningKeepsConn(cfg, a, k.(liveTimers := k.liveTimers - {t}, reconnectTimeout := None), d, c);
    case Nudge(d) =>
      if !k.isShuttingDown && k.status == C.Disconnected {
        ReopeningKeepsConn(cfg, a, C.CancelReconnect(k), d, c);
      }
    case Wake(d) =>
      if !k.isShuttingDown && k.status == C.Disconnected {
        ReopeningKeepsConn(cfg, a, C.CancelReconnect(k).(reconnectAttempts := 0, retryPhase := C.Burst), d, c);
      }
    case ManualReconnect(d) =>
      GivingUpSocket(cfg.client, k.(reconnectAttempts := 0));
      ReopeningKeepsConn(cfg, a, C.Disconnect(cfg.client, k.(reconnectAttempts := 0)), d, c);
  }

  // ---- runs ----

  lemma StepKeepsKnown(cfg: Config, a: System, b: System, step: Step)
    requires Next(cfg, a, b, step) && Known(a)
    ensures Known(b) && a.client.wires.Keys <= b.client.wires.Keys
  {
    if step.ServerReceives? {
      MessageTouchesOnlyClient(cfg.server, a.server, step.conn, a.client.wires[step.conn][0], step.serverDraw);
    } else if step.ServerLocal? {
      if !step.serverEvent.Sending? { LocalEffect(cfg.server, a.server, step.serverEvent); }
    } else if step.BridgeReceives? {
      ReceivingKeepsKnown(cfg, a, b, step.clientNonce);
    } else if step.BridgeLocal? {
      if step.bridgeEvent.HandlerDone? {
        FinishKeepsKnown(a, step.bridgeEvent.task, step.bridgeEvent.reply);
      } else {
        CF.StepIsQuiet(cfg.client, a.client, step.bridgeEvent);
      }
    }
  }

  lemma ReceivingKeepsKnown(cfg: Config, a: System, b: System, nonce: Uuid)
    requires Next(cfg, a, b, BridgeReceives(nonce)) && Known(a)
    ensures Known(b) && a.client.wires.Keys <= b.client.wires.Keys
  {
    HearingKeepsKnown(cfg.client, a, nonce);
  }

  lemma HearingKeepsKnown(cfg: C.ClientConfig, a: System, nonce: Uuid)
    requires Deliverable(a) && Known(a)
    ensures var n := C.HandleMessage(cfg, a.client, NextMessage(a), nonce);
      Known(a.(client := n)) && a.client.wires.Keys == n.wires.Keys
  {
    CF.MessageKeepsSocket(cfg, a.client, NextMessage(a), nonce);
    SameSocketKeepsKnown(a, C.HandleMessage(cfg, a.client, NextMessage(a), nonce));
  }

  lemma SameSocketKeepsKnown(a: System, n: C.Client)
    requires Known(a) && CF.SameSocket(a.client, n)
    ensures Known(a.(client := n))
  {
  }

  lemma FinishKeepsKnown(a: System, i: nat, reply: Reply)
    requires Known(a) && i < |a.client.tasks|
    ensures Known(a.(client := C.FinishTask(a.client, i, reply)))
    ensures C.FinishTask(a.client, i, reply).wires.Keys == a.client.wires.Keys
  {
    var n := C.FinishTask(a.client, i, reply);
    assert forall j :: 0 <= j < |n.tasks| ==> n.tasks[j] == a.client.tasks[if j < i then j else j + 1];
  }

  lemma StepKeepsConn(cfg: Config, a: System, b: System, step: Step, c: ConnId)
    requires Next(cfg, a, b, step) && Inv(cfg, a) && SystemSafety.Safe(cfg, a) && c in b.client.wires
    ensures ConnInv(cfg.client, b, c)
  {
    match step
    case ServerAccepts(conn, nonce) => ServerAcceptsKeepsConn(cfg, a, b, conn, nonce, c);
    case ServerReceives(conn, d) =>
      if c != conn {
        ServerReceivesElsewhere(cfg, a, b, conn, d, c);
      } else if Late(a.server.sockets[c], a.client.wires[c]) {
        LateMessageArrives(cfg, a, b, c, d);
      } else {
        HelloArrives(cfg, a, b, c, d);
      }
    case ServerLocal(e) => ServerLocalKeepsConn(cfg, a, b, e, c);
    case BridgeReceives(nonce) =>
      BridgeReceivesKeepsWires(cfg, a, b, nonce);
      BridgeReceivesKeepsConn(cfg, a, b, nonce, c);
    case BridgeLocal(e) => BridgeLocalKeepsConn(cfg, a, b, e, c);
    case StrangerConnects(conn, nonce) => StrangerKeepsConn(cfg, a, b, S.Connection(conn, nonce), c);
    case StrangerSends(conn, m, d) =>
      if a.server.client == Some(conn) { MessageTouchesOnlyClient(cfg.server, a.server, conn, m, d); }
      StrangerKeepsConn(cfg, a, b, S.Message(conn, m, d), c);
  }

  /** What happens on another socket leaves this one as it is; it can at most cost it the client's place. */
  lemma StrangerKeepsConn(cfg: Config, a: System, b: System, e: S.Event, c: ConnId)
    requires S.Enabled(a.server, e) && (e.Connection? || e.Message?) && e.conn != c
    requires b == a.(server := S.Step(cfg.server, a.server, e))
    requires e.Message? && a.server.client == Some(e.conn) ==> SF.OnlyClient(a.server, b.server)
    requires c in a.client.wires && ConnInv(cfg.client, a, c)
    ensures ConnInv(cfg.client, b, c)
  {
  }

  lemma BridgeReceivesKeepsWires(cfg: Config, a: System, b: System, nonce: Uuid)
    requires Next(cfg, a, b, BridgeReceives(nonce)) && Known(a)
    ensures b.client.wires.Keys == a.client.wires.Keys
  {
    HearingKeepsKnown(cfg.client, a, nonce);
  }

  lemma {:induction false} RunKeepsInv(cfg: Config, steps: seq<Step>, trace: seq<System>, k: nat)
    requires IsRun(cfg, steps, trace) && k < |trace|
    ensures Inv(cfg, trace[k])
  {
    if k > 0 {
      RunKeepsInv(cfg, steps, trace, k - 1);
      SystemSafety.RunIsSafe(cfg, steps, trace, k - 1);
      StepKeepsKnown(cfg, trace[k - 1], trace[k], steps[k - 1]);
      forall c | c in trace[k].client.wires ensures ConnInv(cfg.client, trace[k], c) {
        StepKeepsConn(cfg, trace[k - 1], trace[k], steps[k - 1], c);
      }
    }
  }

  /** The bridge neither answers the request from memory nor refuses it by its own checks. */
  ghost predicate Admits(cfg: C.ClientConfig, b: C.Client, r: BridgeRequest) {
    && Get(b.responseCache, r.operationId).None?
    && C.Gate(cfg, b, r) == if cfg.hasHandler then None else Some(NoHandler)
  }

  /**
   In every run: a request delivered on a connection that authenticated by reconnect proof is neither
   refused by the bridge's own checks nor answered from memory. It reaches the handler, if there is one.
   */
  lemma GatesAgree(cfg: Config, steps: seq<Step>, trace: seq<System>, k: nat)
    requires IsRun(cfg, steps, trace) && k < |trace|
    requires Deliverable(trace[k]) && NextMessage(trace[k]).Request?
    requires trace[k].server.sockets[trace[k].client.ws.value.id].via.ByProof?
    ensures Admits(cfg.client, trace[k].client, NextMessage(trace[k]).request)
  {
    RunKeepsInv(cfg, steps, trace, k);
    OnceOnly.RunKeepsInv(cfg, steps, trace, k);
    var a := trace[k];
    var c := a.client.ws.value.id;
    assert ConnInv(cfg.client, a, c);
    assert OnceOnly.InQueue(a.server, c, 0, NextMessage(a).request.operationId);
    OnceOnly.NewRequestKeepsWork(cfg.client, a.client, NextMessage(a).request);
  }
}
