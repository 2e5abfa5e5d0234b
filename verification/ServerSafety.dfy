/** What every run of the server keeps, whoever connects and whatever they send. */
module ServerSafety {
  import opened Prelude
  import opened JsMap
  import opened Protocol
  import opened AuthState
  import opened RequestLedger
  import opened ServerModel
  import opened ServerFrames

  /** A stored pairing and a pending challenge never coexist. */
  ghost predicate PairingExclusive(s: Server) { s.auth.paired.None? || s.auth.challenge.None? }

  /**
   While connected, the latest hello, the announced installation and the stored pairing name one
   installation, and exactly that pairing's scopes are granted.
   */
  ghost predicate HandshakeAgrees(s: Server) {
    IsConnected(s) ==>
      && s.clientHello.Some? && s.auth.paired.Some?
      && s.bridgeInstallationId == Some(s.clientHello.value.installationId)
      && s.clientHello.value.installationId == s.auth.paired.value.installationId
      && s.grantedScopes == s.auth.paired.value.scopes
      && s.bridgeCapabilities == s.clientHello.value.capabilities
  }

  /** An open client that has not said hello has a live hello timer, so it cannot hold the slot for ever. */
  ghost predicate HelloBounded(s: Server) {
    && (s.client.Some? ==> s.client.value in s.sockets)
    && (ClientOpen(s) && s.clientHello.None? ==> s.helloTimeout == s.client && s.client.value in s.helloTimers)
  }

  /** The announced installation and capabilities are those of the latest hello on this connection. */
  ghost predicate HelloRecorded(s: Server) {
    s.clientHello.Some? ==>
      && s.bridgeInstallationId == Some(s.clientHello.value.installationId)
      && s.bridgeCapabilities == s.clientHello.value.capabilities
  }

  ghost predicate Handshake(s: Server) {
    PairingExclusive(s) && HandshakeAgrees(s) && HelloBounded(s) && HelloRecorded(s)
  }

  ghost predicate Inv(s: Server) { Handshake(s) && Valid(s.ledger) }

  lemma StepKeepsHandshake(cfg: ServerConfig, s: Server, e: Event)
    requires Enabled(s, e) && Handshake(s)
    ensures Handshake(Step(cfg, s, e))
  {
    if e.Message? {
      MessageKeepsHandshake(cfg, s, e.conn, e.msg, e.draw);
    } else if e.HelloTimer? {
      RejectionKeepsHandshake(s.(helloTimers := s.helloTimers - {e.conn}), true);
    }
  }

  lemma MessageKeepsHandshake(cfg: ServerConfig, s: Server, c: ConnId, m: ToServer, d: Draw)
    requires Handshake(s)
    ensures Handshake(HandleMessage(cfg, s, c, m, d))
  {
    if m.Hello? {
      HelloKeepsHandshake(cfg, s, m.hello, d);
    } else if m.Confirm? {
      CountingKeepsHandshake(s);
      ConfirmKeepsHandshake(CountCode(s), m.confirm, d);
    } else if m.Response? || m.Unclassified? || m.Malformed? {
      RejectionKeepsHandshake(s, true);
    }
  }

  lemma HelloKeepsHandshake(cfg: ServerConfig, s: Server, h: ClientHello, d: Draw)
    requires Handshake(s)
    ensures Handshake(HandleClientHello(cfg, s, h, d))
  {
    RejectionKeepsHandshake(s, true);
    AnswerHelloKeepsHandshake(cfg, RecordHello(s, h), h, d);
  }

  lemma CountingKeepsHandshake(s: Server)
    requires Handshake(s)
    ensures Handshake(CountCode(s))
  {
  }

  lemma AnswerHelloKeepsHandshake(cfg: ServerConfig, s: Server, h: ClientHello, d: Draw)
    requires PairingExclusive(s) && HelloRecorded(s) && s.clientHello == Some(h)
    requires s.client.Some? ==> s.client.value in s.sockets
    requires IsConnected(s) ==> s.auth.paired.Some?
    ensures Handshake(AnswerHello(cfg, s, h, d))
  {
    if s.auth.paired.None? {
      PairingKeepsHandshake(s, h.installationId, d);
    } else {
      RejectionKeepsHandshake(s, false);
      RejectionKeepsHandshake(s, true);
      if s.auth.paired.value.installationId == h.installationId { ProofKeepsHandshake(s, h); }
    }
  }

  lemma PairingKeepsHandshake(s: Server, installationId: Uuid, d: Draw)
    requires s.auth.paired.None? && HelloRecorded(s) && !IsConnected(s) && s.clientHello.Some?
    requires s.client.Some? ==> s.client.value in s.sockets
    ensures Handshake(RequirePairing(s, installationId, d))
  {
  }

  lemma ProofKeepsHandshake(s: Server, h: ClientHello)
    requires PairingExclusive(s) && HelloRecorded(s) && s.clientHello == Some(h)
    requires s.client.Some? ==> s.client.value in s.sockets
    requires s.auth.paired.Some? && s.auth.paired.value.installationId == h.installationId
    ensures Handshake(AcceptBridge(s, s.auth.paired.value.scopes, ByProof(s.auth.paired.value.scopes)))
  {
  }

  /** Rejecting closes the current socket, so nothing is left to agree on. */
  lemma RejectionKeepsHandshake(s: Server, resetPairing: bool)
    requires PairingExclusive(s) && HelloRecorded(s) && (s.client.Some? ==> s.client.value in s.sockets)
    ensures Handshake(RejectBridge(s)) && Handshake(RejectAuthentication(s, resetPairing))
  {
    ClosingKeepsHandshake(s);
    ClosingKeepsHandshake(Send(s, AuthRejected(resetPairing)));
  }

  lemma ClosingKeepsHandshake(s: Server)
    requires PairingExclusive(s) && HelloRecorded(s) && (s.client.Some? ==> s.client.value in s.sockets)
    ensures Handshake(RejectBridge(s))
  {
  }

  lemma ConfirmKeepsHandshake(s: Server, c: PairingConfirm, d: Draw)
    requires Handshake(s)
    ensures Handshake(HandlePairingConfirm(s, c, d))
  {
    if s.clientHello.None? || s.clientHello.value.installationId != c.installationId
       || s.clientHello.value.bridgeVersion != c.bridgeVersion {
      RejectionKeepsHandshake(s, false);
    } else if Confirms(s.auth, c, d.now) {
      AcceptedCodeKeepsHandshake(s, c, d);
    }
  }

  lemma AcceptedCodeKeepsHandshake(s: Server, c: PairingConfirm, d: Draw)
    requires Handshake(s) && s.clientHello.Some? && s.clientHello.value.installationId == c.installationId
    requires s.clientHello.value.bridgeVersion == c.bridgeVersion && Confirms(s.auth, c, d.now)
    ensures Handshake(HandlePairingConfirm(s, c, d))
  {
  }

  lemma StepKeepsLedger(cfg: ServerConfig, s: Server, e: Event)
    requires Enabled(s, e) && Valid(s.ledger)
    ensures Valid(Step(cfg, s, e).ledger)
  {
    if e.Sending? {
      SendingKeepsLedger(s, e);
    } else if e.RequestTimer? {
      SettleKeepsValid(s.ledger, e.id, Rejected(TimedOut));
    } else if e.Closed? {
      SettleAllKeepsValid(s.ledger, Rejected(ConnectionLost));
    } else if e.Message? && e.msg.Response? && Get(s.ledger.pending, e.msg.response.id).Some? {
      var r := e.msg.response;
      SettleKeepsValid(s.ledger, r.id, OutcomeOf(Get(s.ledger.pending, r.id).value, r));
    } else if !(e.Message? && e.msg.Response?) {
      StepIsQuiet(cfg, s, e);
    }
  }

  lemma SendingKeepsLedger(s: Server, e: Event)
    requires e.Sending? && Enabled(s, e) && Valid(s.ledger)
    ensures Valid(SendRequest(s, e.action, e.payload, e.timeoutMs, e.id, e.operationId, e.throws).ledger)
  {
    if CheckRequest(s, e.action, e.timeoutMs).None? {
      var policy := GetActionPolicy(e.action).value;
      var r := BridgeRequest(e.id, e.operationId, e.action, policy.scope, e.payload);
      AcceptKeepsValid(s.ledger, r, policy);
      SettleKeepsValid(Accept(s.ledger, r, policy), r.id, Rejected(SendFailed));
    }
  }

  lemma HelloKeepsInv(cfg: ServerConfig, s: Server, h: ClientHello, d: Draw)
    requires Inv(s)
    ensures Inv(HandleClientHello(cfg, s, h, d))
  {
    HelloKeepsHandshake(cfg, s, h, d);
    HelloIsQuiet(cfg, s, h, d);
  }

  lemma ConfirmKeepsInv(s: Server, c: PairingConfirm, d: Draw)
    requires Inv(s)
    ensures Inv(HandlePairingConfirm(s, c, d))
  {
    ConfirmKeepsHandshake(s, c, d);
    ConfirmIsQuiet(s, c, d);
  }

  lemma ResponseKeepsInv(s: Server, r: BridgeResponse)
    requires Inv(s)
    ensures Inv(HandleResponse(s, r))
  {
    RejectionKeepsHandshake(s, true);
    ResponseStep(s, r);
    if Get(s.ledger.pending, r.id).Some? {
      SettleKeepsValid(s.ledger, r.id, OutcomeOf(Get(s.ledger.pending, r.id).value, r));
    }
  }

  lemma StepKeepsInv(cfg: ServerConfig, s: Server, e: Event)
    requires Enabled(s, e) && Inv(s)
    ensures Inv(Step(cfg, s, e))
  {
    StepKeepsHandshake(cfg, s, e);
    StepKeepsLedger(cfg, s, e);
  }

  /** Every state of every run is safe. */
  lemma {:induction false} RunsAreSafe(
    cfg: ServerConfig, stored: Option<PairedBridge>, events: seq<Event>, trace: seq<Server>, k: nat)
    requires IsRun(cfg, stored, events, trace) && k < |trace|
    ensures Inv(trace[k])
  {
    if k > 0 {
      RunsAreSafe(cfg, stored, events, trace, k - 1);
      StepKeepsInv(cfg, trace[k - 1], events[k - 1]);
    }
  }
}
