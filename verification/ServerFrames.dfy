/** What the server's handlers leave alone. */
module ServerFrames {
  import opened Prelude
  import opened JsMap
  import opened Protocol
  import opened AuthState
  import opened RequestLedger
  import opened ServerModel

  /** `t.out` extends `s.out` on every connection, by messages other than requests; only a new one is challenged. */
  ghost predicate GainsControl(s: Server, t: Server) {
    && s.sockets.Keys <= t.sockets.Keys
    && (forall c :: c in s.sockets ==> t.sockets[c].nonce == s.sockets[c].nonce)
    && (forall c, i :: c in t.sockets && 0 <= i < |t.sockets[c].out| ==>
          if c in s.sockets && i < |s.sockets[c].out| then t.sockets[c].out[i] == s.sockets[c].out[i]
          else !t.sockets[c].out[i].Request? && (c in s.sockets ==> !t.sockets[c].out[i].ServerChallenge?))
  }

  ghost predicate Quiet(s: Server, t: Server) { t.ledger == s.ledger && GainsControl(s, t) }

  /** Only the current connection's socket may differ. */
  ghost predicate OnlyClient(s: Server, t: Server) {
    && t.client == s.client && t.serverNonce == s.serverNonce && t.sockets.Keys == s.sockets.Keys
    && forall c :: c in s.sockets && s.client != Some(c) ==> t.sockets[c] == s.sockets[c]
  }

  lemma SendIsQuiet(s: Server, m: ToBridge)
    requires !m.Request? && !m.ServerChallenge?
    ensures Quiet(s, Send(s, m)) && OnlyClient(s, Send(s, m))
  {
  }

  lemma CloseIsQuiet(s: Server)
    ensures Quiet(s, RejectBridge(s)) && OnlyClient(s, RejectBridge(s))
  {
  }

  lemma RejectionIsQuiet(s: Server, resetPairing: bool)
    ensures Quiet(s, RejectBridge(s)) && Quiet(s, RejectAuthentication(s, resetPairing))
    ensures OnlyClient(s, RejectBridge(s)) && OnlyClient(s, RejectAuthentication(s, resetPairing))
  {
    CloseIsQuiet(s);
    if ClientOpen(s) {
      var k := s.sockets[s.client.value];
      assert RejectAuthentication(s, resetPairing).sockets
          == s.sockets[s.client.value := k.(out := k.out + [AuthRejected(resetPairing)], open := false)];
    }
  }

  lemma AcceptIsQuiet(s: Server, scopes: seq<Scope>, via: Via)
    ensures Quiet(s, AcceptBridge(s, scopes, via)) && OnlyClient(s, AcceptBridge(s, scopes, via))
  {
    SendIsQuiet(s.(grantedScopes := scopes, clientAccepted := true), AuthAccepted(scopes));
  }

  lemma AnswerHelloIsQuiet(cfg: ServerConfig, s: Server, h: ClientHello, d: Draw)
    ensures Quiet(s, AnswerHello(cfg, s, h, d)) && OnlyClient(s, AnswerHello(cfg, s, h, d))
  {
    if s.auth.paired.None? {
      PairingIsQuiet(s, h.installationId, d);
    } else {
      RejectionIsQuiet(s, false);
      RejectionIsQuiet(s, true);
      AcceptIsQuiet(s, s.auth.paired.value.scopes, ByProof(s.auth.paired.value.scopes));
    }
  }

  lemma PairingIsQuiet(s: Server, installationId: Uuid, d: Draw)
    ensures Quiet(s, RequirePairing(s, installationId, d)) && OnlyClient(s, RequirePairing(s, installationId, d))
  {
    var a := EnsureChallenge(s.auth, installationId, d);
    SendIsQuiet(s.(auth := a), PairingRequired(a.challenge.value.pairingId));
  }

  lemma HelloIsQuiet(cfg: ServerConfig, s: Server, h: ClientHello, d: Draw)
    ensures Quiet(s, HandleClientHello(cfg, s, h, d)) && OnlyClient(s, HandleClientHello(cfg, s, h, d))
  {
    RejectionIsQuiet(s, true);
    AnswerHelloIsQuiet(cfg, RecordHello(s, h), h, d);
  }

  lemma ConfirmIsQuiet(s: Server, c: PairingConfirm, d: Draw)
    ensures Quiet(s, HandlePairingConfirm(s, c, d)) && OnlyClient(s, HandlePairingConfirm(s, c, d))
  {
    var t := s.(auth := CompletePairing(s.auth, c, d));
    if s.clientHello.None? || s.clientHello.value.installationId != c.installationId
       || s.clientHello.value.bridgeVersion != c.bridgeVersion {
      RejectionIsQuiet(s, false);
    } else if Confirms(s.auth, c, d.now) {
      AcceptedCodeIsQuiet(t, t.auth.paired.value, ByPairing(t.auth.paired.value.scopes, CodesRead(s)));
    } else {
      SendIsQuiet(t, AuthRejected(false));
    }
  }

  lemma AcceptedCodeIsQuiet(s: Server, p: PairedBridge, via: Via)
    ensures var t := AcceptBridge(Send(s, PairingComplete(p.secret, p.scopes)), p.scopes, via);
      Quiet(s, t) && OnlyClient(s, t)
  {
    SendIsQuiet(s, PairingComplete(p.secret, p.scopes));
    AcceptIsQuiet(Send(s, PairingComplete(p.secret, p.scopes)), p.scopes, via);
  }

  /** Counting a code is history: it changes no queue, no standing and no other socket. */
  lemma CountedIsQuiet(s: Server, t: Server)
    requires Quiet(CountCode(s), t) && OnlyClient(CountCode(s), t)
    ensures Quiet(s, t) && OnlyClient(s, t)
  {
    var n := CountCode(s);
    assert n.sockets.Keys == s.sockets.Keys && n.ledger == s.ledger && n.client == s.client;
    assert forall c :: c in s.sockets ==>
      n.sockets[c].out == s.sockets[c].out && n.sockets[c].nonce == s.sockets[c].nonce;
  }

  lemma MessageIsQuiet(cfg: ServerConfig, s: Server, c: ConnId, m: ToServer, d: Draw)
    requires !m.Response?
    ensures Quiet(s, HandleMessage(cfg, s, c, m, d)) && OnlyClient(s, HandleMessage(cfg, s, c, m, d))
  {
    if m.Hello? {
      HelloIsQuiet(cfg, s, m.hello, d);
    } else if m.Confirm? {
      ConfirmIsQuiet(CountCode(s), m.confirm, d);
      if s.client == Some(c) { CountedIsQuiet(s, HandleMessage(cfg, s, c, m, d)); }
    } else if m.Ping? {
      SendIsQuiet(s, PongToBridge);
    } else {
      RejectionIsQuiet(s, false);
    }
  }

  /** Only sending, answering, timing out and closing touch the ledger, and only sending puts a request on a wire. */
  lemma StepIsQuiet(cfg: ServerConfig, s: Server, e: Event)
    requires Enabled(s, e) && !e.Sending? && !e.RequestTimer? && !e.Closed? && !(e.Message? && e.msg.Response?)
    ensures Quiet(s, Step(cfg, s, e))
  {
    if e.Message? {
      MessageIsQuiet(cfg, s, e.conn, e.msg, e.draw);
    } else if e.HelloTimer? {
      CloseIsQuiet(s.(helloTimers := s.helloTimers - {e.conn}));
    } else if e.Connection? {
      ConnectionIsQuiet(cfg, s, e.conn, e.nonce);
    } else {
      GivingUpIsQuiet(s);
    }
  }

  lemma ConnectionIsQuiet(cfg: ServerConfig, s: Server, c: ConnId, nonce: Uuid)
    requires c !in s.sockets
    ensures Quiet(s, HandleConnection(cfg, s, c, nonce))
  {
  }

  lemma GivingUpIsQuiet(s: Server)
    ensures Quiet(s, ResetPairing(s)) && Quiet(s, Stop(s))
  {
  }

  /** Answering a response settles at most the request it names, with the value it carries. */
  lemma ResponseStep(s: Server, r: BridgeResponse)
    ensures var t := HandleResponse(s, r);
      && GainsControl(s, t) && OnlyClient(s, t)
      && t.ledger.issued == s.ledger.issued
      && t.ledger == if s.clientAccepted && Get(s.ledger.pending, r.id).Some?
                     then Settle(s.ledger, r.id, OutcomeOf(Get(s.ledger.pending, r.id).value, r)) else s.ledger
  {
    RejectionIsQuiet(s, false);
    if s.clientAccepted && Get(s.ledger.pending, r.id).Some? {
      assert HandleResponse(s, r).ledger == Settle(s.ledger, r.id, OutcomeOf(Get(s.ledger.pending, r.id).value, r));
    }
  }
}
