/** What the server answers to whom: every message of the handshake, word for word. */
module ServerAnswers {
  import opened Prelude
  import opened Protocol
  import opened AuthState
  import opened ServerModel
  import opened PairingReset
  import ServerSafety

  /** To the current, open connection go exactly these messages; it then stays open or is closed. */
  ghost predicate Says(s: Server, t: Server, c: ConnId, messages: seq<ToBridge>, stays: bool) {
    && s.client == Some(c) && t.client == s.client && c in s.sockets && t.sockets.Keys == s.sockets.Keys
    && t.sockets[c].out == s.sockets[c].out + messages && t.sockets[c].open == stays
    && (forall d :: d in s.sockets && d != c ==> t.sockets[d] == s.sockets[d])
    && t.ledger == s.ledger && t.serverNonce == s.serverNonce
  }

  /** Protocol version 2, well typed, and a version the companion can work with. */
  ghost predicate Acceptable(cfg: ServerConfig, h: ClientHello) {
    h.protocolVersion == 2 && h.wellTyped && cfg.compatible(h.bridgeVersion)
  }

  /** Signed with the stored secret, by the stored installation, over this server, both nonces and both versions. */
  ghost predicate Proves(cfg: ServerConfig, s: Server, h: ClientHello)
    requires s.auth.paired.Some?
  {
    && s.serverNonce.Some? && h.installationId == s.auth.paired.value.installationId
    && h.proof == Some(Hmac(
         s.auth.paired.value.secret,
         AuthMessage(
           cfg.serverInstanceId, s.serverNonce.value, h.clientNonce, h.installationId, h.bridgeVersion,
           h.protocolVersion)))
  }

  /** The answer to an acceptable hello: a request for a code, the acceptance of a proof, or a rejection. */
  ghost predicate Decides(cfg: ServerConfig, s: Server, t: Server, c: ConnId, h: ClientHello) {
    && t.auth.paired == s.auth.paired
    && if s.auth.paired.None? then
         && t.auth.challenge.Some? && t.auth.challenge.value.installationId == h.installationId
         && Says(s, t, c, [PairingRequired(t.auth.challenge.value.pairingId)], true)
         && t.clientAccepted == s.clientAccepted
       else if Proves(cfg, s, h) then
         && Says(s, t, c, [AuthAccepted(s.auth.paired.value.scopes)], true)
         && t.clientAccepted && t.grantedScopes == s.auth.paired.value.scopes
       else
         && Says(s, t, c, [AuthRejected(h.proof.Some? && s.serverNonce.Some?)], false)
         && t.clientAccepted == s.clientAccepted
  }

  lemma HelloAnswered(cfg: ServerConfig, s: Server, c: ConnId, h: ClientHello, d: Draw)
    requires s.client == Some(c) && ClientOpen(s)
    ensures var t := HandleMessage(cfg, s, c, Hello(h), d);
      if Acceptable(cfg, h) then
        && t.clientHello == Some(h) && t.bridgeInstallationId == Some(h.installationId)
        && t.bridgeCapabilities == h.capabilities && Decides(cfg, s, t, c, h)
      else
        && Says(s, t, c, [], false) && t.clientHello == s.clientHello && t.auth == s.auth
        && t.clientAccepted == s.clientAccepted
  {
    if Acceptable(cfg, h) {
      var n := RecordHello(s, h);
      assert n.sockets == s.sockets && n.client == s.client && n.ledger == s.ledger && n.serverNonce == s.serverNonce;
      HelloDecided(cfg, n, c, h, d);
    }
  }

  lemma HelloDecided(cfg: ServerConfig, s: Server, c: ConnId, h: ClientHello, d: Draw)
    requires s.client == Some(c) && ClientOpen(s)
    ensures var t := AnswerHello(cfg, s, h, d);
      && Decides(cfg, s, t, c, h) && t.clientHello == s.clientHello
      && t.bridgeInstallationId == s.bridgeInstallationId && t.bridgeCapabilities == s.bridgeCapabilities
  {
    if s.auth.paired.Some? {
      var scopes := s.auth.paired.value.scopes;
      AcceptanceSays(s, c, scopes);
      RejectionSays(s, c, true);
      RejectionSays(s, c, false);
    } else {
      AsksForCode(s, c, h.installationId, d);
    }
  }

  ghost predicate SameHello(s: Server, t: Server) {
    && t.clientHello == s.clientHello && t.bridgeInstallationId == s.bridgeInstallationId
    && t.bridgeCapabilities == s.bridgeCapabilities
  }

  lemma AsksForCode(s: Server, c: ConnId, installationId: Uuid, d: Draw)
    requires s.client == Some(c) && ClientOpen(s)
    ensures var t := RequirePairing(s, installationId, d);
      && SameHello(s, t) && t.auth.paired == s.auth.paired && t.clientAccepted == s.clientAccepted
      && t.auth.challenge.Some? && t.auth.challenge.value.installationId == installationId
      && Says(s, t, c, [PairingRequired(t.auth.challenge.value.pairingId)], true)
  {
  }

  lemma AcceptanceSays(s: Server, c: ConnId, scopes: seq<Scope>)
    requires s.client == Some(c) && ClientOpen(s)
    ensures var t := AcceptBridge(s, scopes, ByProof(scopes));
      && SameHello(s, t) && t.auth == s.auth && t.clientAccepted && t.grantedScopes == scopes
      && Says(s, t, c, [AuthAccepted(scopes)], true)
  {
  }

  lemma RejectionSays(s: Server, c: ConnId, reset: bool)
    requires s.client == Some(c) && ClientOpen(s)
    ensures var t := RejectAuthentication(s, reset);
      && SameHello(s, t) && t.auth == s.auth && t.clientAccepted == s.clientAccepted
      && Says(s, t, c, [AuthRejected(reset)], false)
  {
  }

  lemma CodeAnswered(cfg: ServerConfig, s: Server, c: ConnId, m: PairingConfirm, d: Draw)
    requires s.client == Some(c) && ClientOpen(s)
    ensures var t := HandleMessage(cfg, s, c, Confirm(m), d);
      if s.clientHello.None? || s.clientHello.value.installationId != m.installationId
         || s.clientHello.value.bridgeVersion != m.bridgeVersion then
        Says(s, t, c, [AuthRejected(false)], false) && t.auth == s.auth && t.clientAccepted == s.clientAccepted
      else if ConfirmsCode(s, Message(c, Confirm(m), d)) then
        && t.auth == Auth(Some(PairedBridge(m.installationId, d.secret, CAPABILITY_SCOPES)), None)
        && Says(s, t, c, [PairingComplete(d.secret, CAPABILITY_SCOPES), AuthAccepted(CAPABILITY_SCOPES)], true)
        && t.clientAccepted && t.grantedScopes == CAPABILITY_SCOPES
      else
        && Says(s, t, c, [AuthRejected(false)], true) && t.auth.paired == s.auth.paired
        && t.clientAccepted == s.clientAccepted && t.grantedScopes == s.grantedScopes
  {
  }

  /** Pings are answered. Before authentication anything else but a hello or a code closes the connection. */
  lemma OthersAnswered(cfg: ServerConfig, s: Server, c: ConnId, m: ToServer, d: Draw)
    requires s.client == Some(c) && ClientOpen(s) && !m.Hello? && !m.Confirm?
    ensures var t := HandleMessage(cfg, s, c, m, d);
      && (m.Ping? ==> Says(s, t, c, [PongToBridge], true))
      && (m.PongToServer? ==> t == s)
      && (m.Response? || m.Unclassified? || m.Malformed? ==>
            if !s.clientAccepted then Says(s, t, c, [], false)
            else t == s.(ledger := t.ledger) && (m.Response? || t == s))
      && t.auth == s.auth && t.clientAccepted == s.clientAccepted
  {
  }

  /** A newcomer is turned away while the client is open; otherwise it becomes the client and is challenged. */
  lemma NewcomerAnswered(cfg: ServerConfig, s: Server, c: ConnId, nonce: Uuid)
    requires c !in s.sockets
    ensures var t := HandleConnection(cfg, s, c, nonce);
      && t.auth == s.auth && t.ledger == s.ledger && t.sockets.Keys == s.sockets.Keys + {c}
      && (forall d :: d in s.sockets ==> t.sockets[d] == s.sockets[d])
      && t.sockets[c].via.Unauthenticated?
      && if s.client.Some? && s.client.value in s.sockets && s.sockets[s.client.value].open then
           t == s.(sockets := t.sockets) && !t.sockets[c].open && t.sockets[c].out == []
         else
           && t.client == Some(c) && !t.clientAccepted && t.clientHello.None? && t.serverNonce == Some(nonce)
           && t.helloTimeout == Some(c) && c in t.helloTimers && t.sockets[c].open
           && t.sockets[c].out
              == [CompanionInfo, ServerChallenge(2, cfg.serverInstanceId, nonce, s.auth.paired.None?)]
  {
  }

  /** Only an open client that has not said hello is closed by its timer. */
  lemma SilenceAnswered(s: Server, c: ConnId)
    ensures var t := HelloTimerFires(s, c);
      && c !in t.helloTimers && t.auth == s.auth && t.ledger == s.ledger
      && t.client == s.client && t.clientAccepted == s.clientAccepted
      && if s.client == Some(c) && ClientOpen(s) && s.clientHello.None? then Says(s, t, c, [], false)
         else t.sockets == s.sockets
  {
  }

  /** Stopping closes the client and forgets it; the pairing stays. */
  lemma StopForgets(s: Server)
    ensures var t := Stop(s);
      && t.auth == s.auth && t.ledger == s.ledger && t.client.None?
      && t.sockets.Keys == s.sockets.Keys
      && (forall c :: c in s.sockets ==>
            && t.sockets[c].open == (s.sockets[c].open && s.client != Some(c))
            && t.sockets[c] == s.sockets[c].(open := t.sockets[c].open))
      && (s.client.Some? && s.helloTimeout.Some? ==> s.helloTimeout.value !in t.helloTimers)
      && (s.client.Some? ==>
            && !t.clientAccepted && t.clientHello.None? && t.bridgeInstallationId.None? && t.serverNonce.None?
            && t.bridgeCapabilities == [] && t.grantedScopes == [] && t.helloTimeout.None?)
  {
  }

  // ---- runs ----

  /** Whoever said hello and was heard said it acceptably; nobody else is accepted. */
  ghost predicate Introduced(cfg: ServerConfig, s: Server) {
    && (s.clientHello.Some? ==> Acceptable(cfg, s.clientHello.value))
    && (IsConnected(s) ==> s.clientHello.Some?)
  }

  lemma StepKeepsIntroduced(cfg: ServerConfig, s: Server, e: Event)
    requires Enabled(s, e) && Introduced(cfg, s) && ServerSafety.Handshake(s)
    ensures Introduced(cfg, Step(cfg, s, e))
  {
    ServerSafety.StepKeepsHandshake(cfg, s, e);
    if e.Message? { MessageKeepsHello(cfg, s, e.conn, e.msg, e.draw); }
  }

  /** The hello on record changes only to one that is acceptable. */
  lemma MessageKeepsHello(cfg: ServerConfig, s: Server, c: ConnId, m: ToServer, d: Draw)
    ensures var t := HandleMessage(cfg, s, c, m, d);
      t.clientHello == s.clientHello || (m.Hello? && Acceptable(cfg, m.hello) && t.clientHello == Some(m.hello))
  {
    if m.Hello? && Acceptable(cfg, m.hello) { AnswerKeepsHello(cfg, RecordHello(s, m.hello), m.hello, d); }
  }

  lemma AnswerKeepsHello(cfg: ServerConfig, s: Server, h: ClientHello, d: Draw)
    ensures AnswerHello(cfg, s, h, d).clientHello == s.clientHello
  {
  }

  /** While the hello timer of the current client runs it is the one on record, and the client has not said hello. */
  ghost predicate OnTime(s: Server) {
    s.client.Some? && s.client.value in s.helloTimers ==> s.helloTimeout == s.client && s.clientHello.None?
  }

  /** The timer on record is kept, as is the hello, or it is stopped. */
  ghost predicate KeepsOrStopsTimer(s: Server, t: Server) {
    && t.client == s.client
    && ((t.clientHello == s.clientHello && t.helloTimeout == s.helloTimeout && t.helloTimers == s.helloTimers)
        || t.helloTimers == s.helloTimers - if s.helloTimeout.Some? then {s.helloTimeout.value} else {})
  }

  lemma MessageKeepsTimer(cfg: ServerConfig, s: Server, c: ConnId, m: ToServer, d: Draw)
    ensures KeepsOrStopsTimer(s, HandleMessage(cfg, s, c, m, d))
  {
    if m.Hello? && Acceptable(cfg, m.hello) { AnswerKeepsTimer(cfg, RecordHello(s, m.hello), m.hello, d); }
    if m.Confirm? && s.client == Some(c) { CodeKeepsTimer(CountCode(s), m.confirm, d); }
  }

  lemma CodeKeepsTimer(s: Server, m: PairingConfirm, d: Draw)
    ensures KeepsOrStopsTimer(s, HandlePairingConfirm(s, m, d))
  {
  }

  lemma AnswerKeepsTimer(cfg: ServerConfig, s: Server, h: ClientHello, d: Draw)
    requires s.helloTimeout.None?
    ensures var t := AnswerHello(cfg, s, h, d); t.client == s.client && t.helloTimers == s.helloTimers
  {
  }

  lemma StepKeepsOnTime(cfg: ServerConfig, s: Server, e: Event)
    requires Enabled(s, e) && OnTime(s)
    ensures OnTime(Step(cfg, s, e))
  {
    if e.Message? { MessageKeepsTimer(cfg, s, e.conn, e.msg, e.draw); }
  }

  /** In every run a client that has said hello is not waited for any longer. */
  lemma {:induction false} HelloStopsTimer(
    cfg: ServerConfig, stored: Option<PairedBridge>, events: seq<Event>, trace: seq<Server>, k: nat)
    requires IsRun(cfg, stored, events, trace) && k < |trace|
    ensures OnTime(trace[k])
  {
    if k > 0 {
      HelloStopsTimer(cfg, stored, events, trace, k - 1);
      StepKeepsOnTime(cfg, trace[k - 1], events[k - 1]);
    }
  }

  /** In every run a connected bridge speaks protocol version 2 in a version the companion can work with. */
  lemma {:induction false} ConnectedIsCompatible(
    cfg: ServerConfig, stored: Option<PairedBridge>, events: seq<Event>, trace: seq<Server>, k: nat)
    requires IsRun(cfg, stored, events, trace) && k < |trace|
    ensures Introduced(cfg, trace[k])
  {
    if k > 0 {
      ConnectedIsCompatible(cfg, stored, events, trace, k - 1);
      ServerSafety.RunsAreSafe(cfg, stored, events, trace, k - 1);
      StepKeepsIntroduced(cfg, trace[k - 1], events[k - 1]);
    }
  }
}
