/** What a reset takes away, and what only a newly confirmed code can give back. */
module PairingReset {
  import opened Prelude
  import opened Protocol
  import opened AuthState
  import opened ServerModel

  /** No client, and nothing known about one. */
  ghost predicate Vacant(s: Server) {
    && s.client.None? && !s.clientAccepted && s.clientHello.None? && s.bridgeInstallationId.None?
    && s.bridgeCapabilities == [] && s.grantedScopes == [] && s.serverNonce.None? && s.helloTimeout.None?
  }

  /** The event reads a code that matches the pairing challenge now shown, in time, from the current connection. */
  ghost predicate ConfirmsCode(s: Server, e: Event) {
    && e.Message? && s.client == Some(e.conn) && e.msg.Confirm? && s.auth.challenge.Some?
    && var shown, c := s.auth.challenge.value, e.msg.confirm;
       && e.draw.now < shown.expiresAt && c.pairingId == shown.pairingId && c.pairingCode == shown.pairingCode
       && c.installationId == shown.installationId
  }

  ghost predicate Revoked(s: Server) { s.auth.paired.None? && !s.clientAccepted }

  /** A reset closes the current connection and forgets it, the pairing and the challenge. */
  lemma ResetRevokes(s: Server)
    ensures var t := ResetPairing(s);
      && t.auth.paired.None? && t.auth.challenge.None? && Vacant(t) && t.ledger == s.ledger
      && t.sockets.Keys == s.sockets.Keys
      && (forall c :: c in s.sockets ==>
            && t.sockets[c].open == (s.sockets[c].open && s.client != Some(c))
            && t.sockets[c] == s.sockets[c].(open := t.sockets[c].open))
  {
  }

  ghost predicate GainsNoProof(s: Server, t: Server) {
    forall c :: c in t.sockets && t.sockets[c].via.ByProof? ==> c in s.sockets && s.sockets[c].via.ByProof?
  }

  lemma StepStaysRevoked(cfg: ServerConfig, s: Server, e: Event)
    requires Enabled(s, e) && Revoked(s) && !ConfirmsCode(s, e)
    ensures Revoked(Step(cfg, s, e)) && GainsNoProof(s, Step(cfg, s, e))
  {
    if e.Message? { MessageStaysRevoked(cfg, s, e.conn, e.msg, e.draw); }
  }

  lemma MessageStaysRevoked(cfg: ServerConfig, s: Server, c: ConnId, m: ToServer, d: Draw)
    requires Revoked(s) && !ConfirmsCode(s, Message(c, m, d))
    ensures Revoked(HandleMessage(cfg, s, c, m, d)) && GainsNoProof(s, HandleMessage(cfg, s, c, m, d))
  {
    if s.client == Some(c) {
      if m.Hello? {
        HelloStaysRevoked(cfg, s, m.hello, d);
      } else if m.Confirm? {
        assert !Confirms(s.auth, m.confirm, d.now);
        CodeStaysRevoked(CountCode(s), m.confirm, d);
      }
    }
  }

  lemma HelloStaysRevoked(cfg: ServerConfig, s: Server, h: ClientHello, d: Draw)
    requires Revoked(s)
    ensures Revoked(HandleClientHello(cfg, s, h, d)) && GainsNoProof(s, HandleClientHello(cfg, s, h, d))
  {
  }

  lemma CodeStaysRevoked(s: Server, m: PairingConfirm, d: Draw)
    requires Revoked(s) && !Confirms(s.auth, m, d.now)
    ensures Revoked(HandlePairingConfirm(s, m, d)) && GainsNoProof(s, HandlePairingConfirm(s, m, d))
  {
  }

  /** No code is confirmed from state `a` until state `k`. */
  ghost predicate NoCodeConfirmed(events: seq<Event>, trace: seq<Server>, a: nat, k: nat)
    requires |trace| == |events| + 1 && k <= |events|
  {
    forall j {:trigger events[j]} :: a <= j < k ==> !ConfirmsCode(trace[j], events[j])
  }

  /**
   In every run, after a reset and until a pairing code is confirmed: no pairing is stored, no bridge is connected,
   and no connection is authenticated by a proof that was not before, whatever is sent.
   */
  lemma {:induction false} RevokedUntilConfirmed(
    cfg: ServerConfig, stored: Option<PairedBridge>, events: seq<Event>, trace: seq<Server>, a: nat, k: nat)
    requires IsRun(cfg, stored, events, trace) && a < k <= |events| && events[a] == Reset
    requires NoCodeConfirmed(events, trace, a + 1, k)
    ensures trace[k].auth.paired.None? && !trace[k].clientAccepted && !IsConnected(trace[k])
    ensures GainsNoProof(trace[a], trace[k])
    ensures Vacant(trace[a + 1]) && trace[a + 1].auth.challenge.None?
    decreases k
  {
    ResetRevokes(trace[a]);
    assert trace[a + 1] == Step(cfg, trace[a], events[a]);
    if k > a + 1 {
      RevokedUntilConfirmed(cfg, stored, events, trace, a, k - 1);
      assert !ConfirmsCode(trace[k - 1], events[k - 1]);
      StepStaysRevoked(cfg, trace[k - 1], events[k - 1]);
    }
  }

  /** And the pairing a confirmed code brings is a new one: for the installation shown, with a newly drawn secret. */
  lemma ConfirmedIsNew(cfg: ServerConfig, s: Server, e: Event)
    requires Enabled(s, e) && ConfirmsCode(s, e)
    requires s.clientHello.Some? && s.clientHello.value.installationId == e.msg.confirm.installationId
    requires s.clientHello.value.bridgeVersion == e.msg.confirm.bridgeVersion
    ensures var t := Step(cfg, s, e);
      && t.auth == Auth(
           Some(PairedBridge(s.auth.challenge.value.installationId, e.draw.secret, CAPABILITY_SCOPES)), None)
      && t.clientAccepted && t.grantedScopes == CAPABILITY_SCOPES
  {
  }
}
