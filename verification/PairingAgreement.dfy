/**
 Gate agreement on connections authenticated by a pairing code. Both ends gate alike as long as no further code was
 submitted after the accepted one; a further code is answered with a rejection that the bridge then believes.
 */
module PairingAgreement {
  import opened Prelude
  import opened JsMap
  import opened Protocol
  import opened BridgeSystem
  import A = AuthState
  import S = ServerModel
  import C = ClientModel
  import CF = ClientFrames
  import GA = GateAgreement
  import ServerSafety
  import ReconnectSafety
  import SystemSafety

  // ---- counting codes, and where the acceptance stands ----

  /** How many pairing codes are on their way to the server. */
  function Codes(w: seq<ToServer>): nat {
    if w == [] then 0 else (if w[0].Confirm? then 1 else 0) + Codes(w[1..])
  }

  lemma {:induction false} CodesAppend(w: seq<ToServer>, m: ToServer)
    ensures Codes(w + [m]) == Codes(w) + if m.Confirm? then 1 else 0
  {
    if w == [] {
      assert w + [m] == [m];
    } else {
      CodesAppend(w[1..], m);
      assert (w + [m])[1..] == w[1..] + [m];
    }
  }

  /** How many codes the bridge has sent on this connection. */
  function Submitted(b: C.Client, c: ConnId): nat {
    if c in b.history.submitted then b.history.submitted[c] else 0
  }

  /** The place of the first acceptance still in the queue, or the length of the queue. */
  function AcceptIndex(out: seq<ToBridge>): (p: nat)
    ensures p <= |out| && (p < |out| ==> out[p].AuthAccepted?)
    ensures forall i :: 0 <= i < p ==> !out[i].AuthAccepted?
  {
    if out == [] || out[0].AuthAccepted? then 0 else 1 + AcceptIndex(out[1..])
  }

  predicate Coming(out: seq<ToBridge>) { AcceptIndex(out) < |out| }

  /** What the bridge will receive after the acceptance: all of the queue when it has received it already. */
  function Tail(out: seq<ToBridge>): seq<ToBridge> {
    if Coming(out) then out[AcceptIndex(out) + 1..] else out
  }

  lemma {:induction false} AcceptAppend(out: seq<ToBridge>, m: ToBridge)
    requires !m.AuthAccepted?
    ensures Coming(out + [m]) == Coming(out) && Tail(out + [m]) == Tail(out) + [m]
    ensures Coming(out) ==> AcceptIndex(out + [m]) == AcceptIndex(out)
  {
    IndexAppend(out, m);
  }

  lemma {:induction false} IndexAppend(out: seq<ToBridge>, m: ToBridge)
    requires !m.AuthAccepted?
    ensures AcceptIndex(out + [m]) == if Coming(out) then AcceptIndex(out) else |out| + 1
  {
    if out == [] {
      assert out + [m] == [m];
    } else if !out[0].AuthAccepted? {
      IndexAppend(out[1..], m);
      assert (out + [m])[1..] == out[1..] + [m];
    }
  }

  lemma AcceptPop(out: seq<ToBridge>)
    requires out != []
    ensures out[0].AuthAccepted? ==> Coming(out) && Tail(out) == out[1..]
    ensures !out[0].AuthAccepted? ==>
      && Coming(out[1..]) == Coming(out)
      && (if Coming(out) then AcceptIndex(out[1..]) == AcceptIndex(out) - 1 && Tail(out[1..]) == Tail(out)
          else Tail(out) == out && Tail(out[1..]) == out[1..])
  {
  }

  // ---- the invariant of one connection ----

  /** Sent by this bridge. */
  ghost predicate Ours(cfg: C.ClientConfig, m: ToServer) {
    && (m.Confirm? ==>
          m.confirm.installationId == cfg.installationId && m.confirm.bridgeVersion == cfg.bridgeVersion)
    && (m.Hello? ==>
          && m.hello.installationId == cfg.installationId && m.hello.bridgeVersion == cfg.bridgeVersion
          && m.hello.capabilities == cfg.capabilities)
  }

  ghost predicate AllOurs(cfg: C.ClientConfig, w: seq<ToServer>) { forall i :: 0 <= i < |w| ==> Ours(cfg, w[i]) }

  /** The hello the server remembers for its current connection is this bridge's. */
  ghost predicate HelloOurs(cfg: C.ClientConfig, s: S.Server, c: ConnId) {
    s.client == Some(c) && s.clientHello.Some? ==>
      && s.clientHello.value.installationId == cfg.installationId
      && s.clientHello.value.bridgeVersion == cfg.bridgeVersion && s.bridgeCapabilities == cfg.capabilities
  }

  /** Codes sent are codes read or on their way; only a connection that is no longer the client loses some. */
  ghost predicate Counted(k: S.Socket, w: seq<ToServer>, submitted: nat, current: bool) {
    k.codes + Codes(w) <= submitted && (current ==> k.codes + Codes(w) == submitted)
  }

  /** Before authentication nothing that depends on it is in the queue. */
  ghost predicate NotYet(s: S.Server, c: ConnId, k: S.Socket) {
    k.via.Unauthenticated? ==>
      && (forall i :: 0 <= i < |k.out| ==> !k.out[i].Request? && !k.out[i].AuthAccepted?)
      && (s.client == Some(c) && k.open ==> !s.clientAccepted)
  }

  /** After the acceptance only permitted requests, rejections of further codes and pongs follow. */
  ghost predicate Follows(cfg: C.ClientConfig, scopes: seq<Scope>, tail: seq<ToBridge>) {
    forall i :: 0 <= i < |tail| ==>
      || (tail[i].Request? && GA.Passes(cfg, scopes, tail[i].request)) || tail[i] == AuthRejected(false)
      || tail[i].PongToBridge?
  }

  ghost predicate Rejection(tail: seq<ToBridge>) { exists i :: 0 <= i < |tail| && tail[i] == AuthRejected(false) }

  /** The bridge is on this connection, and the connection has not begun to close. */
  ghost predicate LiveOn(b: C.Client, c: ConnId) {
    b.ws.Some? && b.ws.value.id == c && (b.ws.value.ready == C.Connecting || b.ws.value.ready == C.Open)
  }

  /** The bridge has heard the acceptance: it holds the scopes, and no code can be submitted any more. */
  ghost predicate Heard(b: C.Client, c: ConnId, scopes: seq<Scope>) {
    LiveOn(b, c) ==>
      && b.ws.value.ready == C.Open && b.pairingId.None? && b.grantedScopes == scopes
      && (b.authStatus == C.Authenticated || b.authStatus == C.AuthFailed)
  }

  ghost predicate PairedOn(cfg: C.ClientConfig, a: System, c: ConnId, k: S.Socket)
    requires k.via.ByPairing?
  {
    var p, tail := AcceptIndex(k.out), Tail(k.out);
    && k.codes >= k.via.codes
    && (a.server.client == Some(c) && k.open ==> a.server.clientAccepted && a.server.grantedScopes == k.via.scopes)
    && (forall i :: 0 <= i < p && Coming(k.out) ==> !k.out[i].Request?)
    && (Coming(k.out) ==> k.out[p] == AuthAccepted(k.via.scopes))
    && Follows(cfg, k.via.scopes, tail)
    && (!Coming(k.out) ==> Heard(a.client, c, k.via.scopes))
    && (k.codes == k.via.codes ==>
          !Rejection(tail) && (!Coming(k.out) && LiveOn(a.client, c) ==> a.client.authStatus == C.Authenticated))
    && (k.codes > k.via.codes && a.server.client == Some(c) && k.open ==>
          Rejection(tail) || (!Coming(k.out) && (LiveOn(a.client, c) ==> a.client.authStatus == C.AuthFailed)))
  }

  ghost predicate PairInv(cfg: C.ClientConfig, a: System, c: ConnId)
    requires c in a.client.wires
  {
    var w, submitted := a.client.wires[c], Submitted(a.client, c);
    && AllOurs(cfg, w)
    && HelloOurs(cfg, a.server, c)
    && (if c !in a.server.sockets then w == [] && submitted == 0
        else
          var k := a.server.sockets[c];
          && Counted(k, w, submitted, a.server.client == Some(c))
          && NotYet(a.server, c, k)
          && (k.via.ByPairing? ==> PairedOn(cfg, a, c, k)))
  }

  /** How a connection paired is final, and once the bridge has heard the acceptance no code is sent on it. */
  ghost predicate Carries(a: System, b: System, c: ConnId) {
    c in a.server.sockets && a.server.sockets[c].via.ByPairing? ==>
      && c in b.server.sockets && b.server.sockets[c].via == a.server.sockets[c].via
      && (!Coming(a.server.sockets[c].out) ==>
            !Coming(b.server.sockets[c].out) && Submitted(b.client, c) == Submitted(a.client, c))
  }

  // ---- the server's steps ----

  /** The connection keeps what it sent and how it authenticated; it may close or lose the client's place. */
  ghost predicate AtMostDrops(s: S.Server, t: S.Server, c: ConnId) {
    && (c in s.sockets <==> c in t.sockets)
    && (c in s.sockets ==>
          && t.sockets[c].out == s.sockets[c].out && t.sockets[c].via == s.sockets[c].via
          && t.sockets[c].codes == s.sockets[c].codes && (t.sockets[c].open ==> s.sockets[c].open))
    && (t.client == Some(c) ==>
          && s.client == Some(c) && t.clientAccepted == s.clientAccepted && t.clientHello == s.clientHello
          && t.grantedScopes == s.grantedScopes && t.bridgeCapabilities == s.bridgeCapabilities)
  }

  lemma DroppingKeepsPair(cfg: C.ClientConfig, a: System, t: S.Server, c: ConnId)
    requires c in a.client.wires && PairInv(cfg, a, c) && AtMostDrops(a.server, t, c)
    ensures PairInv(cfg, a.(server := t), c) && Carries(a, a.(server := t), c)
  {
  }

  /** Events that send nothing on this connection. */
  lemma LocalAtMostDrops(cfg: S.ServerConfig, s: S.Server, e: S.Event, c: ConnId)
    requires S.Enabled(s, e) && !e.Connection? && !e.Message? && !e.Sending?
    ensures AtMostDrops(s, S.Step(cfg, s, e), c)
  {
    GA.LocalEffect(cfg, s, e);
  }

  lemma OthersAtMostDrop(cfg: S.ServerConfig, s: S.Server, e: S.Event, c: ConnId)
    requires S.Enabled(s, e) && (e.Connection? || e.Message?) && e.conn != c
    ensures AtMostDrops(s, S.Step(cfg, s, e), c)
  {
    if e.Message? && s.client == Some(e.conn) {
      GA.MessageTouchesOnlyClient(cfg, s, e.conn, e.msg, e.draw);
    }
  }

  /** Sending one message on the current connection, which may then close. */
  ghost predicate Sends(s: S.Server, t: S.Server, c: ConnId, m: ToBridge) {
    && ServerSafety.HelloBounded(s) && s.client == Some(c) && S.ClientOpen(s) && t.client == s.client
    && c in t.sockets && t.sockets.Keys == s.sockets.Keys
    && t.sockets[c].out == s.sockets[c].out + [m] && t.sockets[c].via == s.sockets[c].via
    && t.clientAccepted == s.clientAccepted && t.clientHello == s.clientHello
    && t.grantedScopes == s.grantedScopes && t.bridgeCapabilities == s.bridgeCapabilities
  }

  lemma {:induction false} FollowsAppend(
    cfg: C.ClientConfig, scopes: seq<Scope>, tail: seq<ToBridge>, m: ToBridge)
    requires Follows(cfg, scopes, tail) && Follows(cfg, scopes, [m])
    ensures Follows(cfg, scopes, tail + [m])
    ensures Rejection(tail + [m]) <==> Rejection(tail) || m == AuthRejected(false)
  {
    assert [m][0] == m;
    var all := tail + [m];
    assert all[|tail|] == m;
    assert forall i :: 0 <= i < |tail| ==> all[i] == tail[i];
  }

  /** A pong, a permitted request, or anything that grants nothing before authentication. */
  lemma SendingKeepsPair(cfg: C.ClientConfig, a: System, t: S.Server, c: ConnId, m: ToBridge)
    requires c in a.client.wires && PairInv(cfg, a, c) && Sends(a.server, t, c, m)
    requires t.sockets[c].codes == a.server.sockets[c].codes
    requires a.server.sockets[c].via.Unauthenticated? ==> !m.Request? && !m.AuthAccepted?
    requires a.server.sockets[c].via.ByPairing? ==>
      Follows(cfg, a.server.sockets[c].via.scopes, [m]) && m != AuthRejected(false)
    ensures PairInv(cfg, a.(server := t), c) && Carries(a, a.(server := t), c)
  {
    var k, n := a.server.sockets[c], t.sockets[c];
    if k.via.ByPairing? {
      FollowsAppend(cfg, k.via.scopes, Tail(k.out), m);
      assert [m][0] == m;
      AcceptAppend(k.out, m);
    }
  }

  /** Reading anything but a code from the wire counts nothing. */
  lemma ReadingKeepsPair(cfg: C.ClientConfig, a: System, c: ConnId)
    requires c in a.client.wires && a.client.wires[c] != [] && !a.client.wires[c][0].Confirm?
    requires PairInv(cfg, a, c)
    ensures PairInv(cfg, a.(client := PopFromBridge(a.client, c)), c)
    ensures Carries(a, a.(client := PopFromBridge(a.client, c)), c)
  {
  }

  /** A code read from a connection that is no longer the client is lost. */
  lemma LosingCodeKeepsPair(cfg: C.ClientConfig, a: System, c: ConnId)
    requires c in a.client.wires && a.client.wires[c] != [] && a.server.client != Some(c)
    requires PairInv(cfg, a, c)
    ensures PairInv(cfg, a.(client := PopFromBridge(a.client, c)), c)
    ensures Carries(a, a.(client := PopFromBridge(a.client, c)), c)
  {
  }

  lemma MessageArrives(cfg: Config, a: System, b: System, c: ConnId, d: A.Draw)
    requires Next(cfg, a, b, ServerReceives(c, d)) && ServerSafety.Handshake(a.server)
    requires GA.ConnInv(cfg.client, a, c) && PairInv(cfg.client, a, c)
    ensures PairInv(cfg.client, b, c) && Carries(a, b, c)
  {
    var m, mid := a.client.wires[c][0], a.(client := PopFromBridge(a.client, c));
    if a.server.client != Some(c) {
      LosingCodeKeepsPair(cfg.client, a, c);
    } else if m.Confirm? {
      CodeArrives(cfg, a, b, c, d);
    } else {
      ReadingKeepsPair(cfg.client, a, c);
      if m.Hello? {
        HelloArrives(cfg, a, b, c, d);
      } else if m.Ping? && S.ClientOpen(a.server) {
        assert [PongToBridge][0] == PongToBridge;
        SendingKeepsPair(cfg.client, mid, b.server, c, PongToBridge);
      } else {
        QuietMessage(cfg.server, a.server, c, m, d);
        DroppingKeepsPair(cfg.client, mid, b.server, c);
      }
    }
  }

  lemma QuietMessage(cfg: S.ServerConfig, s: S.Server, c: ConnId, m: ToServer, d: A.Draw)
    requires !m.Confirm? && !m.Hello? && (m.Ping? ==> !S.ClientOpen(s))
    ensures AtMostDrops(s, S.HandleMessage(cfg, s, c, m, d), c)
  {
  }

  lemma HelloArrives(cfg: Config, a: System, b: System, c: ConnId, d: A.Draw)
    requires Next(cfg, a, b, ServerReceives(c, d)) && ServerSafety.Handshake(a.server)
    requires a.server.client == Some(c) && a.client.wires[c][0].Hello?
    requires GA.ConnInv(cfg.client, a, c) && PairInv(cfg.client, a, c)
    ensures PairInv(cfg.client, b, c) && Carries(a, b, c)
  {
    assert Ours(cfg.client, a.client.wires[c][0]);
    HelloAnswered(cfg.server, a.server, c, a.client.wires[c][0].hello, d);
  }

  /** `out` was sent on an unauthenticated connection, and it grants nothing without a proof. */
  ghost predicate Answered(s: S.Server, t: S.Server, c: ConnId) {
    && c in s.sockets && c in t.sockets
    && t.client == s.client && t.sockets.Keys == s.sockets.Keys && t.sockets[c].codes == s.sockets[c].codes
    && !t.sockets[c].via.ByPairing?
    && (t.sockets[c].via.Unauthenticated? ==>
          && (t.sockets[c].open ==> !t.clientAccepted)
          && forall i :: 0 <= i < |t.sockets[c].out| ==>
               !t.sockets[c].out[i].Request? && !t.sockets[c].out[i].AuthAccepted?)
  }

  ghost predicate Silent(s: S.Server, c: ConnId) {
    && s.client == Some(c) && !s.clientAccepted
    && c in s.sockets && s.sockets[c].out == [] && s.sockets[c].via.Unauthenticated?
  }

  lemma RejectionAnswers(s: S.Server, c: ConnId, reset: bool)
    requires Silent(s, c)
    ensures Answered(s, S.RejectBridge(s), c) && Answered(s, S.RejectAuthentication(s, reset), c)
    ensures S.RejectBridge(s).clientHello == s.clientHello
    ensures S.RejectBridge(s).bridgeCapabilities == s.bridgeCapabilities
    ensures S.RejectAuthentication(s, reset).clientHello == s.clientHello
    ensures S.RejectAuthentication(s, reset).bridgeCapabilities == s.bridgeCapabilities
  {
  }

  lemma AnswerAnswers(cfg: S.ServerConfig, s: S.Server, c: ConnId, h: ClientHello, d: A.Draw)
    requires Silent(s, c)
    ensures var t := S.AnswerHello(cfg, s, h, d);
      && Answered(s, t, c) && t.clientHello == s.clientHello && t.bridgeCapabilities == s.bridgeCapabilities
  {
    if s.auth.paired.None? {
      ChallengeAnswers(s, c, h.installationId, d);
    } else {
      RejectionAnswers(s, c, false);
      RejectionAnswers(s, c, true);
      ProofAnswers(s, c, s.auth.paired.value.scopes);
    }
  }

  lemma ChallengeAnswers(s: S.Server, c: ConnId, installationId: Uuid, d: A.Draw)
    requires Silent(s, c)
    ensures var t := S.RequirePairing(s, installationId, d);
      && Answered(s, t, c) && t.clientHello == s.clientHello && t.bridgeCapabilities == s.bridgeCapabilities
  {
  }

  lemma ProofAnswers(s: S.Server, c: ConnId, scopes: seq<Scope>)
    requires Silent(s, c)
    ensures var t := S.AcceptBridge(s, scopes, S.ByProof(scopes));
      && Answered(s, t, c) && t.clientHello == s.clientHello && t.bridgeCapabilities == s.bridgeCapabilities
  {
  }

  /** The answer to a hello reads no code and grants nothing that is not recorded with it. */
  lemma HelloAnswered(cfg: S.ServerConfig, s: S.Server, c: ConnId, h: ClientHello, d: A.Draw)
    requires Silent(s, c)
    ensures var t := S.HandleClientHello(cfg, s, h, d);
      && Answered(s, t, c)
      && ((t.clientHello == s.clientHello && t.bridgeCapabilities == s.bridgeCapabilities)
          || (t.clientHello == Some(h) && t.bridgeCapabilities == h.capabilities))
  {
    if h.protocolVersion != PROTOCOL_VERSION || !h.wellTyped || !cfg.compatible(h.bridgeVersion) {
      RejectionAnswers(s, c, false);
    } else {
      AnswerAnswers(cfg, S.RecordHello(s, h), c, h, d);
    }
  }

  /** The three ways a code read from the current connection can end. */
  ghost predicate CodeAccepted(s: S.Server, t: S.Server, c: ConnId)
    requires c in s.sockets && c in t.sockets
  {
    var k, n := s.sockets[c], t.sockets[c];
    && s.auth.challenge.Some? && n.open && n.via == S.ByPairing(t.grantedScopes, n.codes) && t.clientAccepted
    && |n.out| == |k.out| + 2 && n.out[..|k.out|] == k.out
    && n.out[|k.out|].PairingComplete? && n.out[|k.out| + 1] == AuthAccepted(t.grantedScopes)
  }

  ghost predicate CodeRejected(s: S.Server, t: S.Server, c: ConnId)
    requires c in s.sockets && c in t.sockets
  {
    var k, n := s.sockets[c], t.sockets[c];
    && n.out == k.out + [AuthRejected(false)] && n.via == k.via
    && t.clientAccepted == s.clientAccepted && t.grantedScopes == s.grantedScopes
  }

  ghost predicate CodeUnanswered(s: S.Server, t: S.Server, c: ConnId)
    requires c in s.sockets && c in t.sockets
  {
    var k, n := s.sockets[c], t.sockets[c];
    !k.open && !n.open && n.out == k.out && n.via == k.via
  }

  lemma CodeAnswered(cfg: S.ServerConfig, s: S.Server, c: ConnId, m: ToServer, d: A.Draw)
    requires ServerSafety.HelloBounded(s) && s.client == Some(c) && m.Confirm?
    ensures var t := S.HandleMessage(cfg, s, c, m, d);
      && t.client == s.client && t.sockets.Keys == s.sockets.Keys && t.sockets[c].codes == s.sockets[c].codes + 1
      && t.clientHello == s.clientHello && t.bridgeCapabilities == s.bridgeCapabilities
      && (if !s.sockets[c].open then CodeUnanswered(s, t, c)
          else CodeAccepted(s, t, c) || CodeRejected(s, t, c))
  {
    var n := S.CountCode(s);
    assert n.client == s.client && n.sockets[c] == s.sockets[c].(codes := s.sockets[c].codes + 1);
    ConfirmAnswered(n, c, m.confirm, d);
  }

  lemma ConfirmAnswered(s: S.Server, c: ConnId, m: PairingConfirm, d: A.Draw)
    requires c in s.sockets && s.client == Some(c)
    ensures var t := S.HandlePairingConfirm(s, m, d);
      && t.client == s.client && t.sockets.Keys == s.sockets.Keys && t.sockets[c].codes == s.sockets[c].codes
      && t.clientHello == s.clientHello && t.bridgeCapabilities == s.bridgeCapabilities
      && (if !s.sockets[c].open then CodeUnanswered(s, t, c)
          else CodeAccepted(s, t, c) || CodeRejected(s, t, c))
  {
    if s.clientHello.Some? && s.clientHello.value.installationId == m.installationId
       && s.clientHello.value.bridgeVersion == m.bridgeVersion {
      if A.Confirms(s.auth, m, d.now) {
        AcceptanceAnswers(
          s.(auth := A.CompletePairing(s.auth, m, d)), c, A.CompletePairing(s.auth, m, d).paired.value, s.auth);
      }
    } else {
      MismatchAnswers(s, c);
    }
  }

  lemma MismatchAnswers(s: S.Server, c: ConnId)
    requires c in s.sockets && s.client == Some(c)
    ensures var t := S.RejectAuthentication(s, false);
      && t.client == s.client && t.sockets.Keys == s.sockets.Keys && t.sockets[c].codes == s.sockets[c].codes
      && t.clientHello == s.clientHello && t.bridgeCapabilities == s.bridgeCapabilities
      && (if !s.sockets[c].open then CodeUnanswered(s, t, c) else CodeRejected(s, t, c))
  {
  }

  /** What is sent once a code is confirmed; `before` is the pairing state in which it was. */
  lemma AcceptanceAnswers(s: S.Server, c: ConnId, p: A.PairedBridge, before: A.Auth)
    requires c in s.sockets && s.client == Some(c) && before.challenge.Some?
    ensures var t := S.AcceptBridge(
        S.Send(s, PairingComplete(p.secret, p.scopes)), p.scopes, S.ByPairing(p.scopes, S.CodesRead(s)));
      && t.client == s.client && t.sockets.Keys == s.sockets.Keys && t.sockets[c].codes == s.sockets[c].codes
      && t.clientHello == s.clientHello && t.bridgeCapabilities == s.bridgeCapabilities
      && (if !s.sockets[c].open then CodeUnanswered(s, t, c) else CodeAccepted(s.(auth := before), t, c))
  {
  }

  lemma CodeArrives(cfg: Config, a: System, b: System, c: ConnId, d: A.Draw)
    requires Next(cfg, a, b, ServerReceives(c, d)) && ServerSafety.Handshake(a.server)
    requires a.server.client == Some(c) && a.client.wires[c][0].Confirm?
    requires GA.ConnInv(cfg.client, a, c) && PairInv(cfg.client, a, c)
    ensures PairInv(cfg.client, b, c) && Carries(a, b, c)
  {
    CodeAnswered(cfg.server, a.server, c, a.client.wires[c][0], d);
    if !a.server.sockets[c].open {
      UnansweredKeepsPair(cfg.client, a, b, c);
    } else if CodeAccepted(a.server, b.server, c) {
      AcceptedKeepsPair(cfg.client, a, b, c);
    } else {
      RejectedKeepsPair(cfg.client, a, b, c);
    }
  }

  /** A code was read; nothing else that concerns the connection changed but what was sent. */
  ghost predicate CodeRead(a: System, b: System, c: ConnId) {
    && a.server.client == Some(c) && c in a.server.sockets && c in a.client.wires && a.client.wires[c] != []
    && a.client.wires[c][0].Confirm? && b.client == PopFromBridge(a.client, c)
    && b.server.client == a.server.client && c in b.server.sockets
    && b.server.sockets[c].codes == a.server.sockets[c].codes + 1
    && b.server.clientHello == a.server.clientHello && b.server.bridgeCapabilities == a.server.bridgeCapabilities
  }

  lemma UnansweredKeepsPair(cfg: C.ClientConfig, a: System, b: System, c: ConnId)
    requires CodeRead(a, b, c) && PairInv(cfg, a, c) && CodeUnanswered(a.server, b.server, c)
    ensures PairInv(cfg, b, c) && Carries(a, b, c)
  {
  }

  lemma AcceptedKeepsPair(cfg: C.ClientConfig, a: System, b: System, c: ConnId)
    requires CodeRead(a, b, c) && PairInv(cfg, a, c) && a.server.sockets[c].open
    requires ServerSafety.Handshake(a.server) && GA.ConnInv(cfg, a, c)
    requires CodeAccepted(a.server, b.server, c)
    ensures PairInv(cfg, b, c) && Carries(a, b, c)
  {
    FirstAcceptance(a.server.sockets[c], b.server.sockets[c]);
  }

  lemma RejectedKeepsPair(cfg: C.ClientConfig, a: System, b: System, c: ConnId)
    requires CodeRead(a, b, c) && PairInv(cfg, a, c) && a.server.sockets[c].open
    requires CodeRejected(a.server, b.server, c)
    ensures PairInv(cfg, b, c) && Carries(a, b, c)
  {
    var k := a.server.sockets[c];
    if k.via.ByPairing? {
      FollowsAppend(cfg, k.via.scopes, Tail(k.out), AuthRejected(false));
      assert [AuthRejected(false)][0] == AuthRejected(false);
      AcceptAppend(k.out, AuthRejected(false));
    }
  }

  /** An acceptance sent on a connection that had none is the last message in its queue. */
  lemma FirstAcceptance(k: S.Socket, n: S.Socket)
    requires forall i :: 0 <= i < |k.out| ==> !k.out[i].AuthAccepted?
    requires |n.out| == |k.out| + 2 && n.out[..|k.out|] == k.out
    requires n.out[|k.out|].PairingComplete? && n.out[|k.out| + 1].AuthAccepted?
    ensures AcceptIndex(n.out) == |n.out| - 1 && Tail(n.out) == []
    ensures forall i :: 0 <= i < |k.out| ==> n.out[i] == k.out[i]
  {
    assert forall i :: 0 <= i < |k.out| ==> n.out[i] == n.out[..|k.out|][i];
    assert n.out[|n.out| - 1].AuthAccepted?;
  }

  lemma ServerSendsPair(cfg: Config, a: System, b: System, e: S.Event, c: ConnId)
    requires e.Sending? && Next(cfg, a, b, ServerLocal(e)) && ServerSafety.Handshake(a.server)
    requires c in a.client.wires && PairInv(cfg.client, a, c)
    ensures PairInv(cfg.client, b, c) && Carries(a, b, c)
  {
    if S.CheckRequest(a.server, e.action, e.timeoutMs).Some? || e.throws || a.server.client != Some(c) {
      SendingElsewhere(a.server, e, c);
      DroppingKeepsPair(cfg.client, a, b.server, c);
    } else {
      var r := BridgeRequest(e.id, e.operationId, e.action, GetActionPolicy(e.action).value.scope, e.payload);
      assert [Request(r)][0] == Request(r);
      SendingKeepsPair(cfg.client, a, b.server, c, Request(r));
    }
  }

  lemma SendingElsewhere(s: S.Server, e: S.Event, c: ConnId)
    requires e.Sending?
    requires S.CheckRequest(s, e.action, e.timeoutMs).Some? || e.throws || s.client != Some(c)
    ensures AtMostDrops(s, S.SendRequest(s, e.action, e.payload, e.timeoutMs, e.id, e.operationId, e.throws), c)
  {
  }

  // ---- the bridge's steps ----

  /** The bridge's own events that leave the connection's wire alone and give no socket more standing. */
  ghost predicate AtMostLeaves(b: C.Client, n: C.Client, c: ConnId) {
    && c in b.wires && c in n.wires && n.wires[c] == b.wires[c] && Submitted(n, c) == Submitted(b, c)
    && (LiveOn(n, c) ==>
          && b.ws.Some? && b.ws.value.id == c && LiveOn(b, c)
          && (n.ws.value.ready == b.ws.value.ready || b.ws.value.ready == C.Connecting)
          && n.pairingId == b.pairingId && n.authStatus == b.authStatus && n.grantedScopes == b.grantedScopes)
  }

  lemma LeavingKeepsPair(cfg: C.ClientConfig, a: System, n: C.Client, c: ConnId)
    requires c in a.client.wires && PairInv(cfg, a, c) && AtMostLeaves(a.client, n, c)
    ensures PairInv(cfg, a.(client := n), c) && Carries(a, a.(client := n), c)
  {
  }

  /** A response on the wire is no code. */
  lemma ResponseKeepsPair(cfg: C.ClientConfig, a: System, n: C.Client, c: ConnId, m: ToServer)
    requires c in a.client.wires && PairInv(cfg, a, c) && c in a.server.sockets
    requires !m.Confirm? && Ours(cfg, m)
    requires c in n.wires && n.wires[c] == a.client.wires[c] + [m]
    requires AtMostLeaves(a.client, n.(wires := n.wires[c := a.client.wires[c]]), c)
    ensures PairInv(cfg, a.(client := n), c) && Carries(a, a.(client := n), c)
  {
    CodesAppend(a.client.wires[c], m);
  }

  /** What a message does to the bridge's standing on its current socket. */
  ghost predicate Hears(b: C.Client, n: C.Client, m: ToBridge) {
    && C.IsOpen(b) && n.ws == b.ws
    && (m.AuthAccepted? ==>
          n.pairingId.None? && n.grantedScopes == m.grantedScopes && n.authStatus == C.Authenticated)
    && (m.AuthRejected? ==>
          n.pairingId == b.pairingId && n.grantedScopes == b.grantedScopes && n.authStatus == C.AuthFailed)
    && (m.Request? || m.PongToBridge? ==> n.grantedScopes == b.grantedScopes)
    && (!m.AuthAccepted? && !m.AuthRejected? && !m.PairingRequired? ==>
          n.pairingId == b.pairingId && n.authStatus == b.authStatus)
  }

  /** On its wire the bridge answers with nothing, or with one message of its own that is no code. */
  ghost predicate Replies(cfg: C.ClientConfig, b: C.Client, n: C.Client, c: ConnId) {
    && c in b.wires && c in n.wires && Submitted(n, c) == Submitted(b, c)
    && (n.wires[c] == b.wires[c]
        || exists m: ToServer :: !m.Confirm? && Ours(cfg, m) && n.wires[c] == b.wires[c] + [m])
  }

  lemma MessageEffect(cfg: C.ClientConfig, b: C.Client, m: ToBridge, nonce: Uuid)
    requires C.IsOpen(b) && b.ws.value.id in b.wires
    ensures var n := C.HandleMessage(cfg, b, m, nonce); Hears(b, n, m) && Replies(cfg, b, n, b.ws.value.id)
  {
    if m.Request? {
      CF.RequestEffect(cfg, b, m.request);
    } else if m.PingToBridge? {
      assert Ours(cfg, PongToServer);
    } else if m.ServerChallenge? && m.protocolVersion == PROTOCOL_VERSION {
      var n := C.HandleMessage(cfg, b, m, nonce);
      assert Ours(cfg, n.wires[b.ws.value.id][|b.wires[b.ws.value.id]|]);
    }
  }

  lemma {:induction false} FollowsPop(cfg: C.ClientConfig, scopes: seq<Scope>, tail: seq<ToBridge>)
    requires Follows(cfg, scopes, tail)
    ensures !Coming(tail) && Tail(tail) == tail
    ensures tail != [] ==> Follows(cfg, scopes, tail[1..])
    ensures tail != [] ==> (Rejection(tail) <==> tail[0] == AuthRejected(false) || Rejection(tail[1..]))
  {
    if tail != [] {
      assert forall i :: 0 <= i < |tail| - 1 ==> tail[1..][i] == tail[i + 1];
      if Rejection(tail) && tail[0] != AuthRejected(false) {
        var i :| 0 <= i < |tail| && tail[i] == AuthRejected(false);
        assert tail[1..][i - 1] == tail[i];
      }
      if Rejection(tail[1..]) {
        var i :| 0 <= i < |tail[1..]| && tail[1..][i] == AuthRejected(false);
        assert tail[i + 1] == tail[1..][i];
      }
    }
  }

  lemma HearingKeepsPaired(cfg: C.ClientConfig, a: System, b: System, c: ConnId)
    requires c in a.server.sockets && a.server.sockets[c].via.ByPairing? && a.server.sockets[c].out != []
    requires C.IsOpen(a.client) && a.client.ws.value.id == c && Hears(a.client, b.client, a.server.sockets[c].out[0])
    requires b.server == PopFromServer(a.server, c)
    requires PairedOn(cfg, a, c, a.server.sockets[c])
    ensures PairedOn(cfg, b, c, b.server.sockets[c])
  {
    var k := a.server.sockets[c];
    AcceptPop(k.out);
    FollowsPop(cfg, k.via.scopes, Tail(k.out));
    assert b.server.sockets[c].out == k.out[1..];
  }

  lemma RepliesKeepOurs(cfg: C.ClientConfig, b: C.Client, n: C.Client, c: ConnId)
    requires Replies(cfg, b, n, c) && AllOurs(cfg, b.wires[c])
    ensures AllOurs(cfg, n.wires[c]) && Codes(n.wires[c]) == Codes(b.wires[c])
  {
    if n.wires[c] != b.wires[c] {
      var m: ToServer :| !m.Confirm? && Ours(cfg, m) && n.wires[c] == b.wires[c] + [m];
      CodesAppend(b.wires[c], m);
    }
  }

  lemma HearingKeepsPair(cfg: C.ClientConfig, a: System, b: System, c: ConnId)
    requires C.IsOpen(a.client) && a.client.ws.value.id == c && c in a.client.wires && PairInv(cfg, a, c)
    requires c in a.server.sockets && a.server.sockets[c].out != []
    requires Hears(a.client, b.client, a.server.sockets[c].out[0]) && Replies(cfg, a.client, b.client, c)
    requires b.server == PopFromServer(a.server, c)
    ensures PairInv(cfg, b, c) && Carries(a, b, c)
  {
    RepliesKeepOurs(cfg, a.client, b.client, c);
    if a.server.sockets[c].via.ByPairing? { HearingKeepsPaired(cfg, a, b, c); }
  }

  lemma MessageElsewhere(cfg: C.ClientConfig, b: C.Client, m: ToBridge, nonce: Uuid, c: ConnId)
    requires C.IsOpen(b) && c in b.wires && b.ws.value.id in b.wires && b.ws.value.id != c
    ensures AtMostLeaves(b, C.HandleMessage(cfg, b, m, nonce), c)
  {
    if m.Request? {
      CF.RequestEffect(cfg, b, m.request);
    } else {
      GA.MessageElsewhere(cfg, b, m, nonce, c);
    }
  }

  lemma BridgeReceivesKeepsPair(cfg: Config, a: System, b: System, nonce: Uuid, c: ConnId)
    requires Next(cfg, a, b, BridgeReceives(nonce)) && GA.Known(a)
    requires c in a.client.wires && PairInv(cfg.client, a, c)
    ensures c in b.client.wires && PairInv(cfg.client, b, c) && Carries(a, b, c)
  {
    if c == a.client.ws.value.id {
      MessageEffect(cfg.client, a.client, NextMessage(a), nonce);
      HearingKeepsPair(cfg.client, a, b, c);
    } else {
      MessageElsewhere(cfg.client, a.client, NextMessage(a), nonce, c);
      LeavingKeepsPair(cfg.client, a, b.client, c);
      DroppingKeepsPair(cfg.client, a.(client := b.client), b.server, c);
    }
  }

  ghost predicate Moves(e: C.Event) { !e.Receives? && !e.SubmitCode? && !e.HandlerDone? }

  lemma ConnectLeaves(cfg: C.ClientConfig, b: C.Client, d: C.Draw, c: ConnId)
    requires c in b.wires && d.conn !in b.wires
    ensures AtMostLeaves(b, C.Connect(cfg, b, d), c)
  {
  }

  lemma MovingLeaves(cfg: C.ClientConfig, b: C.Client, e: C.Event, c: ConnId)
    requires C.Enabled(b, e) && Moves(e) && ReconnectSafety.Inv(cfg, b) && c in b.wires
    ensures AtMostLeaves(b, C.Step(cfg, b, e), c)
  {
    if e.ReconnectTimer? {
      ConnectLeaves(cfg, b.(liveTimers := b.liveTimers - {e.timer}, reconnectTimeout := None), e.draw, c);
    } else if e.Nudge? {
      ConnectLeaves(cfg, C.CancelReconnect(b), e.draw, c);
    } else if e.Wake? {
      ConnectLeaves(cfg, C.CancelReconnect(b).(reconnectAttempts := 0, retryPhase := C.Burst), e.draw, c);
    } else if e.ManualReconnect? {
      var idle := b.(reconnectAttempts := 0);
      DisconnectLeaves(cfg, idle, c);
      ConnectLeaves(cfg, C.Disconnect(cfg, idle), e.draw, c);
    } else if e.Shutdown? {
      DisconnectLeaves(cfg, b, c);
    }
  }

  lemma DisconnectLeaves(cfg: C.ClientConfig, b: C.Client, c: ConnId)
    requires c in b.wires
    ensures AtMostLeaves(b, C.Disconnect(cfg, b), c) && C.Disconnect(cfg, b).wires == b.wires
  {
  }

  /** A connection just opened: nothing sent, nothing counted. */
  lemma NewConnection(cfg: Config, a: System, b: System, e: C.Event, c: ConnId)
    requires Next(cfg, a, b, BridgeLocal(e)) && ServerSafety.HelloBounded(a.server)
    requires c in b.client.wires && c !in a.client.wires && Moves(e)
    ensures PairInv(cfg.client, b, c) && Carries(a, b, c)
  {
    OpensEmpty(cfg.client, a.client, a.server, e, c);
  }

  lemma OpensEmpty(cfg: C.ClientConfig, b: C.Client, s: S.Server, e: C.Event, c: ConnId)
    requires C.Enabled(b, e) && Moves(e) && OpensFresh(s, e) && c !in b.wires && c in C.Step(cfg, b, e).wires
    ensures var n := C.Step(cfg, b, e); n.wires[c] == [] && Submitted(n, c) == 0 && c !in s.sockets
  {
    if e.ReconnectTimer? {
      ConnectOpens(cfg, b.(liveTimers := b.liveTimers - {e.timer}, reconnectTimeout := None), e.draw, c);
    } else if e.Nudge? {
      ConnectOpens(cfg, C.CancelReconnect(b), e.draw, c);
    } else if e.Wake? {
      ConnectOpens(cfg, C.CancelReconnect(b).(reconnectAttempts := 0, retryPhase := C.Burst), e.draw, c);
    } else if e.ManualReconnect? {
      CF.DisconnectIsQuiet(cfg, b.(reconnectAttempts := 0));
      ConnectOpens(cfg, C.Disconnect(cfg, b.(reconnectAttempts := 0)), e.draw, c);
    }
  }

  lemma ConnectOpens(cfg: C.ClientConfig, b: C.Client, d: C.Draw, c: ConnId)
    requires c !in b.wires && c in C.Connect(cfg, b, d).wires
    ensures c == d.conn && C.Connect(cfg, b, d).wires[c] == [] && Submitted(C.Connect(cfg, b, d), c) == 0
  {
  }

  lemma HandlerKeepsPair(cfg: C.ClientConfig, a: System, i: nat, reply: Reply, c: ConnId)
    requires i < |a.client.tasks| && c in a.client.wires && PairInv(cfg, a, c) && GA.ConnInv(cfg, a, c)
    ensures var n := C.FinishTask(a.client, i, reply); c in n.wires && PairInv(cfg, a.(client := n), c)
    ensures var n := C.FinishTask(a.client, i, reply); Carries(a, a.(client := n), c)
  {
    var n, t := C.FinishTask(a.client, i, reply), a.client.tasks[i];
    if C.IsOpen(a.client) && t.socket == Some(c) && a.client.ws.value.id == c {
      assert c in a.server.sockets;
      ResponseKeepsPair(cfg, a, n, c, Response(BridgeResponse(t.request.id, t.request.operationId, reply)));
    } else {
      LeavingKeepsPair(cfg, a, n, c);
    }
  }

  lemma CodeKeepsPair(cfg: C.ClientConfig, a: System, code: nat, c: ConnId)
    requires c in a.client.wires && PairInv(cfg, a, c) && GA.ConnInv(cfg, a, c) && GA.Known(a)
    ensures var n := C.ConfirmPairing(cfg, a.client, code); c in n.wires && PairInv(cfg, a.(client := n), c)
    ensures var n := C.ConfirmPairing(cfg, a.client, code); Carries(a, a.(client := n), c)
  {
    var n := C.ConfirmPairing(cfg, a.client, code);
    if n == a.client {
    } else if a.client.ws.value.id == c {
      var m := Confirm(PairingConfirm(a.client.pairingId.value, code, cfg.installationId, cfg.bridgeVersion));
      assert n.wires[c] == a.client.wires[c] + [m];
      CodesAppend(a.client.wires[c], m);
    } else {
      LeavingKeepsPair(cfg, a, n, c);
    }
  }

  // ---- runs ----

  lemma StepKeepsPair(cfg: Config, a: System, b: System, step: Step, c: ConnId)
    requires Next(cfg, a, b, step) && GA.Inv(cfg, a) && SystemSafety.Safe(cfg, a)
    requires c in b.client.wires && (c in a.client.wires ==> PairInv(cfg.client, a, c))
    ensures PairInv(cfg.client, b, c) && Carries(a, b, c)
  {
    if step.BridgeReceives? {
      GA.BridgeReceivesKeepsWires(cfg, a, b, step.clientNonce);
      BridgeReceivesKeepsPair(cfg, a, b, step.clientNonce, c);
    } else if step.BridgeLocal? {
      BridgeLocalKeepsPair(cfg, a, b, step.bridgeEvent, c);
    } else {
      ServerKeepsPair(cfg, a, b, step, c);
    }
  }

  lemma BridgeLocalKeepsPair(cfg: Config, a: System, b: System, e: C.Event, c: ConnId)
    requires Next(cfg, a, b, BridgeLocal(e)) && GA.Inv(cfg, a) && SystemSafety.Safe(cfg, a)
    requires c in b.client.wires && (c in a.client.wires ==> PairInv(cfg.client, a, c))
    ensures PairInv(cfg.client, b, c) && Carries(a, b, c)
  {
    if e.SubmitCode? {
      CodeKeepsPair(cfg.client, a, e.code, c);
    } else if e.HandlerDone? {
      GA.FinishKeepsKnown(a, e.task, e.reply);
      HandlerKeepsPair(cfg.client, a, e.task, e.reply, c);
    } else if c in a.client.wires {
      MovingLeaves(cfg.client, a.client, e, c);
      LeavingKeepsPair(cfg.client, a, b.client, c);
    } else {
      NewConnection(cfg, a, b, e, c);
    }
  }

  lemma ServerKeepsPair(cfg: Config, a: System, b: System, step: Step, c: ConnId)
    requires !step.BridgeReceives? && !step.BridgeLocal?
    requires Next(cfg, a, b, step) && GA.Inv(cfg, a) && SystemSafety.Safe(cfg, a)
    requires c in b.client.wires && (c in a.client.wires ==> PairInv(cfg.client, a, c))
    ensures PairInv(cfg.client, b, c) && Carries(a, b, c)
  {
    match step
    case ServerAccepts(conn, nonce) => ConnectionKeepsPair(cfg, a, b, conn, nonce, c);
    case ServerReceives(conn, d) =>
      if c == conn {
        MessageArrives(cfg, a, b, c, d);
      } else {
        OthersAtMostDrop(cfg.server, a.server, S.Message(conn, a.client.wires[conn][0], d), c);
        LeavingKeepsPair(cfg.client, a, b.client, c);
        DroppingKeepsPair(cfg.client, a.(client := b.client), b.server, c);
      }
    case ServerLocal(e) =>
      if e.Sending? {
        ServerSendsPair(cfg, a, b, e, c);
      } else {
        LocalAtMostDrops(cfg.server, a.server, e, c);
        DroppingKeepsPair(cfg.client, a, b.server, c);
      }
    case StrangerConnects(conn, nonce) =>
      OthersAtMostDrop(cfg.server, a.server, S.Connection(conn, nonce), c);
      DroppingKeepsPair(cfg.client, a, b.server, c);
    case StrangerSends(conn, m, d) =>
      OthersAtMostDrop(cfg.server, a.server, S.Message(conn, m, d), c);
      DroppingKeepsPair(cfg.client, a, b.server, c);
  }

  lemma ConnectionKeepsPair(cfg: Config, a: System, b: System, conn: ConnId, nonce: Uuid, c: ConnId)
    requires Next(cfg, a, b, ServerAccepts(conn, nonce)) && c in a.client.wires && PairInv(cfg.client, a, c)
    ensures PairInv(cfg.client, b, c) && Carries(a, b, c)
  {
    if c != conn {
      OthersAtMostDrop(cfg.server, a.server, S.Connection(conn, nonce), c);
      DroppingKeepsPair(cfg.client, a, b.server, c);
    }
  }
}
