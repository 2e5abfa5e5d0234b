/** Every connection is challenged with a nonce of its own, so a proof serves on one connection only. */
module Nonces {
  import opened Prelude
  import opened Protocol
  import opened BridgeSystem
  import A = AuthState
  import S = ServerModel
  import C = ClientModel
  import SF = ServerFrames
  import CF = ClientFrames
  import ServerSafety
  import SystemSafety

  /** Nonces differ, challenges carry the nonce of their connection, and the server checks proofs against it. */
  ghost predicate OwnNonces(s: S.Server) {
    && (forall c, d :: c in s.sockets && d in s.sockets && c != d ==> s.sockets[c].nonce != s.sockets[d].nonce)
    && (forall c, i :: c in s.sockets && 0 <= i < |s.sockets[c].out| && s.sockets[c].out[i].ServerChallenge? ==>
          s.sockets[c].out[i].nonce == s.sockets[c].nonce)
    && (s.client.Some? && s.client.value in s.sockets && s.serverNonce.Some? ==>
          s.serverNonce.value == s.sockets[s.client.value].nonce)
  }

  /** A proof made by the bridge is for the nonce of one of its own connections. */
  ghost predicate SignedFor(a: System, p: Proof) {
    exists c :: c in a.client.wires && c in a.server.sockets && a.server.sockets[c].nonce == p.message.serverNonce
  }

  ghost predicate Inv(a: System) {
    && OwnNonces(a.server) && CF.SocketHasWire(a.client)
    && forall p :: p in a.client.history.signed ==> SignedFor(a, p)
  }

  // ---- the server's side ----

  lemma FrameKeepsNonces(s: S.Server, t: S.Server)
    requires OwnNonces(s) && SF.GainsControl(s, t) && t.sockets.Keys == s.sockets.Keys
    requires t.client.None? || (t.client == s.client && t.serverNonce == s.serverNonce)
    ensures OwnNonces(t)
  {
  }

  /** Timers, closes and resets keep the client and its nonce, or drop both. */
  lemma LocalFrame(cfg: S.ServerConfig, s: S.Server, e: S.Event)
    requires S.Enabled(s, e) && !e.Connection? && !e.Message? && !e.Sending?
    ensures var t := S.Step(cfg, s, e);
      && SF.GainsControl(s, t) && t.sockets.Keys == s.sockets.Keys
      && (t.client.None? || (t.client == s.client && t.serverNonce == s.serverNonce))
  {
    if !e.RequestTimer? && !e.Closed? { SF.StepIsQuiet(cfg, s, e); }
  }

  lemma SendingKeepsNonces(s: S.Server, e: S.Event)
    requires e.Sending? && OwnNonces(s)
    ensures var t := S.SendRequest(s, e.action, e.payload, e.timeoutMs, e.id, e.operationId, e.throws);
      OwnNonces(t) && SameNonces(s, t)
  {
  }

  ghost predicate SameNonces(s: S.Server, t: S.Server) {
    s.sockets.Keys <= t.sockets.Keys && forall c :: c in s.sockets ==> t.sockets[c].nonce == s.sockets[c].nonce
  }

  lemma MessageKeepsNonces(cfg: S.ServerConfig, s: S.Server, c: ConnId, m: ToServer, d: A.Draw)
    requires OwnNonces(s)
    ensures OwnNonces(S.HandleMessage(cfg, s, c, m, d)) && SameNonces(s, S.HandleMessage(cfg, s, c, m, d))
  {
    if m.Response? {
      SF.ResponseStep(s, m.response);
    } else {
      SF.MessageIsQuiet(cfg, s, c, m, d);
    }
    if s.client == Some(c) { FrameKeepsNonces(s, S.HandleMessage(cfg, s, c, m, d)); }
  }

  lemma ConnectionKeepsNonces(cfg: S.ServerConfig, s: S.Server, c: ConnId, nonce: Uuid)
    requires OwnNonces(s) && c !in s.sockets && NewNonce(s, nonce)
    requires s.client.Some? ==> s.client.value in s.sockets
    ensures OwnNonces(S.HandleConnection(cfg, s, c, nonce)) && SameNonces(s, S.HandleConnection(cfg, s, c, nonce))
  {
  }

  lemma ServerStepKeepsNonces(cfg: S.ServerConfig, s: S.Server, e: S.Event)
    requires S.Enabled(s, e) && OwnNonces(s) && (e.Connection? ==> NewNonce(s, e.nonce))
    requires s.client.Some? ==> s.client.value in s.sockets
    ensures OwnNonces(S.Step(cfg, s, e)) && SameNonces(s, S.Step(cfg, s, e))
  {
    if e.Connection? {
      ConnectionKeepsNonces(cfg, s, e.conn, e.nonce);
    } else if e.Message? {
      MessageKeepsNonces(cfg, s, e.conn, e.msg, e.draw);
    } else if e.Sending? {
      SendingKeepsNonces(s, e);
    } else {
      LocalFrame(cfg, s, e);
      FrameKeepsNonces(s, S.Step(cfg, s, e));
    }
  }

  // ---- the bridge's side ----

  /** Only a challenge makes the bridge sign, and it signs the nonce it was sent. */
  ghost predicate SignsOnly(b: C.Client, n: C.Client, e: C.Event) {
    && b.wires.Keys <= n.wires.Keys && (CF.SocketHasWire(b) ==> CF.SocketHasWire(n))
    && forall p :: p in n.history.signed && p !in b.history.signed ==>
         e.Receives? && e.msg.ServerChallenge? && p.message.serverNonce == e.msg.nonce
  }

  lemma StepSigns(cfg: C.ClientConfig, b: C.Client, e: C.Event)
    requires C.Enabled(b, e)
    ensures SignsOnly(b, C.Step(cfg, b, e), e)
  {
    if e.Receives? && e.msg.Request? {
      CF.RequestEffect(cfg, b, e.msg.request);
      CF.RequestKeepsWires(cfg, b, e.msg.request);
    } else if e.HandlerDone? {
      CF.RespondEffect(b, b.tasks[e.task], e.reply);
    } else {
      CF.StepIsQuiet(cfg, b, e);
      QuietStepSigns(cfg, b, e);
    }
  }

  lemma QuietStepSigns(cfg: C.ClientConfig, b: C.Client, e: C.Event)
    requires C.Enabled(b, e) && !e.HandlerDone? && !(e.Receives? && e.msg.Request?)
    ensures forall p :: p in C.Step(cfg, b, e).history.signed && p !in b.history.signed ==>
              e.Receives? && e.msg.ServerChallenge? && p.message.serverNonce == e.msg.nonce
  {
  }

  // ---- both ----

  lemma SignedStays(a: System, b: System)
    requires a.client.wires.Keys <= b.client.wires.Keys && SameNonces(a.server, b.server)
    ensures forall p :: SignedFor(a, p) ==> SignedFor(b, p)
  {
    forall p | SignedFor(a, p) ensures SignedFor(b, p) {
      var c :| c in a.client.wires && c in a.server.sockets && a.server.sockets[c].nonce == p.message.serverNonce;
      assert c in b.client.wires && c in b.server.sockets;
    }
  }

  lemma BridgeStepKeepsNonces(cfg: C.ClientConfig, a: System, b: System, e: C.Event)
    requires C.Enabled(a.client, e) && b.client == C.Step(cfg, a.client, e) && Inv(a)
    requires e.Receives? ==> Deliverable(a) && e.msg == NextMessage(a)
    requires b.server == if e.Receives? then PopFromServer(a.server, a.client.ws.value.id) else a.server
    ensures Inv(b)
  {
    StepSigns(cfg, a.client, e);
    SignedStays(a, b);
    if e.Receives? { PoppingKeepsNonces(a.server, a.client.ws.value.id); }
    forall p | p in b.client.history.signed ensures SignedFor(b, p) {
      if p !in a.client.history.signed {
        var c := a.client.ws.value.id;
        assert c in a.client.wires && a.server.sockets[c].out[0].ServerChallenge?;
      }
    }
  }

  lemma PoppingKeepsNonces(s: S.Server, c: ConnId)
    requires OwnNonces(s) && c in s.sockets && s.sockets[c].out != []
    ensures OwnNonces(PopFromServer(s, c)) && SameNonces(s, PopFromServer(s, c))
  {
  }

  lemma ServerSideKeepsNonces(cfg: S.ServerConfig, a: System, b: System, e: S.Event)
    requires S.Enabled(a.server, e) && (e.Connection? ==> NewNonce(a.server, e.nonce)) && Inv(a)
    requires ServerSafety.HelloBounded(a.server) && b.server == S.Step(cfg, a.server, e)
    requires b.client.wires.Keys == a.client.wires.Keys && b.client == a.client.(wires := b.client.wires)
    ensures Inv(b)
  {
    ServerStepKeepsNonces(cfg, a.server, e);
    SignedStays(a, b);
  }

  lemma StepKeepsInv(cfg: Config, a: System, b: System, step: Step)
    requires Next(cfg, a, b, step) && Inv(a) && SystemSafety.Safe(cfg, a)
    ensures Inv(b)
  {
    match step
    case ServerAccepts(c, nonce) => ServerSideKeepsNonces(cfg.server, a, b, S.Connection(c, nonce));
    case ServerReceives(c, d) => ServerSideKeepsNonces(cfg.server, a, b, S.Message(c, a.client.wires[c][0], d));
    case ServerLocal(e) => ServerSideKeepsNonces(cfg.server, a, b, e);
    case BridgeReceives(nonce) => BridgeStepKeepsNonces(cfg.client, a, b, C.Receives(NextMessage(a), nonce));
    case BridgeLocal(e) => BridgeStepKeepsNonces(cfg.client, a, b, e);
    case StrangerConnects(c, nonce) => ServerSideKeepsNonces(cfg.server, a, b, S.Connection(c, nonce));
    case StrangerSends(c, m, d) => ServerSideKeepsNonces(cfg.server, a, b, S.Message(c, m, d));
  }

  lemma {:induction false} RunKeepsInv(cfg: Config, steps: seq<Step>, trace: seq<System>, k: nat)
    requires IsRun(cfg, steps, trace) && k < |trace|
    ensures Inv(trace[k])
  {
    if k > 0 {
      RunKeepsInv(cfg, steps, trace, k - 1);
      SystemSafety.RunIsSafe(cfg, steps, trace, k - 1);
      StepKeepsInv(cfg, trace[k - 1], trace[k], steps[k - 1]);
    }
  }

  /** A proof made by the bridge, sent by a stranger on a connection of its own, is not for the nonce checked there. */
  lemma ReplayIsRefused(a: System, c: ConnId, p: Proof)
    requires Inv(a) && p in a.client.history.signed && c !in a.client.wires && c in a.server.sockets
    requires a.server.client == Some(c) && a.server.serverNonce.Some?
    ensures p.message.serverNonce != a.server.serverNonce.value
  {
    var d :| d in a.client.wires && d in a.server.sockets && a.server.sockets[d].nonce == p.message.serverNonce;
    assert d != c;
  }
}
