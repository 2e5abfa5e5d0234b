/** Strangers on the port are never accepted, in any run beside the bridge. */
module Strangers {
  import opened Prelude
  import opened Protocol
  import opened BridgeSystem
  import A = AuthState
  import S = ServerModel
  import C = ClientModel
  import SF = ServerFrames
  import CF = ClientFrames
  import Nonces
  import ServerSafety
  import SystemSafety

  /** Not authenticated, and not accepted while it is the client. */
  ghost predicate Outside(s: S.Server, c: ConnId) {
    (c in s.sockets ==> s.sockets[c].via.Unauthenticated?) && (s.client == Some(c) ==> !s.clientAccepted)
  }

  ghost predicate Inv(a: System) {
    forall c :: c !in a.client.wires ==> Outside(a.server, c)
  }

  /** The message proves nothing to this server: neither a valid proof for its nonce nor the code it shows. */
  ghost predicate ProvesNothing(cfg: S.ServerConfig, s: S.Server, m: ToServer) {
    && (m.Hello? && m.hello.proof.Some? && s.serverNonce.Some? ==>
          !A.VerifyProof(s.auth, S.SignedBy(cfg, s.serverNonce.value, m.hello), m.hello.proof.value))
    && (m.Confirm? && s.auth.challenge.Some? ==> m.confirm.pairingCode != s.auth.challenge.value.pairingCode)
  }

  /** Without the secret and the code nothing a client sends makes the server accept it. */
  lemma StaysOutside(cfg: S.ServerConfig, s: S.Server, c: ConnId, m: ToServer, d: A.Draw)
    requires Outside(s, c) && (s.client == Some(c) ==> ProvesNothing(cfg, s, m))
    ensures Outside(S.HandleMessage(cfg, s, c, m, d), c)
  {
    if s.client == Some(c) {
      if m.Confirm? {
        assert !A.Confirms(s.auth, m.confirm, d.now);
      } else if m.Hello? {
        HelloStaysOutside(cfg, s, c, m.hello, d);
      }
    }
  }

  lemma HelloStaysOutside(cfg: S.ServerConfig, s: S.Server, c: ConnId, h: ClientHello, d: A.Draw)
    requires Outside(s, c) && s.client == Some(c) && ProvesNothing(cfg, s, Hello(h))
    ensures Outside(S.HandleClientHello(cfg, s, h, d), c)
  {
  }

  /** A proof the bridge made for one of its connections is worth nothing on any other. */
  lemma UnprivilegedStaysOutside(cfg: S.ServerConfig, a: System, c: ConnId, m: ToServer, d: A.Draw)
    requires Outside(a.server, c) && Nonces.Inv(a) && Unprivileged(a, m)
    requires c !in a.client.wires && c in a.server.sockets
    ensures Outside(S.HandleMessage(cfg, a.server, c, m, d), c)
  {
    if a.server.client == Some(c) && a.server.serverNonce.Some? && m.Hello? && m.hello.proof.Some?
       && m.hello.proof.value in a.client.history.signed {
      Nonces.ReplayIsRefused(a, c, m.hello.proof.value);
    }
    StaysOutside(cfg, a.server, c, m, d);
  }

  /** What happens on one connection leaves the standing of all others alone. */
  lemma OthersStayOutside(cfg: S.ServerConfig, s: S.Server, e: S.Event, c: ConnId)
    requires S.Enabled(s, e) && Outside(s, c) && ServerSafety.Handshake(s)
    requires e.Message? ==> e.conn != c
    ensures Outside(S.Step(cfg, s, e), c)
  {
    if e.Message? {
      if s.client == Some(e.conn) { TouchesOnlyClient(cfg, s, e.conn, e.msg, e.draw); }
    }
  }

  lemma TouchesOnlyClient(cfg: S.ServerConfig, s: S.Server, c: ConnId, m: ToServer, d: A.Draw)
    ensures SF.OnlyClient(s, S.HandleMessage(cfg, s, c, m, d))
  {
    if m.Response? {
      SF.ResponseStep(s, m.response);
    } else {
      SF.MessageIsQuiet(cfg, s, c, m, d);
    }
  }

  lemma StepKeepsInv(cfg: Config, a: System, b: System, step: Step)
    requires Next(cfg, a, b, step) && Inv(a) && SystemSafety.Safe(cfg, a) && Nonces.Inv(a)
    ensures Inv(b)
  {
    forall c | c !in b.client.wires ensures Outside(b.server, c) {
      match step
      case ServerAccepts(conn, nonce) => OthersStayOutside(cfg.server, a.server, S.Connection(conn, nonce), c);
      case ServerReceives(conn, d) =>
        OthersStayOutside(cfg.server, a.server, S.Message(conn, a.client.wires[conn][0], d), c);
      case ServerLocal(e) => OthersStayOutside(cfg.server, a.server, e, c);
      case BridgeReceives(nonce) => ReceivingKeepsWires(cfg, a, b, nonce);
      case BridgeLocal(e) => LocalKeepsWires(cfg, a, e);
      case StrangerConnects(conn, nonce) => OthersStayOutside(cfg.server, a.server, S.Connection(conn, nonce), c);
      case StrangerSends(conn, m, d) =>
        if c == conn {
          UnprivilegedStaysOutside(cfg.server, a, c, m, d);
        } else {
          OthersStayOutside(cfg.server, a.server, S.Message(conn, m, d), c);
        }
    }
  }

  lemma ReceivingKeepsWires(cfg: Config, a: System, b: System, nonce: Uuid)
    requires Next(cfg, a, b, BridgeReceives(nonce))
    ensures a.client.wires.Keys <= b.client.wires.Keys
  {
    if NextMessage(a).Request? {
      CF.RequestKeepsWires(cfg.client, a.client, NextMessage(a).request);
    } else {
      CF.MessageIsQuiet(cfg.client, a.client, NextMessage(a), nonce);
    }
  }

  lemma LocalKeepsWires(cfg: Config, a: System, e: C.Event)
    requires C.Enabled(a.client, e) && !e.Receives?
    ensures a.client.wires.Keys <= C.Step(cfg.client, a.client, e).wires.Keys
  {
    if !e.HandlerDone? { CF.StepIsQuiet(cfg.client, a.client, e); }
  }

  lemma {:induction false} RunKeepsInv(cfg: Config, steps: seq<Step>, trace: seq<System>, k: nat)
    requires IsRun(cfg, steps, trace) && k < |trace|
    ensures Inv(trace[k])
  {
    if k > 0 {
      RunKeepsInv(cfg, steps, trace, k - 1);
      SystemSafety.RunIsSafe(cfg, steps, trace, k - 1);
      Nonces.RunKeepsInv(cfg, steps, trace, k - 1);
      StepKeepsInv(cfg, trace[k - 1], trace[k], steps[k - 1]);
    }
  }

  /**
   In every run a connection the bridge did not open is never authenticated and never accepted, even if every proof
   the bridge ever made is sent on it.
   */
  lemma StrangersStayOut(cfg: Config, steps: seq<Step>, trace: seq<System>, k: nat, c: ConnId)
    requires IsRun(cfg, steps, trace) && k < |trace|
    requires c in trace[k].server.sockets && c !in trace[k].client.wires
    ensures trace[k].server.sockets[c].via.Unauthenticated?
    ensures trace[k].server.client == Some(c) ==> !S.IsConnected(trace[k].server)
  {
    RunKeepsInv(cfg, steps, trace, k);
    assert Outside(trace[k].server, c);
  }
}
