/**
 Both ends of the bridge, joined by the messages in flight on every connection ever opened, and strangers who
 connect to the same port.
 */
module BridgeSystem {
  import opened Prelude
  import opened Protocol
  import A = AuthState
  import S = ServerModel
  import C = ClientModel

  type ConnId = nat

  datatype Config = Config(server: S.ServerConfig, client: C.ClientConfig)

  /** `server.sockets[c].out` travels to the bridge and `client.wires[c]` to the server, both first in, first out. */
  datatype System = System(server: S.Server, client: C.Client)

  datatype Step =
    | ServerAccepts(conn: ConnId, nonce: Uuid)
    | ServerReceives(conn: ConnId, serverDraw: A.Draw)
    | ServerLocal(serverEvent: S.Event)
    | BridgeReceives(clientNonce: Uuid)
    | BridgeLocal(bridgeEvent: C.Event)
    | StrangerConnects(conn: ConnId, nonce: Uuid)
    | StrangerSends(conn: ConnId, msg: ToServer, serverDraw: A.Draw)

  /**
   A stranger may send anything but the pairing code now shown or a proof of its own making under the paired secret.
   Proofs that the bridge made may be sent again.
   */
  predicate Unprivileged(a: System, m: ToServer) {
    var auth := a.server.auth;
    && (m.Hello? && m.hello.proof.Some? && auth.paired.Some? ==>
          || m.hello.proof.value.secret != auth.paired.value.secret
          || m.hello.proof.value in a.client.history.signed)
    && (m.Confirm? && auth.challenge.Some? ==> m.confirm.pairingCode != auth.challenge.value.pairingCode)
  }

  /** No connection so far was given this nonce. */
  ghost predicate NewNonce(s: S.Server, nonce: Uuid) {
    forall c :: c in s.sockets ==> s.sockets[c].nonce != nonce
  }

  /** Connections opened by the bridge are new to the server, too. */
  ghost predicate OpensFresh(s: S.Server, e: C.Event) {
    match e
    case ReconnectTimer(_, d) => d.conn !in s.sockets
    case Nudge(d) => d.conn !in s.sockets
    case Wake(d) => d.conn !in s.sockets
    case ManualReconnect(d) => d.conn !in s.sockets
    case _ => true
  }

  /** Who is at the head of the queue from the server on the bridge's current connection. */
  ghost predicate Deliverable(a: System) {
    && C.IsOpen(a.client)
    && a.client.ws.value.id in a.server.sockets
    && a.server.sockets[a.client.ws.value.id].out != []
  }

  ghost function NextMessage(a: System): ToBridge
    requires Deliverable(a)
  {
    a.server.sockets[a.client.ws.value.id].out[0]
  }

  ghost function PopFromServer(s: S.Server, c: ConnId): S.Server
    requires c in s.sockets && s.sockets[c].out != []
  {
    s.(sockets := s.sockets[c := s.sockets[c].(out := s.sockets[c].out[1..])])
  }

  ghost function PopFromBridge(b: C.Client, c: ConnId): C.Client
    requires c in b.wires && b.wires[c] != []
  {
    b.(wires := b.wires[c := b.wires[c][1..]])
  }

  ghost predicate Next(cfg: Config, a: System, b: System, step: Step) {
    match step
    case ServerAccepts(c, nonce) =>
      && c in a.client.wires && S.Enabled(a.server, S.Connection(c, nonce)) && NewNonce(a.server, nonce)
      && b == a.(server := S.Step(cfg.server, a.server, S.Connection(c, nonce)))
    case ServerReceives(c, d) =>
      && c in a.client.wires && a.client.wires[c] != [] && c in a.server.sockets
      && b == System(S.Step(cfg.server, a.server, S.Message(c, a.client.wires[c][0], d)), PopFromBridge(a.client, c))
    case ServerLocal(e) =>
      && !e.Connection? && !e.Message? && S.Enabled(a.server, e)
      && b == a.(server := S.Step(cfg.server, a.server, e))
    case BridgeReceives(nonce) =>
      && Deliverable(a)
      && b == System(PopFromServer(a.server, a.client.ws.value.id),
                     C.Step(cfg.client, a.client, C.Receives(NextMessage(a), nonce)))
    case BridgeLocal(e) =>
      && !e.Receives? && C.Enabled(a.client, e) && OpensFresh(a.server, e)
      && b == a.(client := C.Step(cfg.client, a.client, e))
    case StrangerConnects(c, nonce) =>
      && c !in a.client.wires && S.Enabled(a.server, S.Connection(c, nonce)) && NewNonce(a.server, nonce)
      && b == a.(server := S.Step(cfg.server, a.server, S.Connection(c, nonce)))
    case StrangerSends(c, m, d) =>
      && c !in a.client.wires && c in a.server.sockets && Unprivileged(a, m)
      && b == a.(server := S.Step(cfg.server, a.server, S.Message(c, m, d)))
  }

  ghost predicate Initial(cfg: Config, a: System) {
    exists stored, secret, d: C.Draw ::
      a == System(S.Start(stored), C.Connect(cfg.client, C.Create(secret), d))
  }

  /** States joined by steps, one state more than steps. */
  ghost predicate IsPath(cfg: Config, steps: seq<Step>, trace: seq<System>) {
    && |trace| == |steps| + 1
    && forall i :: 0 <= i < |steps| ==> Next(cfg, trace[i], trace[i + 1], steps[i])
  }

  /** A run of the whole system. */
  ghost predicate IsRun(cfg: Config, steps: seq<Step>, trace: seq<System>) {
    IsPath(cfg, steps, trace) && Initial(cfg, trace[0])
  }
}
