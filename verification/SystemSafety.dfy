/** Each end keeps its own invariants in every run of the whole system. */
module SystemSafety {
  import opened BridgeSystem
  import S = ServerModel
  import C = ClientModel
  import ServerSafety
  import ReconnectSafety

  ghost predicate Safe(cfg: Config, a: System) {
    ServerSafety.Inv(a.server) && ReconnectSafety.Inv(cfg.client, a.client)
  }

  lemma DeliveriesAreSafe(cfg: C.ClientConfig, s: S.Server, b: C.Client, c: ConnId)
    ensures c in s.sockets && s.sockets[c].out != [] && ServerSafety.Inv(s) ==> ServerSafety.Inv(PopFromServer(s, c))
    ensures c in b.wires && b.wires[c] != [] && ReconnectSafety.Inv(cfg, b) ==>
              ReconnectSafety.Inv(cfg, PopFromBridge(b, c))
  {
  }

  lemma StepIsSafe(cfg: Config, a: System, b: System, step: Step)
    requires Next(cfg, a, b, step) && Safe(cfg, a)
    ensures Safe(cfg, b)
  {
    match step
    case ServerAccepts(c, nonce) => ServerSafety.StepKeepsInv(cfg.server, a.server, S.Connection(c, nonce));
    case ServerReceives(c, d) =>
      ServerSafety.StepKeepsInv(cfg.server, a.server, S.Message(c, a.client.wires[c][0], d));
      DeliveriesAreSafe(cfg.client, a.server, a.client, c);
    case ServerLocal(e) => ServerSafety.StepKeepsInv(cfg.server, a.server, e);
    case BridgeReceives(nonce) =>
      DeliveriesAreSafe(cfg.client, a.server, a.client, a.client.ws.value.id);
      ReconnectSafety.StepKeepsInv(cfg.client, a.client, C.Receives(NextMessage(a), nonce));
    case BridgeLocal(e) => ReconnectSafety.StepKeepsInv(cfg.client, a.client, e);
    case StrangerConnects(c, nonce) => ServerSafety.StepKeepsInv(cfg.server, a.server, S.Connection(c, nonce));
    case StrangerSends(c, m, d) => ServerSafety.StepKeepsInv(cfg.server, a.server, S.Message(c, m, d));
  }

  lemma {:induction false} RunIsSafe(cfg: Config, steps: seq<Step>, trace: seq<System>, k: nat)
    requires IsRun(cfg, steps, trace) && k < |trace|
    ensures Safe(cfg, trace[k])
  {
    if k > 0 {
      RunIsSafe(cfg, steps, trace, k - 1);
      StepIsSafe(cfg, trace[k - 1], trace[k], steps[k - 1]);
    }
  }
}
