/**
 A bridge that submits no code while it waits for the answer to one never loses the agreement of the two gates: at
 most one code or answer is then on its way.
 */
module CarefulPairing {
  import opened Prelude
  import opened JsMap
  import opened Protocol
  import opened BridgeSystem
  import opened PairingAgreement
  import opened PairingBoundary
  import A = AuthState
  import S = ServerModel
  import C = ClientModel
  import GA = GateAgreement
  import ServerSafety

  /** How many answers to a hello or a code are on their way to the bridge. */
  function Answers(out: seq<ToBridge>): nat {
    if out == [] then 0 else (if out[0].AuthAccepted? || out[0].AuthRejected? then 1 else 0) + Answers(out[1..])
  }

  /** How many invitations to submit a code. */
  function Invitations(out: seq<ToBridge>): nat {
    if out == [] then 0 else (if out[0].PairingRequired? then 1 else 0) + Invitations(out[1..])
  }

  lemma {:induction false} CountsAppend(out: seq<ToBridge>, m: ToBridge)
    ensures Answers(out + [m]) == Answers(out) + if m.AuthAccepted? || m.AuthRejected? then 1 else 0
    ensures Invitations(out + [m]) == Invitations(out) + if m.PairingRequired? then 1 else 0
  {
    if out == [] {
      assert out + [m] == [m];
    } else {
      CountsAppend(out[1..], m);
      assert (out + [m])[1..] == out[1..] + [m];
    }
  }

  lemma {:induction false} ComingCounts(out: seq<ToBridge>)
    ensures Coming(out) ==> Answers(out) >= 1
  {
    if out != [] && !out[0].AuthAccepted? { ComingCounts(out[1..]); }
  }

  ghost function Outstanding(a: System, c: ConnId): nat
    requires c in a.client.wires && c in a.server.sockets
  {
    Codes(a.client.wires[c]) + Answers(a.server.sockets[c].out)
  }

  /** At most one code or answer under way; the bridge waits for it before it may submit another. */
  ghost predicate OneAtATime(a: System, c: ConnId)
    requires c in a.client.wires && c in a.server.sockets
  {
    var n, invitations := Outstanding(a, c), Invitations(a.server.sockets[c].out);
    && n <= 1 && n + invitations <= 1
    && (LiveOn(a.client, c) && a.client.pairingId.Some? ==>
          invitations == 0 && (n == 1 ==> a.client.authStatus == C.Authenticating))
  }

  ghost predicate NoFurtherCode(a: System, c: ConnId) {
    c in a.server.sockets && a.server.sockets[c].via.ByPairing? ==>
      Submitted(a.client, c) == a.server.sockets[c].via.codes
  }

  ghost predicate CarefulInv(a: System, c: ConnId)
    requires c in a.client.wires
  {
    c in a.server.sockets ==> OneAtATime(a, c) && NoFurtherCode(a, c)
  }

  // ---- the server's steps ----

  lemma DroppingKeepsCare(a: System, t: S.Server, c: ConnId)
    requires c in a.client.wires && CarefulInv(a, c) && AtMostDrops(a.server, t, c)
    ensures CarefulInv(a.(server := t), c)
  {
  }

  /** A code or another message is taken off the wire, and at most one answer is sent for a code. */
  lemma ReadingKeepsCare(cfg: Config, a: System, b: System, c: ConnId, d: A.Draw)
    requires Next(cfg, a, b, ServerReceives(c, d)) && Sound(cfg, a) && CarefulInv(a, c)
    ensures CarefulInv(b, c)
  {
    var m, mid := a.client.wires[c][0], a.(client := PopFromBridge(a.client, c));
    assert PairInv(cfg.client, a, c) && GA.ConnInv(cfg.client, a, c);
    assert CarefulInv(mid, c);
    if a.server.client != Some(c) {
      assert b == mid;
    } else if m.Hello? {
      HelloInvites(cfg.server, a.server, c, m.hello, d);
    } else if m.Confirm? {
      CodeKeepsCare(cfg, a, b, c, d);
    } else if m.Ping? && S.ClientOpen(a.server) {
      CountsAppend(a.server.sockets[c].out, PongToBridge);
    } else {
      QuietMessage(cfg.server, a.server, c, m, d);
      DroppingKeepsCare(mid, b.server, c);
    }
  }

  lemma CodeKeepsCare(cfg: Config, a: System, b: System, c: ConnId, d: A.Draw)
    requires Next(cfg, a, b, ServerReceives(c, d)) && ServerSafety.Handshake(a.server)
    requires a.server.client == Some(c) && a.client.wires[c][0].Confirm? && CarefulInv(a, c)
    requires Counted(a.server.sockets[c], a.client.wires[c], Submitted(a.client, c), true)
    ensures CarefulInv(b, c)
  {
    CodeAnswered(cfg.server, a.server, c, a.client.wires[c][0], d);
    OneAnswer(a, b, c);
  }

  lemma OneAnswer(a: System, b: System, c: ConnId)
    requires CodeRead(a, b, c) && CarefulInv(a, c)
    requires Counted(a.server.sockets[c], a.client.wires[c], Submitted(a.client, c), true)
    requires
      || CodeUnanswered(a.server, b.server, c) || CodeAccepted(a.server, b.server, c)
      || CodeRejected(a.server, b.server, c)
    ensures CarefulInv(b, c)
  {
    var k, n := a.server.sockets[c], b.server.sockets[c];
    if CodeAccepted(a.server, b.server, c) {
      CountsAppend(k.out, n.out[|k.out|]);
      CountsAppend(k.out + [n.out[|k.out|]], n.out[|k.out| + 1]);
      assert n.out == k.out + [n.out[|k.out|]] + [n.out[|k.out| + 1]];
    } else {
      CountsAppend(k.out, AuthRejected(false));
    }
  }

  lemma HelloInvites(cfg: S.ServerConfig, s: S.Server, c: ConnId, h: ClientHello, d: A.Draw)
    requires Silent(s, c)
    ensures var t := S.HandleClientHello(cfg, s, h, d);
      && c in t.sockets && t.sockets.Keys == s.sockets.Keys && !t.sockets[c].via.ByPairing?
      && Answers(t.sockets[c].out) + Invitations(t.sockets[c].out) <= 1
  {
    HelloAnswered(cfg, s, c, h, d);
    HelloSendsOne(cfg, s, c, h, d);
  }

  lemma HelloSendsOne(cfg: S.ServerConfig, s: S.Server, c: ConnId, h: ClientHello, d: A.Draw)
    requires Silent(s, c)
    ensures var t := S.HandleClientHello(cfg, s, h, d); c in t.sockets && |t.sockets[c].out| <= 1
  {
    if h.protocolVersion == PROTOCOL_VERSION && h.wellTyped && cfg.compatible(h.bridgeVersion) {
      AnswerSendsOne(cfg, S.RecordHello(s, h), c, h, d);
    }
  }

  lemma AnswerSendsOne(cfg: S.ServerConfig, s: S.Server, c: ConnId, h: ClientHello, d: A.Draw)
    requires Silent(s, c)
    ensures var t := S.AnswerHello(cfg, s, h, d); c in t.sockets && |t.sockets[c].out| <= 1
  {
  }

  lemma SendingKeepsCare(cfg: Config, a: System, b: System, e: S.Event, c: ConnId)
    requires e.Sending? && Next(cfg, a, b, ServerLocal(e)) && c in a.client.wires && CarefulInv(a, c)
    ensures CarefulInv(b, c)
  {
    if S.CheckRequest(a.server, e.action, e.timeoutMs).Some? || e.throws || a.server.client != Some(c) {
      SendingElsewhere(a.server, e, c);
      DroppingKeepsCare(a, b.server, c);
    } else {
      var r := BridgeRequest(e.id, e.operationId, e.action, GetActionPolicy(e.action).value.scope, e.payload);
      CountsAppend(a.server.sockets[c].out, Request(r));
    }
  }

  lemma ServerKeepsCare(cfg: Config, a: System, b: System, step: Step, c: ConnId)
    requires !step.BridgeReceives? && !step.BridgeLocal?
    requires Next(cfg, a, b, step) && Sound(cfg, a) && c in b.client.wires && c in a.client.wires && CarefulInv(a, c)
    ensures CarefulInv(b, c)
  {
    match step
    case ServerAccepts(conn, nonce) => ConnectionKeepsCare(cfg, a, b, conn, nonce, c);
    case ServerReceives(conn, d) =>
      if c == conn {
        ReadingKeepsCare(cfg, a, b, c, d);
      } else {
        OthersAtMostDrop(cfg.server, a.server, S.Message(conn, a.client.wires[conn][0], d), c);
        DroppingKeepsCare(a.(client := b.client), b.server, c);
      }
    case ServerLocal(e) =>
      if e.Sending? {
        SendingKeepsCare(cfg, a, b, e, c);
      } else {
        LocalAtMostDrops(cfg.server, a.server, e, c);
        DroppingKeepsCare(a, b.server, c);
      }
    case StrangerConnects(conn, nonce) =>
      OthersAtMostDrop(cfg.server, a.server, S.Connection(conn, nonce), c);
      DroppingKeepsCare(a, b.server, c);
    case StrangerSends(conn, m, d) =>
      OthersAtMostDrop(cfg.server, a.server, S.Message(conn, m, d), c);
      DroppingKeepsCare(a, b.server, c);
  }

  lemma ConnectionKeepsCare(cfg: Config, a: System, b: System, conn: ConnId, nonce: Uuid, c: ConnId)
    requires Next(cfg, a, b, ServerAccepts(conn, nonce)) && Sound(cfg, a)
    requires c in a.client.wires && CarefulInv(a, c)
    ensures CarefulInv(b, c)
  {
    if c != conn {
      OthersAtMostDrop(cfg.server, a.server, S.Connection(conn, nonce), c);
      DroppingKeepsCare(a, b.server, c);
    } else {
      assert PairInv(cfg.client, a, c);
      var g := S.Greeting(cfg.server, a.server, nonce);
      CountsAppend([g[0]], g[1]);
      CountsAppend([], g[0]);
      assert g == [g[0]] + [g[1]] && [g[0]] == [] + [g[0]];
    }
  }

  // ---- the bridge's steps ----

  lemma LeavingKeepsCare(a: System, n: C.Client, c: ConnId)
    requires c in a.client.wires && CarefulInv(a, c) && AtMostLeaves(a.client, n, c)
    ensures CarefulInv(a.(client := n), c)
  {
  }

  lemma HearingKeepsCare(cfg: C.ClientConfig, a: System, b: System, c: ConnId)
    requires C.IsOpen(a.client) && a.client.ws.value.id == c && c in a.client.wires && CarefulInv(a, c)
    requires c in a.server.sockets && a.server.sockets[c].out != [] && AllOurs(cfg, a.client.wires[c])
    requires Hears(a.client, b.client, a.server.sockets[c].out[0]) && Replies(cfg, a.client, b.client, c)
    requires b.server == PopFromServer(a.server, c)
    ensures CarefulInv(b, c)
  {
    RepliesKeepOurs(cfg, a.client, b.client, c);
  }

  lemma BridgeReceivesKeepsCare(cfg: Config, a: System, b: System, nonce: Uuid, c: ConnId)
    requires Next(cfg, a, b, BridgeReceives(nonce)) && Sound(cfg, a)
    requires c in a.client.wires && c in b.client.wires && CarefulInv(a, c)
    ensures CarefulInv(b, c)
  {
    if c == a.client.ws.value.id {
      assert PairInv(cfg.client, a, c);
      MessageEffect(cfg.client, a.client, NextMessage(a), nonce);
      HearingKeepsCare(cfg.client, a, b, c);
    } else {
      MessageElsewhere(cfg.client, a.client, NextMessage(a), nonce, c);
      LeavingKeepsCare(a, b.client, c);
      DroppingKeepsCare(a.(client := b.client), b.server, c);
    }
  }

  lemma HandlerKeepsCare(a: System, i: nat, reply: Reply, c: ConnId)
    requires i < |a.client.tasks| && c in a.client.wires && CarefulInv(a, c)
    ensures var n := C.FinishTask(a.client, i, reply); c in n.wires && CarefulInv(a.(client := n), c)
  {
    var t := a.client.tasks[i];
    CodesAppend(a.client.wires[c], Response(BridgeResponse(t.request.id, t.request.operationId, reply)));
  }

  lemma SubmittingKeepsCare(cfg: Config, a: System, code: nat, c: ConnId)
    requires c in a.client.wires && CarefulInv(a, c) && PairInv(cfg.client, a, c) && GA.Known(a)
    requires a.client.authStatus != C.Authenticating
    ensures var n := C.ConfirmPairing(cfg.client, a.client, code); c in n.wires && CarefulInv(a.(client := n), c)
  {
    var n := C.ConfirmPairing(cfg.client, a.client, code);
    if n != a.client && a.client.ws.value.id == c {
      var m := Confirm(
        PairingConfirm(a.client.pairingId.value, code, cfg.client.installationId, cfg.client.bridgeVersion));
      assert n.wires[c] == a.client.wires[c] + [m];
      CodesAppend(a.client.wires[c], m);
      if c in a.server.sockets { ComingCounts(a.server.sockets[c].out); }
    }
  }

  lemma BridgeLocalKeepsCare(cfg: Config, a: System, b: System, e: C.Event, c: ConnId)
    requires Next(cfg, a, b, BridgeLocal(e)) && Sound(cfg, a) && CarefulStep(a, BridgeLocal(e))
    requires c in b.client.wires && (c in a.client.wires ==> CarefulInv(a, c))
    ensures CarefulInv(b, c)
  {
    if e.SubmitCode? {
      assert c in a.client.wires ==> PairInv(cfg.client, a, c);
      SubmittingKeepsCare(cfg, a, e.code, c);
    } else if e.HandlerDone? {
      GA.FinishKeepsKnown(a, e.task, e.reply);
      HandlerKeepsCare(a, e.task, e.reply, c);
    } else if c in a.client.wires {
      MovingLeaves(cfg.client, a.client, e, c);
      LeavingKeepsCare(a, b.client, c);
    } else {
      OpensEmpty(cfg.client, a.client, a.server, e, c);
    }
  }

  // ---- runs ----

  /** No code is submitted while the bridge waits for the answer to one. */
  ghost predicate CarefulStep(a: System, step: Step) {
    step.BridgeLocal? && step.bridgeEvent.SubmitCode? ==> a.client.authStatus != C.Authenticating
  }

  ghost predicate Careful(steps: seq<Step>, trace: seq<System>)
    requires |trace| == |steps| + 1
  {
    forall i {:trigger steps[i]} :: 0 <= i < |steps| ==> CarefulStep(trace[i], steps[i])
  }

  ghost predicate Orderly(cfg: Config, a: System) {
    Sound(cfg, a) && forall c :: c in a.client.wires ==> CarefulInv(a, c)
  }

  lemma StepKeepsOrderly(cfg: Config, a: System, b: System, step: Step)
    requires Next(cfg, a, b, step) && Orderly(cfg, a) && CarefulStep(a, step)
    ensures Orderly(cfg, b)
  {
    StepKeepsSound(cfg, a, b, step);
    forall c | c in b.client.wires ensures CarefulInv(b, c) {
      if step.BridgeLocal? {
        BridgeLocalKeepsCare(cfg, a, b, step.bridgeEvent, c);
      } else if step.BridgeReceives? {
        GA.BridgeReceivesKeepsWires(cfg, a, b, step.clientNonce);
        BridgeReceivesKeepsCare(cfg, a, b, step.clientNonce, c);
      } else {
        ServerKeepsCare(cfg, a, b, step, c);
      }
    }
  }

  lemma {:induction false} RunIsOrderly(cfg: Config, steps: seq<Step>, trace: seq<System>, k: nat)
    requires IsRun(cfg, steps, trace) && Careful(steps, trace) && k < |trace|
    ensures Orderly(cfg, trace[k])
  {
    if k == 0 {
      InitialIsSound(cfg, trace[0]);
    } else {
      RunIsOrderly(cfg, steps, trace, k - 1);
      assert CarefulStep(trace[k - 1], steps[k - 1]);
      StepKeepsOrderly(cfg, trace[k - 1], trace[k], steps[k - 1]);
    }
  }

  /**
   If the bridge never submits a code while it waits for the answer to one, the gates agree on every request ever
   delivered, however the connection authenticated.
   */
  lemma CarefulBridgesAgree(cfg: Config, steps: seq<Step>, trace: seq<System>, k: nat, c: ConnId)
    requires IsRun(cfg, steps, trace) && Careful(steps, trace) && k < |trace| && RequestOn(trace[k], c)
    ensures GA.Admits(cfg.client, trace[k].client, NextMessage(trace[k]).request)
  {
    RunIsOrderly(cfg, steps, trace, k);
    var socket := trace[k].server.sockets[c];
    if socket.via.ByProof? {
      GA.GatesAgree(cfg, steps, trace, k);
    } else {
      assert PairInv(cfg.client, trace[k], c) && CarefulInv(trace[k], c);
      assert socket.out[0].Request?;
      DeliveredIsPermitted(cfg, trace[k], c, socket.via);
    }
  }
}
