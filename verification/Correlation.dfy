/** End-to-end correlation: a request resolves only with what the bridge's handler returned for that very request. */
module Correlation {
  import opened Prelude
  import opened JsMap
  import opened Protocol
  import opened RequestLedger
  import opened ServerFrames
  import opened ResponseCache
  import opened BridgeSystem
  import F = ClientFrames
  import Strangers
  import SystemSafety
  import S = ServerModel
  import C = ClientModel

  /** An issued request with this id and operation was given this reply: by its handler, or as the bridge's refusal. */
  ghost predicate Answered(issued: seq<BridgeRequest>, h: C.History, id: Uuid, op: Uuid, reply: Reply) {
    exists r :: r in issued && r.id == id && r.operationId == op && RepliedTo(h, r, reply)
  }

  ghost predicate RepliedTo(h: C.History, r: BridgeRequest, reply: Reply) {
    C.Replied(r, reply) in h.handled || (reply.Error? && C.Replied(r, reply) in h.refused)
  }

  ghost predicate Backed(issued: seq<BridgeRequest>, h: C.History, r: BridgeResponse) {
    Answered(issued, h, r.id, r.operationId, r.reply)
  }

  ghost predicate RequestsIssued(s: S.Server) {
    forall c, i :: c in s.sockets && 0 <= i < |s.sockets[c].out| && s.sockets[c].out[i].Request?
      ==> s.sockets[c].out[i].request in s.ledger.issued
  }

  ghost predicate TasksIssued(b: C.Client, issued: seq<BridgeRequest>) {
    forall i :: 0 <= i < |b.tasks| ==> b.tasks[i].request in issued
  }

  ghost predicate CacheBacked(b: C.Client, issued: seq<BridgeRequest>) {
    forall i :: 0 <= i < |b.responseCache| ==> Backed(issued, b.history, b.responseCache[i].value)
  }

  ghost predicate WiresBacked(b: C.Client, issued: seq<BridgeRequest>) {
    forall c, i :: c in b.wires && 0 <= i < |b.wires[c]| && b.wires[c][i].Response?
      ==> Backed(issued, b.history, b.wires[c][i].response)
  }

  /** What one settlement needs behind it. Timeouts, failed sends and lost connections are the server's own. */
  ghost predicate OutcomeBacked(issued: seq<BridgeRequest>, h: C.History, x: Settlement) {
    match x.outcome
    case Resolved(v) => Answered(issued, h, x.id, x.operationId, Value(v))
    case Rejected(reason) =>
      && reason != IdentityMismatch
      && (reason.BridgeFailed? ==> Answered(issued, h, x.id, x.operationId, Error(reason.code)))
  }

  ghost predicate SettledBacked(l: Ledger, h: C.History) {
    forall i :: 0 <= i < |l.settled| ==> OutcomeBacked(l.issued, h, l.settled[i])
  }

  ghost predicate ClientInv(b: C.Client, issued: seq<BridgeRequest>) {
    TasksIssued(b, issued) && CacheBacked(b, issued) && WiresBacked(b, issued)
  }

  ghost predicate Inv(a: System) {
    && RequestsIssued(a.server)
    && ClientInv(a.client, a.server.ledger.issued)
    && SettledBacked(a.server.ledger, a.client.history)
  }

  ghost predicate Grows(g: C.History, h: C.History) { g.handled <= h.handled && g.refused <= h.refused }

  lemma AnsweredGrows(i0: seq<BridgeRequest>, g: C.History, i1: seq<BridgeRequest>, h: C.History)
    requires i0 <= i1 && Grows(g, h)
    ensures forall id, op, reply :: Answered(i0, g, id, op, reply) ==> Answered(i1, h, id, op, reply)
  {
    forall id, op, reply | Answered(i0, g, id, op, reply) ensures Answered(i1, h, id, op, reply) {
      var r :| r in i0 && r.id == id && r.operationId == op && RepliedTo(g, r, reply);
      assert r in i1 && RepliedTo(h, r, reply);
    }
  }

  // ---- the server's side ----

  lemma SettleKeepsBacked(l: Ledger, h: C.History, id: Uuid, o: Outcome)
    requires SettledBacked(l, h)
    requires Get(l.pending, id).Some? ==>
               OutcomeBacked(l.issued, h, Settlement(id, Get(l.pending, id).value.operationId, o))
    ensures SettledBacked(Settle(l, id, o), h)
  {
  }

  lemma SettleAllKeepsBacked(l: Ledger, h: C.History, o: Outcome)
    requires SettledBacked(l, h) && o.Rejected? && !o.reason.BridgeFailed? && !o.reason.IdentityMismatch?
    ensures SettledBacked(SettleAll(l, o), h)
  {
    var n, k := SettleAll(l, o), |l.settled|;
    assert forall i :: k <= i < |n.settled| ==> n.settled[i] == SettlementOf(l.pending[i - k], o);
  }

  lemma SendingKeepsInv(s: S.Server, e: S.Event, h: C.History)
    requires e.Sending? && RequestsIssued(s) && SettledBacked(s.ledger, h)
    ensures var t := S.SendRequest(s, e.action, e.payload, e.timeoutMs, e.id, e.operationId, e.throws);
            RequestsIssued(t) && SettledBacked(t.ledger, h) && s.ledger.issued <= t.ledger.issued
  {
    if S.CheckRequest(s, e.action, e.timeoutMs).None? {
      var policy := GetActionPolicy(e.action).value;
      var r := BridgeRequest(e.id, e.operationId, e.action, policy.scope, e.payload);
      var l := Accept(s.ledger, r, policy);
      AnsweredGrows(s.ledger.issued, h, l.issued, h);
      assert SettledBacked(l, h);
      SettleKeepsBacked(l, h, e.id, Rejected(SendFailed));
      RequestsIssuedGrow(s, s.(ledger := l));
      assert r in l.issued;
    }
  }

  lemma RequestsIssuedGrow(s: S.Server, t: S.Server)
    requires RequestsIssued(s) && GainsControl(s, t) && s.ledger.issued <= t.ledger.issued
    ensures RequestsIssued(t)
  {
  }

  lemma ServerKeepsInv(cfg: S.ServerConfig, s: S.Server, e: S.Event, h: C.History)
    requires S.Enabled(s, e) && RequestsIssued(s) && SettledBacked(s.ledger, h) && Valid(s.ledger)
    requires e.Message? && e.msg.Response? && s.client == Some(e.conn) && s.clientAccepted ==>
               Backed(s.ledger.issued, h, e.msg.response)
    ensures var t := S.Step(cfg, s, e);
            RequestsIssued(t) && SettledBacked(t.ledger, h) && s.ledger.issued <= t.ledger.issued
  {
    var t := S.Step(cfg, s, e);
    if e.Sending? {
      SendingKeepsInv(s, e, h);
    } else if e.RequestTimer? {
      SettleKeepsBacked(s.ledger, h, e.id, Rejected(TimedOut));
    } else if e.Closed? {
      SettleAllKeepsBacked(s.ledger, h, Rejected(ConnectionLost));
    } else if e.Message? && e.msg.Response? {
      if s.client == Some(e.conn) { ResponseKeepsInv(s, e.msg.response, h); }
    } else {
      StepIsQuiet(cfg, s, e);
      RequestsIssuedGrow(s, t);
    }
  }

  lemma ResponseKeepsInv(s: S.Server, r: BridgeResponse, h: C.History)
    requires RequestsIssued(s) && SettledBacked(s.ledger, h) && Valid(s.ledger)
    requires s.clientAccepted ==> Backed(s.ledger.issued, h, r)
    ensures var t := S.HandleResponse(s, r);
            RequestsIssued(t) && SettledBacked(t.ledger, h) && s.ledger.issued == t.ledger.issued
  {
    ResponseStep(s, r);
    var t := S.HandleResponse(s, r);
    RequestsIssuedGrow(s, t);
    if s.clientAccepted && Get(s.ledger.pending, r.id).Some? {
      var p := Get(s.ledger.pending, r.id).value;
      OwnOperation(s.ledger, h, r, p);
      SettleKeepsBacked(s.ledger, h, r.id, S.OutcomeOf(p, r));
    }
  }

  /** A backed response that names a pending request names its operation, too. */
  lemma OwnOperation(l: Ledger, h: C.History, r: BridgeResponse, p: Pending)
    requires Valid(l) && Backed(l.issued, h, r) && Get(l.pending, r.id) == Some(p)
    ensures r.operationId == p.operationId
  {
    var q :| q in l.issued && q.id == r.id && q.operationId == r.operationId && RepliedTo(h, q, r.reply);
    var e := Find(l.pending, r.id);
    assert Known(l.issued, l.pending[e].key, l.pending[e].value.operationId, l.pending[e].value.action);
    var i :| 0 <= i < |l.issued| && l.issued[i].id == r.id && l.issued[i].operationId == p.operationId;
    var j :| 0 <= j < |l.issued| && l.issued[j] == q;
    assert i == j;
  }

  // ---- the bridge's side ----

  lemma ClientInvGrows(b: C.Client, i0: seq<BridgeRequest>, i1: seq<BridgeRequest>)
    requires ClientInv(b, i0) && i0 <= i1
    ensures ClientInv(b, i1)
  {
    AnsweredGrows(i0, b.history, i1, b.history);
  }

  lemma SendKeepsInv(b: C.Client, m: ToServer, issued: seq<BridgeRequest>)
    requires ClientInv(b, issued) && (m.Response? ==> Backed(issued, b.history, m.response))
    ensures ClientInv(C.Send(b, m), issued)
  {
  }

  lemma RespondKeepsInv(b: C.Client, t: C.Task, reply: Reply, issued: seq<BridgeRequest>)
    requires ClientInv(b, issued)
    requires Backed(issued, b.history, BridgeResponse(t.request.id, t.request.operationId, reply))
    ensures ClientInv(C.Respond(b, t, reply), issued)
  {
    var response := BridgeResponse(t.request.id, t.request.operationId, reply);
    var d := b.(responseCache := Remember(b.responseCache, t.request.operationId, response),
                history := b.history.(cached := b.history.cached + [Entry(t.request.operationId, response)]));
    AnsweredGrows(issued, b.history, issued, d.history);
    RememberEntries(b.responseCache, t.request.operationId, response);
    assert ClientInv(d, issued);
    SendKeepsInv(d, Response(response), issued);
  }

  lemma RememberEntries(cache: Cache, op: Uuid, r: BridgeResponse)
    ensures forall i :: 0 <= i < |Remember(cache, op, r)| ==>
              Remember(cache, op, r)[i] == Entry(op, r) || Remember(cache, op, r)[i] in cache
  {
  }

  lemma FinishKeepsInv(b: C.Client, i: nat, reply: Reply, issued: seq<BridgeRequest>)
    requires ClientInv(b, issued) && i < |b.tasks|
    ensures ClientInv(C.FinishTask(b, i, reply), issued)
    ensures Grows(b.history, C.FinishTask(b, i, reply).history)
  {
    var t := b.tasks[i];
    var d := b.(tasks := b.tasks[..i] + b.tasks[i + 1..],
                history := b.history.(handled := b.history.handled + [C.Replied(t.request, reply)]));
    AnsweredGrows(issued, b.history, issued, d.history);
    assert ClientInv(d, issued);
    assert RepliedTo(d.history, t.request, reply) && t.request in issued;
    RespondKeepsInv(d, t, reply, issued);
  }

  lemma RequestKeepsInv(cfg: C.ClientConfig, b: C.Client, r: BridgeRequest, issued: seq<BridgeRequest>)
    requires ClientInv(b, issued) && r in issued
    ensures ClientInv(C.HandleRequest(cfg, b, r), issued)
    ensures Grows(b.history, C.HandleRequest(cfg, b, r).history)
  {
    var c := b.(history := b.history.(received := b.history.received + {r.operationId}));
    AnsweredGrows(issued, b.history, issued, c.history);
    DecisionKeepsInv(c, r, Get(c.responseCache, r.operationId), C.Gate(cfg, c, r), issued);
  }

  lemma DecisionKeepsInv(
    b: C.Client, r: BridgeRequest, held: Option<BridgeResponse>, refused: Option<ErrorCode>, issued: seq<BridgeRequest>)
    requires ClientInv(b, issued) && r in issued && (held.Some? ==> Backed(issued, b.history, held.value))
    ensures ClientInv(C.Decide(b, r, held, refused), issued)
    ensures Grows(b.history, C.Decide(b, r, held, refused).history)
  {
    if held.Some? {
      SendKeepsInv(b, Response(held.value), issued);
    } else if refused.Some? {
      var reply := Error(refused.value);
      var d := b.(history := b.history.(refused := b.history.refused + [C.Replied(r, reply)]));
      AnsweredGrows(issued, b.history, issued, d.history);
      assert RepliedTo(d.history, r, reply);
      RespondKeepsInv(d, C.Task(r, C.CurrentSocket(b)), reply, issued);
    } else {
      var d := b.(tasks := b.tasks + [C.Task(r, C.CurrentSocket(b))],
                  history := b.history.(started := b.history.started + [r]));
      AnsweredGrows(issued, b.history, issued, d.history);
    }
  }

  lemma BridgeKeepsInv(cfg: C.ClientConfig, b: C.Client, e: C.Event, issued: seq<BridgeRequest>)
    requires C.Enabled(b, e) && ClientInv(b, issued)
    requires e.Receives? && e.msg.Request? ==> e.msg.request in issued
    ensures ClientInv(C.Step(cfg, b, e), issued) && Grows(b.history, C.Step(cfg, b, e).history)
  {
    if e.HandlerDone? {
      FinishKeepsInv(b, e.task, e.reply, issued);
    } else if e.Receives? && e.msg.Request? {
      RequestKeepsInv(cfg, b, e.msg.request, issued);
    } else {
      QuietStepKeepsInv(cfg, b, e, issued);
    }
  }

  lemma QuietStepKeepsInv(cfg: C.ClientConfig, b: C.Client, e: C.Event, issued: seq<BridgeRequest>)
    requires C.Enabled(b, e) && ClientInv(b, issued) && !e.HandlerDone? && !(e.Receives? && e.msg.Request?)
    ensures ClientInv(C.Step(cfg, b, e), issued) && Grows(b.history, C.Step(cfg, b, e).history)
  {
    F.StepIsQuiet(cfg, b, e);
    QuietKeepsInv(b, C.Step(cfg, b, e), issued);
  }

  lemma QuietKeepsInv(b: C.Client, c: C.Client, issued: seq<BridgeRequest>)
    requires ClientInv(b, issued) && F.Quiet(b, c)
    ensures ClientInv(c, issued) && Grows(b.history, c.history)
  {
    AnsweredGrows(issued, b.history, issued, c.history);
  }

  // ---- both ----

  lemma StepKeepsInv(cfg: Config, a: System, b: System, step: Step)
    requires Next(cfg, a, b, step) && Inv(a) && SystemSafety.Safe(cfg, a) && Strangers.Inv(a)
    ensures Inv(b)
  {
    if step.BridgeReceives? {
      BridgeStepKeepsInv(cfg.client, a, b, C.Receives(NextMessage(a), step.clientNonce));
    } else if step.BridgeLocal? {
      BridgeStepKeepsInv(cfg.client, a, b, step.bridgeEvent);
    } else {
      ServerStepKeepsInv(cfg, a, b, step);
    }
  }

  lemma BridgeStepKeepsInv(cfg: C.ClientConfig, a: System, b: System, e: C.Event)
    requires C.Enabled(a.client, e) && b.client == C.Step(cfg, a.client, e) && Inv(a)
    requires e.Receives? ==> Deliverable(a) && e.msg == NextMessage(a)
    requires b.server == if e.Receives? then PopFromServer(a.server, a.client.ws.value.id) else a.server
    ensures Inv(b)
  {
    var issued := a.server.ledger.issued;
    BridgeKeepsInv(cfg, a.client, e, issued);
    AnsweredGrows(issued, a.client.history, issued, b.client.history);
  }

  lemma ServerStepKeepsInv(cfg: Config, a: System, b: System, step: Step)
    requires !step.BridgeReceives? && !step.BridgeLocal?
    requires Next(cfg, a, b, step) && Inv(a) && SystemSafety.Safe(cfg, a) && Strangers.Inv(a)
    ensures Inv(b)
  {
    var issued := a.server.ledger.issued;
    match step
    case ServerAccepts(c, nonce) =>
      ServerKeepsInv(cfg.server, a.server, S.Connection(c, nonce), a.client.history);
      ClientInvGrows(a.client, issued, b.server.ledger.issued);
    case ServerReceives(c, d) =>
      ServerKeepsInv(cfg.server, a.server, S.Message(c, a.client.wires[c][0], d), a.client.history);
      PoppingKeepsInv(a.client, c, issued);
      ClientInvGrows(b.client, issued, b.server.ledger.issued);
    case ServerLocal(e) =>
      ServerKeepsInv(cfg.server, a.server, e, a.client.history);
      ClientInvGrows(a.client, issued, b.server.ledger.issued);
    case StrangerConnects(c, nonce) =>
      ServerKeepsInv(cfg.server, a.server, S.Connection(c, nonce), a.client.history);
      ClientInvGrows(a.client, issued, b.server.ledger.issued);
    case StrangerSends(c, m, d) =>
      assert Strangers.Outside(a.server, c);
      ServerKeepsInv(cfg.server, a.server, S.Message(c, m, d), a.client.history);
      ClientInvGrows(a.client, issued, b.server.ledger.issued);
  }

  lemma PoppingKeepsInv(b: C.Client, c: ConnId, issued: seq<BridgeRequest>)
    requires c in b.wires && b.wires[c] != [] && ClientInv(b, issued)
    ensures ClientInv(PopFromBridge(b, c), issued)
  {
  }

  lemma InitialInv(cfg: Config, a: System)
    requires Initial(cfg, a)
    ensures Inv(a)
  {
  }

  lemma {:induction false} RunKeepsInv(cfg: Config, steps: seq<Step>, trace: seq<System>, k: nat)
    requires IsRun(cfg, steps, trace) && k < |trace|
    ensures Inv(trace[k])
  {
    if k == 0 {
      InitialInv(cfg, trace[0]);
    } else {
      RunKeepsInv(cfg, steps, trace, k - 1);
      SystemSafety.RunIsSafe(cfg, steps, trace, k - 1);
      Strangers.RunKeepsInv(cfg, steps, trace, k - 1);
      StepKeepsInv(cfg, trace[k - 1], trace[k], steps[k - 1]);
    }
  }

  /**
   In every state of every run, whatever strangers send: a request that resolved with a value is one whose handler
   the bridge ran, on the same id, operation, action, scope and payload, and that value is what the handler returned.
   */
  lemma ResolvesOnlyWithHandlersValue(
    cfg: Config, steps: seq<Step>, trace: seq<System>, k: nat, i: nat, r: BridgeRequest)
    requires IsRun(cfg, steps, trace) && k < |trace|
    requires i < |trace[k].server.ledger.settled| && trace[k].server.ledger.settled[i].outcome.Resolved?
    requires r in trace[k].server.ledger.issued && r.id == trace[k].server.ledger.settled[i].id
    ensures C.Replied(r, Value(trace[k].server.ledger.settled[i].outcome.value)) in trace[k].client.history.handled
  {
    RunKeepsInv(cfg, steps, trace, k);
    SystemSafety.RunIsSafe(cfg, steps, trace, k);
    var x := trace[k].server.ledger.settled[i];
    AnsweredIsTheRequest(trace[k].server.ledger, trace[k].client.history, x, r, Value(x.outcome.value));
  }

  /** And a request that failed with an error of the bridge got exactly that error from the bridge for that request. */
  lemma FailsOnlyWithBridgesReply(
    cfg: Config, steps: seq<Step>, trace: seq<System>, k: nat, i: nat, r: BridgeRequest)
    requires IsRun(cfg, steps, trace) && k < |trace|
    requires i < |trace[k].server.ledger.settled| && trace[k].server.ledger.settled[i].outcome.Rejected?
    requires trace[k].server.ledger.settled[i].outcome.reason.BridgeFailed?
    requires r in trace[k].server.ledger.issued && r.id == trace[k].server.ledger.settled[i].id
    ensures RepliedTo(
      trace[k].client.history, r, Error(trace[k].server.ledger.settled[i].outcome.reason.code))
  {
    RunKeepsInv(cfg, steps, trace, k);
    SystemSafety.RunIsSafe(cfg, steps, trace, k);
    var x := trace[k].server.ledger.settled[i];
    AnsweredIsTheRequest(trace[k].server.ledger, trace[k].client.history, x, r, Error(x.outcome.reason.code));
  }

  /** No other operation's response ever settles a request: the identity check never has to reject one. */
  lemma NeverSettledByAnotherOperation(cfg: Config, steps: seq<Step>, trace: seq<System>, k: nat, i: nat)
    requires IsRun(cfg, steps, trace) && k < |trace| && i < |trace[k].server.ledger.settled|
    ensures trace[k].server.ledger.settled[i].outcome != Rejected(IdentityMismatch)
  {
    RunKeepsInv(cfg, steps, trace, k);
    assert OutcomeBacked(
        trace[k].server.ledger.issued, trace[k].client.history, trace[k].server.ledger.settled[i]);
  }

  lemma AnsweredIsTheRequest(l: Ledger, h: C.History, x: Settlement, r: BridgeRequest, reply: Reply)
    requires Valid(l) && Answered(l.issued, h, x.id, x.operationId, reply) && r in l.issued && r.id == x.id
    ensures RepliedTo(h, r, reply)
  {
    var q :| q in l.issued && q.id == x.id && q.operationId == x.operationId && RepliedTo(h, q, reply);
    var i :| 0 <= i < |l.issued| && l.issued[i] == q;
    var j :| 0 <= j < |l.issued| && l.issued[j] == r;
    assert i == j;
  }
}
