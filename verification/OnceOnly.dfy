/**
 Every operation reaches the bridge at most once, so its handler runs at most once and the response cache is a FIFO.
 */
module OnceOnly {
  import opened Prelude
  import opened JsMap
  import opened Protocol
  import opened RequestLedger
  import opened ResponseCache
  import opened BridgeSystem
  import S = ServerModel
  import C = ClientModel
  import SF = ServerFrames
  import CF = ClientFrames

  ghost predicate IssuedOp(issued: seq<BridgeRequest>, op: Uuid) {
    exists i :: 0 <= i < |issued| && issued[i].operationId == op
  }

  ghost predicate InQueue(s: S.Server, c: ConnId, i: int, op: Uuid) {
    && c in s.sockets && 0 <= i < |s.sockets[c].out|
    && s.sockets[c].out[i].Request? && s.sockets[c].out[i].request.operationId == op
  }

  /** Requests in flight are issued and not yet received, and no operation is in flight twice. */
  ghost predicate InFlightOnce(s: S.Server, received: set<Uuid>) {
    && (forall c, i, op :: InQueue(s, c, i, op) ==> op !in received && IssuedOp(s.ledger.issued, op))
    && (forall c, i, d, j, op :: InQueue(s, c, i, op) && InQueue(s, d, j, op) ==> c == d && i == j)
  }

  ghost predicate ReceivedIssued(received: set<Uuid>, issued: seq<BridgeRequest>) {
    && (forall op :: op in received ==> IssuedOp(issued, op))
    && (forall i :: 0 <= i < |issued| ==> issued[i].operationId != EMPTY_ID)
  }

  /** A received operation is in progress at most once, or was answered at most once, never both. */
  ghost predicate AnsweredOnce(
    tasks: seq<C.Task>, handled: seq<C.Replied>, cached: seq<Entry<Uuid, BridgeResponse>>, received: set<Uuid>)
  {
    && (forall i :: 0 <= i < |tasks| ==> tasks[i].request.operationId in received)
    && (forall i :: 0 <= i < |handled| ==> handled[i].request.operationId in received)
    && (forall i :: 0 <= i < |cached| ==> cached[i].key in received)
    && (forall i, j :: 0 <= i < j < |tasks| ==> tasks[i].request.operationId != tasks[j].request.operationId)
    && (forall i, j :: 0 <= i < j < |handled| ==> handled[i].request.operationId != handled[j].request.operationId)
    && Unique(cached)
    && (forall i, j :: 0 <= i < |tasks| && 0 <= j < |handled| ==>
          tasks[i].request.operationId != handled[j].request.operationId)
    && (forall i, j :: 0 <= i < |tasks| && 0 <= j < |cached| ==> tasks[i].request.operationId != cached[j].key)
  }

  /** A handler is started only for a received operation, and never twice for one. */
  ghost predicate StartedOnce(started: seq<BridgeRequest>, received: set<Uuid>) {
    && (forall i :: 0 <= i < |started| ==> started[i].operationId in received)
    && (forall i, j :: 0 <= i < j < |started| ==> started[i].operationId != started[j].operationId)
  }

  ghost predicate WorkedOnce(b: C.Client) {
    && AnsweredOnce(b.tasks, b.history.handled, b.history.cached, b.history.received)
    && StartedOnce(b.history.started, b.history.received)
    && b.responseCache == After(b.history.cached)
  }

  ghost predicate Inv(a: System) {
    && InFlightOnce(a.server, a.client.history.received)
    && ReceivedIssued(a.client.history.received, a.server.ledger.issued)
    && WorkedOnce(a.client)
  }

  // ---- the server's side ----

  lemma ControlKeepsInFlight(s: S.Server, t: S.Server, received: set<Uuid>)
    requires InFlightOnce(s, received) && SF.GainsControl(s, t) && s.ledger.issued == t.ledger.issued
    ensures InFlightOnce(t, received)
  {
    assert forall c, i, op :: InQueue(t, c, i, op) ==> InQueue(s, c, i, op);
  }

  lemma SendingKeepsInFlight(s: S.Server, e: S.Event, received: set<Uuid>)
    requires e.Sending? && S.Enabled(s, e) && InFlightOnce(s, received) && ReceivedIssued(received, s.ledger.issued)
    ensures var t := S.SendRequest(s, e.action, e.payload, e.timeoutMs, e.id, e.operationId, e.throws);
            InFlightOnce(t, received) && ReceivedIssued(received, t.ledger.issued)
  {
    var t := S.SendRequest(s, e.action, e.payload, e.timeoutMs, e.id, e.operationId, e.throws);
    if S.CheckRequest(s, e.action, e.timeoutMs).None? {
      var n := |s.ledger.issued|;
      assert t.ledger.issued[..n] == s.ledger.issued && t.ledger.issued[n].operationId == e.operationId;
      IssuedOpGrows(s.ledger.issued, t.ledger.issued);
      assert forall op :: IssuedOp(s.ledger.issued, op) ==> op != e.operationId;
      forall c, i, op | InQueue(t, c, i, op)
        ensures InQueue(s, c, i, op) || (op == e.operationId && Some(c) == s.client && i == |s.sockets[c].out|)
      {
      }
    }
  }

  lemma IssuedOpGrows(i0: seq<BridgeRequest>, i1: seq<BridgeRequest>)
    requires i0 <= i1
    ensures forall op :: IssuedOp(i0, op) ==> IssuedOp(i1, op)
  {
    forall op | IssuedOp(i0, op) ensures IssuedOp(i1, op) {
      var i :| 0 <= i < |i0| && i0[i].operationId == op;
      assert i1[i] == i0[i];
    }
  }

  lemma ServerKeepsInv(cfg: S.ServerConfig, s: S.Server, e: S.Event, received: set<Uuid>)
    requires S.Enabled(s, e) && InFlightOnce(s, received) && ReceivedIssued(received, s.ledger.issued)
    ensures var t := S.Step(cfg, s, e); InFlightOnce(t, received) && ReceivedIssued(received, t.ledger.issued)
  {
    var t := S.Step(cfg, s, e);
    if e.Sending? {
      SendingKeepsInFlight(s, e, received);
    } else {
      if e.Message? && e.msg.Response? {
        SF.ResponseStep(s, e.msg.response);
      } else if !e.RequestTimer? && !e.Closed? {
        SF.StepIsQuiet(cfg, s, e);
      }
      ControlKeepsInFlight(s, t, received);
    }
  }

  // ---- the bridge's side ----

  /** `op` was received and has not been given a task, a handler result or a response. */
  ghost predicate Unworked(
    tasks: seq<C.Task>, handled: seq<C.Replied>, cached: seq<Entry<Uuid, BridgeResponse>>, op: Uuid)
  {
    && (forall i :: 0 <= i < |tasks| ==> tasks[i].request.operationId != op)
    && (forall i :: 0 <= i < |handled| ==> handled[i].request.operationId != op)
    && (forall i :: 0 <= i < |cached| ==> cached[i].key != op)
  }

  lemma RemoveTask(
    tasks: seq<C.Task>, handled: seq<C.Replied>, cached: seq<Entry<Uuid, BridgeResponse>>, received: set<Uuid>, i: nat)
    requires AnsweredOnce(tasks, handled, cached, received) && i < |tasks|
    ensures var rest := tasks[..i] + tasks[i + 1..];
            && AnsweredOnce(rest, handled, cached, received)
            && Unworked(rest, handled, cached, tasks[i].request.operationId)
  {
    var rest := tasks[..i] + tasks[i + 1..];
    assert forall j :: 0 <= j < |rest| ==> rest[j] == tasks[if j < i then j else j + 1];
  }

  lemma AddHandled(
    tasks: seq<C.Task>, handled: seq<C.Replied>, cached: seq<Entry<Uuid, BridgeResponse>>, received: set<Uuid>,
    h: C.Replied)
    requires AnsweredOnce(tasks, handled, cached, received)
    requires h.request.operationId in received && Unworked(tasks, handled, cached, h.request.operationId)
    ensures AnsweredOnce(tasks, handled + [h], cached, received)
  {
  }

  lemma RespondKeepsWork(b: C.Client, t: C.Task, reply: Reply)
    requires WorkedOnce(b) && t.request.operationId in b.history.received
    requires forall i :: 0 <= i < |b.tasks| ==> b.tasks[i].request.operationId != t.request.operationId
    requires forall i :: 0 <= i < |b.history.cached| ==> b.history.cached[i].key != t.request.operationId
    ensures WorkedOnce(C.Respond(b, t, reply)) && C.Respond(b, t, reply).history.received == b.history.received
  {
    var e := Entry(t.request.operationId, BridgeResponse(t.request.id, t.request.operationId, reply));
    assert (b.history.cached + [e])[..|b.history.cached|] == b.history.cached;
    AddCached(b.tasks, b.history.handled, b.history.cached, b.history.received, e);
  }

  lemma AddCached(
    tasks: seq<C.Task>, handled: seq<C.Replied>, cached: seq<Entry<Uuid, BridgeResponse>>, received: set<Uuid>,
    e: Entry<Uuid, BridgeResponse>)
    requires AnsweredOnce(tasks, handled, cached, received) && e.key in received
    requires forall i :: 0 <= i < |tasks| ==> tasks[i].request.operationId != e.key
    requires forall i :: 0 <= i < |cached| ==> cached[i].key != e.key
    ensures AnsweredOnce(tasks, handled, cached + [e], received)
  {
  }

  lemma FinishKeepsWork(b: C.Client, i: nat, reply: Reply)
    requires WorkedOnce(b) && i < |b.tasks|
    ensures WorkedOnce(C.FinishTask(b, i, reply)) && C.FinishTask(b, i, reply).history.received == b.history.received
  {
    var t := b.tasks[i];
    var rest := b.tasks[..i] + b.tasks[i + 1..];
    RemoveTask(b.tasks, b.history.handled, b.history.cached, b.history.received, i);
    var h := C.Replied(t.request, reply);
    var d := b.(tasks := rest, history := b.history.(handled := b.history.handled + [h]));
    AddHandled(rest, b.history.handled, b.history.cached, b.history.received, h);
    RespondKeepsWork(d, t, reply);
  }

  lemma NewRequestKeepsWork(cfg: C.ClientConfig, b: C.Client, r: BridgeRequest)
    requires WorkedOnce(b) && r.operationId !in b.history.received
    ensures WorkedOnce(C.HandleRequest(cfg, b, r))
    ensures C.HandleRequest(cfg, b, r).history.received == b.history.received + {r.operationId}
    ensures Get(b.responseCache, r.operationId).None?
  {
    AfterKeys(b.history.cached);
    GetIffKey(b.responseCache, r.operationId);
    var c := b.(history := b.history.(received := b.history.received + {r.operationId}));
    assert WorkedOnce(c);
    assert forall i :: 0 <= i < |c.history.started| ==> c.history.started[i].operationId != r.operationId;
    AcceptKeepsWork(c, r, C.Gate(cfg, c, r));
  }

  lemma AcceptKeepsWork(c: C.Client, r: BridgeRequest, refused: Option<ErrorCode>)
    requires WorkedOnce(c) && r.operationId in c.history.received
    requires Unworked(c.tasks, c.history.handled, c.history.cached, r.operationId)
    requires forall i :: 0 <= i < |c.history.started| ==> c.history.started[i].operationId != r.operationId
    ensures WorkedOnce(C.Decide(c, r, None, refused))
    ensures C.Decide(c, r, None, refused).history.received == c.history.received
  {
    if refused.Some? {
      var reply := Error(refused.value);
      var d := c.(history := c.history.(refused := c.history.refused + [C.Replied(r, reply)]));
      RespondKeepsWork(d, C.Task(r, C.CurrentSocket(c)), reply);
    }
  }

  lemma {:induction false} AfterKeys(log: seq<Entry<Uuid, BridgeResponse>>)
    ensures Keys(After(log)) <= Keys(log)
  {
    if log != [] {
      var before := log[..|log| - 1];
      AfterKeys(before);
      var op := log[|log| - 1].key;
      forall k | k in Keys(After(log)) ensures k in Keys(log) {
        RememberKeys(After(before), op, log[|log| - 1].value, k);
        if k != op {
          var i :| 0 <= i < |before| && before[i].key == k;
          assert log[i].key == k;
        }
      }
    }
  }

  lemma RememberKeys(cache: Cache, op: Uuid, r: BridgeResponse, k: Uuid)
    requires k in Keys(Remember(cache, op, r))
    ensures k == op || k in Keys(cache)
  {
    var m := Remember(cache, op, r);
    var i :| 0 <= i < |m| && m[i].key == k;
    assert m[i] == Entry(op, r) || m[i] in cache;
  }

  // ---- both ----

  lemma PoppingKeepsInFlight(s: S.Server, c: ConnId, received: set<Uuid>)
    requires c in s.sockets && s.sockets[c].out != [] && InFlightOnce(s, received)
    ensures var m, t := s.sockets[c].out[0], PopFromServer(s, c);
            InFlightOnce(t, if m.Request? then received + {m.request.operationId} else received)
  {
    var m, t := s.sockets[c].out[0], PopFromServer(s, c);
    forall d, i, op | InQueue(t, d, i, op) ensures InQueue(s, d, if d == c then i + 1 else i, op) {}
    if m.Request? {
      assert InQueue(s, c, 0, m.request.operationId);
    }
  }

  lemma ReceivingKeepsInv(cfg: Config, a: System, b: System, nonce: Uuid)
    requires Next(cfg, a, b, BridgeReceives(nonce)) && Inv(a)
    ensures Inv(b)
  {
    var m := NextMessage(a);
    PoppingKeepsInFlight(a.server, a.client.ws.value.id, a.client.history.received);
    if m.Request? { assert InQueue(a.server, a.client.ws.value.id, 0, m.request.operationId); }
    HearingKeepsWork(cfg.client, a.client, m, nonce);
  }

  lemma HearingKeepsWork(cfg: C.ClientConfig, b: C.Client, m: ToBridge, nonce: Uuid)
    requires WorkedOnce(b) && (m.Request? ==> m.request.operationId !in b.history.received)
    ensures var n := C.HandleMessage(cfg, b, m, nonce);
      && WorkedOnce(n)
      && n.history.received
           == if m.Request? then b.history.received + {m.request.operationId} else b.history.received
  {
    if m.Request? {
      NewRequestKeepsWork(cfg, b, m.request);
    } else {
      CF.MessageIsQuiet(cfg, b, m, nonce);
    }
  }

  lemma LocalKeepsWork(cfg: C.ClientConfig, b: C.Client, e: C.Event)
    requires C.Enabled(b, e) && !e.Receives? && WorkedOnce(b)
    ensures WorkedOnce(C.Step(cfg, b, e)) && C.Step(cfg, b, e).history.received == b.history.received
  {
    if e.HandlerDone? {
      FinishKeepsWork(b, e.task, e.reply);
    } else {
      CF.StepIsQuiet(cfg, b, e);
    }
  }

  lemma StepKeepsInv(cfg: Config, a: System, b: System, step: Step)
    requires Next(cfg, a, b, step) && Inv(a)
    ensures Inv(b)
  {
    match step
    case ServerAccepts(c, nonce) =>
      ServerKeepsInv(cfg.server, a.server, S.Connection(c, nonce), a.client.history.received);
    case ServerReceives(c, d) =>
      ServerKeepsInv(cfg.server, a.server, S.Message(c, a.client.wires[c][0], d), a.client.history.received);
    case ServerLocal(e) => ServerKeepsInv(cfg.server, a.server, e, a.client.history.received);
    case BridgeReceives(nonce) => ReceivingKeepsInv(cfg, a, b, nonce);
    case BridgeLocal(e) => LocalKeepsWork(cfg.client, a.client, e);
    case StrangerConnects(c, nonce) =>
      ServerKeepsInv(cfg.server, a.server, S.Connection(c, nonce), a.client.history.received);
    case StrangerSends(c, m, d) =>
      ServerKeepsInv(cfg.server, a.server, S.Message(c, m, d), a.client.history.received);
  }

  lemma InitialInv(cfg: Config, a: System)
    requires Initial(cfg, a)
    ensures Inv(a)
  {
  }

  lemma {:induction false} RunKeepsInv(cfg: Config, steps: seq<Step>, trace: seq<System>, k: nat)
    requires IsRun(cfg, steps, trace) && k < |trace|
    ensures Inv(trace[k])
  {
    if k == 0 {
      InitialInv(cfg, trace[0]);
    } else {
      RunKeepsInv(cfg, steps, trace, k - 1);
      StepKeepsInv(cfg, trace[k - 1], trace[k], steps[k - 1]);
    }
  }

  /** In every run a handler is started at most once for any operation, whether it then returns, throws or times out. */
  lemma HandlerRunsAtMostOnce(cfg: Config, steps: seq<Step>, trace: seq<System>, k: nat, i: nat, j: nat)
    requires IsRun(cfg, steps, trace) && k < |trace|
    requires i < |trace[k].client.history.started| && j < |trace[k].client.history.started|
    requires trace[k].client.history.started[i].operationId == trace[k].client.history.started[j].operationId
    ensures i == j
  {
    RunKeepsInv(cfg, steps, trace, k);
    var started := trace[k].client.history.started;
    assert !(i < j) && !(j < i);
  }

  /** And it replies at most once. */
  lemma HandlerRepliesAtMostOnce(cfg: Config, steps: seq<Step>, trace: seq<System>, k: nat, i: nat, j: nat)
    requires IsRun(cfg, steps, trace) && k < |trace|
    requires i < |trace[k].client.history.handled| && j < |trace[k].client.history.handled|
    requires trace[k].client.history.handled[i].request.operationId
          == trace[k].client.history.handled[j].request.operationId
    ensures i == j
  {
    RunKeepsInv(cfg, steps, trace, k);
    var handled := trace[k].client.history.handled;
    assert !(i < j) && !(j < i);
  }

  /** In every run the response cache holds exactly the last 256 responses, oldest first. */
  lemma CacheHoldsLast256(cfg: Config, steps: seq<Step>, trace: seq<System>, k: nat)
    requires IsRun(cfg, steps, trace) && k < |trace|
    ensures trace[k].client.responseCache == Last(trace[k].client.history.cached, 256)
  {
    RunKeepsInv(cfg, steps, trace, k);
    NewOperationsAreFifo(trace[k].client.history.cached);
  }
}
