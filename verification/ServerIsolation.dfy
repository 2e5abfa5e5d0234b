/** Who can influence the server: only the current socket, and a promise only through a response under its own id. */
module ServerIsolation {
  import opened Prelude
  import opened JsMap
  import opened Protocol
  import opened RequestLedger
  import opened ServerModel
  import opened ServerFrames

  /** Nothing another socket does reaches an open client, its authentication, or the book. */
  lemma StrangersChangeNothing(cfg: ServerConfig, s: Server, e: Event, c: ConnId)
    requires Enabled(s, e) && ClientOpen(s) && s.client == Some(c)
    requires e.Connection? || e.Message? || e.LeavesOpen? || e.Closed? || e.HelloTimer?
    requires e.conn != c
    ensures var t := Step(cfg, s, e);
      && t == s.(sockets := t.sockets, helloTimers := t.helloTimers)
      && c in t.sockets && t.sockets[c] == s.sockets[c]
  {
  }

  /** Outcomes that only a response can bring, unlike timeouts, lost connections and failed sends. */
  ghost predicate ByResponse(o: Outcome) {
    o.Resolved? || o == Rejected(IdentityMismatch) || (o.Rejected? && o.reason.BridgeFailed?)
  }

  /** The response in this event, read from the accepted current socket, is what settled the request it names. */
  ghost predicate Answers(s: Server, e: Event, x: Settlement) {
    && e.Message? && s.client == Some(e.conn) && s.clientAccepted && e.msg.Response?
    && Get(s.ledger.pending, e.msg.response.id).Some?
    && var p := Get(s.ledger.pending, e.msg.response.id).value;
       x == Settlement(e.msg.response.id, p.operationId, OutcomeOf(p, e.msg.response))
  }

  /**
   A promise resolves only at its own response, on the accepted socket; and only a response under its own id can
   make it fail with the bridge's error or for a foreign operation.
   */
  lemma SettlesOnlyByItsResponse(cfg: ServerConfig, s: Server, e: Event, i: nat)
    requires Enabled(s, e)
    requires |s.ledger.settled| <= i < |Step(cfg, s, e).ledger.settled|
    requires ByResponse(Step(cfg, s, e).ledger.settled[i].outcome)
    ensures Answers(s, e, Step(cfg, s, e).ledger.settled[i])
  {
    var t := Step(cfg, s, e);
    if e.Message? && e.msg.Response? {
      var r := e.msg.response;
      if s.client == Some(e.conn) && s.clientAccepted && Get(s.ledger.pending, r.id).Some? {
        SettlesLast(s.ledger, r.id, OutcomeOf(Get(s.ledger.pending, r.id).value, r), i);
      }
    } else if e.Sending? {
      SendingRejects(s, e, i);
    } else if e.RequestTimer? {
      SettlesLast(s.ledger, e.id, Rejected(TimedOut), i);
    } else if !e.Closed? {
      StepIsQuiet(cfg, s, e);
    }
  }

  lemma SettlesLast(l: Ledger, id: Uuid, o: Outcome, i: nat)
    requires |l.settled| <= i < |Settle(l, id, o).settled|
    ensures Get(l.pending, id).Some?
    ensures Settle(l, id, o).settled[i] == Settlement(id, Get(l.pending, id).value.operationId, o)
  {
  }

  lemma SendingRejects(s: Server, e: Event, i: nat)
    requires e.Sending? && Enabled(s, e)
    requires var t := SendRequest(s, e.action, e.payload, e.timeoutMs, e.id, e.operationId, e.throws);
             |s.ledger.settled| <= i < |t.ledger.settled|
    ensures SendRequest(s, e.action, e.payload, e.timeoutMs, e.id, e.operationId, e.throws).ledger.settled[i].outcome
         == Rejected(SendFailed)
  {
    if CheckRequest(s, e.action, e.timeoutMs).None? && e.throws {
      var policy := GetActionPolicy(e.action).value;
      var r := BridgeRequest(e.id, e.operationId, e.action, policy.scope, e.payload);
      SettlesLast(Accept(s.ledger, r, policy), e.id, Rejected(SendFailed), i);
    }
  }
}
