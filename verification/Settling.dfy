/** What settles a request, with which outcome, and what the audit says about it, over every run of the server. */
module Settling {
  import opened Prelude
  import opened JsMap
  import opened Protocol
  import opened RequestLedger
  import opened ServerModel
  import ServerFrames
  import ServerSafety
  import AuthState

  /** The requests `gone` leave the book, in order, each with this outcome and this word in the audit. */
  ghost predicate SettlesAs(l: Ledger, n: Ledger, gone: seq<Entry<Uuid, Pending>>, o: Outcome, word: AuditOutcome) {
    && |n.settled| == |l.settled| + |gone| && n.settled[..|l.settled|] == l.settled
    && |n.audit| == |l.audit| + |gone| && n.audit[..|l.audit|] == l.audit
    && (forall i :: 0 <= i < |gone| ==>
          && n.settled[|l.settled| + i] == Settlement(gone[i].key, gone[i].value.operationId, o)
          && n.audit[|l.audit| + i]
             == AuditEntry(gone[i].key, gone[i].value.operationId, gone[i].value.action, gone[i].value.policy, word))
    && (forall id :: Get(n.pending, id) == if id in Keys(gone) then None else Get(l.pending, id))
    && n.timers == l.timers - Keys(gone) && n.issued == l.issued
  }

  ghost predicate SettlesOne(l: Ledger, n: Ledger, id: Uuid, o: Outcome, word: AuditOutcome) {
    Get(l.pending, id).Some? && SettlesAs(l, n, [Entry(id, Get(l.pending, id).value)], o, word)
  }

  lemma OneIsGone(l: Ledger, id: Uuid, o: Outcome, word: AuditOutcome)
    requires Unique(l.pending) && Get(l.pending, id).Some? && word == AuditOf(o)
    ensures SettlesOne(l, Settle(l, id, o), id, o, word)
  {
    var e := Entry(id, Get(l.pending, id).value);
    DeleteSpec(l.pending, id);
    assert Keys([e]) == {id} by {
      assert [e][0].key == id;
    }
  }

  lemma AllAreGone(l: Ledger)
    requires Unique(l.pending)
    ensures SettlesAs(l, SettleAll(l, Rejected(ConnectionLost)), l.pending, Rejected(ConnectionLost), Failed)
  {
    AllAppended(l, SettleAll(l, Rejected(ConnectionLost)));
    forall id ensures id !in Keys(l.pending) ==> Get(l.pending, id).None? { GetIffKey(l.pending, id); }
  }

  lemma AllAppended(l: Ledger, n: Ledger)
    requires n == SettleAll(l, Rejected(ConnectionLost))
    ensures |n.settled| == |l.settled| + |l.pending| && n.settled[..|l.settled|] == l.settled
    ensures |n.audit| == |l.audit| + |l.pending| && n.audit[..|l.audit|] == l.audit
    ensures forall i :: 0 <= i < |l.pending| ==>
      var p := l.pending[i];
      && n.settled[|l.settled| + i] == Settlement(p.key, p.value.operationId, Rejected(ConnectionLost))
      && n.audit[|l.audit| + i] == AuditEntry(p.key, p.value.operationId, p.value.action, p.value.policy, Failed)
  {
  }

  // ---- one event ----

  /** A foreign operation, an error of the bridge, or a value. */
  ghost predicate ResponseSettles(l: Ledger, n: Ledger, r: BridgeResponse)
    requires Get(l.pending, r.id).Some?
  {
    if r.operationId != Get(l.pending, r.id).value.operationId then
      SettlesOne(l, n, r.id, Rejected(IdentityMismatch), Failed)
    else match r.reply
      case Error(code) => SettlesOne(l, n, r.id, Rejected(BridgeFailed(code)), Failed)
      case Value(v) => SettlesOne(l, n, r.id, Resolved(v), Success)
  }

  /** The first capability advertised under this name is available. */
  ghost predicate FirstIsAvailable(capabilities: seq<Capability>, action: string) {
    exists i :: 0 <= i < |capabilities| && capabilities[i].id == action && capabilities[i].available
      && forall j :: 0 <= j < i ==> capabilities[j].id != action
  }

  /** Connected and accepted, a timeout within a minute, a known action, its scope granted, and advertised. */
  ghost predicate MayAsk(s: Server, action: string, timeoutMs: int) {
    && s.client.Some? && s.client.value in s.sockets && s.sockets[s.client.value].open && s.clientAccepted
    && 1 <= timeoutMs <= 60_000 && GetActionPolicy(action).Some?
    && GetActionPolicy(action).value.scope in s.grantedScopes && FirstIsAvailable(s.bridgeCapabilities, action)
  }

  /** The request goes to the current socket, is pending and has a timer. */
  ghost predicate Books(s: Server, t: Server, r: BridgeRequest, policy: ActionPolicy)
    requires s.client.Some? && s.client.value in s.sockets
  {
    && t.ledger.issued == s.ledger.issued + [r] && t.ledger.timers == s.ledger.timers + {r.id}
    && t.ledger.settled == s.ledger.settled && t.ledger.audit == s.ledger.audit
    && (forall id :: Get(t.ledger.pending, id) == if id != r.id then Get(s.ledger.pending, id)
                                                  else Some(Pending(r.operationId, r.action, policy)))
    && var k := s.sockets[s.client.value];
       t.sockets == s.sockets[s.client.value := k.(out := k.out + [Request(r)])]
  }

  /** The request is settled at once, and everything else is as it was. */
  ghost predicate Fails(s: Server, t: Server, r: BridgeRequest, policy: ActionPolicy) {
    && t.ledger.issued == s.ledger.issued + [r] && t.ledger.timers == s.ledger.timers
    && t.ledger.settled == s.ledger.settled + [Settlement(r.id, r.operationId, Rejected(SendFailed))]
    && t.ledger.audit == s.ledger.audit + [AuditEntry(r.id, r.operationId, r.action, policy, TransportError)]
    && (forall id :: Get(t.ledger.pending, id) == Get(s.ledger.pending, id))
    && t.sockets == s.sockets
  }

  ghost predicate Asks(s: Server, t: Server, e: Event)
    requires e.Sending?
  {
    if MayAsk(s, e.action, e.timeoutMs) then
      var policy := GetActionPolicy(e.action).value;
      var r := BridgeRequest(e.id, e.operationId, e.action, policy.scope, e.payload);
      if e.throws then Fails(s, t, r, policy) else Books(s, t, r, policy)
    else t == s
  }

  /** Every effect an event can have on the book. */
  ghost predicate BookStep(s: Server, e: Event, t: Server) {
    match e
    case Message(c, m, _) =>
      if s.client == Some(c) && s.clientAccepted && m.Response? && Get(s.ledger.pending, m.response.id).Some? then
        ResponseSettles(s.ledger, t.ledger, m.response)
      else t.ledger == s.ledger
    case RequestTimer(id) => SettlesOne(s.ledger, t.ledger, id, Rejected(TimedOut), Timeout)
    case Closed(c) =>
      if s.client == Some(c) then SettlesAs(s.ledger, t.ledger, s.ledger.pending, Rejected(ConnectionLost), Failed)
      else t.ledger == s.ledger
    case Sending(_, _, _, _, _, _) => Asks(s, t, e)
    case _ => t.ledger == s.ledger
  }

  lemma {:induction false} AdvertisedIff(capabilities: seq<Capability>, action: string)
    ensures Advertised(capabilities, action) <==> FirstIsAvailable(capabilities, action)
  {
    if capabilities != [] && capabilities[0].id != action {
      AdvertisedIff(capabilities[1..], action);
      if Advertised(capabilities[1..], action) {
        var i :| 0 <= i < |capabilities| - 1 && capabilities[1..][i].id == action && capabilities[1..][i].available
          && forall j :: 0 <= j < i ==> capabilities[1..][j].id != action;
        forall j | 0 <= j < i + 1 ensures capabilities[j].id != action {
          assert j > 0 ==> capabilities[1..][j - 1] == capabilities[j];
        }
        assert capabilities[i + 1].id == action;
      }
      if FirstIsAvailable(capabilities, action) {
        var i :| 0 <= i < |capabilities| && capabilities[i].id == action && capabilities[i].available
          && forall j :: 0 <= j < i ==> capabilities[j].id != action;
        assert capabilities[1..][i - 1].id == action;
        assert forall j :: 0 <= j < i - 1 ==> capabilities[1..][j] == capabilities[j + 1];
      }
    }
  }

  lemma ResponseSettlesIt(s: Server, r: BridgeResponse)
    requires Unique(s.ledger.pending) && s.clientAccepted && Get(s.ledger.pending, r.id).Some?
    ensures ResponseSettles(s.ledger, HandleResponse(s, r).ledger, r)
  {
    var p := Get(s.ledger.pending, r.id).value;
    if r.operationId != p.operationId {
      OneIsGone(s.ledger, r.id, Rejected(IdentityMismatch), Failed);
    } else if r.reply.Error? {
      OneIsGone(s.ledger, r.id, Rejected(BridgeFailed(r.reply.code)), Failed);
    } else {
      OneIsGone(s.ledger, r.id, Resolved(r.reply.value), Success);
    }
  }

  lemma SendingAsks(s: Server, e: Event)
    requires e.Sending? && Enabled(s, e) && Valid(s.ledger)
    ensures Asks(s, SendRequest(s, e.action, e.payload, e.timeoutMs, e.id, e.operationId, e.throws), e)
  {
    AdvertisedIff(s.bridgeCapabilities, e.action);
    if MayAsk(s, e.action, e.timeoutMs) {
      var policy := GetActionPolicy(e.action).value;
      var r := BridgeRequest(e.id, e.operationId, e.action, policy.scope, e.payload);
      BooksIt(s.ledger, r, policy);
    }
  }

  lemma BooksIt(l: Ledger, r: BridgeRequest, policy: ActionPolicy)
    requires Valid(l) && Fresh(l, r.id, r.operationId)
    ensures forall id :: Get(Accept(l, r, policy).pending, id)
                         == if id == r.id then Some(Pending(r.operationId, r.action, policy)) else Get(l.pending, id)
    ensures var n := Settle(Accept(l, r, policy), r.id, Rejected(SendFailed));
      && n.issued == l.issued + [r] && n.timers == l.timers
      && n.settled == l.settled + [Settlement(r.id, r.operationId, Rejected(SendFailed))]
      && n.audit == l.audit + [AuditEntry(r.id, r.operationId, r.action, policy, TransportError)]
      && forall id :: Get(n.pending, id) == Get(l.pending, id)
  {
    var booked := Accept(l, r, policy);
    assert r.id !in IssuedIds(l);
    PutSpec(l.pending, r.id, Pending(r.operationId, r.action, policy));
    DeleteSpec(booked.pending, r.id);
    GetIffKey(l.pending, r.id);
  }

  lemma StepSettles(cfg: ServerConfig, s: Server, e: Event)
    requires Enabled(s, e) && Valid(s.ledger)
    ensures BookStep(s, e, Step(cfg, s, e))
  {
    match e
    case Message(c, m, d) =>
      if m.Response? {
        ServerFrames.ResponseStep(s, m.response);
        if s.client == Some(c) && s.clientAccepted && Get(s.ledger.pending, m.response.id).Some? {
          ResponseSettlesIt(s, m.response);
        }
      } else {
        ServerFrames.MessageIsQuiet(cfg, s, c, m, d);
      }
    case RequestTimer(id) =>
      GetIffKey(s.ledger.pending, id);
      OneIsGone(s.ledger, id, Rejected(TimedOut), Timeout);
    case Closed(c) => AllAreGone(s.ledger);
    case Sending(_, _, _, _, _, _) => SendingAsks(s, e);
    case _ => ServerFrames.StepIsQuiet(cfg, s, e);
  }

  // ---- runs ----

  /** In every run every event has exactly this effect on the book. */
  lemma EveryEventSettles(
    cfg: ServerConfig, stored: Option<AuthState.PairedBridge>, events: seq<Event>, trace: seq<Server>, k: nat)
    requires IsRun(cfg, stored, events, trace) && k < |events|
    ensures BookStep(trace[k], events[k], trace[k + 1])
  {
    ServerSafety.RunsAreSafe(cfg, stored, events, trace, k);
    StepSettles(cfg, trace[k], events[k]);
  }

  /** What must have happened for a request to be settled like this. */
  ghost predicate Caused(s: Server, e: Event, x: Settlement) {
    match x.outcome
    case Rejected(TimedOut) => e == RequestTimer(x.id)
    case Rejected(ConnectionLost) => e.Closed? && s.client == Some(e.conn)
    case Rejected(SendFailed) => e.Sending? && e.throws && e.id == x.id
    case _ =>
      && e.Message? && s.client == Some(e.conn) && s.clientAccepted && e.msg.Response? && e.msg.response.id == x.id
      && Get(s.ledger.pending, x.id).Some?
      && (x.outcome == Rejected(IdentityMismatch)
          <==> e.msg.response.operationId != Get(s.ledger.pending, x.id).value.operationId)
      && (x.outcome.Resolved? ==> e.msg.response.reply == Value(x.outcome.value))
      && (x.outcome.Rejected? && x.outcome.reason.BridgeFailed? ==>
            e.msg.response.reply == Error(x.outcome.reason.code))
  }

  /** Conversely, in every run each outcome has its one cause. */
  lemma EveryOutcomeIsCaused(
    cfg: ServerConfig, stored: Option<AuthState.PairedBridge>, events: seq<Event>, trace: seq<Server>, k: nat, i: nat)
    requires IsRun(cfg, stored, events, trace) && k < |events|
    requires |trace[k].ledger.settled| <= i < |trace[k + 1].ledger.settled|
    ensures Caused(trace[k], events[k], trace[k + 1].ledger.settled[i])
  {
    EveryEventSettles(cfg, stored, events, trace, k);
  }
}
