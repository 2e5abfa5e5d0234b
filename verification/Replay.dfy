/** A cached operation is answered from memory, identically and without its handler, over every run of the client. */
module Replay {
  import opened Prelude
  import opened JsMap
  import opened Protocol
  import opened ResponseCache
  import opened ClientModel
  import ClientFrames

  /** Every request that arrives carries a proper operation id. */
  ghost predicate Proper(e: Event) {
    e.Receives? && e.msg.Request? ==> e.msg.request.operationId != EMPTY_ID
  }

  ghost predicate Sound(c: Client) {
    && Mirrors(c.responseCache, c.history.cached)
    && forall i :: 0 <= i < |c.tasks| ==> c.tasks[i].request.operationId != EMPTY_ID
  }

  ghost predicate NoTaskFor(c: Client, op: Uuid) {
    forall i :: 0 <= i < |c.tasks| ==> c.tasks[i].request.operationId != op
  }

  /** Held, and not in progress. */
  ghost predicate Settled(c: Client, op: Uuid, response: BridgeResponse) {
    Get(c.responseCache, op) == Some(response) && NoTaskFor(c, op)
  }

  /** How many entries there are from this operation's on: one when it is the newest. */
  function Age(cache: Cache, op: Uuid): nat { |cache| - Find(cache, op) }

  function InsertedCount(c: Client): nat { |Inserted(c.history.cached)| }

  // ---- what one event does to tasks and cache ----

  ghost predicate LeavesWork(c: Client, n: Client) {
    && n.tasks == c.tasks && n.responseCache == c.responseCache
    && n.history.cached == c.history.cached && n.history.started == c.history.started
  }

  ghost predicate Begins(c: Client, n: Client, r: BridgeRequest) {
    && Get(c.responseCache, r.operationId).None?
    && n.tasks == c.tasks + [Task(r, CurrentSocket(c))] && n.responseCache == c.responseCache
    && n.history.cached == c.history.cached && n.history.started == c.history.started + [r]
  }

  ghost predicate Caches(c: Client, n: Client, q: Uuid, response: BridgeResponse) {
    && n.responseCache == Remember(c.responseCache, q, response)
    && n.history.cached == c.history.cached + [Entry(q, response)] && n.history.started == c.history.started
  }

  ghost predicate Refuses(c: Client, n: Client, r: BridgeRequest, reply: Reply) {
    && Get(c.responseCache, r.operationId).None? && n.tasks == c.tasks
    && Caches(c, n, r.operationId, BridgeResponse(r.id, r.operationId, reply))
  }

  ghost predicate Finishes(c: Client, n: Client, i: nat, reply: Reply) {
    && i < |c.tasks| && n.tasks == c.tasks[..i] + c.tasks[i + 1..]
    && Caches(c, n, c.tasks[i].request.operationId,
              BridgeResponse(c.tasks[i].request.id, c.tasks[i].request.operationId, reply))
  }

  lemma StepShape(cfg: ClientConfig, c: Client, e: Event)
    requires Enabled(c, e)
    ensures var n := Step(cfg, c, e);
      if e.HandlerDone? then Finishes(c, n, e.task, e.reply)
      else if e.Receives? && e.msg.Request? then
        var r := e.msg.request;
        if Get(c.responseCache, r.operationId).Some? then LeavesWork(c, n)
        else if Gate(cfg, c, r).Some? then Refuses(c, n, r, Error(Gate(cfg, c, r).value))
        else Begins(c, n, r)
      else LeavesWork(c, n)
  {
    if e.Receives? && e.msg.Request? {
      var r := e.msg.request;
      var d := c.(history := c.history.(received := c.history.received + {r.operationId}));
      assert Gate(cfg, d, r) == Gate(cfg, c, r);
      DecisionShape(d, r, Get(d.responseCache, r.operationId), Gate(cfg, d, r));
    } else if !e.HandlerDone? {
      ClientFrames.StepIsQuiet(cfg, c, e);
    }
  }

  lemma DecisionShape(c: Client, r: BridgeRequest, held: Option<BridgeResponse>, refused: Option<ErrorCode>)
    requires held == Get(c.responseCache, r.operationId)
    ensures var n := Decide(c, r, held, refused);
      if held.Some? then LeavesWork(c, n)
      else if refused.Some? then Refuses(c, n, r, Error(refused.value)) else Begins(c, n, r)
  {
  }

  // ---- the cache and its log ----

  ghost predicate Mirrors(cache: Cache, log: seq<Entry<Uuid, BridgeResponse>>) {
    cache == After(log) && ProperIds(log)
  }

  lemma CachingMirrors(cache: Cache, log: seq<Entry<Uuid, BridgeResponse>>, q: Uuid, r: BridgeResponse)
    requires Mirrors(cache, log) && q != EMPTY_ID
    ensures Mirrors(Remember(cache, q, r), log + [Entry(q, r)])
    ensures |Inserted(log + [Entry(q, r)])| == |Inserted(log)| + if Get(cache, q).Some? then 0 else 1
    ensures Get(Remember(cache, q, r), q) == Some(r)
  {
    assert (log + [Entry(q, r)])[..|log|] == log;
    CacheIsFifo(log);
    RememberSpec(cache, q, r);
  }

  lemma CachingGrows(log: seq<Entry<Uuid, BridgeResponse>>, e: Entry<Uuid, BridgeResponse>)
    ensures |Inserted(log)| <= |Inserted(log + [e])|
  {
    assert (log + [e])[..|log|] == log;
  }

  /** Caching for another operation keeps this one, one entry older, as long as there is room. */
  lemma CachingKeeps(
    cache: Cache, log: seq<Entry<Uuid, BridgeResponse>>, q: Uuid, r: BridgeResponse, op: Uuid, response: BridgeResponse)
    requires Mirrors(cache, log) && q != EMPTY_ID && q != op && Get(cache, op) == Some(response)
    requires Age(cache, op) + (if Get(cache, q).Some? then 0 else 1) <= CAPACITY
    ensures Get(Remember(cache, q, r), op) == Some(response)
    ensures Age(Remember(cache, q, r), op) == Age(cache, op) + if Get(cache, q).Some? then 0 else 1
  {
    CacheIsFifo(log);
    var n := Remember(cache, q, r);
    RememberSpec(cache, q, r);
    if Get(cache, q).Some? {
      assert KeyList(cache)[Find(cache, op)] == op;
      FoundAt(n, Find(cache, op), op);
    } else {
      var shift := |cache| + 1 - |n|;
      LastAt(KeyList(cache), q, CAPACITY, Find(cache, op));
      FoundAt(n, Find(cache, op) - shift, op);
    }
  }

  lemma FoundAt(n: Cache, i: nat, op: Uuid)
    requires Unique(n) && i < |n| && KeyList(n)[i] == op
    ensures Find(n, op) == i
  {
    FindAt(n, i);
  }

  lemma LastAt(keys: seq<Uuid>, q: Uuid, cap: nat, i: nat)
    requires i < |keys| && |keys| - i + 1 <= cap
    ensures var l := Last(keys + [q], cap); var shift := |keys| + 1 - |l|; 0 <= shift <= i && l[i - shift] == keys[i]
  {
  }

  /** Caching for another operation never changes what is held for this one, except by dropping it. */
  lemma CachingOthers(
    cache: Cache, log: seq<Entry<Uuid, BridgeResponse>>, q: Uuid, r: BridgeResponse, op: Uuid, response: BridgeResponse)
    requires Mirrors(cache, log) && q != EMPTY_ID && q != op && Get(cache, op) == Some(response)
    ensures Get(Remember(cache, q, r), op).None? || Get(Remember(cache, q, r), op) == Some(response)
  {
    CacheIsFifo(log);
    RememberSpec(cache, q, r);
  }

  // ---- one event ----

  lemma StepKeepsSound(cfg: ClientConfig, c: Client, e: Event)
    requires Enabled(c, e) && Proper(e) && Sound(c)
    ensures Sound(Step(cfg, c, e))
  {
    var n := Step(cfg, c, e);
    StepShape(cfg, c, e);
    if e.HandlerDone? {
      var t := c.tasks[e.task].request;
      CachingMirrors(c.responseCache, c.history.cached, t.operationId, BridgeResponse(t.id, t.operationId, e.reply));
    } else if e.Receives? && e.msg.Request? && Get(c.responseCache, e.msg.request.operationId).None? {
      var r := e.msg.request;
      if Gate(cfg, c, r).Some? {
        CachingMirrors(
          c.responseCache, c.history.cached, r.operationId,
          BridgeResponse(r.id, r.operationId, Error(Gate(cfg, c, r).value)));
      }
    }
  }

  lemma InsertedGrows(cfg: ClientConfig, c: Client, e: Event)
    requires Enabled(c, e)
    ensures InsertedCount(c) <= InsertedCount(Step(cfg, c, e))
  {
    StepShape(cfg, c, e);
    var n := Step(cfg, c, e);
    if n.history.cached != c.history.cached {
      var e0 := n.history.cached[|c.history.cached|];
      assert n.history.cached == c.history.cached + [e0];
      CachingGrows(c.history.cached, e0);
    }
  }

  /** A delivery of a held operation: the same response goes out, no handler is started, the cache stays. */
  lemma DeliveryReplays(cfg: ClientConfig, c: Client, r: BridgeRequest, nonce: Uuid, response: BridgeResponse)
    requires IsOpen(c) && Get(c.responseCache, r.operationId) == Some(response)
    ensures var n := Step(cfg, c, Receives(Request(r), nonce));
      && n == Send(c, Response(response)).(history := n.history)
      && n.history == c.history.(received := n.history.received)
  {
  }

  ghost predicate StartsNone(c: Client, n: Client, op: Uuid) {
    && c.history.started <= n.history.started
    && forall i :: |c.history.started| <= i < |n.history.started| ==> n.history.started[i].operationId != op
  }

  ghost predicate KeepsSettled(c: Client, n: Client, op: Uuid, response: BridgeResponse) {
    && StartsNone(c, n, op)
    && (Age(c.responseCache, op) + InsertedCount(n) - InsertedCount(c) <= 256 ==>
          && Settled(n, op, response)
          && Age(n.responseCache, op) - InsertedCount(n) == Age(c.responseCache, op) - InsertedCount(c))
  }

  /** One event: with room for one more, the operation stays settled, and its handler is not started. */
  lemma StepKeepsSettled(cfg: ClientConfig, c: Client, e: Event, op: Uuid, response: BridgeResponse)
    requires Enabled(c, e) && Proper(e) && Sound(c) && Settled(c, op, response)
    ensures KeepsSettled(c, Step(cfg, c, e), op, response)
  {
    var n := Step(cfg, c, e);
    StepShape(cfg, c, e);
    if e.HandlerDone? {
      FinishKeepsSettled(c, n, e.task, e.reply, op, response);
    } else if e.Receives? && e.msg.Request? && Get(c.responseCache, e.msg.request.operationId).None? {
      if Gate(cfg, c, e.msg.request).Some? {
        var r := e.msg.request;
        CachingKeepsSettled(
          c, n, r.operationId, BridgeResponse(r.id, r.operationId, Error(Gate(cfg, c, r).value)), op, response);
      }
    }
  }

  lemma FinishKeepsSettled(c: Client, n: Client, i: nat, reply: Reply, op: Uuid, response: BridgeResponse)
    requires Sound(c) && Settled(c, op, response) && Finishes(c, n, i, reply)
    ensures KeepsSettled(c, n, op, response)
  {
    assert forall j :: 0 <= j < |n.tasks| ==> n.tasks[j] == c.tasks[if j < i then j else j + 1];
    var t := c.tasks[i].request;
    CachingKeepsSettled(c, n, t.operationId, BridgeResponse(t.id, t.operationId, reply), op, response);
  }

  lemma CachingKeepsSettled(c: Client, n: Client, q: Uuid, r: BridgeResponse, op: Uuid, response: BridgeResponse)
    requires Sound(c) && Settled(c, op, response) && NoTaskFor(n, op) && Caches(c, n, q, r)
    requires q != EMPTY_ID && q != op
    ensures KeepsSettled(c, n, op, response)
  {
    CachingMirrors(c.responseCache, c.history.cached, q, r);
    if Age(c.responseCache, op) + (if Get(c.responseCache, q).Some? then 0 else 1) <= CAPACITY {
      CachingKeeps(c.responseCache, c.history.cached, q, r, op, response);
    }
  }

  // ---- runs ----

  ghost predicate IsProperRun(
    cfg: ClientConfig, secret: Option<Uuid>, first: Draw, events: seq<Event>, trace: seq<Client>)
  {
    IsRun(cfg, secret, first, events, trace) && forall i :: 0 <= i < |events| ==> Proper(events[i])
  }

  lemma {:induction false} RunIsSound(
    cfg: ClientConfig, secret: Option<Uuid>, first: Draw, events: seq<Event>, trace: seq<Client>, k: nat)
    requires IsProperRun(cfg, secret, first, events, trace) && k < |trace|
    ensures Sound(trace[k])
  {
    if k > 0 {
      RunIsSound(cfg, secret, first, events, trace, k - 1);
      StepKeepsSound(cfg, trace[k - 1], events[k - 1]);
    }
  }

  lemma RunStep(
    cfg: ClientConfig, secret: Option<Uuid>, first: Draw, events: seq<Event>, trace: seq<Client>, k: nat)
    requires IsProperRun(cfg, secret, first, events, trace) && k < |events|
    ensures Enabled(trace[k], events[k]) && Proper(events[k]) && Sound(trace[k])
    ensures trace[k + 1] == Step(cfg, trace[k], events[k])
  {
    RunIsSound(cfg, secret, first, events, trace, k);
  }

  /** From `c` to `m` the operation has stayed settled, unless 256 newer ones came. */
  ghost predicate Persists(c: Client, m: Client, op: Uuid, response: BridgeResponse) {
    && InsertedCount(c) <= InsertedCount(m)
    && (Age(c.responseCache, op) + InsertedCount(m) - InsertedCount(c) <= 256 ==>
          Settled(m, op, response) && KeepsSettled(c, m, op, response))
  }

  lemma PersistsOn(cfg: ClientConfig, c: Client, m: Client, e: Event, op: Uuid, response: BridgeResponse)
    requires Enabled(m, e) && Proper(e) && Sound(m) && Persists(c, m, op, response)
    ensures Persists(c, Step(cfg, m, e), op, response)
  {
    InsertedGrows(cfg, m, e);
    if Settled(m, op, response) { StepKeepsSettled(cfg, m, e, op, response); }
  }

  /** Settled at `a`: settled at every later state while there is room. */
  lemma {:induction false} StaysSettled(
    cfg: ClientConfig, secret: Option<Uuid>, first: Draw, events: seq<Event>, trace: seq<Client>, a: nat, k: nat,
    op: Uuid, response: BridgeResponse)
    requires IsProperRun(cfg, secret, first, events, trace) && a <= k < |trace|
    requires Settled(trace[a], op, response)
    ensures Persists(trace[a], trace[k], op, response)
    decreases k - a
  {
    if a < k {
      StaysSettled(cfg, secret, first, events, trace, a, k - 1, op, response);
      PersistsAt(cfg, secret, first, events, trace, trace[a], k - 1, op, response);
    }
  }

  lemma PersistsAt(
    cfg: ClientConfig, secret: Option<Uuid>, first: Draw, events: seq<Event>, trace: seq<Client>, c: Client, k: nat,
    op: Uuid, response: BridgeResponse)
    requires IsProperRun(cfg, secret, first, events, trace) && k < |events|
    requires Persists(c, trace[k], op, response)
    ensures Persists(c, trace[k + 1], op, response)
  {
    RunStep(cfg, secret, first, events, trace, k);
    PersistsOn(cfg, c, trace[k], events[k], op, response);
  }

  /**
   Once an operation is cached and not in progress, and while fewer than 256 operations are newer than it, every
   delivery of it puts exactly the response then cached on the wire, starts no handler and changes no entry.
   */
  lemma ReplayedIdentically(
    cfg: ClientConfig, secret: Option<Uuid>, first: Draw, events: seq<Event>, trace: seq<Client>, a: nat, k: nat,
    response: BridgeResponse)
    requires IsProperRun(cfg, secret, first, events, trace) && a <= k < |events|
    requires events[k].Receives? && events[k].msg.Request?
    requires Settled(trace[a], events[k].msg.request.operationId, response)
    requires Age(trace[a].responseCache, events[k].msg.request.operationId)
             + InsertedCount(trace[k]) - InsertedCount(trace[a]) <= 256
    ensures trace[k + 1] == Send(trace[k], Response(response)).(history := trace[k + 1].history)
    ensures trace[k + 1].history.started == trace[k].history.started
    ensures StartsNone(trace[a], trace[k + 1], events[k].msg.request.operationId)
  {
    var op := events[k].msg.request.operationId;
    StaysSettled(cfg, secret, first, events, trace, a, k, op, response);
    DeliveryReplays(cfg, trace[k], events[k].msg.request, events[k].nonce, response);
  }

  // ---- deliveries that overlap ----

  /** A delivery starts a handler exactly when the operation is not held and the bridge does not refuse it. */
  lemma StartsHandlerIff(cfg: ClientConfig, c: Client, r: BridgeRequest)
    ensures HandleRequest(cfg, c, r).history.started
         == c.history.started + if Get(c.responseCache, r.operationId).None? && Gate(cfg, c, r).None? then [r] else []
  {
  }

  /** So an operation delivered again before its handler is done runs twice; the second result replaces the first. */
  lemma DeliveredTwiceRunsTwice(cfg: ClientConfig, c: Client, r: BridgeRequest, v: Json, w: Json)
    requires IsOpen(c) && c.tasks == [] && c.responseCache == [] && Gate(cfg, c, r).None?
    ensures var n := HandleRequest(cfg, HandleRequest(cfg, c, r), r);
      && n.history.started == c.history.started + [r, r] && |n.tasks| == 2
      && var one := FinishTask(n, 0, Value(v));
         var two := FinishTask(one, 0, Value(w));
         && Get(one.responseCache, r.operationId) == Some(BridgeResponse(r.id, r.operationId, Value(v)))
         && Get(two.responseCache, r.operationId) == Some(BridgeResponse(r.id, r.operationId, Value(w)))
  {
    var c1 := HandleRequest(cfg, c, r);
    StartsHandlerIff(cfg, c, r);
    assert Gate(cfg, c1, r) == Gate(cfg, c, r) && c1.responseCache == [];
    StartsHandlerIff(cfg, c1, r);
    var n := HandleRequest(cfg, c1, r);
    assert n.tasks == [Task(r, CurrentSocket(c)), Task(r, CurrentSocket(c))] && n.responseCache == [];
    SecondReplaces(n, r, v, w);
  }

  lemma SecondReplaces(n: Client, r: BridgeRequest, v: Json, w: Json)
    requires |n.tasks| == 2 && n.tasks[0].request == r && n.tasks[1].request == r && n.responseCache == []
    ensures var one := FinishTask(n, 0, Value(v));
      && |one.tasks| == 1
      && Get(one.responseCache, r.operationId) == Some(BridgeResponse(r.id, r.operationId, Value(v)))
      && Get(FinishTask(one, 0, Value(w)).responseCache, r.operationId)
         == Some(BridgeResponse(r.id, r.operationId, Value(w)))
  {
    var e := Entry(r.operationId, BridgeResponse(r.id, r.operationId, Value(v)));
    assert FinishTask(n, 0, Value(v)).responseCache == [e];
    assert FinishTask(n, 0, Value(v)).tasks == [n.tasks[1]];
  }

  ghost predicate Changes(cfg: ClientConfig, c: Client, op: Uuid, response: BridgeResponse, e: Event) {
    && Enabled(c, e) && Proper(e)
    && Get(Step(cfg, c, e).responseCache, op).Some? && Get(Step(cfg, c, e).responseCache, op) != Some(response)
  }

  /** A held response can be replaced by another exactly when a handler for that operation is in progress. */
  lemma HeldResponseChangesIff(cfg: ClientConfig, c: Client, op: Uuid, response: BridgeResponse)
    requires Sound(c) && Get(c.responseCache, op) == Some(response)
    ensures (exists e :: Changes(cfg, c, op, response, e)) <==> !NoTaskFor(c, op)
  {
    if NoTaskFor(c, op) {
      forall e ensures !Changes(cfg, c, op, response, e) { NoTaskNoChange(cfg, c, op, response, e); }
    } else {
      var i :| 0 <= i < |c.tasks| && c.tasks[i].request.operationId == op;
      var v := if response.reply == Value("") then "0" else "";
      OwnTaskChanges(cfg, c, op, response, i, v);
    }
  }

  lemma OwnTaskChanges(cfg: ClientConfig, c: Client, op: Uuid, response: BridgeResponse, i: nat, v: Json)
    requires Sound(c) && i < |c.tasks| && c.tasks[i].request.operationId == op && response.reply != Value(v)
    ensures Changes(cfg, c, op, response, HandlerDone(i, Value(v)))
  {
    var e := HandlerDone(i, Value(v));
    StepShape(cfg, c, e);
    CachingMirrors(c.responseCache, c.history.cached, op, BridgeResponse(c.tasks[i].request.id, op, Value(v)));
  }

  lemma NoTaskNoChange(cfg: ClientConfig, c: Client, op: Uuid, response: BridgeResponse, e: Event)
    requires Sound(c) && Settled(c, op, response)
    ensures !Changes(cfg, c, op, response, e)
  {
    if Enabled(c, e) && Proper(e) {
      StepShape(cfg, c, e);
      if e.HandlerDone? {
        var t := c.tasks[e.task].request;
        CachingOthers(
          c.responseCache, c.history.cached, t.operationId, BridgeResponse(t.id, t.operationId, e.reply), op, response);
      } else if e.Receives? && e.msg.Request? && Get(c.responseCache, e.msg.request.operationId).None? {
        var r := e.msg.request;
        if Gate(cfg, c, r).Some? {
          CachingOthers(
            c.responseCache, c.history.cached, r.operationId,
            BridgeResponse(r.id, r.operationId, Error(Gate(cfg, c, r).value)), op, response);
        }
      }
    }
  }
}
