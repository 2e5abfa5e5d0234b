/** What the client's handlers leave alone. */
module ClientFrames {
  import opened Prelude
  import opened JsMap
  import opened Protocol
  import opened ResponseCache
  import opened ClientModel

  /** Every wire of `c` extends that of `b`, by messages other than responses. */
  ghost predicate GainsControl(b: Client, c: Client) {
    && b.wires.Keys <= c.wires.Keys
    && (forall k, i :: k in c.wires && 0 <= i < |c.wires[k]| ==>
          if k in b.wires && i < |b.wires[k]| then c.wires[k][i] == b.wires[k][i] else !c.wires[k][i].Response?)
  }

  ghost predicate SameWork(b: Client, c: Client) {
    && c.tasks == b.tasks && c.responseCache == b.responseCache
    && c.history == b.history.(submitted := c.history.submitted, signed := c.history.signed)
  }

  ghost predicate Quiet(b: Client, c: Client) {
    SameWork(b, c) && GainsControl(b, c) && (SocketHasWire(b) ==> SocketHasWire(c))
  }

  ghost predicate SocketHasWire(b: Client) { b.ws.Some? ==> b.ws.value.id in b.wires }

  /** Everything but tasks, cache, wires and history. */
  ghost predicate SameLink(b: Client, c: Client) {
    && c == b.(tasks := c.tasks, responseCache := c.responseCache, wires := c.wires, history := c.history)
    && c.history.submitted == b.history.submitted && c.history.signed == b.history.signed
  }

  /** On the current socket's wire at most one response is added; the other wires stay. */
  ghost predicate AddsResponse(b: Client, c: Client, k: ConnId) {
    && k in b.wires && c.wires.Keys == b.wires.Keys
    && (forall d :: d in b.wires && d != k ==> c.wires[d] == b.wires[d])
    && (c.wires[k] == b.wires[k] || exists m: ToServer :: m.Response? && c.wires[k] == b.wires[k] + [m])
  }

  lemma RespondEffect(b: Client, t: Task, reply: Reply)
    ensures SameLink(b, Respond(b, t, reply)) && Respond(b, t, reply).tasks == b.tasks
    ensures IsOpen(b) && b.ws.value.id in b.wires ==> AddsResponse(b, Respond(b, t, reply), b.ws.value.id)
  {
  }

  lemma DecideEffect(b: Client, r: BridgeRequest, held: Option<BridgeResponse>, refused: Option<ErrorCode>)
    requires IsOpen(b)
    ensures var n := Decide(b, r, held, refused);
      && SameLink(b, n) && (n.tasks == b.tasks || n.tasks == b.tasks + [Task(r, Some(b.ws.value.id))])
      && (b.ws.value.id in b.wires ==> AddsResponse(b, n, b.ws.value.id))
  {
    if held.None? && refused.Some? {
      var reply := Error(refused.value);
      RespondEffect(
        b.(history := b.history.(refused := b.history.refused + [Replied(r, reply)])),
        Task(r, CurrentSocket(b)), reply);
    }
  }

  /** A finished handler's task goes; its response is added only to the wire of the socket that asked. */
  lemma FinishEffect(b: Client, i: nat, reply: Reply)
    requires i < |b.tasks|
    ensures var n := FinishTask(b, i, reply);
      && SameLink(b, n) && n.tasks == b.tasks[..i] + b.tasks[i + 1..]
      && (n.wires == b.wires
          || (IsOpen(b) && b.tasks[i].socket == Some(b.ws.value.id) && AddsResponse(b, n, b.ws.value.id)))
  {
  }

  /** A request adds at most a task on the current socket and a response on its wire. */
  lemma RequestEffect(cfg: ClientConfig, b: Client, r: BridgeRequest)
    requires IsOpen(b)
    ensures var n := HandleRequest(cfg, b, r);
      && SameLink(b, n) && (n.tasks == b.tasks || n.tasks == b.tasks + [Task(r, Some(b.ws.value.id))])
      && (b.ws.value.id in b.wires ==> AddsResponse(b, n, b.ws.value.id))
  {
    var c := b.(history := b.history.(received := b.history.received + {r.operationId}));
    DecideEffect(c, r, Get(c.responseCache, r.operationId), Gate(cfg, c, r));
  }

  lemma RequestKeepsWires(cfg: ClientConfig, b: Client, r: BridgeRequest)
    ensures HandleRequest(cfg, b, r).wires.Keys == b.wires.Keys
  {
  }

  lemma ConnectIsQuiet(cfg: ClientConfig, b: Client, d: Draw)
    requires d.conn !in b.wires
    ensures Quiet(b, Connect(cfg, b, d))
  {
  }

  lemma DisconnectIsQuiet(cfg: ClientConfig, b: Client)
    ensures Quiet(b, Disconnect(cfg, b)) && Disconnect(cfg, b).wires == b.wires
  {
  }

  /** Only requests and their handlers touch tasks, cache and history, and only they put responses on a wire. */
  lemma StepIsQuiet(cfg: ClientConfig, b: Client, e: Event)
    requires Enabled(b, e) && !e.HandlerDone? && !(e.Receives? && e.msg.Request?)
    ensures Quiet(b, Step(cfg, b, e))
  {
    if e.Receives? {
      MessageIsQuiet(cfg, b, e.msg, e.nonce);
    } else if e.Shutdown? {
      DisconnectIsQuiet(cfg, b);
    } else if e.ReconnectTimer? || e.Nudge? || e.Wake? || e.ManualReconnect? {
      ReconnectingIsQuiet(cfg, b, e);
    }
  }

  lemma ReconnectingIsQuiet(cfg: ClientConfig, b: Client, e: Event)
    requires (e.ReconnectTimer? || e.Nudge? || e.Wake? || e.ManualReconnect?) && Enabled(b, e)
    ensures Quiet(b, Step(cfg, b, e))
  {
    if e.ReconnectTimer? {
      ConnectIsQuiet(cfg, b.(liveTimers := b.liveTimers - {e.timer}, reconnectTimeout := None), e.draw);
    } else if e.Nudge? {
      ConnectIsQuiet(cfg, CancelReconnect(b), e.draw);
    } else if e.Wake? {
      ConnectIsQuiet(cfg, CancelReconnect(b).(reconnectAttempts := 0, retryPhase := Burst), e.draw);
    } else {
      DisconnectIsQuiet(cfg, b.(reconnectAttempts := 0));
      ConnectIsQuiet(cfg, Disconnect(cfg, b.(reconnectAttempts := 0)), e.draw);
    }
  }

  /** No message moves the bridge to another socket; at most it starts one task, for the current one. */
  ghost predicate SameSocket(b: Client, n: Client) {
    && n.ws == b.ws && b.ws.Some? && n.wires.Keys == b.wires.Keys
    && (n.tasks == b.tasks || exists r :: n.tasks == b.tasks + [Task(r, Some(b.ws.value.id))])
  }

  lemma MessageKeepsSocket(cfg: ClientConfig, b: Client, m: ToBridge, nonce: Uuid)
    requires IsOpen(b) && b.ws.value.id in b.wires
    ensures SameSocket(b, HandleMessage(cfg, b, m, nonce))
  {
    if m.Request? { RequestEffect(cfg, b, m.request); }
  }

  lemma MessageIsQuiet(cfg: ClientConfig, b: Client, m: ToBridge, nonce: Uuid)
    requires !m.Request?
    ensures Quiet(b, HandleMessage(cfg, b, m, nonce))
  {
  }
}
