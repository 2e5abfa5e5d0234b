/** The bridge plugin's WebSocket client in the form the source has: an object whose methods update its fields. */
module WebSocketClient {
  import opened Prelude
  import opened JsMap
  import opened Protocol
  import opened ResponseCache
  import opened ClientModel
  import ReconnectSafety

  class WebSocketClient {
    const cfg: ClientConfig

    var ws: Option<Transport>
    var reconnectAttempts: nat
    var reconnectTimeout: Option<TimerId>
    var liveTimers: set<TimerId>
    var status: ConnectionStatus
    var authStatus: AuthStatus
    var retryPhase: RetryPhase
    var isShuttingDown: bool
    var pairingId: Option<Uuid>
    var grantedScopes: seq<Scope>
    var pairingSecret: Option<Uuid>
    var responseCache: Cache
    var tasks: seq<Task>
    var wires: map<ConnId, seq<ToServer>>
    ghost var history: History

    ghost function Model(): Client reads this {
      Client(ws, reconnectAttempts, reconnectTimeout, liveTimers, status, authStatus, retryPhase, isShuttingDown,
             pairingId, grantedScopes, pairingSecret, responseCache, tasks, wires, history)
    }

    /** Shut down, on a socket, or waiting for one timer: never stuck and never doubled. */
    ghost predicate Valid() reads this { ReconnectSafety.Inv(cfg, Model()) }

    constructor (cfg: ClientConfig, pairingSecret: Option<Uuid>)
      ensures ReconnectSafety.ReadyToConnect(cfg, Model())
      ensures this.cfg == cfg && Model() == Create(pairingSecret)
    {
      this.cfg := cfg;
      ws, reconnectAttempts, reconnectTimeout, liveTimers := None, 0, None, {};
      status, authStatus, retryPhase, isShuttingDown := Disconnected, Unconnected, Idle, false;
      pairingId, grantedScopes, this.pairingSecret := None, [], pairingSecret;
      responseCache, tasks, wires := [], [], map[];
      history := NO_HISTORY;
    }

    predicate SocketOpen() reads this { ws.Some? && ws.value.ready == Open }

    // ---- connecting ----

    method Schedule(timer: TimerId)
      modifies this
      ensures Model() == ScheduleReconnect(cfg, old(Model()), timer)
    {
      if isShuttingDown { return; }
      if reconnectAttempts < cfg.maxReconnectAttempts {
        reconnectAttempts := reconnectAttempts + 1;
        retryPhase := Burst;
      } else {
        retryPhase := Standby;
      }
      reconnectTimeout := Some(timer);
      liveTimers := liveTimers + {timer};
    }

    method CancelTimer()
      modifies this
      ensures Model() == CancelReconnect(old(Model()))
    {
      if reconnectTimeout.Some? {
        liveTimers := liveTimers - {reconnectTimeout.value};
        reconnectTimeout := None;
      }
    }

    method Connect(d: Draw)
      modifies this
      ensures old(ReconnectSafety.ReadyToConnect(cfg, Model())) ==> Valid()
      ensures Model() == ClientModel.Connect(cfg, old(Model()), d)
    {
      ConnectStaysValid(cfg, Model(), d);
      if ws.Some? && (ws.value.ready == Open || ws.value.ready == Connecting) { return; }
      isShuttingDown := false;
      status := IsConnecting;
      authStatus := Authenticating;
      if d.throws {
        authStatus := Unconnected;
        status := Disconnected;
        Schedule(d.timer);
      } else {
        ws := Some(Transport(d.conn, Connecting));
        wires := wires[d.conn := []];
        history := history.(submitted := history.submitted[d.conn := 0]);
      }
    }

    static lemma ConnectStaysValid(cfg: ClientConfig, c: Client, d: Draw)
      ensures ReconnectSafety.ReadyToConnect(cfg, c) ==> ReconnectSafety.Inv(cfg, ClientModel.Connect(cfg, c, d))
    {
      if ReconnectSafety.ReadyToConnect(cfg, c) { ReconnectSafety.ConnectKeepsInv(cfg, c, d); }
    }

    method OnOpen()
      requires Valid()
      modifies this
      ensures Valid()
      ensures Model() == ClientModel.OnOpen(old(Model()))
    {
      reconnectAttempts := 0;
      retryPhase := Idle;
    }

    method OnClose(timer: TimerId)
      modifies this
      ensures old(ReconnectSafety.JustClosed(cfg, Model())) ==> Valid()
      ensures Model() == ClientModel.OnClose(cfg, old(Model()), timer)
    {
      pairingId := None;
      grantedScopes := [];
      authStatus := Unconnected;
      status := Disconnected;
      if !isShuttingDown {
        Schedule(timer);
      }
    }

    method Disconnect()
      requires Valid() || ReconnectSafety.Inv(cfg, Model().(retryPhase := Idle))
      modifies this
      ensures Valid() && ReconnectSafety.ShutDown(Model())
      ensures Model() == ClientModel.Disconnect(cfg, old(Model()))
    {
      ReconnectSafety.DisconnectShutsDown(cfg, Model());
      GiveUp();
    }

    method GiveUp()
      modifies this
      ensures Model() == ClientModel.Disconnect(cfg, old(Model()))
    {
      isShuttingDown := true;
      CancelTimer();
      CloseSocket();
      Settle();
    }

    /** `ws.close()`: the close event arrives before the call returns. */
    method CloseSocket()
      modifies this
      ensures Model() == if HasLiveSocket(old(Model())) then ClientModel.OnClose(cfg, old(Model()), 0) else old(Model())
    {
      if ws.Some? && ws.value.ready != Closed {
        OnClose(0);
      }
    }

    method Settle()
      modifies this`ws, this`retryPhase, this`authStatus, this`status
      ensures ws == None && retryPhase == Idle && authStatus == Unconnected && status == Disconnected
    {
      ws := None;
      retryPhase := Idle;
      authStatus := Unconnected;
      status := Disconnected;
    }

    method Reconnect(d: Draw)
      requires Valid() && FreshDraw(Model(), d)
      modifies this
      ensures Valid()
      ensures Model() == ClientModel.Reconnect(cfg, old(Model()), d)
    {
      ReconnectSafety.StepKeepsInv(cfg, Model(), ManualReconnect(d));
      reconnectAttempts := 0;
      Disconnect();
      Connect(d);
    }

    method WakeReconnect(d: Draw)
      requires Valid() && FreshDraw(Model(), d)
      modifies this
      ensures Valid()
      ensures Model() == ClientModel.WakeReconnect(cfg, old(Model()), d)
    {
      ReconnectSafety.StepKeepsInv(cfg, Model(), Wake(d));
      if isShuttingDown || status == IsConnected || status == IsConnecting { return; }
      CancelTimer();
      reconnectAttempts := 0;
      retryPhase := Burst;
      Connect(d);
    }

    method NudgeReconnect(d: Draw)
      requires Valid() && FreshDraw(Model(), d)
      modifies this
      ensures Valid()
      ensures Model() == ClientModel.NudgeReconnect(cfg, old(Model()), d)
    {
      ReconnectSafety.StepKeepsInv(cfg, Model(), Nudge(d));
      if isShuttingDown || status == IsConnected || status == IsConnecting { return; }
      CancelTimer();
      Connect(d);
    }

    method OnReconnectTimer(timer: TimerId, d: Draw)
      requires Valid() && Enabled(Model(), ReconnectTimer(timer, d))
      modifies this
      ensures Valid()
      ensures Model() == TimerFires(cfg, old(Model()), timer, d)
    {
      ReconnectSafety.StepKeepsInv(cfg, Model(), ReconnectTimer(timer, d));
      liveTimers := liveTimers - {timer};
      reconnectTimeout := None;
      Connect(d);
    }

    // ---- messages ----

    method SendMessage(m: ToServer)
      modifies this
      ensures Model() == Send(old(Model()), m)
    {
      if SocketOpen() && ws.value.id in wires {
        wires := wires[ws.value.id := wires[ws.value.id] + [m]];
      }
    }

    method OnMessage(m: ToBridge, nonce: Uuid)
      requires Valid() && SocketOpen()
      modifies this
      ensures Valid()
      ensures Model() == HandleMessage(cfg, old(Model()), m, nonce)
    {
      ReconnectSafety.MessageKeepsInv(cfg, Model(), m, nonce);
      match m
      case CompanionInfo =>
      case ServerChallenge(_, _, _, _) => OnServerChallenge(m, nonce);
      case PairingRequired(id) =>
        pairingId := Some(id);
        authStatus := PairingNeeded;
      case PairingComplete(secret, scopes) =>
        pairingSecret := Some(secret);
        grantedScopes := scopes;
      case AuthAccepted(scopes) =>
        pairingId := None;
        grantedScopes := scopes;
        authStatus := Authenticated;
        status := IsConnected;
      case AuthRejected(reset) =>
        if reset { pairingSecret := None; }
        authStatus := AuthFailed;
      case PingToBridge => SendMessage(PongToServer);
      case PongToBridge =>
      case Request(r) => OnRequest(r);
    }

    method OnServerChallenge(m: ToBridge, nonce: Uuid)
      requires m.ServerChallenge?
      modifies this
      ensures Model() == HandleServerChallenge(cfg, old(Model()), m, nonce)
    {
      if m.protocolVersion != PROTOCOL_VERSION { return; }
      var proof: Option<Proof> := None;
      if pairingSecret.Some? {
        proof := Some(Hmac(pairingSecret.value,
                           AuthMessage(m.serverInstanceId, m.nonce, nonce, cfg.installationId, cfg.bridgeVersion,
                                       PROTOCOL_VERSION)));
        history := history.(signed := history.signed + {proof.value});
      }
      SendMessage(Hello(ClientHello(true, PROTOCOL_VERSION, cfg.bridgeVersion, cfg.installationId, nonce,
                                    cfg.capabilities, proof)));
    }

    method CacheResponse(operationId: Uuid, response: BridgeResponse)
      modifies this
      ensures Model() == old(Model()).(responseCache := Remember(old(responseCache), operationId, response),
                                       history := old(history).(
                                         cached := old(history).cached + [Entry(operationId, response)]))
    {
      responseCache := Put(responseCache, operationId, response);
      history := history.(cached := history.cached + [Entry(operationId, response)]);
      if |responseCache| > CAPACITY {
        var oldest := responseCache[0].key;
        if oldest != EMPTY_ID {
          responseCache := Delete(responseCache, oldest);
        }
      }
    }

    method Answer(t: Task, reply: Reply)
      modifies this
      ensures Model() == Respond(old(Model()), t, reply)
    {
      var response := BridgeResponse(t.request.id, t.request.operationId, reply);
      CacheResponse(t.request.operationId, response);
      if SocketOpen() && t.socket == Some(ws.value.id) {
        SendMessage(Response(response));
      }
    }

    method OnRequest(r: BridgeRequest)
      modifies this
      ensures Model() == HandleRequest(cfg, old(Model()), r)
    {
      history := history.(received := history.received + {r.operationId});
      var replay := Get(responseCache, r.operationId);
      if replay.Some? {
        SendMessage(Response(replay.value));
        return;
      }
      var task := Task(r, if ws.Some? then Some(ws.value.id) else None);
      var policy := GetActionPolicy(r.action);
      if authStatus != Authenticated {
        Refuse(task, NotAuthenticated);
      } else if policy.None? || r.scope != policy.value.scope {
        Refuse(task, PolicyMismatch);
      } else if r.scope !in grantedScopes {
        Refuse(task, ScopeDenied);
      } else if !Advertised(cfg.capabilities, r.action) {
        Refuse(task, CapabilityUnavailable);
      } else if !cfg.hasHandler {
        Refuse(task, NoHandler);
      } else {
        tasks := tasks + [task];
        history := history.(started := history.started + [r]);
      }
    }

    method Refuse(t: Task, code: ErrorCode)
      modifies this
      ensures Model() == Respond(
        old(Model()).(history := old(history).(refused := old(history).refused + [Replied(t.request, Error(code))])),
        t, Error(code))
    {
      history := history.(refused := history.refused + [Replied(t.request, Error(code))]);
      Answer(t, Error(code));
    }

    method OnHandlerDone(i: nat, reply: Reply)
      requires Valid() && i < |tasks|
      modifies this
      ensures Valid()
      ensures Model() == FinishTask(old(Model()), i, reply)
    {
      ReconnectSafety.RespondingKeepsInv(cfg, Model(), i, reply);
      var task := tasks[i];
      tasks := tasks[..i] + tasks[i + 1..];
      history := history.(handled := history.handled + [Replied(task.request, reply)]);
      Answer(task, reply);
    }

    method ConfirmPairing(code: nat)
      requires Valid()
      modifies this
      ensures Valid()
      ensures Model() == ClientModel.ConfirmPairing(cfg, old(Model()), code)
    {
      if code >= 1_000_000 || pairingId.None? || !SocketOpen() { return; }
      ghost var n := if ws.value.id in history.submitted then history.submitted[ws.value.id] else 0;
      history := history.(submitted := history.submitted[ws.value.id := n + 1]);
      SendMessage(Confirm(PairingConfirm(pairingId.value, code, cfg.installationId, cfg.bridgeVersion)));
      authStatus := Authenticating;
    }
  }
}
