/** The companion's WebSocket server in the form the source has: an object whose handlers update its fields. */
module WebSocketServer {
  import opened Prelude
  import opened JsMap
  import opened Protocol
  import opened AuthState
  import opened RequestLedger
  import opened ServerModel
  import AuthStore
  import ServerSafety
  import PairingReset

  class WebSocketServer {
    const cfg: ServerConfig
    const authStore: AuthStore.AuthStore

    var sockets: map<ConnId, Socket>
    var client: Option<ConnId>
    var clientAccepted: bool
    var clientHello: Option<ClientHello>
    var bridgeInstallationId: Option<Uuid>
    var bridgeCapabilities: seq<Capability>
    var grantedScopes: seq<Scope>
    var serverNonce: Option<Uuid>
    var helloTimeout: Option<ConnId>
    var helloTimers: set<ConnId>
    var pendingRequests: seq<Entry<Uuid, Pending>>
    var requestTimers: set<Uuid>
    var auditLog: seq<AuditEntry>
    ghost var issued: seq<BridgeRequest>
    ghost var settled: seq<Settlement>

    ghost function Book(): Ledger reads this {
      Ledger(pendingRequests, requestTimers, issued, settled, auditLog)
    }

    ghost function Model(): Server reads this, authStore {
      Server(sockets, client, clientAccepted, clientHello, bridgeInstallationId, bridgeCapabilities,
             grantedScopes, serverNonce, helloTimeout, helloTimers, authStore.Model(), Book())
    }

    /** Pairing, handshake and book agree, whoever is connected. */
    ghost predicate Valid() reads this, authStore { ServerSafety.Inv(Model()) }

    constructor (cfg: ServerConfig, authStore: AuthStore.AuthStore)
      requires authStore.pairingChallenge.None?
      ensures Valid()
      ensures Model() == Start(authStore.pairedBridge)
      ensures this.cfg == cfg && this.authStore == authStore
    {
      this.cfg, this.authStore := cfg, authStore;
      sockets, client, clientAccepted, clientHello := map[], None, false, None;
      bridgeInstallationId, bridgeCapabilities, grantedScopes, serverNonce := None, [], [], None;
      helloTimeout, helloTimers := None, {};
      pendingRequests, requestTimers, auditLog := [], {}, [];
      issued, settled := [], [];
    }

    predicate ClientIsOpen() reads this {
      client.Some? && client.value in sockets && sockets[client.value].open
    }

    // ---- sending, closing, clearing ----

    method SendMessage(m: ToBridge)
      modifies this
      ensures Model() == Send(old(Model()), m)
    {
      if ClientIsOpen() {
        var k := sockets[client.value];
        sockets := sockets[client.value := k.(out := k.out + [m])];
      }
    }

    method CloseCurrent()
      modifies this
      ensures Model() == CloseClient(old(Model()))
    {
      if ClientIsOpen() {
        sockets := sockets[client.value := sockets[client.value].(open := false)];
      }
    }

    method ClearTimeout()
      modifies this
      ensures Model() == ClearHelloTimeout(old(Model()))
    {
      if helloTimeout.Some? {
        helloTimers := helloTimers - {helloTimeout.value};
        helloTimeout := None;
      }
    }

    method ClearState()
      modifies this
      ensures Model() == ClearClientState(old(Model()))
    {
      ForgetClient();
      ClearTimeout();
    }

    method ForgetClient()
      modifies this`client, this`clientAccepted, this`clientHello
      modifies this`bridgeInstallationId, this`bridgeCapabilities, this`grantedScopes, this`serverNonce
      ensures client == None && !clientAccepted && clientHello == None && serverNonce == None
      ensures bridgeInstallationId == None && bridgeCapabilities == [] && grantedScopes == []
    {
      client, clientAccepted, clientHello := None, false, None;
      bridgeInstallationId, bridgeCapabilities := None, [];
      grantedScopes, serverNonce := [], None;
    }

    method Reject()
      modifies this
      ensures Model() == RejectBridge(old(Model()))
    {
      ClearTimeout();
      CloseCurrent();
    }

    method RejectAuth(resetPairing: bool)
      modifies this
      ensures Model() == RejectAuthentication(old(Model()), resetPairing)
    {
      SendMessage(AuthRejected(resetPairing));
      Reject();
    }

    method Accept(scopes: seq<Scope>, via: Via)
      modifies this
      ensures Model() == AcceptBridge(old(Model()), scopes, via)
    {
      grantedScopes := scopes;
      clientAccepted := true;
      SendMessage(AuthAccepted(scopes));
      if ClientIsOpen() {
        sockets := sockets[client.value := sockets[client.value].(via := via)];
      }
    }

    // ---- connections and messages ----

    method Adopt(c: ConnId, nonce: Uuid)
      modifies this`client, this`clientAccepted, this`clientHello, this`serverNonce, this`helloTimeout, this`helloTimers
      ensures client == Some(c) && !clientAccepted && clientHello == None && serverNonce == Some(nonce)
      ensures helloTimeout == Some(c) && helloTimers == old(helloTimers) + {c}
    {
      client := Some(c);
      clientAccepted := false;
      clientHello := None;
      serverNonce := Some(nonce);
      helloTimeout := Some(c);
      helloTimers := helloTimers + {c};
    }

    method SendGreeting(c: ConnId, nonce: Uuid)
      modifies this`sockets
      ensures sockets
           == old(sockets)[c := Socket(true, Greeting(cfg, old(Model()), nonce), Unauthenticated, 0, nonce)]
    {
      var challenge :=
        ServerChallenge(PROTOCOL_VERSION, cfg.serverInstanceId, nonce, authStore.pairedBridge.None?);
      sockets := sockets[c := Socket(true, [CompanionInfo, challenge], Unauthenticated, 0, nonce)];
    }

    method OnConnection(c: ConnId, nonce: Uuid)
      requires Valid()
      modifies this
      ensures Valid()
      ensures Model() == HandleConnection(cfg, old(Model()), c, nonce)
    {
      if ClientIsOpen() {
        sockets := sockets[c := Socket(false, [], Unauthenticated, 0, nonce)];
        return;
      }
      Adopt(c, nonce);
      SendGreeting(c, nonce);
    }

    method OnMessage(c: ConnId, m: ToServer, d: Draw)
      requires Valid()
      modifies this, authStore
      ensures Valid()
      ensures Model() == HandleMessage(cfg, old(Model()), c, m, d)
    {
      if c in sockets { ServerSafety.StepKeepsInv(cfg, Model(), Message(c, m, d)); }
      if client != Some(c) { return; }
      match m
      case Hello(h) => OnClientHello(h, d);
      case Confirm(pc) =>
        ServerSafety.CountingKeepsHandshake(Model());
        NoteCode();
        OnPairingConfirm(pc, d);
      case Ping => SendMessage(PongToBridge);
      case PongToServer =>
      case Response(r) => OnResponse(r);
      case Unclassified => if !clientAccepted { Reject(); }
      case Malformed => if !clientAccepted { Reject(); }
    }

    method NoteCode()
      modifies this`sockets
      ensures Model() == CountCode(old(Model()))
    {
      if client.Some? && client.value in sockets {
        var k := sockets[client.value];
        sockets := sockets[client.value := k.(codes := k.codes + 1)];
      }
    }

    method OnClientHello(h: ClientHello, d: Draw)
      requires Valid()
      modifies this, authStore
      ensures Valid()
      ensures Model() == HandleClientHello(cfg, old(Model()), h, d)
    {
      ServerSafety.HelloKeepsInv(cfg, Model(), h, d);
      if h.protocolVersion != PROTOCOL_VERSION || !h.wellTyped || !cfg.compatible(h.bridgeVersion) {
        Reject();
        return;
      }
      clientHello := Some(h);
      bridgeInstallationId := Some(h.installationId);
      bridgeCapabilities := h.capabilities;
      ClearTimeout();
      Answer(h, d);
    }

    method Answer(h: ClientHello, d: Draw)
      modifies this, authStore
      ensures Model() == AnswerHello(cfg, old(Model()), h, d)
    {
      if authStore.pairedBridge.None? {
        var pairingId := authStore.EnsurePairingChallenge(h.installationId, d);
        SendMessage(PairingRequired(pairingId));
      } else if h.proof.None? || serverNonce.None? {
        RejectAuth(false);
      } else {
        var accepted := authStore.VerifyBridgeProof(SignedBy(cfg, serverNonce.value, h), h.proof.value);
        if accepted {
          var scopes := authStore.pairedBridge.value.scopes;
          Accept(scopes, ByProof(scopes));
        } else {
          RejectAuth(true);
        }
      }
    }

    method OnPairingConfirm(c: PairingConfirm, d: Draw)
      requires Valid()
      modifies this, authStore
      ensures Valid()
      ensures Model() == HandlePairingConfirm(old(Model()), c, d)
    {
      ServerSafety.ConfirmKeepsInv(Model(), c, d);
      if clientHello.None? || clientHello.value.installationId != c.installationId
         || clientHello.value.bridgeVersion != c.bridgeVersion {
        RejectAuth(false);
        return;
      }
      var codes := if client.Some? && client.value in sockets then sockets[client.value].codes else 0;
      var pairing := authStore.CompletePairing(c, d);
      if pairing.None? {
        SendMessage(AuthRejected(false));
      } else {
        SendMessage(PairingComplete(pairing.value.secret, pairing.value.scopes));
        Accept(pairing.value.scopes, ByPairing(pairing.value.scopes, codes));
      }
    }

    // ---- requests ----

    /** Take one pending request off the books with its outcome. */
    method SettlePending(id: Uuid, o: Outcome)
      modifies this
      ensures Model() == old(Model()).(ledger := Settle(old(Book()), id, o))
    {
      var pending := Get(pendingRequests, id);
      if pending.Some? {
        requestTimers := requestTimers - {id};
        pendingRequests := Delete(pendingRequests, id);
        var e := Entry(id, pending.value);
        auditLog := auditLog + [AuditEntryOf(e, o)];
        settled := settled + [SettlementOf(e, o)];
      }
    }

    method OnResponse(r: BridgeResponse)
      requires Valid()
      modifies this
      ensures Valid()
      ensures Model() == HandleResponse(old(Model()), r)
    {
      ServerSafety.ResponseKeepsInv(Model(), r);
      if !clientAccepted {
        Reject();
        return;
      }
      var pending := Get(pendingRequests, r.id);
      if pending.Some? {
        if r.operationId != pending.value.operationId {
          SettlePending(r.id, Rejected(IdentityMismatch));
        } else {
          match r.reply
          case Error(code) => SettlePending(r.id, Rejected(BridgeFailed(code)));
          case Value(v) => SettlePending(r.id, Resolved(v));
        }
      }
    }

    method OnClose(c: ConnId)
      requires Valid()
      modifies this
      ensures Valid()
      ensures Model() == HandleClose(old(Model()), c)
      ensures old(client) == Some(c) ==> PairingReset.Vacant(Model()) && pendingRequests == []
    {
      SettleAllKeepsValid(Book(), Rejected(ConnectionLost));
      if client != Some(c) { return; }
      ClearState();
      DropPending(Rejected(ConnectionLost));
    }

    /** Reject every pending request, in the order of the map. */
    method DropPending(lost: Outcome)
      modifies this`pendingRequests, this`requestTimers, this`auditLog, this`settled
      ensures Book() == SettleAll(old(Book()), lost)
    {
      ghost var before := Book();
      var i := 0;
      while i < |pendingRequests|
        invariant 0 <= i <= |pendingRequests| && pendingRequests == before.pending
        invariant requestTimers == before.timers - Keys(before.pending[..i])
        invariant auditLog == before.audit + AuditEntries(before.pending, lost)[..i]
        invariant settled == before.settled + Settlements(before.pending, lost)[..i]
      {
        requestTimers := requestTimers - {pendingRequests[i].key};
        auditLog := auditLog + [AuditEntryOf(pendingRequests[i], lost)];
        settled := settled + [SettlementOf(pendingRequests[i], lost)];
        KeysOfPrefix(before.pending, i);
        i := i + 1;
      }
      assert before.pending[..i] == before.pending;
      pendingRequests := [];
    }

    static lemma KeysOfPrefix<K, V>(m: seq<Entry<K, V>>, i: nat)
      requires i < |m|
      ensures Keys(m[..i + 1]) == Keys(m[..i]) + {m[i].key}
    {
      assert m[..i + 1][i] == m[i];
      forall k | k in Keys(m[..i]) ensures k in Keys(m[..i + 1]) {
        var j :| 0 <= j < i && m[..i][j].key == k;
        assert m[..i + 1][j].key == k;
      }
      forall k | k in Keys(m[..i + 1]) ensures k in Keys(m[..i]) + {m[i].key} {
        var j :| 0 <= j < i + 1 && m[..i + 1][j].key == k;
        if j < i { assert m[..i][j].key == k; }
      }
    }

    /** The error the promise rejects with at once, or none if the request was booked. */
    method SendRequest(action: string, payload: Json, timeoutMs: int, id: Uuid, operationId: Uuid, throws: bool)
      returns (refused: Option<SendError>)
      requires Valid() && Enabled(Model(), Sending(action, payload, timeoutMs, id, operationId, throws))
      modifies this
      ensures Valid()
      ensures refused == CheckRequest(old(Model()), action, timeoutMs)
      ensures Model() == ServerModel.SendRequest(old(Model()), action, payload, timeoutMs, id, operationId, throws)
    {
      ServerSafety.StepKeepsInv(cfg, Model(), Sending(action, payload, timeoutMs, id, operationId, throws));
      if !(ClientIsOpen() && clientAccepted) { return Some(NotConnected); }
      if timeoutMs < 1 || timeoutMs > MAX_REQUEST_TIMEOUT_MS { return Some(BadTimeout); }
      var policy := GetActionPolicy(action);
      if policy.None? { return Some(UnknownAction); }
      if policy.value.scope !in grantedScopes { return Some(ScopeNotGranted); }
      if !Advertised(bridgeCapabilities, action) { return Some(NotAdvertised); }

      refused := None;
      Issue(BridgeRequest(id, operationId, action, policy.value.scope, payload), policy.value, throws);
    }

    /** Book the request, then write it; a throw while writing settles it at once. */
    method Issue(r: BridgeRequest, policy: ActionPolicy, throws: bool)
      modifies this
      ensures var booked := old(Model()).(ledger := RequestLedger.Accept(old(Book()), r, policy));
        Model() == if throws then booked.(ledger := Settle(booked.ledger, r.id, Rejected(SendFailed)))
                   else Send(booked, Request(r))
    {
      requestTimers := requestTimers + {r.id};
      pendingRequests := Put(pendingRequests, r.id, Pending(r.operationId, r.action, policy));
      issued := issued + [r];
      if throws {
        SettlePending(r.id, Rejected(SendFailed));
      } else {
        SendMessage(Request(r));
      }
    }

    method OnRequestTimer(id: Uuid)
      requires Valid()
      modifies this
      ensures Valid()
      ensures Model() == RequestTimerFires(old(Model()), id)
    {
      SettleKeepsValid(Book(), id, Rejected(TimedOut));
      SettlePending(id, Rejected(TimedOut));
    }

    method OnHelloTimer(c: ConnId)
      requires Valid()
      modifies this
      ensures Valid()
      ensures Model() == HelloTimerFires(old(Model()), c)
    {
      helloTimers := helloTimers - {c};
      if client == Some(c) && clientHello.None? && ClientIsOpen() {
        Reject();
      }
    }

    method ResetPairing()
      requires Valid()
      modifies this, authStore
      ensures Valid()
      ensures Model() == ServerModel.ResetPairing(old(Model()))
      ensures authStore.pairedBridge.None? && authStore.pairingChallenge.None? && PairingReset.Vacant(Model())
      ensures old(client).Some? && old(client).value in sockets ==> !sockets[old(client).value].open
    {
      authStore.ResetPairing();
      CloseCurrent();
      ClearState();
    }

    method StopServer()
      requires Valid()
      modifies this
      ensures Valid()
      ensures Model() == Stop(old(Model()))
      ensures old(client).Some? ==> PairingReset.Vacant(Model())
      ensures old(client).Some? && old(client).value in sockets ==> !sockets[old(client).value].open
      ensures authStore.Model() == old(authStore.Model())
    {
      if client.Some? {
        CloseCurrent();
        ClearState();
      }
    }
  }
}
