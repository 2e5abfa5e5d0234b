/**
 When the gates agree on a connection authenticated by a pairing code: exactly when no code was sent on it after the
 accepted one.
 */
module PairingBoundary {
  import opened Prelude
  import opened JsMap
  import opened Protocol
  import opened BridgeSystem
  import opened PairingAgreement
  import A = AuthState
  import S = ServerModel
  import C = ClientModel
  import GA = GateAgreement
  import SystemSafety
  import OnceOnly

  // ---- every invariant of the system, along any path ----

  ghost predicate Sound(cfg: Config, a: System) {
    && SystemSafety.Safe(cfg, a) && GA.Inv(cfg, a) && OnceOnly.Inv(a)
    && forall c :: c in a.client.wires ==> PairInv(cfg.client, a, c)
  }

  lemma StepKeepsSound(cfg: Config, a: System, b: System, step: Step)
    requires Next(cfg, a, b, step) && Sound(cfg, a)
    ensures Sound(cfg, b)
    ensures forall c :: c in a.client.wires ==> c in b.client.wires && Carries(a, b, c)
  {
    SystemSafety.StepIsSafe(cfg, a, b, step);
    OnceOnly.StepKeepsInv(cfg, a, b, step);
    GA.StepKeepsKnown(cfg, a, b, step);
    forall c | c in b.client.wires ensures GA.ConnInv(cfg.client, b, c) {
      GA.StepKeepsConn(cfg, a, b, step, c);
    }
    forall c | c in b.client.wires ensures PairInv(cfg.client, b, c) && Carries(a, b, c) {
      StepKeepsPair(cfg, a, b, step, c);
    }
  }

  lemma InitialIsSound(cfg: Config, a: System)
    requires Initial(cfg, a)
    ensures Sound(cfg, a)
  {
    assert IsRun(cfg, [], [a]);
    SystemSafety.RunIsSafe(cfg, [], [a], 0);
    GA.RunKeepsInv(cfg, [], [a], 0);
    OnceOnly.RunKeepsInv(cfg, [], [a], 0);
  }

  /** What every step keeps holds along a path. */
  lemma {:induction false} Along(cfg: Config, steps: seq<Step>, trace: seq<System>, k: nat, P: System -> bool)
    requires IsPath(cfg, steps, trace) && k < |trace| && P(trace[0])
    requires forall a, b, step :: Next(cfg, a, b, step) && P(a) ==> P(b)
    ensures P(trace[k])
  {
    if k > 0 {
      Along(cfg, steps, trace, k - 1, P);
      assert Next(cfg, trace[k - 1], trace[k], steps[k - 1]);
    }
  }

  lemma PathIsSound(cfg: Config, steps: seq<Step>, trace: seq<System>, k: nat)
    requires IsPath(cfg, steps, trace) && Sound(cfg, trace[0]) && k < |trace|
    ensures Sound(cfg, trace[k])
  {
    forall a, b, step | Next(cfg, a, b, step) && Sound(cfg, a) ensures Sound(cfg, b) {
      StepKeepsSound(cfg, a, b, step);
    }
    Along(cfg, steps, trace, k, a => Sound(cfg, a));
  }

  lemma RunIsSound(cfg: Config, steps: seq<Step>, trace: seq<System>, k: nat)
    requires IsRun(cfg, steps, trace) && k < |trace|
    ensures Sound(cfg, trace[k])
  {
    InitialIsSound(cfg, trace[0]);
    PathIsSound(cfg, steps, trace, k);
  }

  // ---- deliveries ----

  ghost predicate RequestOn(a: System, c: ConnId) {
    Deliverable(a) && a.client.ws.value.id == c && NextMessage(a).Request?
  }

  ghost predicate PairedBy(a: System, c: ConnId, via: S.Via) {
    c in a.server.sockets && a.server.sockets[c].via == via && via.ByPairing?
  }

  lemma DeliveredIsPermitted(cfg: Config, a: System, c: ConnId, via: S.Via)
    requires Sound(cfg, a) && RequestOn(a, c) && PairedBy(a, c, via)
    ensures Get(a.client.responseCache, NextMessage(a).request.operationId).None?
    ensures GA.Passes(cfg.client, a.client.grantedScopes, NextMessage(a).request)
    ensures Submitted(a.client, c) == via.codes ==> a.client.authStatus == C.Authenticated
  {
    var k := a.server.sockets[c];
    assert PairInv(cfg.client, a, c);
    FollowsPop(cfg.client, via.scopes, Tail(k.out));
    assert OnceOnly.InQueue(a.server, c, 0, NextMessage(a).request.operationId);
    OnceOnly.NewRequestKeepsWork(cfg.client, a.client, NextMessage(a).request);
  }

  /** In every run, as long as no code was sent after the accepted one, the bridge admits what it is asked. */
  lemma PairingGatesAgree(cfg: Config, steps: seq<Step>, trace: seq<System>, k: nat, c: ConnId, via: S.Via)
    requires IsRun(cfg, steps, trace) && k < |trace|
    requires RequestOn(trace[k], c) && PairedBy(trace[k], c, via) && Submitted(trace[k].client, c) == via.codes
    ensures GA.Admits(cfg.client, trace[k].client, NextMessage(trace[k]).request)
  {
    RunIsSound(cfg, steps, trace, k);
    DeliveredIsPermitted(cfg, trace[k], c, via);
  }

  // ---- from the acceptance on ----

  /** Both ends are on the connection, and the bridge has heard that its code was accepted. */
  ghost predicate HeardOn(a: System, c: ConnId, via: S.Via) {
    && PairedBy(a, c, via) && a.server.client == Some(c) && a.server.sockets[c].open
    && !Coming(a.server.sockets[c].out) && C.IsOpen(a.client) && a.client.ws.value.id == c
  }

  /** Every request ever delivered on the connection from here on is admitted. */
  ghost predicate AgreesFrom(cfg: Config, a: System, c: ConnId) {
    forall b :: Leads(cfg, a, b) && RequestOn(b, c) ==> GA.Admits(cfg.client, b.client, NextMessage(b).request)
  }

  ghost predicate Leads(cfg: Config, a: System, b: System) {
    exists steps, trace :: IsPath(cfg, steps, trace) && trace[0] == a && trace[|trace| - 1] == b
  }

  /** The acceptance was heard on this connection, after so many codes. */
  ghost predicate CountedOut(a: System, c: ConnId, via: S.Via, n: nat) {
    && c in a.client.wires && PairedBy(a, c, via) && !Coming(a.server.sockets[c].out)
    && Submitted(a.client, c) == n
  }

  /** Once the acceptance is heard the count of codes is final. */
  lemma CountIsFinal(
    cfg: Config, steps: seq<Step>, trace: seq<System>, k: nat, c: ConnId, via: S.Via, n: nat)
    requires IsPath(cfg, steps, trace) && Sound(cfg, trace[0]) && k < |trace| && CountedOut(trace[0], c, via, n)
    ensures Sound(cfg, trace[k]) && CountedOut(trace[k], c, via, n)
  {
    var P := a => Sound(cfg, a) && CountedOut(a, c, via, n);
    forall a, b, step | Next(cfg, a, b, step) && P(a) ensures P(b) {
      StepKeepsCount(cfg, a, b, step, c, via, n);
    }
    Along(cfg, steps, trace, k, P);
  }

  lemma StepKeepsCount(cfg: Config, a: System, b: System, step: Step, c: ConnId, via: S.Via, n: nat)
    requires Next(cfg, a, b, step) && Sound(cfg, a) && CountedOut(a, c, via, n)
    ensures Sound(cfg, b) && CountedOut(b, c, via, n)
  {
    StepKeepsSound(cfg, a, b, step);
    assert Carries(a, b, c);
  }

  lemma EqualCountAgrees(cfg: Config, a: System, c: ConnId, via: S.Via)
    requires Sound(cfg, a) && HeardOn(a, c, via) && Submitted(a.client, c) == via.codes
    ensures AgreesFrom(cfg, a, c)
  {
    forall b | Leads(cfg, a, b) && RequestOn(b, c) ensures GA.Admits(cfg.client, b.client, NextMessage(b).request) {
      AdmittedLater(cfg, a, b, c, via);
    }
  }

  lemma AdmittedLater(cfg: Config, a: System, b: System, c: ConnId, via: S.Via)
    requires Sound(cfg, a) && via.ByPairing? && CountedOut(a, c, via, via.codes) && Leads(cfg, a, b) && RequestOn(b, c)
    ensures GA.Admits(cfg.client, b.client, NextMessage(b).request)
  {
    CountStaysFinal(cfg, a, b, c, via, via.codes);
    DeliveredIsPermitted(cfg, b, c, via);
  }

  lemma CountStaysFinal(cfg: Config, a: System, b: System, c: ConnId, via: S.Via, n: nat)
    requires Sound(cfg, a) && CountedOut(a, c, via, n) && Leads(cfg, a, b)
    ensures Sound(cfg, b) && CountedOut(b, c, via, n)
  {
    var steps, trace :| IsPath(cfg, steps, trace) && trace[0] == a && trace[|trace| - 1] == b;
    CountIsFinal(cfg, steps, trace, |steps|, c, via, n);
  }

  // ---- a further code always ends in a refusal ----

  lemma Stays(cfg: Config, a: System)
    ensures Leads(cfg, a, a)
  {
    assert IsPath(cfg, [], [a]);
  }

  lemma LeadsOn(cfg: Config, a: System, b: System, c: System, step: Step)
    requires Leads(cfg, a, b) && Next(cfg, b, c, step)
    ensures Leads(cfg, a, c)
  {
    var steps, trace :| IsPath(cfg, steps, trace) && trace[0] == a && trace[|trace| - 1] == b;
    assert IsPath(cfg, steps + [step], trace + [c]);
  }

  const DRAW := A.Draw(0, 0, 0, 0)

  /** Whatever this bridge sends after its hello, the server that accepted its code stays connected to it. */
  lemma ReadingKeepsConnected(cfg: Config, a: System, c: ConnId, via: S.Via)
    requires Sound(cfg, a) && HeardOn(a, c, via) && a.client.wires[c] != []
    ensures var t := S.HandleMessage(cfg.server, a.server, c, a.client.wires[c][0], DRAW);
            t.client == Some(c) && c in t.sockets && t.sockets[c].open
  {
    var m := a.client.wires[c][0];
    assert PairInv(cfg.client, a, c) && GA.ConnInv(cfg.client, a, c) && Ours(cfg.client, m);
    assert S.IsConnected(a.server) && !m.Hello?;
  }

  /** The server reads everything the bridge has sent. */
  lemma {:induction false} DrainWire(cfg: Config, a: System, c: ConnId, via: S.Via) returns (b: System)
    requires Sound(cfg, a) && HeardOn(a, c, via)
    ensures Leads(cfg, a, b) && Sound(cfg, b) && HeardOn(b, c, via) && b.client.wires[c] == []
    ensures Submitted(b.client, c) == Submitted(a.client, c)
    decreases |a.client.wires[c]|
  {
    Stays(cfg, a);
    b := a;
    while b.client.wires[c] != []
      invariant Leads(cfg, a, b) && Sound(cfg, b) && HeardOn(b, c, via)
      invariant Submitted(b.client, c) == Submitted(a.client, c)
      decreases |b.client.wires[c]|
    {
      var n := System(S.Step(cfg.server, b.server, S.Message(c, b.client.wires[c][0], DRAW)),
                      PopFromBridge(b.client, c));
      ReadingKeepsConnected(cfg, b, c, via);
      StepKeepsSound(cfg, b, n, ServerReceives(c, DRAW));
      LeadsOn(cfg, a, b, n, ServerReceives(c, DRAW));
      b := n;
    }
  }

  /** The bridge hears everything the server has sent; what it answers is no code. */
  lemma {:induction false} DrainQueue(cfg: Config, a: System, c: ConnId, via: S.Via) returns (b: System)
    requires Sound(cfg, a) && HeardOn(a, c, via)
    ensures Leads(cfg, a, b) && Sound(cfg, b) && HeardOn(b, c, via) && b.server.sockets[c].out == []
    ensures b.server.sockets[c].codes == a.server.sockets[c].codes
    ensures b.server == a.server.(sockets := b.server.sockets)
  {
    Stays(cfg, a);
    b := a;
    while b.server.sockets[c].out != []
      invariant Leads(cfg, a, b) && Sound(cfg, b) && HeardOn(b, c, via)
      invariant b.server.sockets[c].codes == a.server.sockets[c].codes
      invariant b.server == a.server.(sockets := b.server.sockets)
      decreases |b.server.sockets[c].out|
    {
      var n := System(PopFromServer(b.server, c), C.Step(cfg.client, b.client, C.Receives(NextMessage(b), 0)));
      MessageEffect(cfg.client, b.client, NextMessage(b), 0);
      StepKeepsSound(cfg, b, n, BridgeReceives(0));
      LeadsOn(cfg, a, b, n, BridgeReceives(0));
      b := n;
    }
  }

  /** Granted to the connection and advertised by the bridge. */
  ghost predicate Grants(cfg: Config, via: S.Via, action: string)
    requires via.ByPairing?
  {
    && GetActionPolicy(action).Some? && GetActionPolicy(action).value.scope in via.scopes
    && Advertised(cfg.client.capabilities, action)
  }

  /** Some request for the action is delivered on the connection and refused as not authenticated. */
  ghost predicate Refuses(cfg: Config, a: System, c: ConnId, action: string, payload: Json) {
    && RequestOn(a, c) && NextMessage(a).request.action == action && NextMessage(a).request.payload == payload
    && Get(a.client.responseCache, NextMessage(a).request.operationId).None?
    && C.Gate(cfg.client, a.client, NextMessage(a).request) == Some(NotAuthenticated)
  }

  lemma {:induction false} AboveAll(ids: seq<Uuid>) returns (id: Uuid)
    ensures id > 0 && forall i :: 0 <= i < |ids| ==> ids[i] < id
  {
    id := 1;
    if ids != [] {
      var rest := AboveAll(ids[1..]);
      id := rest + ids[0];
      assert forall i :: 1 <= i < |ids| ==> ids[i] == ids[1..][i - 1];
    }
  }

  lemma FreshIds(issued: seq<BridgeRequest>) returns (id: Uuid)
    ensures id > 0 && forall i :: 0 <= i < |issued| ==> issued[i].id != id && issued[i].operationId != id
  {
    var ids := seq(|issued|, i requires 0 <= i < |issued| => issued[i].id);
    var operations := seq(|issued|, i requires 0 <= i < |issued| => issued[i].operationId);
    var a := AboveAll(ids);
    var b := AboveAll(operations);
    id := a + b;
    assert forall i :: 0 <= i < |issued| ==> issued[i].id == ids[i] && issued[i].operationId == operations[i];
  }

  /** All is read on both sides, and the bridge believes it was rejected. */
  ghost predicate Misled(a: System, c: ConnId, via: S.Via) {
    HeardOn(a, c, via) && a.server.sockets[c].out == [] && a.client.authStatus == C.AuthFailed
  }

  lemma FurtherCodeMisleads(cfg: Config, a: System, c: ConnId, via: S.Via) returns (b: System)
    requires Sound(cfg, a) && HeardOn(a, c, via) && Submitted(a.client, c) > via.codes
    ensures Leads(cfg, a, b) && Sound(cfg, b) && Misled(b, c, via)
  {
    var mid := DrainWire(cfg, a, c, via);
    assert PairInv(cfg.client, mid, c);
    b := DrainQueue(cfg, mid, c, via);
    LeadsThrough(cfg, a, mid, b);
    assert PairInv(cfg.client, b, c);
  }

  lemma LeadsThrough(cfg: Config, a: System, b: System, c: System)
    requires Leads(cfg, a, b) && Leads(cfg, b, c)
    ensures Leads(cfg, a, c)
  {
    var s1, t1 :| IsPath(cfg, s1, t1) && t1[0] == a && t1[|t1| - 1] == b;
    var s2, t2 :| IsPath(cfg, s2, t2) && t2[0] == b && t2[|t2| - 1] == c;
    assert IsPath(cfg, s1 + s2, t1 + t2[1..]);
  }

  lemma MisledRefuses(cfg: Config, a: System, c: ConnId, via: S.Via, action: string, payload: Json)
    returns (b: System)
    requires Sound(cfg, a) && Misled(a, c, via) && Grants(cfg, via, action)
    ensures Leads(cfg, a, b) && Refuses(cfg, b, c, action, payload)
  {
    var id := FreshIds(a.server.ledger.issued);
    var e := S.Sending(action, payload, 1000, id, id, false);
    b := a.(server := S.Step(cfg.server, a.server, e));
    assert PairInv(cfg.client, a, c);
    WritesRequest(cfg.server, a.server, c, e);
    OneStepLeads(cfg, a, b, ServerLocal(e));
    StepKeepsSound(cfg, a, b, ServerLocal(e));
    DeliveredIsPermitted(cfg, b, c, via);
  }

  lemma OneStepLeads(cfg: Config, a: System, b: System, step: Step)
    requires Next(cfg, a, b, step)
    ensures Leads(cfg, a, b)
  {
    Stays(cfg, a);
    LeadsOn(cfg, a, a, b, step);
  }

  lemma WritesRequest(cfg: S.ServerConfig, s: S.Server, c: ConnId, e: S.Event)
    requires e.Sending? && !e.throws && S.Enabled(s, e) && S.CheckRequest(s, e.action, e.timeoutMs).None?
    requires s.client == Some(c) && s.sockets[c].out == []
    ensures var t := S.Step(cfg, s, e);
      && c in t.sockets && t.sockets[c].via == s.sockets[c].via && |t.sockets[c].out| == 1
      && t.sockets[c].out[0].Request? && t.sockets[c].out[0].request.action == e.action
      && t.sockets[c].out[0].request.payload == e.payload
  {
  }

  /** A code sent after the accepted one: some continuation ends in a refusal of a permitted request. */
  lemma FurtherCodeRefuses(cfg: Config, a: System, c: ConnId, via: S.Via, action: string, payload: Json)
    returns (b: System)
    requires Sound(cfg, a) && HeardOn(a, c, via) && Submitted(a.client, c) > via.codes && Grants(cfg, via, action)
    ensures Leads(cfg, a, b) && Refuses(cfg, b, c, action, payload)
  {
    var mid := FurtherCodeMisleads(cfg, a, c, via);
    b := MisledRefuses(cfg, mid, c, via, action, payload);
    LeadsThrough(cfg, a, mid, b);
  }

  /**
   The exact condition. In any run, once the bridge has heard on a connection that its code was accepted: the two
   gates agree on every request delivered there ever after, if and only if no code was sent after the accepted one.
   */
  lemma AgreeFromIff(
    cfg: Config, steps: seq<Step>, trace: seq<System>, k: nat, c: ConnId, via: S.Via, action: string)
    requires IsRun(cfg, steps, trace) && k < |trace| && HeardOn(trace[k], c, via) && Grants(cfg, via, action)
    ensures AgreesFrom(cfg, trace[k], c) <==> Submitted(trace[k].client, c) == via.codes
  {
    RunIsSound(cfg, steps, trace, k);
    assert PairInv(cfg.client, trace[k], c);
    if Submitted(trace[k].client, c) == via.codes {
      EqualCountAgrees(cfg, trace[k], c, via);
    } else {
      var b := FurtherCodeRefuses(cfg, trace[k], c, via, action, "");
    }
  }
}
