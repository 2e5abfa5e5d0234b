/**
 The server's request book-keeping: pending requests with their timers, and, as history, every request
 accepted, every promise settled and every audit entry appended.
 */
module RequestLedger {
  import opened Prelude
  import opened JsMap
  import opened Protocol

  datatype Pending = Pending(operationId: Uuid, action: string, policy: ActionPolicy)

  datatype Failure = TimedOut | SendFailed | ConnectionLost | IdentityMismatch | BridgeFailed(code: ErrorCode)

  datatype Outcome = Resolved(value: Json) | Rejected(reason: Failure)

  datatype Settlement = Settlement(id: Uuid, operationId: Uuid, outcome: Outcome)

  datatype AuditOutcome = Success | Failed | Timeout | TransportError

  datatype AuditEntry = AuditEntry(
    requestId: Uuid, operationId: Uuid, action: string, policy: ActionPolicy, outcome: AuditOutcome)

  datatype Ledger = Ledger(
    pending: seq<Entry<Uuid, Pending>>,
    timers: set<Uuid>,
    issued: seq<BridgeRequest>,
    settled: seq<Settlement>,
    audit: seq<AuditEntry>)

  const EMPTY_LEDGER := Ledger([], {}, [], [], [])

  function AuditOf(o: Outcome): AuditOutcome {
    match o
    case Resolved(_) => Success
    case Rejected(TimedOut) => Timeout
    case Rejected(SendFailed) => TransportError
    case Rejected(_) => Failed
  }

  function SettlementOf(e: Entry<Uuid, Pending>, o: Outcome): Settlement {
    Settlement(e.key, e.value.operationId, o)
  }

  function AuditEntryOf(e: Entry<Uuid, Pending>, o: Outcome): AuditEntry {
    AuditEntry(e.key, e.value.operationId, e.value.action, e.value.policy, AuditOf(o))
  }

  /** A request enters the book: it is pending and its timer runs. */
  function Accept(l: Ledger, r: BridgeRequest, policy: ActionPolicy): Ledger {
    l.(pending := Put(l.pending, r.id, Pending(r.operationId, r.action, policy)),
       timers := l.timers + {r.id},
       issued := l.issued + [r])
  }

  /** One pending request leaves the book. Anything else changes nothing. */
  function Settle(l: Ledger, id: Uuid, o: Outcome): Ledger {
    match Get(l.pending, id)
    case None => l
    case Some(p) =>
      l.(pending := Delete(l.pending, id),
         timers := l.timers - {id},
         settled := l.settled + [SettlementOf(Entry(id, p), o)],
         audit := l.audit + [AuditEntryOf(Entry(id, p), o)])
  }

  function Settlements(es: seq<Entry<Uuid, Pending>>, o: Outcome): (r: seq<Settlement>) {
    seq(|es|, i requires 0 <= i < |es| => SettlementOf(es[i], o))
  }

  function AuditEntries(es: seq<Entry<Uuid, Pending>>, o: Outcome): (r: seq<AuditEntry>) {
    seq(|es|, i requires 0 <= i < |es| => AuditEntryOf(es[i], o))
  }

  /** Every pending request leaves the book at once, in the order they were sent. */
  ghost function SettleAll(l: Ledger, o: Outcome): Ledger {
    l.(pending := [],
       timers := l.timers - Keys(l.pending),
       settled := l.settled + Settlements(l.pending, o),
       audit := l.audit + AuditEntries(l.pending, o))
  }

  ghost function IssuedIds(l: Ledger): set<Uuid> { set i | 0 <= i < |l.issued| :: l.issued[i].id }

  ghost function SettledIds(l: Ledger): set<Uuid> { set i | 0 <= i < |l.settled| :: l.settled[i].id }

  ghost predicate Fresh(l: Ledger, id: Uuid, operationId: Uuid) {
    forall i :: 0 <= i < |l.issued| ==> l.issued[i].id != id && l.issued[i].operationId != operationId
  }

  /** Some accepted request has this id, operation and action. */
  ghost predicate Known(issued: seq<BridgeRequest>, id: Uuid, operationId: Uuid, action: string) {
    exists i :: 0 <= i < |issued| && issued[i].id == id && issued[i].operationId == operationId
                && issued[i].action == action
  }

  ghost predicate AuditMatches(s: Settlement, a: AuditEntry) {
    a.requestId == s.id && a.operationId == s.operationId && a.outcome == AuditOf(s.outcome)
  }

  /**
   Settled exactly once: every accepted request is either pending with a live timer, or has been settled once
   and audited once, with matching outcomes; and accepted = pending + audited.
   */
  ghost predicate SettledOnce(l: Ledger) {
    && Unique(l.pending)
    && l.timers == Keys(l.pending)
    && (forall i, j :: 0 <= i < j < |l.settled| ==> l.settled[i].id != l.settled[j].id)
    && IssuedIds(l) == Keys(l.pending) + SettledIds(l)
    && Keys(l.pending) !! SettledIds(l)
    && |l.audit| == |l.settled|
    && (forall i :: 0 <= i < |l.settled| ==> AuditMatches(l.settled[i], l.audit[i]))
    && |l.issued| == |l.pending| + |l.audit|
  }

  /** Identifiers are unique, and book entries name the request that was sent. */
  ghost predicate Identified(l: Ledger) {
    && (forall i, j :: 0 <= i < j < |l.issued| ==>
          l.issued[i].id != l.issued[j].id && l.issued[i].operationId != l.issued[j].operationId)
    && (forall i :: 0 <= i < |l.pending| ==>
          Known(l.issued, l.pending[i].key, l.pending[i].value.operationId, l.pending[i].value.action))
    && (forall i :: 0 <= i < |l.audit| ==>
          Known(l.issued, l.audit[i].requestId, l.audit[i].operationId, l.audit[i].action))
  }

  ghost predicate Valid(l: Ledger) { SettledOnce(l) && Identified(l) }

  lemma AcceptKeepsValid(l: Ledger, r: BridgeRequest, policy: ActionPolicy)
    requires Valid(l) && Fresh(l, r.id, r.operationId)
    ensures Valid(Accept(l, r, policy))
    ensures r.id in Keys(Accept(l, r, policy).pending)
  {
    var n := Accept(l, r, policy);
    var p := Pending(r.operationId, r.action, policy);
    assert r.id !in IssuedIds(l);
    PutSpec(l.pending, r.id, p);
    GetIffKey(l.pending, r.id);
    assert n.pending == l.pending + [Entry(r.id, p)];
    assert SettledOnce(n) by {
      IssuedGrow(l, n, r);
      assert SettledIds(n) == SettledIds(l);
    }
    KnownGrows(l.issued, n.issued);
    assert n.issued[|l.issued|] == r;
    assert Known(n.issued, r.id, r.operationId, r.action);
  }

  lemma IssuedGrow(l: Ledger, n: Ledger, r: BridgeRequest)
    requires n.issued == l.issued + [r]
    ensures IssuedIds(n) == IssuedIds(l) + {r.id}
  {
    assert n.issued[|l.issued|] == r;
    forall x | x in IssuedIds(l) ensures x in IssuedIds(n) {
      var i :| 0 <= i < |l.issued| && l.issued[i].id == x;
      assert n.issued[i].id == x;
    }
  }

  lemma KnownGrows(s: seq<BridgeRequest>, t: seq<BridgeRequest>)
    requires s <= t
    ensures forall id, op, a :: Known(s, id, op, a) ==> Known(t, id, op, a)
  {
    forall id, op, a | Known(s, id, op, a) ensures Known(t, id, op, a) {
      var i :| 0 <= i < |s| && s[i].id == id && s[i].operationId == op && s[i].action == a;
      assert t[i] == s[i];
    }
  }

  lemma SettledGrow(l: Ledger, n: Ledger, more: seq<Settlement>)
    requires n.settled == l.settled + more
    ensures SettledIds(n) == SettledIds(l) + set i | 0 <= i < |more| :: more[i].id
  {
    var k := |l.settled|;
    forall x | x in SettledIds(l) ensures x in SettledIds(n) {
      var i :| 0 <= i < |l.settled| && l.settled[i].id == x;
      assert n.settled[i].id == x;
    }
    forall i | 0 <= i < |more| ensures more[i].id in SettledIds(n) {
      assert n.settled[k + i] == more[i];
    }
  }

  lemma SettleKeepsValid(l: Ledger, id: Uuid, o: Outcome)
    requires Valid(l)
    ensures Valid(Settle(l, id, o))
  {
    GetIffKey(l.pending, id);
    if id in Keys(l.pending) {
      SettleKeepsSettledOnce(l, id, o);
      SettleKeepsIdentified(l, id, o);
    }
  }

  lemma SettleKeepsSettledOnce(l: Ledger, id: Uuid, o: Outcome)
    requires SettledOnce(l) && id in Keys(l.pending)
    ensures SettledOnce(Settle(l, id, o))
  {
    var n := Settle(l, id, o);
    GetIffKey(l.pending, id);
    DeleteSpec(l.pending, id);
    var e := SettlementOf(Entry(id, Get(l.pending, id).value), o);
    SettledGrow(l, n, [e]);
    assert SettledIds(n) == SettledIds(l) + {id} by { assert [e][0].id == id; }
    assert IssuedIds(n) == IssuedIds(l);
    assert forall i :: 0 <= i < |l.settled| ==> l.settled[i].id in SettledIds(l);
  }

  lemma SettleKeepsIdentified(l: Ledger, id: Uuid, o: Outcome)
    requires Identified(l) && Get(l.pending, id).Some?
    ensures Identified(Settle(l, id, o))
  {
    var n := Settle(l, id, o);
    var k := Find(l.pending, id);
    assert l.pending[k] == Entry(id, Get(l.pending, id).value);
    assert forall i :: 0 <= i < |n.pending| ==> n.pending[i] == l.pending[if i < k then i else i + 1];
  }

  lemma SettleAllKeepsValid(l: Ledger, o: Outcome)
    requires Valid(l)
    ensures Valid(SettleAll(l, o)) && SettleAll(l, o).pending == []
  {
    SettleAllKeepsSettledOnce(l, o);
    SettleAllKeepsIdentified(l, o);
  }

  lemma SettleAllKeepsSettledOnce(l: Ledger, o: Outcome)
    requires SettledOnce(l)
    ensures SettledOnce(SettleAll(l, o))
  {
    var n := SettleAll(l, o);
    var k := |l.settled|;
    var more := Settlements(l.pending, o);
    assert Keys(n.pending) == {};
    SettledGrow(l, n, more);
    assert (set i | 0 <= i < |more| :: more[i].id) == Keys(l.pending) by {
      assert forall i :: 0 <= i < |more| ==> more[i].id == l.pending[i].key;
    }
    assert IssuedIds(n) == IssuedIds(l);
    forall i, j | 0 <= i < j < |n.settled| ensures n.settled[i].id != n.settled[j].id {
      if i < k <= j {
        assert l.settled[i].id in SettledIds(l);
        assert l.pending[j - k].key in Keys(l.pending);
      }
    }
    forall i | 0 <= i < |n.settled| ensures AuditMatches(n.settled[i], n.audit[i]) {
      if k <= i { assert n.audit[i] == AuditEntryOf(l.pending[i - k], o); }
    }
  }

  lemma SettleAllKeepsIdentified(l: Ledger, o: Outcome)
    requires Identified(l) && |l.audit| == |l.settled|
    ensures Identified(SettleAll(l, o))
  {
    var n := SettleAll(l, o);
    var k := |l.audit|;
    forall i | 0 <= i < |n.audit|
      ensures Known(n.issued, n.audit[i].requestId, n.audit[i].operationId, n.audit[i].action)
    {
      if k <= i { assert n.audit[i] == AuditEntryOf(l.pending[i - k], o); }
    }
  }
}
