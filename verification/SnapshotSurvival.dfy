/** How long a search snapshot lives, over every run of creations and lookups. */
module SnapshotSurvival {
  import opened Prelude
  import opened JsMap
  import opened Rems
  import opened SearchCursor
  import opened SnapshotStore

  // ---- single operations ----

  /** Entries of a JavaScript map with proper ids, none accessed after `now`. */
  ghost predicate Sound(m: Snapshots, now: int) {
    && Unique(m)
    && forall e :: e in m ==> e.key != "" && e.value.lastAccessedAt <= now
  }

  /** `id` holds `s`; every other entry accessed since `s` was has its id in `since`. */
  ghost predicate Holds(m: Snapshots, id: string, s: Snapshot, since: set<string>) {
    && Get(m, id) == Some(s)
    && forall e :: e in m && e.key != id && e.value.lastAccessedAt >= s.lastAccessedAt ==> e.key in since
  }

  lemma GetIsMember(m: Snapshots, id: string, s: Snapshot)
    requires Unique(m)
    ensures Get(m, id) == Some(s) <==> Entry(id, s) in m
  {
    if Entry(id, s) in m {
      var i :| 0 <= i < |m| && m[i] == Entry(id, s);
      FindAt(m, i);
    }
    if Get(m, id) == Some(s) {
      assert m[Find(m, id)] == Entry(id, s);
    }
  }

  lemma {:induction false} PrunedMembers(m: Snapshots, now: int)
    ensures forall e :: e in Pruned(m, now) <==> e in m && now - e.value.lastAccessedAt <= TTL_MS
    ensures Unique(m) ==> Unique(Pruned(m, now))
    ensures |Pruned(m, now)| <= |m|
  {
    if m != [] {
      PrunedMembers(m[1..], now);
      assert m == [m[0]] + m[1..];
      var r := Pruned(m[1..], now);
      if Unique(m) {
        assert forall i :: 0 <= i < |r| ==> r[i] in m[1..];
      }
    }
  }

  /** Pruning drops exactly the entries not accessed for more than the time to live. */
  lemma PrunedExactly(m: Snapshots, now: int, id: string)
    requires Unique(m)
    ensures Get(Pruned(m, now), id)
         == match Get(m, id)
            case None => None
            case Some(s) => if now - s.lastAccessedAt > 900_000 then None else Some(s)
  {
    PrunedMembers(m, now);
    var p := Pruned(m, now);
    if Get(p, id).Some? {
      GetIsMember(p, id, Get(p, id).value);
      GetIsMember(m, id, Get(p, id).value);
    }
    if Get(m, id).Some? {
      GetIsMember(m, id, Get(m, id).value);
      GetIsMember(p, id, Get(m, id).value);
    }
  }

  lemma PruneKeeps(m: Snapshots, now: int, id: string, s: Snapshot, since: set<string>)
    requires Unique(m) && Holds(m, id, s, since) && now - s.lastAccessedAt <= TTL_MS
    ensures Holds(Pruned(m, now), id, s, since)
  {
    PrunedExactly(m, now, id);
    PrunedMembers(m, now);
  }

  lemma PutMembers(m: Snapshots, id: string, s: Snapshot)
    requires Unique(m)
    ensures forall e :: e in Put(m, id, s) <==> e == Entry(id, s) || (e in m && e.key != id)
    ensures Unique(Put(m, id, s)) && Get(Put(m, id, s), id) == Some(s)
  {
    PutSpec(m, id, s);
    var n := Put(m, id, s);
    forall e ensures e in n <==> e == Entry(id, s) || (e in m && e.key != id) {
      GetIsMember(n, e.key, e.value);
      GetIsMember(m, e.key, e.value);
    }
  }

  lemma PutKeeps(m: Snapshots, q: string, t: Snapshot, id: string, s: Snapshot, since: set<string>)
    requires Unique(m) && Holds(m, id, s, since) && q != id
    ensures Holds(Put(m, q, t), id, s, since + {q})
  {
    PutMembers(m, q, t);
    PutSpec(m, q, t);
  }

  lemma MembersWithoutAt(m: Snapshots, i: nat)
    requires Unique(m) && i < |m|
    ensures var r := m[..i] + m[i + 1..];
            Unique(r) && forall e :: e in r <==> e in m && e != m[i]
  {
    var r := m[..i] + m[i + 1..];
    assert forall j :: 0 <= j < |r| ==> r[j] == m[if j < i then j else j + 1];
    forall e ensures e in r <==> e in m && e != m[i] {
      if e in m && e != m[i] {
        var j :| 0 <= j < |m| && m[j] == e;
        assert r[if j < i then j else j - 1] == e;
      }
    }
  }

  lemma {:induction false} KeyCount(m: Snapshots)
    requires Unique(m)
    ensures |Keys(m)| == |m|
  {
    if m != [] {
      KeyCount(m[1..]);
      assert m == [m[0]] + m[1..];
      assert m[0].key !in Keys(m[1..]);
      assert Keys(m) == {m[0].key} + Keys(m[1..]) by {
        forall k | k in Keys(m[1..]) ensures k in Keys(m) {
          var j :| 0 <= j < |m| - 1 && m[1..][j].key == k;
          assert m[j + 1].key == k;
        }
        forall k | k in Keys(m) ensures k in {m[0].key} + Keys(m[1..]) {
          var j :| 0 <= j < |m| && m[j].key == k;
          if j > 0 { assert m[1..][j - 1].key == k; }
        }
      }
    }
  }

  /** A full map whose oldest entry is `id` has at least twenty others accessed since. */
  lemma OldestHasNewer(m: Snapshots, id: string, s: Snapshot, since: set<string>)
    requires Unique(m) && Holds(m, id, s, since) && m[Oldest(m)].key == id
    ensures |m| <= |since| + 1
  {
    var i := Oldest(m);
    FindAt(m, i);
    KeyCount(m);
    assert Keys(m) <= since + {id};
    SubsetIsSmaller(Keys(m), since + {id});
  }

  /** The least recently used go first, until twenty are left. */
  lemma {:induction false} EnforcedKeepsNewest(m: Snapshots, now: int)
    requires Sound(m, now)
    ensures Sound(Enforced(m), now)
    ensures |Enforced(m)| == if |m| <= 20 then |m| else 20
    ensures forall e :: e in Enforced(m) ==> e in m
    ensures forall d, e :: d in m && d !in Enforced(m) && e in Enforced(m) ==>
              d.value.lastAccessedAt <= e.value.lastAccessedAt
    decreases |m|
  {
    if |m| > MAX_ACTIVE {
      var i := Oldest(m);
      MembersWithoutAt(m, i);
      assert m[i] in m;
      EnforcedKeepsNewest(m[..i] + m[i + 1..], now);
    }
  }

  lemma WithoutKeeps(m: Snapshots, i: nat, id: string, s: Snapshot, since: set<string>)
    requires Unique(m) && i < |m| && m[i].key != id && Holds(m, id, s, since)
    ensures Holds(m[..i] + m[i + 1..], id, s, since)
  {
    MembersWithoutAt(m, i);
    GetIsMember(m, id, s);
    GetIsMember(m[..i] + m[i + 1..], id, s);
  }

  lemma {:induction false} EnforceKeeps(m: Snapshots, now: int, id: string, s: Snapshot, since: set<string>)
    requires Sound(m, now) && Holds(m, id, s, since) && |since| < MAX_ACTIVE
    ensures Holds(Enforced(m), id, s, since)
    decreases |m|
  {
    if |m| > MAX_ACTIVE {
      var i := Oldest(m);
      var r := m[..i] + m[i + 1..];
      MembersWithoutAt(m, i);
      assert m[i] in m;
      if m[i].key == id { OldestHasNewer(m, id, s, since); }
      WithoutKeeps(m, i, id, s, since);
      EnforceKeeps(r, now, id, s, since);
    }
  }

  /** An idle snapshot is gone for its cursor, and a cursor opens no snapshot made for something else. */
  lemma CursorRefused(
    number: string -> Option<int>, m: Snapshots, kind: Kind, id: string, s: Snapshot, binding: Binding, hash: string,
    offset: nat, now: int)
    requires ReadsNumerals(number) && ':' !in id && ':' !in hash && Unique(m) && Get(m, id) == Some(s)
    requires now - s.lastAccessedAt > 900_000 || s.binding != binding || s.hash != hash
    ensures Resolve(number, Pruned(m, now), kind, binding, CursorText(kind, id, offset, hash))
         == Err(if now - s.lastAccessedAt > 900_000 then NotFound else Mismatch)
  {
    CursorRoundTripsIff(number, kind, id, hash, offset);
    PrunedExactly(m, now, id);
  }

  // ---- runs ----

  /** `prunedAt` is the clock when the operation starts, `now` when it stores or touches the snapshot. */
  datatype Event =
    | Create(kind: Kind, id: string, snapshot: Snapshot, prunedAt: int)
    | Lookup(kind: Kind, binding: Binding, cursor: string, prunedAt: int, at: int)
  {
    function Now(): int { if Create? then snapshot.lastAccessedAt else at }
  }

  function Step(number: string -> Option<int>, s: Model, e: Event): Model {
    match e
    case Create(kind, id, snapshot, prunedAt) => Created(s, kind, id, snapshot, prunedAt)
    case Lookup(kind, binding, cursor, prunedAt, at) => LookedUp(number, s, kind, binding, cursor, prunedAt, at)
  }

  /** The id of the snapshot of this kind that the event creates or accesses. */
  function Touched(number: string -> Option<int>, s: Model, e: Event, kind: Kind): Option<string> {
    if e.kind != kind then None
    else match e
      case Create(_, id, _, _) => Some(id)
      case Lookup(_, binding, cursor, prunedAt, _) =>
        match Resolve(number, Pruned(s.Of(kind), prunedAt), kind, binding, cursor)
        case Err(_) => None
        case Ok(hit) => Some(hit.0.snapshotId)
  }

  /** A run from empty maps under a strictly increasing clock. */
  ghost predicate IsRun(number: string -> Option<int>, events: seq<Event>, trace: seq<Model>) {
    && |trace| == |events| + 1 && trace[0] == Model([], [])
    && (forall i {:trigger Step(number, trace[i], events[i])} :: 0 <= i < |events| ==>
          trace[i + 1] == Step(number, trace[i], events[i]))
    && (forall i :: 0 <= i < |events| ==> events[i].prunedAt <= events[i].Now())
    && (forall i, j :: 0 <= i < j < |events| ==> events[i].Now() < events[j].prunedAt)
    && (forall i :: 0 <= i < |events| && events[i].Create? ==> events[i].id != "")
  }

  /** The other snapshots of the kind created or accessed after event `a` and before event `k`. */
  ghost function Since(
    number: string -> Option<int>, events: seq<Event>, trace: seq<Model>, kind: Kind, id: string, a: nat, k: nat)
    : set<string>
    requires |trace| == |events| + 1 && k <= |events|
  {
    if k <= a + 1 then {}
    else
      Plus(Since(number, events, trace, kind, id, a, k - 1), Touched(number, trace[k - 1], events[k - 1], kind), id)
  }

  /** One more use, unless it is of `id` itself. */
  function Plus(since: set<string>, touched: Option<string>, id: string): (r: set<string>)
    ensures since <= r
  {
    if touched.Some? && touched.value != id then since + {touched.value} else since
  }

  /** One event's effect on the map of one kind. */
  lemma MapStep(number: string -> Option<int>, s: Model, e: Event, kind: Kind)
    ensures var p, n := Pruned(s.Of(kind), e.prunedAt), Step(number, s, e).Of(kind);
      match Touched(number, s, e, kind)
      case None => n == (if e.Create? then Enforced(p) else p)
      case Some(id) =>
        if e.Create? then n == Enforced(Put(p, id, e.snapshot))
        else Get(p, id).Some? && n == Put(p, id, Get(p, id).value.(lastAccessedAt := e.at))
  {
    if e.Lookup? {
      LookupStep(number, s, e.kind, e.binding, e.cursor, e.prunedAt, e.at, kind);
    }
  }

  lemma LookupStep(
    number: string -> Option<int>, s: Model, k: Kind, binding: Binding, cursor: string, prunedAt: int, at: int,
    kind: Kind)
    ensures var p, n := Pruned(s.Of(kind), prunedAt), LookedUp(number, s, k, binding, cursor, prunedAt, at).Of(kind);
      if k != kind || Resolve(number, p, k, binding, cursor).Err? then n == p
      else
        var id := Resolve(number, p, k, binding, cursor).value.0.snapshotId;
        Get(p, id).Some? && n == Put(p, id, Get(p, id).value.(lastAccessedAt := at))
  {
    var r := Resolve(number, PruneBoth(s, prunedAt).Of(k), k, binding, cursor);
    if r.Ok? { ResolvedIsHeld(number, PruneBoth(s, prunedAt).Of(k), k, binding, cursor); }
  }

  lemma ResolvedIsHeld(number: string -> Option<int>, m: Snapshots, k: Kind, binding: Binding, cursor: string)
    requires Resolve(number, m, k, binding, cursor).Ok?
    ensures var hit := Resolve(number, m, k, binding, cursor).value; Get(m, hit.0.snapshotId) == Some(hit.1)
  {
  }

  lemma StepKeepsSound(number: string -> Option<int>, s: Model, e: Event, kind: Kind, before: int)
    requires Sound(s.Of(kind), before) && before < e.prunedAt <= e.Now() && (e.Create? ==> e.id != "")
    requires |s.Of(kind)| <= MAX_ACTIVE
    ensures Sound(Step(number, s, e).Of(kind), e.Now()) && |Step(number, s, e).Of(kind)| <= MAX_ACTIVE
  {
    var p := Pruned(s.Of(kind), e.prunedAt);
    MapStep(number, s, e, kind);
    PrunedMembers(s.Of(kind), e.prunedAt);
    var t := Touched(number, s, e, kind);
    if e.Create? {
      if t.Some? {
        PutMembers(p, e.id, e.snapshot);
        EnforcedKeepsNewest(Put(p, e.id, e.snapshot), e.Now());
      } else {
        EnforcedKeepsNewest(p, e.Now());
      }
    } else if t.Some? {
      var was := Get(p, t.value).value;
      GetIsMember(p, t.value, was);
      GetIffKey(p, t.value);
      PutSpec(p, t.value, was.(lastAccessedAt := e.at));
      PutMembers(p, t.value, was.(lastAccessedAt := e.at));
    }
  }

  lemma {:induction false} RunIsSound(
    number: string -> Option<int>, events: seq<Event>, trace: seq<Model>, kind: Kind, k: nat)
    requires IsRun(number, events, trace) && k <= |events|
    ensures |trace[k].Of(kind)| <= MAX_ACTIVE
    ensures if k == 0 then trace[k].Of(kind) == [] else Sound(trace[k].Of(kind), events[k - 1].Now())
  {
    if k > 0 {
      RunIsSound(number, events, trace, kind, k - 1);
      var before := if k == 1 then events[0].prunedAt - 1 else events[k - 2].Now();
      StepKeepsSound(number, trace[k - 1], events[k - 1], kind, before);
    }
  }

  /** At most twenty snapshots of each kind are ever retained. */
  lemma AtMostTwenty(number: string -> Option<int>, events: seq<Event>, trace: seq<Model>, kind: Kind, k: nat)
    requires IsRun(number, events, trace) && k <= |events|
    ensures |trace[k].Of(kind)| <= 20
  {
    RunIsSound(number, events, trace, kind, k);
  }

  /** Using a snapshot makes it the newest of its kind. */
  lemma UseStarts(number: string -> Option<int>, s: Model, e: Event, kind: Kind, id: string, before: int)
    requires Sound(s.Of(kind), before) && before < e.prunedAt <= e.Now() && (e.Create? ==> e.id != "")
    requires |s.Of(kind)| <= MAX_ACTIVE && Touched(number, s, e, kind) == Some(id)
    ensures Get(Step(number, s, e).Of(kind), id).Some?
    ensures var t := Get(Step(number, s, e).Of(kind), id).value;
            && t.lastAccessedAt == e.Now() && Holds(Step(number, s, e).Of(kind), id, t, {})
            && (e.Create? ==> t == e.snapshot)
            && (e.Lookup? ==>
                  Get(s.Of(kind), id).Some? && t == Get(s.Of(kind), id).value.(lastAccessedAt := e.at))
  {
    var p := Pruned(s.Of(kind), e.prunedAt);
    MapStep(number, s, e, kind);
    PrunedIsSound(s.Of(kind), before, e.prunedAt);
    PrunedExactly(s.Of(kind), e.prunedAt, id);
    if e.Create? {
      CreatedIsNewest(p, e.prunedAt, id, e.snapshot);
    } else {
      AccessedIsNewest(p, e.prunedAt, id, Get(p, id).value, e.at);
    }
  }

  lemma PrunedIsSound(m: Snapshots, before: int, now: int)
    requires Sound(m, before) && before < now
    ensures Sound(Pruned(m, now), now) && forall e :: e in Pruned(m, now) ==> e.value.lastAccessedAt < now
  {
    PrunedMembers(m, now);
  }

  lemma CreatedIsNewest(p: Snapshots, prunedAt: int, id: string, s: Snapshot)
    requires Sound(p, prunedAt) && prunedAt <= s.lastAccessedAt && id != ""
    requires forall e :: e in p ==> e.value.lastAccessedAt < s.lastAccessedAt
    ensures Holds(Enforced(Put(p, id, s)), id, s, {})
  {
    PutMembers(p, id, s);
    EnforceKeeps(Put(p, id, s), s.lastAccessedAt, id, s, {});
  }

  lemma AccessedIsNewest(p: Snapshots, prunedAt: int, id: string, s: Snapshot, at: int)
    requires Sound(p, prunedAt) && forall e :: e in p ==> e.value.lastAccessedAt < at
    ensures Holds(Put(p, id, s.(lastAccessedAt := at)), id, s.(lastAccessedAt := at), {})
  {
    PutMembers(p, id, s.(lastAccessedAt := at));
  }

  /** An event that touches another snapshot, or none, leaves this one when it is fresh and among the newest twenty. */
  lemma OthersKeep(
    number: string -> Option<int>, s: Model, e: Event, kind: Kind, before: int, id: string, t: Snapshot,
    since: set<string>)
    requires Sound(s.Of(kind), before) && before < e.prunedAt <= e.Now() && (e.Create? ==> e.id != "")
    requires Holds(s.Of(kind), id, t, since) && e.prunedAt - t.lastAccessedAt <= TTL_MS
    requires Touched(number, s, e, kind) != Some(id)
    requires |Plus(since, Touched(number, s, e, kind), id)| < MAX_ACTIVE
    ensures Holds(Step(number, s, e).Of(kind), id, t, Plus(since, Touched(number, s, e, kind), id))
  {
    var p, q := Pruned(s.Of(kind), e.prunedAt), Touched(number, s, e, kind);
    MapStep(number, s, e, kind);
    PrunedMembers(s.Of(kind), e.prunedAt);
    PruneKeeps(s.Of(kind), e.prunedAt, id, t, since);
    if q.None? {
      if e.Create? { EnforceKeeps(p, e.Now(), id, t, since); }
    } else if e.Create? {
      PutKeeps(p, q.value, e.snapshot, id, t, since);
      PutMembers(p, q.value, e.snapshot);
      EnforceKeeps(Put(p, q.value, e.snapshot), e.Now(), id, t, since + {q.value});
    } else {
      PutKeeps(p, q.value, Get(p, q.value).value.(lastAccessedAt := e.at), id, t, since);
    }
  }

  /** From event `a` to event `k` nothing touches `id`, and no event comes later than the time to live. */
  ghost predicate Resting(
    number: string -> Option<int>, events: seq<Event>, trace: seq<Model>, kind: Kind, id: string, a: nat, k: nat)
    requires |trace| == |events| + 1 && a < k <= |events|
  {
    forall j {:trigger Touched(number, trace[j], events[j], kind)} :: a < j < k ==>
      && Touched(number, trace[j], events[j], kind) != Some(id)
      && events[j].prunedAt - events[a].Now() <= 900_000
  }

  lemma RunStep(number: string -> Option<int>, events: seq<Event>, trace: seq<Model>, kind: Kind, k: nat)
    returns (before: int)
    requires IsRun(number, events, trace) && k < |events|
    ensures trace[k + 1] == Step(number, trace[k], events[k]) && |trace[k].Of(kind)| <= MAX_ACTIVE
    ensures Sound(trace[k].Of(kind), before) && before < events[k].prunedAt <= events[k].Now()
    ensures events[k].Create? ==> events[k].id != ""
  {
    RunIsSound(number, events, trace, kind, k);
    before := if k == 0 then events[0].prunedAt - 1 else events[k - 1].Now();
  }

  lemma RunStepKeeps(
    number: string -> Option<int>, events: seq<Event>, trace: seq<Model>, kind: Kind, id: string, k: nat, t: Snapshot,
    since: set<string>, next: set<string>)
    requires IsRun(number, events, trace) && k < |events|
    requires Holds(trace[k].Of(kind), id, t, since) && events[k].prunedAt - t.lastAccessedAt <= TTL_MS
    requires Touched(number, trace[k], events[k], kind) != Some(id)
    requires next == Plus(since, Touched(number, trace[k], events[k], kind), id) && |next| < MAX_ACTIVE
    ensures Holds(trace[k + 1].Of(kind), id, t, next)
  {
    var before := RunStep(number, events, trace, kind, k);
    OthersKeep(number, trace[k], events[k], kind, before, id, t, since);
  }

  lemma UsedIsThere(
    number: string -> Option<int>, events: seq<Event>, trace: seq<Model>, kind: Kind, id: string, a: nat)
    returns (t: Snapshot)
    requires IsRun(number, events, trace) && a < |events|
    requires Touched(number, trace[a], events[a], kind) == Some(id)
    ensures t.lastAccessedAt == events[a].Now() && Holds(trace[a + 1].Of(kind), id, t, {})
  {
    var before := RunStep(number, events, trace, kind, a);
    UseStarts(number, trace[a], events[a], kind, id, before);
    t := Get(trace[a + 1].Of(kind), id).value;
  }

  lemma RestedBefore(
    number: string -> Option<int>, events: seq<Event>, trace: seq<Model>, kind: Kind, id: string, a: nat, k: nat)
    requires |trace| == |events| + 1 && a + 1 < k <= |events| && Resting(number, events, trace, kind, id, a, k)
    ensures Resting(number, events, trace, kind, id, a, k - 1)
    ensures Touched(number, trace[k - 1], events[k - 1], kind) != Some(id)
    ensures |Since(number, events, trace, kind, id, a, k - 1)| <= |Since(number, events, trace, kind, id, a, k)|
    ensures events[k - 1].prunedAt - events[a].Now() <= TTL_MS
  {
    SubsetIsSmaller(Since(number, events, trace, kind, id, a, k - 1), Since(number, events, trace, kind, id, a, k));
  }

  lemma {:induction false} StaysWhileResting(
    number: string -> Option<int>, events: seq<Event>, trace: seq<Model>, kind: Kind, id: string, a: nat, k: nat,
    t: Snapshot)
    requires IsRun(number, events, trace) && a < k <= |events|
    requires t.lastAccessedAt == events[a].Now() && Holds(trace[a + 1].Of(kind), id, t, {})
    requires Resting(number, events, trace, kind, id, a, k)
    requires |Since(number, events, trace, kind, id, a, k)| < MAX_ACTIVE
    ensures Holds(trace[k].Of(kind), id, t, Since(number, events, trace, kind, id, a, k))
    decreases k
  {
    if k > a + 1 {
      RestedBefore(number, events, trace, kind, id, a, k);
      StaysWhileResting(number, events, trace, kind, id, a, k - 1, t);
      SinceNext(number, events, trace, kind, id, a, k);
      RunStepKeeps(
        number, events, trace, kind, id, k - 1, t, Since(number, events, trace, kind, id, a, k - 1),
        Since(number, events, trace, kind, id, a, k));
    }
  }

  lemma SinceNext(
    number: string -> Option<int>, events: seq<Event>, trace: seq<Model>, kind: Kind, id: string, a: nat, k: nat)
    requires |trace| == |events| + 1 && a + 1 < k <= |events|
    ensures Since(number, events, trace, kind, id, a, k)
         == Plus(
              Since(number, events, trace, kind, id, a, k - 1), Touched(number, trace[k - 1], events[k - 1], kind), id)
  {
  }

  /**
   After its last use at event `a`, a snapshot is still there, unchanged, before event `k` if fewer than twenty
   others of its kind were created or accessed in between and no event came later than the time to live.
   */
  lemma Survives(
    number: string -> Option<int>, events: seq<Event>, trace: seq<Model>, kind: Kind, id: string, a: nat, k: nat)
    requires IsRun(number, events, trace) && a < k <= |events|
    requires Touched(number, trace[a], events[a], kind) == Some(id)
    requires Resting(number, events, trace, kind, id, a, k)
    requires |Since(number, events, trace, kind, id, a, k)| < 20
    ensures Get(trace[k].Of(kind), id).Some? && Get(trace[k].Of(kind), id) == Get(trace[a + 1].Of(kind), id)
    ensures Get(trace[k].Of(kind), id).value.lastAccessedAt == events[a].Now()
  {
    var t := UsedIsThere(number, events, trace, kind, id, a);
    StaysWhileResting(number, events, trace, kind, id, a, k, t);
  }

  /** So the cursor a page returned still leads to the same snapshot and to the offset it was made for. */
  lemma CursorStillWorks(
    number: string -> Option<int>, events: seq<Event>, trace: seq<Model>, kind: Kind, id: string, a: nat, k: nat,
    offset: nat, now: int)
    requires ReadsNumerals(number) && ':' !in id
    requires IsRun(number, events, trace) && a < k <= |events|
    requires Touched(number, trace[a], events[a], kind) == Some(id)
    requires Resting(number, events, trace, kind, id, a, k)
    requires |Since(number, events, trace, kind, id, a, k)| < 20 && now - events[a].Now() <= 900_000
    requires Get(trace[a + 1].Of(kind), id).Some?
    requires ':' !in Get(trace[a + 1].Of(kind), id).value.hash
    ensures Leads(
      number, Pruned(trace[k].Of(kind), now), kind, id, Get(trace[a + 1].Of(kind), id).value.hash, offset,
      Get(trace[a + 1].Of(kind), id).value)
  {
    Survives(number, events, trace, kind, id, a, k);
    RunIsSound(number, events, trace, kind, k);
    CursorRoundTripsIff(number, kind, id, Get(trace[a + 1].Of(kind), id).value.hash, offset);
    PrunedExactly(trace[k].Of(kind), now, id);
  }

  /** Looking up the cursor text for `offset` under the snapshot's own binding finds it. */
  ghost predicate Leads(
    number: string -> Option<int>, m: Snapshots, kind: Kind, id: string, hash: string, offset: nat, s: Snapshot)
  {
    Resolve(number, m, kind, s.binding, CursorText(kind, id, offset, hash)) == Ok((Parsed(id, offset, hash), s))
  }
}
