/** The bridge's search snapshots: expiry, eviction and lookup by cursor. */
module SnapshotStore {
  import opened Prelude
  import opened JsMap
  import opened Rems
  import opened SearchCursor

  const MAX_ACTIVE := 20
  const TTL_MS := 15 * 60 * 1000

  datatype Binding = Query(query: string, parentRemId: Option<RemId>) | Tagged(tagRemId: RemId, mode: string)

  datatype Snapshot = Snapshot(
    binding: Binding, hash: string, items: seq<RemId>, truncated: bool, lastAccessedAt: int)

  type Snapshots = seq<Entry<string, Snapshot>>

  datatype Model = Model(search: Snapshots, byTag: Snapshots) {
    function Of(kind: Kind): Snapshots { if kind.Search? then search else byTag }

    function With(kind: Kind, m: Snapshots): Model {
      if kind.Search? then this.(search := m) else this.(byTag := m)
    }
  }

  // ---- what the operations compute ----

  function Pruned(m: Snapshots, now: int): Snapshots {
    if m == [] then []
    else (if now - m[0].value.lastAccessedAt > TTL_MS then [] else [m[0]]) + Pruned(m[1..], now)
  }

  /** The first of the entries accessed longest ago. */
  function Oldest(m: Snapshots): (i: nat)
    requires m != []
    ensures i < |m|
    ensures forall j :: 0 <= j < |m| ==> m[i].value.lastAccessedAt <= m[j].value.lastAccessedAt
    ensures forall j :: 0 <= j < i ==> m[i].value.lastAccessedAt < m[j].value.lastAccessedAt
  {
    if |m| == 1 then 0
    else
      var r := Oldest(m[..|m| - 1]);
      if m[|m| - 1].value.lastAccessedAt < m[r].value.lastAccessedAt then |m| - 1 else r
  }

  /** An empty id stops the eviction. */
  function Enforced(m: Snapshots): Snapshots {
    if |m| <= MAX_ACTIVE || m[Oldest(m)].key == "" then m
    else
      var i := Oldest(m);
      Enforced(m[..i] + m[i + 1..])
  }

  function PruneBoth(s: Model, now: int): Model { Model(Pruned(s.search, now), Pruned(s.byTag, now)) }

  /** Store a new snapshot: `search` and `search_by_tag` differ only in the map they use. */
  function Created(s: Model, kind: Kind, id: string, snapshot: Snapshot, prunedAt: int): Model {
    var p := PruneBoth(s, prunedAt);
    var q := p.With(kind, Put(p.Of(kind), id, snapshot));
    Model(Enforced(q.search), Enforced(q.byTag))
  }

  /** Which snapshot a cursor leads to. */
  function Resolve(number: string -> Option<int>, m: Snapshots, kind: Kind, binding: Binding, cursor: string)
    : Result<(Parsed, Snapshot), CursorError>
  {
    match ParseCursor(number, kind, cursor)
    case Err(e) => Err(e)
    case Ok(parsed) =>
      match Get(m, parsed.snapshotId)
      case None => Err(NotFound)
      case Some(s) => if s.binding != binding || s.hash != parsed.hash then Err(Mismatch) else Ok((parsed, s))
  }

  /** A successful lookup counts as an access; a failed one only prunes. */
  function LookedUp(
    number: string -> Option<int>, s: Model, kind: Kind, binding: Binding, cursor: string, prunedAt: int, now: int)
    : Model
  {
    var p := PruneBoth(s, prunedAt);
    match Resolve(number, p.Of(kind), kind, binding, cursor)
    case Err(_) => p
    case Ok(hit) => p.With(kind, Put(p.Of(kind), hit.0.snapshotId, hit.1.(lastAccessedAt := now)))
  }

  // ---- the adapter's maps ----

  class SnapshotMaps {
    var search: Snapshots
    var byTag: Snapshots

    ghost function View(): Model reads this { Model(search, byTag) }

    constructor ()
      ensures View() == Model([], [])
    {
      search, byTag := [], [];
    }

    static method Prune(m: Snapshots, now: int) returns (r: Snapshots)
      ensures r == Pruned(m, now)
    {
      r := [];
      for i := 0 to |m|
        invariant r == Pruned(m[..i], now)
      {
        PrunedOneMore(m, i, now);
        if now - m[i].value.lastAccessedAt <= TTL_MS { r := r + [m[i]]; }
      }
      assert m[..|m|] == m;
    }

    method PruneExpired(now: int)
      modifies this
      ensures View() == PruneBoth(old(View()), now)
    {
      search := Prune(search, now);
      byTag := Prune(byTag, now);
    }

    static method FindOldest(m: Snapshots) returns (oldest: nat)
      requires m != []
      ensures oldest == Oldest(m)
    {
      oldest := 0;
      for i := 1 to |m|
        invariant oldest < i && oldest == Oldest(m[..i])
      {
        assert m[..i + 1][..i] == m[..i];
        if m[i].value.lastAccessedAt < m[oldest].value.lastAccessedAt { oldest := i; }
      }
      assert m[..|m|] == m;
    }

    static method EnforceLimit(m: Snapshots) returns (r: Snapshots)
      ensures r == Enforced(m)
    {
      r := m;
      while |r| > MAX_ACTIVE
        invariant Enforced(r) == Enforced(m)
        decreases |r|
      {
        var oldest := FindOldest(r);
        if r[oldest].key == "" { return; }
        r := r[..oldest] + r[oldest + 1..];
      }
    }

    method Create(kind: Kind, id: string, snapshot: Snapshot, prunedAt: int)
      modifies this
      ensures View() == Created(old(View()), kind, id, snapshot, prunedAt)
    {
      PruneExpired(prunedAt);
      if kind.Search? {
        search := Put(search, id, snapshot);
      } else {
        byTag := Put(byTag, id, snapshot);
      }
      search := EnforceLimit(search);
      byTag := EnforceLimit(byTag);
    }

    method FromCursor(
      number: string -> Option<int>, kind: Kind, binding: Binding, cursor: string, prunedAt: int, now: int)
      returns (r: Result<(Snapshot, nat), CursorError>)
      modifies this
      ensures View() == LookedUp(number, old(View()), kind, binding, cursor, prunedAt, now)
      ensures match Resolve(number, PruneBoth(old(View()), prunedAt).Of(kind), kind, binding, cursor)
              case Err(e) => r == Err(e)
              case Ok(hit) => r == Ok((hit.1.(lastAccessedAt := now), hit.0.offset))
    {
      PruneExpired(prunedAt);
      var m := if kind.Search? then search else byTag;
      var parsed := ParseCursor(number, kind, cursor);
      if parsed.Err? { return Err(parsed.error); }
      var found := Get(m, parsed.value.snapshotId);
      if found.None? { return Err(NotFound); }
      if found.value.binding != binding || found.value.hash != parsed.value.hash { return Err(Mismatch); }
      var accessed := found.value.(lastAccessedAt := now);
      m := Put(m, parsed.value.snapshotId, accessed);
      if kind.Search? { search := m; } else { byTag := m; }
      return Ok((accessed, parsed.value.offset));
    }
  }

  lemma {:induction false} PrunedOneMore(m: Snapshots, i: nat, now: int)
    requires i < |m|
    ensures Pruned(m[..i + 1], now)
         == Pruned(m[..i], now) + if now - m[i].value.lastAccessedAt > TTL_MS then [] else [m[i]]
  {
    if i > 0 {
      PrunedOneMore(m[1..], i - 1, now);
      assert m[..i + 1][1..] == m[1..][..i] && m[..i][1..] == m[1..][..i - 1];
    } else {
      assert m[..1][1..] == [];
    }
  }
}
