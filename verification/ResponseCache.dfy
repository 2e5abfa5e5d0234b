/** The bridge's bounded memory of responses, keyed by operation. */
module ResponseCache {
  import opened Prelude
  import opened JsMap
  import opened Protocol

  const CAPACITY := 256

  type Cache = seq<Entry<Uuid, BridgeResponse>>

  /** Remember a response; when the map outgrows its capacity drop its oldest key, unless that key is "". */
  function Remember(cache: Cache, operationId: Uuid, response: BridgeResponse): Cache {
    var m := Put(cache, operationId, response);
    if |m| > CAPACITY && m[0].key != EMPTY_ID then Delete(m, m[0].key) else m
  }

  /** The state after caching each response of `log` in turn, starting from nothing. */
  function After(log: seq<Entry<Uuid, BridgeResponse>>): Cache {
    if log == [] then []
    else Remember(After(log[..|log| - 1]), log[|log| - 1].key, log[|log| - 1].value)
  }

  function Last<T>(s: seq<T>, n: nat): seq<T> { if |s| <= n then s else s[|s| - n..] }

  // ---- any log ----

  ghost predicate ProperIds(log: seq<Entry<Uuid, BridgeResponse>>) {
    forall i :: 0 <= i < |log| ==> log[i].key != EMPTY_ID
  }

  /** The operations not held when they were cached, in order. An operation can come back after its eviction. */
  function Inserted(log: seq<Entry<Uuid, BridgeResponse>>): (ops: seq<Uuid>)
    ensures |ops| <= |log|
  {
    if log == [] then []
    else
      var before, op := log[..|log| - 1], log[|log| - 1].key;
      Inserted(before) + if Get(After(before), op).Some? then [] else [op]
  }

  /** The response cached last for the operation. */
  function Latest(log: seq<Entry<Uuid, BridgeResponse>>, op: Uuid): Option<BridgeResponse> {
    if log == [] then None
    else if log[|log| - 1].key == op then Some(log[|log| - 1].value)
    else Latest(log[..|log| - 1], op)
  }

  function KeyList(m: Cache): (ops: seq<Uuid>)
    ensures |ops| == |m| && forall i :: 0 <= i < |ops| ==> ops[i] == m[i].key
  {
    seq(|m|, i requires 0 <= i < |m| => m[i].key)
  }

  /** What one call keeps and does, for a map within its capacity without an empty key. */
  lemma RememberSpec(cache: Cache, op: Uuid, r: BridgeResponse)
    requires Unique(cache) && |cache| <= CAPACITY && op != EMPTY_ID
    requires forall i :: 0 <= i < |cache| ==> cache[i].key != EMPTY_ID
    ensures Unique(Remember(cache, op, r)) && |Remember(cache, op, r)| <= CAPACITY
    ensures KeyList(Remember(cache, op, r))
         == if Get(cache, op).Some? then KeyList(cache) else Last(KeyList(cache) + [op], CAPACITY)
    ensures Get(Remember(cache, op, r), op) == Some(r)
    ensures forall q :: q != op && Get(Remember(cache, op, r), q).Some? ==>
              Get(Remember(cache, op, r), q) == Get(cache, q)
  {
    PutSpec(cache, op, r);
    GetIffKey(cache, op);
    if Get(cache, op).Some? {
      assert KeyList(Remember(cache, op, r)) == KeyList(cache);
    } else if |cache| < CAPACITY {
      assert KeyList(Remember(cache, op, r)) == Last(KeyList(cache) + [op], CAPACITY);
    } else {
      RememberFull(cache, op, r);
    }
  }

  lemma RememberFull(cache: Cache, op: Uuid, r: BridgeResponse)
    requires Unique(cache) && |cache| == CAPACITY && op != EMPTY_ID && cache[0].key != EMPTY_ID
    requires Get(cache, op).None?
    ensures Unique(Remember(cache, op, r)) && |Remember(cache, op, r)| == CAPACITY
    ensures KeyList(Remember(cache, op, r)) == Last(KeyList(cache) + [op], CAPACITY)
    ensures Get(Remember(cache, op, r), op) == Some(r)
    ensures forall q :: q != op && Get(Remember(cache, op, r), q).Some? ==>
              Get(Remember(cache, op, r), q) == Get(cache, q)
  {
    var m := cache + [Entry(op, r)];
    FullDropsFirst(cache, op, r);
    FullLooksUp(cache, op, r);
    assert KeyList(m[1..]) == Last(KeyList(cache) + [op], CAPACITY);
  }

  lemma FullLooksUp(cache: Cache, op: Uuid, r: BridgeResponse)
    requires Unique(cache) && cache != [] && Get(cache, op).None?
    ensures var m := cache + [Entry(op, r)];
      && Unique(m[1..]) && Get(m[1..], op) == Some(r)
      && forall q :: q != op && Get(m[1..], q).Some? ==> Get(m[1..], q) == Get(cache, q)
  {
    var m := cache + [Entry(op, r)];
    PutSpec(cache, op, r);
    assert Find(cache, op) == |cache| && Put(cache, op, r) == m;
    GetIffKey(cache, op);
    DroppedFirst(m);
    assert m[0] == cache[0];
  }

  lemma FullDropsFirst(cache: Cache, op: Uuid, r: BridgeResponse)
    requires |cache| == CAPACITY && cache[0].key != EMPTY_ID && Get(cache, op).None?
    ensures Put(cache, op, r) == cache + [Entry(op, r)]
    ensures Remember(cache, op, r) == (cache + [Entry(op, r)])[1..]
  {
    var m := cache + [Entry(op, r)];
    assert Find(m, m[0].key) == 0;
    assert m[..0] + m[1..] == m[1..];
  }

  lemma DroppedFirst(m: Cache)
    requires Unique(m) && m != []
    ensures Unique(m[1..]) && forall q :: Get(m[1..], q) == if q == m[0].key then None else Get(m, q)
  {
    WithoutAt(m, 0);
    assert m[..0] + m[0 + 1..] == m[1..];
  }

  /** On every log the cache holds the last 256 operations inserted, in order, each with its latest response. */
  lemma {:induction false} CacheIsFifo(log: seq<Entry<Uuid, BridgeResponse>>)
    requires ProperIds(log)
    ensures Unique(After(log)) && |After(log)| <= 256
    ensures KeyList(After(log)) == Last(Inserted(log), 256)
    ensures forall op :: Get(After(log), op).Some? ==> Get(After(log), op) == Latest(log, op)
    ensures forall i :: 0 <= i < |After(log)| ==> After(log)[i].key != EMPTY_ID
  {
    if log != [] {
      var before, e := log[..|log| - 1], log[|log| - 1];
      CacheIsFifo(before);
      KeysAreProper(Inserted(before), KeyList(After(before)), before);
      RememberSpec(After(before), e.key, e.value);
      LastOfLast(Inserted(before), e.key);
      assert KeyList(After(log)) == Last(Inserted(log), CAPACITY);
      var m := After(log);
      forall i | 0 <= i < |m| ensures m[i].key != EMPTY_ID {
        assert m[i].key == KeyList(m)[i];
      }
    }
  }

  lemma KeysAreProper(inserted: seq<Uuid>, keys: seq<Uuid>, log: seq<Entry<Uuid, BridgeResponse>>)
    requires keys == Last(inserted, CAPACITY)
    ensures forall i :: 0 <= i < |keys| ==> keys[i] in inserted
  {
  }

  lemma LastOfLast(s: seq<Uuid>, x: Uuid)
    ensures Last(Last(s, CAPACITY) + [x], CAPACITY) == Last(s + [x], CAPACITY)
    ensures forall i :: 0 <= i < |Last(s + [x], CAPACITY)| ==>
              Last(s + [x], CAPACITY)[i] == x || Last(s + [x], CAPACITY)[i] in Last(s, CAPACITY)
  {
  }

  /** On every log an operation is answered from memory, with its latest response, exactly until 256 newer ones came. */
  lemma RetainedUntil256Newer(log: seq<Entry<Uuid, BridgeResponse>>, i: nat)
    requires ProperIds(log) && i < |Inserted(log)|
    requires forall j :: i < j < |Inserted(log)| ==> Inserted(log)[j] != Inserted(log)[i]
    ensures Get(After(log), Inserted(log)[i])
         == if |Inserted(log)| - i <= 256 then Latest(log, Inserted(log)[i]) else None
  {
    CacheIsFifo(log);
    var ops, m := Inserted(log), After(log);
    var k := |ops| - |m|;
    assert KeyList(m) == ops[k..];
    if k <= i {
      assert m[i - k].key == KeyList(m)[i - k] == ops[i];
      FindAt(m, i - k);
    } else {
      forall j | 0 <= j < |m| ensures m[j].key != ops[i] { assert m[j].key == KeyList(m)[j] == ops[k + j]; }
      NotFound(m, ops[i]);
    }
  }

  lemma NotFound(cache: Cache, operationId: Uuid)
    requires forall i :: 0 <= i < |cache| ==> cache[i].key != operationId
    ensures Get(cache, operationId).None?
  {
  }

  // ---- a log without repetitions ----

  /** Each operation is cached when it is not already held: equal ids are more than 256 entries apart. */
  ghost predicate NewWhenCached(log: seq<Entry<Uuid, BridgeResponse>>) {
    && (forall i, j :: 0 <= i < j < |log| && j - i <= 256 ==> log[i].key != log[j].key)
    && (forall i :: 0 <= i < |log| ==> log[i].key != EMPTY_ID)
  }

  /** The cache is the last 256 entries of the log, in order: a FIFO queue. */
  lemma {:induction false} NewOperationsAreFifo(log: seq<Entry<Uuid, BridgeResponse>>)
    requires NewWhenCached(log)
    ensures After(log) == Last(log, 256)
  {
    if log != [] {
      var before, e := log[..|log| - 1], log[|log| - 1];
      assert NewWhenCached(before);
      NewOperationsAreFifo(before);
      LastShifts(before, e);
      RememberShifts(Last(before, CAPACITY), e);
      assert log == before + [e];
    }
  }

  lemma LastShifts(before: seq<Entry<Uuid, BridgeResponse>>, e: Entry<Uuid, BridgeResponse>)
    requires NewWhenCached(before + [e])
    ensures var kept := Last(before, CAPACITY);
            && (forall i :: 0 <= i < |kept| ==> kept[i].key != e.key && kept[i].key != EMPTY_ID)
            && e.key != EMPTY_ID
            && Last(kept + [e], CAPACITY) == Last(before + [e], CAPACITY)
  {
    var log, n := before + [e], |before|;
    assert log[n] == e;
    assert forall i :: 0 <= i < n ==> log[i] == before[i];
  }

  /** Remembering a new operation appends it and, at capacity, drops the oldest. */
  lemma RememberShifts(cache: Cache, e: Entry<Uuid, BridgeResponse>)
    requires |cache| <= CAPACITY && (forall i :: 0 <= i < |cache| ==> cache[i].key != e.key)
    requires e.key != EMPTY_ID && forall i :: 0 <= i < |cache| ==> cache[i].key != EMPTY_ID
    ensures Remember(cache, e.key, e.value) == Last(cache + [e], CAPACITY)
  {
    assert Find(cache, e.key) == |cache|;
    var m := cache + [e];
    assert Find(m, m[0].key) == 0;
    assert m[..0] + m[1..] == m[1..];
  }

  /** Caching under an operation that is already cached replaces its response and keeps everything else. */
  lemma RememberAgain(cache: Cache, operationId: Uuid, response: BridgeResponse)
    requires Unique(cache) && |cache| <= 256 && Get(cache, operationId).Some?
    ensures |Remember(cache, operationId, response)| == |cache|
    ensures forall q :: Get(Remember(cache, operationId, response), q)
                        == if q == operationId then Some(response) else Get(cache, q)
  {
    PutSpec(cache, operationId, response);
  }

  /**
   The bound holds after one more response if and only if there was room, the key was known, or the oldest key is
   a real id.
   */
  lemma BoundKeptIff(cache: Cache, operationId: Uuid, response: BridgeResponse)
    requires Unique(cache) && |cache| <= 256
    ensures |Remember(cache, operationId, response)| <= 256
        <==> |cache| < 256 || Get(cache, operationId).Some? || cache[0].key != EMPTY_ID
  {
    PutSpec(cache, operationId, response);
    GetIffKey(cache, operationId);
    DeleteSpec(Put(cache, operationId, response), Put(cache, operationId, response)[0].key);
  }
}
