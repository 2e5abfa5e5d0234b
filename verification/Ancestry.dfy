/** Ancestor checks with a cache shared between calls. */
module Ancestry {
  import opened Prelude
  import opened Rems

  const MAX_DEPTH := 100

  /** The loop's answer, or the error thrown after 100 levels. */
  datatype Verdict = Answer(isMatch: bool) | TooDeep

  class RelationCache {
    var entries: map<string, bool>

    constructor ()
      ensures entries == map[]
    {
      entries := map[];
    }
  }

  function Key(ancestor: RemId, id: RemId): string { ancestor + ":" + id }

  lemma KeyDeterminesId(ancestor: RemId, a: RemId, b: RemId)
    requires Key(ancestor, a) == Key(ancestor, b)
    ensures a == b
  {
    assert a == Key(ancestor, a)[|ancestor| + 1..];
    assert b == Key(ancestor, b)[|ancestor| + 1..];
  }

  /** Every entry for this ancestor is true of the knowledge base, and the ancestor has none of its own. */
  ghost predicate Truthful(entries: map<string, bool>, kb: KnowledgeBase, ancestor: RemId) {
    forall id: RemId :: Key(ancestor, id) in entries ==>
      id != ancestor && entries[Key(ancestor, id)] == Descends(kb, id, ancestor)
  }

  /** An uncached walk finds the ancestor, the end of the chain, or a repeated Rem before the depth limit. */
  ghost predicate Shallow(kb: KnowledgeBase, id: RemId, ancestor: RemId) {
    || id == ancestor
    || (exists k: nat :: k <= 100 && Above(kb, id, k).None?)
    || (exists k: nat :: k < 100 && Above(kb, id, k) == Some(ancestor))
    || (exists j: nat, k: nat :: j < k < 100 && Above(kb, id, j) == Above(kb, id, k))
  }

  /** Every Rem on the way up to the ancestor, or to a Rem the cache knew, is remembered, and nothing is forgotten. */
  ghost predicate Remembered(
    before: map<string, bool>, after: map<string, bool>, kb: KnowledgeBase, id: RemId, ancestor: RemId)
  {
    && before.Keys <= after.Keys
    && forall n: nat :: NewOnTheWay(before, kb, id, ancestor, n) ==> Key(ancestor, Above(kb, id, n).value) in after
  }

  ghost predicate NewOnTheWay(before: map<string, bool>, kb: KnowledgeBase, id: RemId, ancestor: RemId, n: nat) {
    && Above(kb, id, n).Some?
    && forall j: nat :: j <= n && Above(kb, id, j).Some? ==>
         Above(kb, id, j) != Some(ancestor) && Key(ancestor, Above(kb, id, j).value) !in before
  }

  /** The walk so far: consecutive ancestors, starting at `id`, all different and none of them the one sought. */
  ghost predicate Walked(kb: KnowledgeBase, id: RemId, ancestor: RemId, path: seq<RemId>) {
    && (forall i :: 0 <= i < |path| ==> Above(kb, id, i) == Some(path[i]) && path[i] != ancestor)
    && (forall i, j :: 0 <= i < j < |path| ==> path[i] != path[j])
  }

  ghost predicate Reaches(kb: KnowledgeBase, id: RemId, ancestor: RemId) {
    exists n: nat :: Above(kb, id, n) == Some(ancestor)
  }

  /** All Rems on the walk have the same answer: whether the walk goes on to reach the ancestor. */
  lemma WalkShares(kb: KnowledgeBase, id: RemId, ancestor: RemId, path: seq<RemId>, at: RemId)
    requires Walked(kb, id, ancestor, path) && Above(kb, id, |path|) == Some(at)
    ensures forall i :: 0 <= i < |path| ==> Descends(kb, path[i], ancestor) == Reaches(kb, at, ancestor)
    ensures Reaches(kb, id, ancestor) == Reaches(kb, at, ancestor)
  {
    var d := |path|;
    forall i | 0 <= i <= d
      ensures Reaches(kb, if i < d then path[i] else at, ancestor) == Reaches(kb, at, ancestor)
      ensures Reaches(kb, if i < d then path[i] else at, ancestor) == Reaches(kb, id, ancestor)
    {
      SharedFrom(kb, id, ancestor, path, at, i, if i < d then path[i] else at);
      assert Above(kb, id, 0) == Some(id);
      SharedFrom(kb, id, ancestor, path, at, 0, id);
    }
  }

  lemma SharedFrom(
    kb: KnowledgeBase, id: RemId, ancestor: RemId, path: seq<RemId>, at: RemId, i: nat, from: RemId)
    requires Walked(kb, id, ancestor, path) && Above(kb, id, |path|) == Some(at)
    requires i <= |path| && Above(kb, id, i) == Some(from)
    ensures Reaches(kb, from, ancestor) == Reaches(kb, at, ancestor)
  {
    if Reaches(kb, at, ancestor) {
      var n: nat :| Above(kb, at, n) == Some(ancestor);
      LaterReached(kb, id, ancestor, i, from, |path|, at, n);
    }
    if Reaches(kb, from, ancestor) {
      var n: nat :| Above(kb, from, n) == Some(ancestor);
      AboveAdds(kb, id, i, n);
      ReachedOffWalk(kb, id, ancestor, path, at, i + n);
    }
  }

  lemma ReachedOffWalk(kb: KnowledgeBase, id: RemId, ancestor: RemId, path: seq<RemId>, at: RemId, m: nat)
    requires Walked(kb, id, ancestor, path) && Above(kb, id, |path|) == Some(at)
    requires Above(kb, id, m) == Some(ancestor)
    ensures Reaches(kb, at, ancestor)
  {
    assert forall i :: 0 <= i < |path| ==> Above(kb, id, i) != Some(ancestor);
    AboveAdds(kb, id, |path|, m - |path|);
    assert Above(kb, at, m - |path|) == Some(ancestor);
  }

  lemma LaterReached(
    kb: KnowledgeBase, id: RemId, ancestor: RemId, i: nat, from: RemId, d: nat, at: RemId, n: nat)
    requires i <= d && Above(kb, id, i) == Some(from) && Above(kb, id, d) == Some(at)
    requires Above(kb, at, n) == Some(ancestor)
    ensures Reaches(kb, from, ancestor)
  {
    AboveAdds(kb, id, d, n);
    var m := d + n - i;
    AboveAdds(kb, id, i, m);
    assert Above(kb, from, m) == Some(ancestor);
  }

  /** A walk whose every continuation stays on it never reaches the ancestor. */
  lemma ClosedWalkMisses(kb: KnowledgeBase, id: RemId, ancestor: RemId, path: seq<RemId>)
    requires Walked(kb, id, ancestor, path) && path != []
    requires Above(kb, id, |path|).Some? ==> Above(kb, id, |path|).value in path
    ensures forall i :: 0 <= i < |path| ==> !Descends(kb, path[i], ancestor)
    ensures !Reaches(kb, id, ancestor)
  {
    forall i, n: nat | 0 <= i < |path| ensures Above(kb, path[i], n) != Some(ancestor) {
      AboveAdds(kb, id, i, n);
      StaysOnWalk(kb, id, ancestor, path, i + n);
    }
    forall n: nat ensures Above(kb, id, n) != Some(ancestor) {
      StaysOnWalk(kb, id, ancestor, path, n);
    }
  }

  lemma {:induction false} StaysOnWalk(kb: KnowledgeBase, id: RemId, ancestor: RemId, path: seq<RemId>, n: nat)
    requires Walked(kb, id, ancestor, path) && path != []
    requires Above(kb, id, |path|).Some? ==> Above(kb, id, |path|).value in path
    ensures Above(kb, id, n).None? || Above(kb, id, n).value in path
  {
    if n >= |path| {
      StaysOnWalk(kb, id, ancestor, path, n - 1);
      if Above(kb, id, n - 1).Some? {
        var m :| 0 <= m < |path| && path[m] == Above(kb, id, n - 1).value;
        assert Above(kb, id, m + 1) == Above(kb, id, n);
        if m + 1 < |path| { assert Above(kb, id, m + 1) == Some(path[m + 1]); }
      }
    }
  }

  lemma DeepIsNotShallow(kb: KnowledgeBase, id: RemId, ancestor: RemId, path: seq<RemId>)
    requires Walked(kb, id, ancestor, path) && |path| == MAX_DEPTH && Above(kb, id, MAX_DEPTH).Some?
    ensures !Shallow(kb, id, ancestor)
  {
    assert id == path[0] by { assert Above(kb, id, 0) == Some(path[0]); }
    forall k: nat | k <= MAX_DEPTH ensures Above(kb, id, k).Some? {
      if Above(kb, id, k).None? { AboveEnds(kb, id, k, MAX_DEPTH); }
    }
  }

  /** Where the walk stops: at the end of the chain, at a Rem already on it, at the ancestor, or at a cached Rem. */
  ghost predicate StopsAt(
    before: map<string, bool>, kb: KnowledgeBase, id: RemId, ancestor: RemId, path: seq<RemId>)
  {
    var next := Above(kb, id, |path|);
    next.Some? ==>
      (path != [] && next.value in path) || next.value == ancestor || Key(ancestor, next.value) in before
  }

  lemma PathIsRemembered(
    before: map<string, bool>, after: map<string, bool>, kb: KnowledgeBase, id: RemId, ancestor: RemId,
    path: seq<RemId>)
    requires Walked(kb, id, ancestor, path) && StopsAt(before, kb, id, ancestor, path)
    requires before.Keys <= after.Keys && forall i :: 0 <= i < |path| ==> Key(ancestor, path[i]) in after
    ensures Remembered(before, after, kb, id, ancestor)
  {
    forall n: nat | NewOnTheWay(before, kb, id, ancestor, n)
      ensures Key(ancestor, Above(kb, id, n).value) in after
    {
      if n < |path| {
        assert Above(kb, id, n) == Some(path[n]);
      } else {
        if Above(kb, id, |path|).None? { AboveEnds(kb, id, |path|, n); }
        StaysOnWalk(kb, id, ancestor, path, n);
      }
    }
  }

  method IsDescendant(kb: KnowledgeBase, id: RemId, ancestor: RemId, cache: RelationCache?) returns (r: Verdict)
    requires cache != null ==> Truthful(cache.entries, kb, ancestor)
    modifies if cache == null then {} else {cache}
    ensures cache != null ==> Truthful(cache.entries, kb, ancestor)
    ensures r.Answer? ==> r.isMatch == Descends(kb, id, ancestor)
    ensures Shallow(kb, id, ancestor) ==> r.Answer?
    ensures cache == null && r.Answer? ==> Shallow(kb, id, ancestor)
    ensures cache != null && r.Answer? ==> Remembered(old(cache.entries), cache.entries, kb, id, ancestor)
    ensures cache != null && r.TooDeep? ==> cache.entries == old(cache.entries)
  {
    if id == ancestor {
      assert Above(kb, id, 0) == Some(ancestor);
      return Answer(false);
    }
    var current: Option<RemId> := Some(id);
    var path: seq<RemId> := [];
    var visited: set<RemId> := {};
    var isMatch := false;
    var depth := 0;

    while current.Some?
      invariant |path| == depth <= MAX_DEPTH && current == Above(kb, id, depth)
      invariant Walked(kb, id, ancestor, path)
      invariant forall x :: x in visited <==> x in path
      invariant !isMatch && (depth == 0 ==> current.Some?)
      decreases MAX_DEPTH - depth
    {
      if depth >= MAX_DEPTH {
        DeepIsNotShallow(kb, id, ancestor, path);
        return TooDeep;
      }
      var at := current.value;
      if at in visited {
        ClosedWalkMisses(kb, id, ancestor, path);
        break;
      }
      visited := visited + {at};
      if cache != null && Key(ancestor, at) in cache.entries {
        isMatch := cache.entries[Key(ancestor, at)];
        WalkShares(kb, id, ancestor, path, at);
        break;
      }
      if at == ancestor {
        isMatch := true;
        assert Above(kb, at, 0) == Some(ancestor);
        WalkShares(kb, id, ancestor, path, at);
        break;
      }
      path := path + [at];
      current := ParentOf(kb, at);
      depth := depth + 1;
    }
    if current.None? { ClosedWalkMisses(kb, id, ancestor, path); }

    if cache != null {
      ghost var before := cache.entries;
      assert StopsAt(before, kb, id, ancestor, path);
      Record(kb, ancestor, cache, path, isMatch);
      PathIsRemembered(before, cache.entries, kb, id, ancestor, path);
    }
    return Answer(isMatch);
  }

  /** One fact for every Rem on the path. */
  method Record(kb: KnowledgeBase, ancestor: RemId, cache: RelationCache, path: seq<RemId>, isMatch: bool)
    requires Truthful(cache.entries, kb, ancestor)
    requires forall i :: 0 <= i < |path| ==> path[i] != ancestor && Descends(kb, path[i], ancestor) == isMatch
    modifies cache
    ensures Truthful(cache.entries, kb, ancestor)
    ensures old(cache.entries).Keys <= cache.entries.Keys
    ensures forall i :: 0 <= i < |path| ==> Key(ancestor, path[i]) in cache.entries
  {
    for i := 0 to |path|
      invariant Truthful(cache.entries, kb, ancestor)
      invariant old(cache.entries).Keys <= cache.entries.Keys
      invariant forall j :: 0 <= j < i ==> Key(ancestor, path[j]) in cache.entries
    {
      forall x: RemId | Key(ancestor, x) == Key(ancestor, path[i]) ensures x == path[i] {
        KeyDeterminesId(ancestor, x, path[i]);
      }
      cache.entries := cache.entries[Key(ancestor, path[i]) := isMatch];
    }
  }
}
