/** Finding a table by its exact title: a worklist over the children of Rems with that title. */
module TitleSearch {
  import opened Prelude
  import opened Rems
  import opened RemEdits

  /** The ids already collected, shared by the searches from all results. */
  class Seen {
    var ids: set<RemId>

    constructor ()
      ensures ids == {}
    {
      ids := {};
    }
  }

  /** What is searched: the knowledge base, how titles are normalized, and the wanted normalized title. */
  datatype Query = Query(kb: KnowledgeBase, normalize: string -> string, wanted: string) {
    predicate Titled(id: RemId) { id in kb && normalize(kb[id].title) == wanted }

    /** A walk along child links whose every Rem has the wanted title. */
    ghost predicate Walk(path: seq<RemId>) {
      && (forall i :: 0 <= i < |path| ==> Titled(path[i]))
      && (forall i, j :: 0 <= i < j < |path| && j == i + 1 ==> path[j] in kb[path[i]].children)
    }

    ghost predicate Reaches(from: RemId, to: RemId) {
      exists path :: Walk(path) && path != [] && path[0] == from && path[|path| - 1] == to
    }

    /** Titled children of collected Rems are collected or waiting. */
    ghost predicate Covered(done: set<RemId>, waiting: seq<RemId>) {
      forall y, c :: y in done && y in kb && c in kb[y].children && Titled(c) ==> c in done || c in waiting
    }
  }

  lemma ReachesSelf(q: Query, x: RemId)
    requires q.Titled(x)
    ensures q.Reaches(x, x)
  {
    assert q.Walk([x]);
  }

  lemma ReachesChild(q: Query, from: RemId, y: RemId, c: RemId)
    requires q.Reaches(from, y) && y in q.kb && c in q.kb[y].children && q.Titled(c)
    ensures q.Reaches(from, c)
  {
    var path :| q.Walk(path) && path != [] && path[0] == from && path[|path| - 1] == y;
    assert q.Walk(path + [c]);
  }

  /** A collected set without waiting Rems holds everything that can be reached from it. */
  lemma {:induction false} CoveredIsClosed(q: Query, done: set<RemId>, path: seq<RemId>, k: nat)
    requires q.Covered(done, []) && q.Walk(path) && k < |path| && path[0] in done
    ensures path[k] in done
  {
    if k > 0 {
      CoveredIsClosed(q, done, path, k - 1);
      assert path[k] in q.kb[path[k - 1]].children;
    }
  }

  /** What can be in the queue: the start, or a child of something reached. */
  ghost predicate Candidate(q: Query, from: RemId, x: RemId) { q.Titled(x) ==> q.Reaches(from, x) }

  /**
   The collected Rems are exactly the ones reached through titled Rems and not collected before, each once;
   the search ends even when child links form cycles.
   */
  method CollectExactTitleCandidates(q: Query, rem: RemId, seen: Seen) returns (collected: seq<RemId>)
    requires q.Covered(seen.ids, [])
    modifies seen
    ensures q.Covered(seen.ids, [])
    ensures NoRepeats(collected)
    ensures forall x :: x in collected <==> q.Reaches(rem, x) && x !in old(seen.ids)
    ensures forall x :: x in seen.ids <==> x in old(seen.ids) || x in collected
  {
    collected := [];
    var queue := [rem];
    if q.Titled(rem) { ReachesSelf(q, rem); }
    while queue != []
      invariant NoRepeats(collected)
      invariant forall x :: x in seen.ids <==> x in old(seen.ids) || x in collected
      invariant forall x :: x in collected ==> q.Reaches(rem, x) && x in q.kb && x !in old(seen.ids)
      invariant forall x :: x in queue ==> Candidate(q, rem, x)
      invariant q.Titled(rem) ==> rem in seen.ids || rem in queue
      invariant q.Covered(seen.ids, queue)
      decreases q.kb.Keys - seen.ids, |queue|
    {
      var current := queue[0];
      assert queue == [current] + queue[1..] && Candidate(q, rem, current);
      queue := queue[1..];
      if current !in seen.ids && current in q.kb && q.normalize(q.kb[current].title) == q.wanted {
        ChildrenAreCandidates(q, rem, current);
        CoveredNext(q, seen.ids, current, queue);
        assert current in q.kb.Keys - seen.ids;
        seen.ids := seen.ids + {current};
        collected := collected + [current];
        queue := queue + q.kb[current].children;
      }
    }
    ReachedAreDone(q, seen.ids, rem);
  }

  lemma ChildrenAreCandidates(q: Query, rem: RemId, current: RemId)
    requires q.Titled(current) && Candidate(q, rem, current)
    ensures forall c :: c in q.kb[current].children ==> Candidate(q, rem, c)
  {
    forall c | c in q.kb[current].children ensures Candidate(q, rem, c) {
      if q.Titled(c) { ReachesChild(q, rem, current, c); }
    }
  }

  lemma CoveredNext(q: Query, done: set<RemId>, current: RemId, rest: seq<RemId>)
    requires q.Covered(done, [current] + rest) && current in q.kb
    ensures q.Covered(done + {current}, rest + q.kb[current].children)
  {
  }

  lemma ReachedAreDone(q: Query, done: set<RemId>, rem: RemId)
    requires q.Covered(done, []) && (q.Titled(rem) ==> rem in done)
    ensures forall x :: q.Reaches(rem, x) ==> x in done
  {
    forall x | q.Reaches(rem, x) ensures x in done {
      var path :| q.Walk(path) && path != [] && path[0] == rem && path[|path| - 1] == x;
      CoveredIsClosed(q, done, path, |path| - 1);
    }
  }

  lemma NoRepeatsAdd(a: seq<RemId>, b: seq<RemId>)
    requires NoRepeats(a) && NoRepeats(b) && forall x :: x in b ==> x !in a
    ensures NoRepeats(a + b)
  {
    forall i, j | 0 <= i < j < |a + b| ensures (a + b)[i] != (a + b)[j] {
      if i < |a| <= j { assert b[j - |a|] in b && a[i] in a; }
    }
  }

  /** Over all search results with one shared set: every Rem reached from some result, once. */
  method CollectFromResults(q: Query, results: seq<RemId>) returns (matches: seq<RemId>)
    ensures NoRepeats(matches)
    ensures forall x :: x in matches <==> Matched(q, results, x)
  {
    matches := [];
    var seen := new Seen();
    for i := 0 to |results|
      invariant fresh(seen)
      invariant NoRepeats(matches) && q.Covered(seen.ids, [])
      invariant forall x :: x in seen.ids <==> x in matches
      invariant forall x :: x in matches <==> Matched(q, results[..i], x)
    {
      var candidates := CollectExactTitleCandidates(q, results[i], seen);
      assert results[..i + 1] == results[..i] + [results[i]];
      NoRepeatsAdd(matches, candidates);
      matches := matches + candidates;
    }
    assert results[..|results|] == results;
  }

  datatype TableError = NoMatch | NotATable | SeveralTables

  ghost predicate Matched(q: Query, results: seq<RemId>, x: RemId) { exists r :: r in results && q.Reaches(r, x) }

  /** A match with a property child. */
  ghost predicate IsTable(q: Query, isProperty: RemId -> bool, results: seq<RemId>, x: RemId) {
    Matched(q, results, x) && exists c :: c in ChildrenOf(q.kb, x) && isProperty(c)
  }

  method HasProperty(kb: KnowledgeBase, isProperty: RemId -> bool, id: RemId) returns (has: bool)
    ensures has <==> exists c :: c in ChildrenOf(kb, id) && isProperty(c)
  {
    var children := ChildrenOf(kb, id);
    has := false;
    for i := 0 to |children|
      invariant has <==> exists c :: c in children[..i] && isProperty(c)
    {
      assert children[..i + 1] == children[..i] + [children[i]];
      if isProperty(children[i]) { has := true; }
    }
    assert children[..|children|] == children;
  }

  method KeepTables(kb: KnowledgeBase, isProperty: RemId -> bool, matches: seq<RemId>) returns (tables: seq<RemId>)
    requires NoRepeats(matches)
    ensures NoRepeats(tables)
    ensures forall x :: x in tables <==> x in matches && exists c :: c in ChildrenOf(kb, x) && isProperty(c)
  {
    tables := [];
    for i := 0 to |matches|
      invariant NoRepeats(tables)
      invariant forall x :: x in tables <==> x in matches[..i] && exists c :: c in ChildrenOf(kb, x) && isProperty(c)
    {
      assert matches[..i + 1] == matches[..i] + [matches[i]];
      assert matches[i] !in matches[..i];
      var has := HasProperty(kb, isProperty, matches[i]);
      if has { tables := tables + [matches[i]]; }
    }
    assert matches[..|matches|] == matches;
  }

  /** A table is found by its title exactly when it is the only one. */
  method ResolveTableByTitle(q: Query, isProperty: RemId -> bool, results: seq<RemId>)
    returns (r: Result<RemId, TableError>)
    ensures r.Ok? ==> forall x :: IsTable(q, isProperty, results, x) <==> x == r.value
    ensures r == Err(NoMatch) <==> forall x :: !Matched(q, results, x)
    ensures r == Err(NotATable) ==> forall x :: !IsTable(q, isProperty, results, x)
    ensures r == Err(SeveralTables) ==>
      exists x, y :: x != y && IsTable(q, isProperty, results, x) && IsTable(q, isProperty, results, y)
  {
    var matches := CollectFromResults(q, results);
    var tables := KeepTables(q.kb, isProperty, matches);
    assert forall x :: x in tables <==> IsTable(q, isProperty, results, x);
    if |tables| == 1 {
      assert tables[0] in tables && IsTable(q, isProperty, results, tables[0]);
      return Ok(tables[0]);
    }
    if |tables| > 1 {
      assert tables[0] in tables && tables[1] in tables;
      return Err(SeveralTables);
    }
    if |matches| > 0 {
      assert matches[0] in matches;
      return Err(NotATable);
    }
    return Err(NoMatch);
  }
}
