/** Paging through a snapshot by following the cursors, one lookup a page, while others search in between. */
module Paging {
  import opened Prelude
  import opened JsMap
  import opened Rems
  import opened SearchCursor
  import opened SnapshotStore
  import opened SnapshotSurvival

  const SNAPSHOT_LIMIT := "cursor_snapshot_limit"

  datatype Item = Item(remId: RemId, position: nat)

  datatype Page = Page(
    results: seq<Item>, hasMore: bool, nextCursor: Option<string>, truncated: bool, truncationReason: Option<string>)

  /** `slice(lo, hi)`. */
  function Slice(ids: seq<RemId>, lo: nat, hi: nat): seq<RemId>
    requires lo <= hi
  {
    ids[Min(lo, |ids|)..Min(hi, |ids|)]
  }

  /** One result per Rem that still exists, in order, with its own position in the snapshot. */
  function Found(kb: KnowledgeBase, ids: seq<RemId>, position: nat): seq<Item> {
    if ids == [] then []
    else (if ids[0] in kb then [Item(ids[0], position)] else []) + Found(kb, ids[1..], position + 1)
  }

  lemma {:induction false} FoundSplits(kb: KnowledgeBase, a: seq<RemId>, b: seq<RemId>, position: nat)
    ensures Found(kb, a + b, position) == Found(kb, a, position) + Found(kb, b, position + |a|)
  {
    if a == [] {
      assert a + b == b;
    } else {
      FoundSplits(kb, a[1..], b, position + 1);
      assert (a + b)[1..] == a[1..] + b;
    }
  }

  /** The results are the Rems of the positions from `lo` up to `hi` that still exist, in order. */
  ghost predicate ShowsExactly(results: seq<Item>, kb: KnowledgeBase, items: seq<RemId>, lo: nat, hi: nat) {
    && (forall i, j :: 0 <= i < j < |results| ==> results[i].position < results[j].position)
    && (forall x, k: nat :: Item(x, k) in results <==> lo <= k < hi && k < |items| && x == items[k] && x in kb)
  }

  lemma {:induction false} FoundShows(kb: KnowledgeBase, items: seq<RemId>, lo: nat, hi: nat)
    requires lo <= hi <= |items|
    ensures ShowsExactly(Found(kb, items[lo..hi], lo), kb, items, lo, hi)
    decreases hi - lo
  {
    if lo < hi {
      FoundShows(kb, items, lo + 1, hi);
      var rest := Found(kb, items[lo + 1..hi], lo + 1);
      assert items[lo..hi][1..] == items[lo + 1..hi];
      assert Found(kb, items[lo..hi], lo) == (if items[lo] in kb then [Item(items[lo], lo)] else []) + rest;
      forall i | 0 <= i < |rest| ensures lo < rest[i].position {
        assert rest[i] == Item(rest[i].remId, rest[i].position) && rest[i] in rest;
      }
    }
  }

  lemma PageShows(kb: KnowledgeBase, kind: Kind, id: string, s: Snapshot, offset: nat, limit: nat)
    ensures ShowsExactly(PageAt(kb, kind, id, s, offset, limit).results, kb, s.items, offset, offset + limit)
  {
    var lo, hi := Min(offset, |s.items|), Min(offset + limit, |s.items|);
    FoundShows(kb, s.items, lo, hi);
    if offset > |s.items| { assert s.items[lo..hi] == []; }
  }

  function PageAt(kb: KnowledgeBase, kind: Kind, id: string, s: Snapshot, offset: nat, limit: nat): Page {
    var next := CreateCursor(kind, id, s.hash, |s.items|, offset + limit);
    Page(Found(kb, Slice(s.items, offset, offset + limit), offset), next.Some?, next,
         s.truncated, if s.truncated then Some(SNAPSHOT_LIMIT) else None)
  }

  method RenderPage(kb: KnowledgeBase, kind: Kind, id: string, s: Snapshot, offset: nat, limit: nat)
    returns (page: Page)
    ensures page == PageAt(kb, kind, id, s, offset, limit)
    ensures ShowsExactly(page.results, kb, s.items, offset, offset + limit)
    ensures page.nextCursor
         == if offset + limit < |s.items| then Some(CursorText(kind, id, offset + limit, s.hash)) else None
    ensures page.hasMore <==> offset + limit < |s.items|
    ensures page.truncated == s.truncated
    ensures page.truncationReason == if s.truncated then Some("cursor_snapshot_limit") else None
  {
    PageShows(kb, kind, id, s, offset, limit);
    var pageIds := Slice(s.items, offset, offset + limit);
    var results: seq<Item> := [];
    for i := 0 to |pageIds|
      invariant results == Found(kb, pageIds[..i], offset)
    {
      assert pageIds[..i + 1] == pageIds[..i] + [pageIds[i]];
      FoundSplits(kb, pageIds[..i], [pageIds[i]], offset);
      if pageIds[i] in kb { results := results + [Item(pageIds[i], offset + i)]; }
    }
    assert pageIds[..|pageIds|] == pageIds;
    var next := CreateCursor(kind, id, s.hash, |s.items|, offset + limit);
    page := Page(results, next.Some?, next, s.truncated, if s.truncated then Some(SNAPSHOT_LIMIT) else None);
  }

  // ---- sessions ----

  datatype Run = Run(number: string -> Option<int>, events: seq<Event>, trace: seq<Model>)

  type Searches = r: Run | IsRun(r.number, r.events, r.trace) witness Run((text: string) => None, [], [Model([], [])])

  /**
   In a run of searches: event `uses[0]` makes the snapshot `s`, each later one of `uses` asks for a page of it;
   `limits` are the page sizes asked for and `answers` what came back.
   */
  datatype Session = Session(
    run: Searches, kb: KnowledgeBase, kind: Kind, id: string, s: Snapshot, uses: seq<nat>, limits: seq<nat>,
    answers: seq<Option<Page>>)

  ghost predicate Shaped(x: Session) {
    && |x.uses| == |x.limits| == |x.answers| > 0
    && forall j :: 0 <= j < |x.uses| ==> x.uses[j] < |x.run.events| && x.limits[j] > 0
  }

  /** A search answers with the first page of its snapshot, a lookup with the page its cursor leads to. */
  function Answer(number: string -> Option<int>, a: Model, e: Event, kb: KnowledgeBase, limit: nat): Option<Page> {
    match e
    case Create(kind, id, s, _) => Some(PageAt(kb, kind, id, s, 0, limit))
    case Lookup(kind, binding, cursor, prunedAt, _) =>
      match Resolve(number, Pruned(a.Of(kind), prunedAt), kind, binding, cursor)
      case Err(_) => None
      case Ok(hit) => Some(PageAt(kb, kind, hit.0.snapshotId, hit.1, hit.0.offset, limit))
  }

  function AnswerAt(r: Searches, u: nat, kb: KnowledgeBase, limit: nat): Option<Page>
    requires u < |r.events|
  {
    Answer(r.number, r.trace[u], r.events[u], kb, limit)
  }

  ghost predicate Answered(x: Session, j: nat)
    requires Shaped(x) && j < |x.uses|
  {
    x.answers[j] == AnswerAt(x.run, x.uses[j], x.kb, x.limits[j])
  }

  ghost predicate Starts(e: Event, kind: Kind, id: string, s: Snapshot) {
    e.Create? && e.kind == kind && e.id == id && e.snapshot == s
  }

  /**
   Event `v` looks up a cursor for the snapshot last used by event `u`, within the time to live, and never in between
   were twenty other snapshots of the kind used.
   */
  ghost predicate LooksUp(r: Searches, kind: Kind, id: string, s: Snapshot, u: nat, v: nat, cursor: string) {
    && u < v < |r.events| && r.events[v].Lookup? && r.events[v].kind == kind && r.events[v].binding == s.binding
    && r.events[v].cursor == cursor
    && Resting(r.number, r.events, r.trace, kind, id, u, v) && r.events[v].prunedAt - r.events[u].Now() <= 900_000
    && forall k {:trigger Since(r.number, r.events, r.trace, kind, id, u, k)} :: u < k <= v ==>
         |Since(r.number, r.events, r.trace, kind, id, u, k)| < MAX_ACTIVE
  }

  /** Use `j` looks up the cursor on the page before it. */
  ghost predicate AsksNext(x: Session, j: nat)
    requires Shaped(x) && 0 < j < |x.uses|
  {
    && x.answers[j - 1].Some? && x.answers[j - 1].value.nextCursor.Some?
    && LooksUp(x.run, x.kind, x.id, x.s, x.uses[j - 1], x.uses[j], x.answers[j - 1].value.nextCursor.value)
  }

  ghost predicate IsSession(x: Session) {
    && Shaped(x) && ':' !in x.id && Starts(x.run.events[x.uses[0]], x.kind, x.id, x.s)
    && (forall j {:trigger Answered(x, j)} :: 0 <= j < |x.uses| ==> Answered(x, j))
    && (forall j {:trigger AsksNext(x, j)} :: 0 < j < |x.uses| ==> AsksNext(x, j))
  }

  /** The first `n` page sizes together. */
  function Sum(limits: seq<nat>, n: nat): nat
    requires n <= |limits|
  {
    if n == 0 then 0 else Sum(limits, n - 1) + limits[n - 1]
  }

  /** Event `u` uses the snapshot, which is then in the store as it was made, accessed at that moment. */
  ghost predicate Refreshes(r: Searches, u: nat, kind: Kind, id: string, s: Snapshot) {
    && u < |r.events| && Touched(r.number, r.trace[u], r.events[u], kind) == Some(id)
    && Get(r.trace[u + 1].Of(kind), id) == Some(s.(lastAccessedAt := r.events[u].Now()))
  }

  ghost predicate Used(x: Session, j: nat)
    requires Shaped(x) && j < |x.uses|
  {
    Refreshes(x.run, x.uses[j], x.kind, x.id, x.s)
  }

  ghost predicate UsedBefore(x: Session, n: nat)
    requires Shaped(x) && n <= |x.uses|
  {
    forall j {:trigger Used(x, j)} :: 0 <= j < n ==> Used(x, j)
  }

  ghost predicate PageIs(x: Session, j: nat, offset: nat)
    requires Shaped(x) && j < |x.uses|
  {
    x.answers[j] == Some(PageAt(x.kb, x.kind, x.id, x.s, offset, x.limits[j]))
  }

  lemma FirstPage(x: Session)
    requires IsSession(x)
    ensures UsedBefore(x, 1) && PageIs(x, 0, 0)
  {
    assert Answered(x, 0);
    StartsWithPage(x.run, x.kb, x.kind, x.id, x.s, x.uses[0], x.limits[0]);
  }

  /** A search puts its snapshot into the store and answers with the first page. */
  lemma StartsWithPage(r: Searches, kb: KnowledgeBase, kind: Kind, id: string, s: Snapshot, u: nat, limit: nat)
    requires u < |r.events| && Starts(r.events[u], kind, id, s)
    ensures Refreshes(r, u, kind, id, s) && AnswerAt(r, u, kb, limit) == Some(PageAt(kb, kind, id, s, 0, limit))
  {
    var before := RunStep(r.number, r.events, r.trace, kind, u);
    UseStarts(r.number, r.trace[u], r.events[u], kind, id, before);
  }

  lemma CursorOn(kb: KnowledgeBase, kind: Kind, id: string, s: Snapshot, offset: nat, limit: nat)
    ensures PageAt(kb, kind, id, s, offset, limit).nextCursor
         == if offset + limit < |s.items| then Some(CursorText(kind, id, offset + limit, s.hash)) else None
  {
  }

  lemma AnswersPage(
    number: string -> Option<int>, a: Model, e: Event, kb: KnowledgeBase, limit: nat, id: string, s: Snapshot,
    next: nat, at: int)
    requires e.Lookup? && e.binding == s.binding
    requires Resolve(number, Pruned(a.Of(e.kind), e.prunedAt), e.kind, s.binding, e.cursor)
          == Ok((Parsed(id, next, s.hash), s.(lastAccessedAt := at)))
    ensures Answer(number, a, e, kb, limit) == Some(PageAt(kb, e.kind, id, s, next, limit))
  {
  }

  /** A cursor looked up in time leads to the snapshot as it was made, and makes it the newest again. */
  lemma FollowsCursor(
    r: Searches, kb: KnowledgeBase, kind: Kind, id: string, s: Snapshot, next: nat, u: nat, v: nat, limit: nat)
    requires ReadsNumerals(r.number) && ':' !in id && ':' !in s.hash && Refreshes(r, u, kind, id, s)
    requires LooksUp(r, kind, id, s, u, v, CursorText(kind, id, next, s.hash))
    ensures Refreshes(r, v, kind, id, s) && AnswerAt(r, v, kb, limit) == Some(PageAt(kb, kind, id, s, next, limit))
  {
    var e := r.events[v];
    CursorStillWorks(r.number, r.events, r.trace, kind, id, u, v, next, e.prunedAt);
    Survives(r.number, r.events, r.trace, kind, id, u, v);
    var before := RunStep(r.number, r.events, r.trace, kind, v);
    UseStarts(r.number, r.trace[v], e, kind, id, before);
    AnswersPage(r.number, r.trace[v], e, kb, limit, id, s, next, r.events[u].Now());
  }

  lemma NextPage(x: Session, j: nat, offset: nat)
    requires IsSession(x) && ReadsNumerals(x.run.number) && ':' !in x.s.hash
    requires 0 < j < |x.uses| && UsedBefore(x, j) && PageIs(x, j - 1, offset)
    ensures offset + x.limits[j - 1] < |x.s.items|
    ensures UsedBefore(x, j + 1) && PageIs(x, j, offset + x.limits[j - 1])
  {
    assert AsksNext(x, j) && Used(x, j - 1) && Answered(x, j);
    CursorOn(x.kb, x.kind, x.id, x.s, offset, x.limits[j - 1]);
    UsedAgain(x, j, offset + x.limits[j - 1]);
  }

  lemma UsedAgain(x: Session, j: nat, next: nat)
    requires Shaped(x) && ReadsNumerals(x.run.number) && ':' !in x.id && ':' !in x.s.hash
    requires 0 < j < |x.uses| && Used(x, j - 1) && AsksNext(x, j) && Answered(x, j)
    requires x.answers[j - 1].value.nextCursor == Some(CursorText(x.kind, x.id, next, x.s.hash))
    ensures Used(x, j) && PageIs(x, j, next)
  {
    FollowsCursor(x.run, x.kb, x.kind, x.id, x.s, next, x.uses[j - 1], x.uses[j], x.limits[j]);
  }

  /** Every page of a session is the one at the sum of the sizes before it, and only the first may be empty. */
  lemma {:induction false} PageOfSession(x: Session, j: nat) returns (offset: nat)
    requires IsSession(x) && ReadsNumerals(x.run.number) && ':' !in x.s.hash && j < |x.uses|
    ensures offset == Sum(x.limits, j) && (j > 0 ==> offset < |x.s.items|)
    ensures UsedBefore(x, j + 1) && PageIs(x, j, offset)
  {
    if j == 0 {
      FirstPage(x);
      offset := 0;
    } else {
      offset := PageOfSession(x, j - 1);
      offset := PageAfter(x, j, offset);
    }
  }

  lemma PageAfter(x: Session, j: nat, offset: nat) returns (next: nat)
    requires IsSession(x) && ReadsNumerals(x.run.number) && ':' !in x.s.hash && 0 < j < |x.uses|
    requires UsedBefore(x, j) && PageIs(x, j - 1, offset) && offset == Sum(x.limits, j - 1)
    ensures next == Sum(x.limits, j) && next < |x.s.items|
    ensures UsedBefore(x, j + 1) && PageIs(x, j, next)
  {
    NextPage(x, j, offset);
    next := offset + x.limits[j - 1];
  }

  /** The results of the first `n` answers. */
  function Collected(answers: seq<Option<Page>>, n: nat): seq<Item>
    requires n <= |answers|
  {
    if n == 0 then []
    else Collected(answers, n - 1) + if answers[n - 1].Some? then answers[n - 1].value.results else []
  }

  lemma {:induction false} CollectedSoFar(x: Session, n: nat)
    requires IsSession(x) && ReadsNumerals(x.run.number) && ':' !in x.s.hash && n <= |x.uses|
    ensures Collected(x.answers, n) == Found(x.kb, Slice(x.s.items, 0, Sum(x.limits, n)), 0)
  {
    if n > 0 {
      CollectedSoFar(x, n - 1);
      var offset := PageOfSession(x, n - 1);
      CollectsOneMore(x.kb, x.kind, x.id, x.s, x.answers, n, offset, x.limits[n - 1]);
    }
  }

  lemma CollectsOneMore(
    kb: KnowledgeBase, kind: Kind, id: string, s: Snapshot, answers: seq<Option<Page>>, n: nat, offset: nat, limit: nat)
    requires 0 < n <= |answers| && offset <= |s.items|
    requires answers[n - 1] == Some(PageAt(kb, kind, id, s, offset, limit))
    requires Collected(answers, n - 1) == Found(kb, Slice(s.items, 0, offset), 0)
    ensures Collected(answers, n) == Found(kb, Slice(s.items, 0, offset + limit), 0)
  {
    FoundAcross(kb, s.items, offset, limit);
  }

  lemma FoundAcross(kb: KnowledgeBase, items: seq<RemId>, offset: nat, limit: nat)
    requires offset <= |items|
    ensures Found(kb, Slice(items, 0, offset + limit), 0)
         == Found(kb, Slice(items, 0, offset), 0) + Found(kb, Slice(items, offset, offset + limit), offset)
  {
    var middle := Slice(items, offset, offset + limit);
    FoundSplits(kb, items[..offset], middle, 0);
    assert Slice(items, 0, offset + limit) == items[..offset] + middle;
  }

  /**
   In every run: whatever page sizes are asked for and whatever else is searched in between, every lookup of the
   session answers, and the pages show every position of the snapshot once and in order, up to the last page shown.
   That page has no cursor exactly when nothing is left, and then the pages together show the whole snapshot. No
   session has more pages than positions, unless it is the one page of an empty snapshot: following the cursors ends.
   */
  lemma PagesCoverSnapshot(x: Session)
    requires IsSession(x) && ReadsNumerals(x.run.number) && ':' !in x.s.hash
    ensures forall j :: 0 <= j < |x.answers| ==> x.answers[j].Some?
    ensures |x.uses| == 1 || |x.uses| <= |x.s.items|
    ensures forall j :: 0 <= j < |x.answers| ==>
      ShowsExactly(x.answers[j].value.results, x.kb, x.s.items, Sum(x.limits, j), Sum(x.limits, j + 1))
    ensures var n := |x.answers|;
      && Collected(x.answers, n) == Found(x.kb, Slice(x.s.items, 0, Sum(x.limits, n)), 0)
      && (x.answers[n - 1].value.nextCursor.None? <==> Sum(x.limits, n) >= |x.s.items|)
      && (Sum(x.limits, n) >= |x.s.items| ==> Collected(x.answers, n) == Found(x.kb, x.s.items, 0))
  {
    var n := |x.answers|;
    CollectedSoFar(x, n);
    forall j | 0 <= j < n
      ensures x.answers[j].Some?
      ensures ShowsExactly(x.answers[j].value.results, x.kb, x.s.items, Sum(x.limits, j), Sum(x.limits, j + 1))
    {
      AnswerOfSession(x, j);
    }
    AnswerOfSession(x, n - 1);
    WholeSlice(x.s.items, Sum(x.limits, n));
    var _ := PageOfSession(x, n - 1);
    SumAtLeast(x.limits, n - 1);
  }

  lemma {:induction false} SumAtLeast(limits: seq<nat>, n: nat)
    requires n <= |limits| && forall j :: 0 <= j < n ==> limits[j] > 0
    ensures Sum(limits, n) >= n
  {
    if n > 0 { SumAtLeast(limits, n - 1); }
  }

  lemma AnswerOfSession(x: Session, j: nat)
    requires IsSession(x) && ReadsNumerals(x.run.number) && ':' !in x.s.hash && j < |x.uses|
    ensures x.answers[j].Some?
    ensures x.answers[j].value.nextCursor.None? <==> Sum(x.limits, j + 1) >= |x.s.items|
    ensures ShowsExactly(x.answers[j].value.results, x.kb, x.s.items, Sum(x.limits, j), Sum(x.limits, j + 1))
  {
    var offset := PageOfSession(x, j);
    PageShows(x.kb, x.kind, x.id, x.s, offset, x.limits[j]);
    CursorOn(x.kb, x.kind, x.id, x.s, offset, x.limits[j]);
  }

  lemma WholeSlice(items: seq<RemId>, n: nat)
    ensures n >= |items| ==> Slice(items, 0, n) == items
  {
  }

  /** What is shown at this place of the session. */
  ghost predicate ShownAt(x: Session, j: int, i: int, item: Item) {
    && 0 <= j < |x.answers| && x.answers[j].Some?
    && 0 <= i < |x.answers[j].value.results| && x.answers[j].value.results[i] == item
  }

  /**
   In every run a session whose last page has no cursor has shown every position of the snapshot whose Rem still exists
   exactly once, the positions in ascending order from page to page, and nothing else.
   */
  lemma CompleteSessionShowsEachOnce(x: Session)
    requires IsSession(x) && ReadsNumerals(x.run.number) && ':' !in x.s.hash
    requires x.answers[|x.answers| - 1].Some? && x.answers[|x.answers| - 1].value.nextCursor.None?
    ensures forall k :: 0 <= k < |x.s.items| && x.s.items[k] in x.kb ==>
              exists j, i :: ShownAt(x, j, i, Item(x.s.items[k], k))
    ensures forall j, i, item :: ShownAt(x, j, i, item) ==>
              item.position < |x.s.items| && item.remId == x.s.items[item.position] && item.remId in x.kb
    ensures forall j, i, item, j', i', item' ::
              ShownAt(x, j, i, item) && ShownAt(x, j', i', item') && (j < j' || (j == j' && i < i')) ==>
                item.position < item'.position
  {
    PagesCoverSnapshot(x);
    forall k | 0 <= k < |x.s.items| && x.s.items[k] in x.kb
      ensures exists j, i :: ShownAt(x, j, i, Item(x.s.items[k], k))
    {
      PositionIsShown(x, k);
    }
    forall j, i, item | ShownAt(x, j, i, item)
      ensures item.position < |x.s.items| && item.remId == x.s.items[item.position] && item.remId in x.kb
    {
      ShownIsThere(x, j, i, item);
    }
    forall j, i, item, j', i', item' |
      ShownAt(x, j, i, item) && ShownAt(x, j', i', item') && (j < j' || (j == j' && i < i'))
      ensures item.position < item'.position
    {
      ShownIsThere(x, j, i, item);
      ShownIsThere(x, j', i', item');
      if j < j' { SumGrows(x.limits, j + 1, j'); }
    }
  }

  /** Every page shows the positions between the sizes before it and its own. */
  ghost predicate EachShows(x: Session) {
    && |x.limits| == |x.answers|
    && forall j :: 0 <= j < |x.answers| ==>
         && x.answers[j].Some?
         && ShowsExactly(x.answers[j].value.results, x.kb, x.s.items, Sum(x.limits, j), Sum(x.limits, j + 1))
  }

  lemma PositionIsShown(x: Session, k: nat)
    requires EachShows(x) && k < |x.s.items| <= Sum(x.limits, |x.limits|) && x.s.items[k] in x.kb
    ensures exists j, i :: ShownAt(x, j, i, Item(x.s.items[k], k))
  {
    var j := PageWith(x.limits, |x.limits|, k);
    var results := x.answers[j].value.results;
    assert Item(x.s.items[k], k) in results;
    var i :| 0 <= i < |results| && results[i] == Item(x.s.items[k], k);
    assert ShownAt(x, j, i, Item(x.s.items[k], k));
  }

  lemma ShownIsThere(x: Session, j: int, i: int, item: Item)
    requires EachShows(x) && ShownAt(x, j, i, item)
    ensures Sum(x.limits, j) <= item.position < Sum(x.limits, j + 1) && item.position < |x.s.items|
    ensures item.remId == x.s.items[item.position] && item.remId in x.kb
  {
    var results := x.answers[j].value.results;
    assert ShowsExactly(results, x.kb, x.s.items, Sum(x.limits, j), Sum(x.limits, j + 1));
    assert results[i] in results && Item(item.remId, item.position) in results;
  }

  lemma {:induction false} SumGrows(limits: seq<nat>, a: nat, b: nat)
    requires a <= b <= |limits|
    ensures Sum(limits, a) <= Sum(limits, b)
  {
    if a < b { SumGrows(limits, a, b - 1); }
  }

  /** The page that a position falls on. */
  lemma {:induction false} PageWith(limits: seq<nat>, n: nat, k: nat) returns (j: nat)
    requires n <= |limits| && k < Sum(limits, n)
    ensures j < n && Sum(limits, j) <= k < Sum(limits, j + 1)
  {
    if Sum(limits, n - 1) <= k { j := n - 1; } else { j := PageWith(limits, n - 1, k); }
  }
}
