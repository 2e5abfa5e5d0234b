/** Search by tag: where each tagged Rem is shown, and how the matches are grouped and ordered. */
module TagGrouping {
  import opened Prelude
  import opened Rems
  import opened RemEdits

  const SNAPSHOT_LIMIT := 1000

  datatype Reason = Self | AncestorDocument | AncestorConcept | AncestorContext

  datatype TagEntry = TagEntry(
    remId: RemId, remType: RemType, sourceIndex: nat, matchedRemIds: seq<RemId>, context: Option<(RemId, Reason)>)

  datatype TagSnapshot = TagSnapshot(entries: seq<TagEntry>, truncated: bool)

  predicate IsDocument(kb: KnowledgeBase, id: RemId)
    requires id in kb
  {
    kb[id].remType.Document? || kb[id].remType.DailyDocument?
  }

  function Priority(t: RemType): nat {
    match t
    case Document => 0
    case Concept => 0
    case DailyDocument => 1
    case Portal => 2
    case Descriptor => 3
    case PlainText => 4
  }

  // ---- the target of one tagged Rem ----

  /** An ordinary or a daily document. */
  ghost predicate DocumentLike(kb: KnowledgeBase, id: RemId) {
    id in kb && (kb[id].remType == Document || kb[id].remType == DailyDocument)
  }

  ghost predicate NoDocumentBelow(kb: KnowledgeBase, id: RemId, n: nat) {
    forall m: nat :: m < n && Above(kb, id, m).Some? ==> !DocumentLike(kb, Above(kb, id, m).value)
  }

  ghost predicate DocumentAt(kb: KnowledgeBase, id: RemId, n: nat, t: RemId) {
    Above(kb, id, n) == Some(t) && DocumentLike(kb, t) && NoDocumentBelow(kb, id, n)
  }

  /** The nearest document from the Rem upwards; without one, its parent; without a parent, itself. */
  ghost predicate IsTarget(kb: KnowledgeBase, id: RemId, t: RemId) {
    || (exists n: nat :: DocumentAt(kb, id, n, t))
    || ((forall n: nat :: NoDocumentBelow(kb, id, n))
        && t == if ParentOf(kb, id).Some? then ParentOf(kb, id).value else id)
  }

  lemma TargetIsUnique(kb: KnowledgeBase, id: RemId, t: RemId, u: RemId)
    requires IsTarget(kb, id, t) && IsTarget(kb, id, u)
    ensures t == u
  {
    forall n: nat | DocumentAt(kb, id, n, t) ensures !NoDocumentBelow(kb, id, n + 1) {}
    forall n: nat | DocumentAt(kb, id, n, u) ensures !NoDocumentBelow(kb, id, n + 1) {}
    forall n: nat, m: nat | DocumentAt(kb, id, n, t) && DocumentAt(kb, id, m, u) ensures n == m {}
  }

  ghost function Target(kb: KnowledgeBase, id: RemId): RemId {
    if exists t :: IsTarget(kb, id, t) then (var t :| IsTarget(kb, id, t); t) else id
  }

  lemma TargetIs(kb: KnowledgeBase, id: RemId, t: RemId)
    requires IsTarget(kb, id, t)
    ensures Target(kb, id) == t
  {
    TargetIsUnique(kb, id, t, Target(kb, id));
  }

  function ContextReason(kb: KnowledgeBase, id: RemId, target: RemId): Reason
    requires target in kb
  {
    if id == target then Self
    else match kb[target].remType
      case Document => AncestorDocument
      case DailyDocument => AncestorDocument
      case Concept => AncestorConcept
      case _ => AncestorContext
  }

  /** The walk up meets a document or the end of the chain. A chain with a cycle may have a document on it. */
  ghost predicate WalkEnds(kb: KnowledgeBase, id: RemId) { exists n: nat :: ExitAt(kb, id, n) }

  ghost predicate ExitAt(kb: KnowledgeBase, id: RemId, n: nat) {
    Above(kb, id, n).None? || DocumentLike(kb, Above(kb, id, n).value)
  }

  /** The condition can be checked: a walk with an exit has one within as many steps as there are Rems. */
  lemma WalkEndsIff(kb: KnowledgeBase, id: RemId)
    requires id in kb
    ensures WalkEnds(kb, id) <==> exists n: nat :: n <= |kb| && ExitAt(kb, id, n)
  {
    if WalkEnds(kb, id) {
      var n: nat :| ExitAt(kb, id, n);
      var m := WalkShortens(kb, id, n);
      assert ExitAt(kb, id, m);
    }
  }

  /** Two Rems that are each other's parents, neither a document: the walk never ends. */
  lemma TwoRemsLoop(kb: KnowledgeBase, a: RemId, b: RemId)
    requires MutualParents(kb, a, b) && !DocumentLike(kb, a) && !DocumentLike(kb, b)
    ensures !WalkEnds(kb, a)
  {
    forall n: nat ensures !ExitAt(kb, a, n) { AboveAlternates(kb, a, b, n); }
  }

  /** The walk up the parents, on any knowledge base on which it ends. */
  method ResolveSearchByTagContext(kb: KnowledgeBase, id: RemId) returns (target: RemId, reason: Reason)
    requires id in kb && WalkEnds(kb, id)
    ensures target in kb && IsTarget(kb, id, target) && target == Target(kb, id)
    ensures reason == ContextReason(kb, id, target)
    ensures target == id <==> reason == Self
    ensures target != id && DocumentLike(kb, target) <==> reason == AncestorDocument
    ensures target != id && kb[target].remType == Concept <==> reason == AncestorConcept
  {
    assert Above(kb, id, 0) == Some(id);
    if IsDocument(kb, id) {
      assert DocumentAt(kb, id, 0, id);
      TargetIs(kb, id, id);
      return id, Self;
    }
    ghost var height: nat :| ExitAt(kb, id, height);
    var nearest: Option<RemId> := None;
    var parent := ParentOf(kb, id);
    ghost var n: nat := 1;
    while parent.Some?
      invariant 1 <= n && parent == Above(kb, id, n) && (n > height ==> parent.None?)
      invariant nearest == if n == 1 then None else ParentOf(kb, id)
      invariant n > 1 ==> nearest.Some?
      invariant NoDocumentBelow(kb, id, n)
      decreases height - n
    {
      if nearest.None? { nearest := parent; }
      if IsDocument(kb, parent.value) {
        assert DocumentAt(kb, id, n, parent.value);
        TargetIs(kb, id, parent.value);
        return parent.value, AncestorDocument;
      }
      parent := ParentOf(kb, parent.value);
      n := n + 1;
    }
    forall m: nat ensures NoDocumentBelow(kb, id, m) {
      forall j: nat | j >= n ensures Above(kb, id, j).None? { AboveEnds(kb, id, n, j); }
    }
    target := if nearest.Some? then nearest.value else id;
    TargetIs(kb, id, target);
    reason := ContextReason(kb, id, target);
  }

  // ---- grouping ----

  /** The scanned Rems shown at this target, in order. */
  ghost function MatchesFor(kb: KnowledgeBase, scanned: seq<RemId>, target: RemId): seq<RemId> {
    if scanned == [] then []
    else
      var last := scanned[|scanned| - 1];
      MatchesFor(kb, scanned[..|scanned| - 1], target) + if Target(kb, last) == target then [last] else []
  }

  ghost predicate Distinct(entries: seq<TagEntry>) {
    forall i, j :: 0 <= i < j < |entries| ==> entries[i].remId != entries[j].remId
  }

  ghost predicate HasEntry(entries: seq<TagEntry>, id: RemId) { exists e :: e in entries && e.remId == id }

  /** Each entry has its own target and exactly the matches shown there, in order. */
  ghost predicate Groups(kb: KnowledgeBase, entries: seq<TagEntry>, scanned: seq<RemId>) {
    && Distinct(entries)
    && (forall e :: e in entries ==>
          && e.remId in kb && e.remType == kb[e.remId].remType && e.context.None?
          && e.matchedRemIds == MatchesFor(kb, scanned, e.remId))
  }

  ghost function Targets(kb: KnowledgeBase, scanned: seq<RemId>): (r: seq<RemId>)
    ensures |r| == |scanned| && forall i :: 0 <= i < |r| ==> r[i] == Target(kb, scanned[i])
  {
    seq(|scanned|, i requires 0 <= i < |scanned| => Target(kb, scanned[i]))
  }

  /** While entries are collected they are numbered by position. */
  ghost predicate Numbered(entries: seq<TagEntry>) {
    forall i :: 0 <= i < |entries| ==> entries[i].sourceIndex == i
  }

  ghost predicate OccursBefore(shown: seq<RemId>, t: RemId, u: RemId) {
    exists k :: 0 <= k < |shown| && shown[k] == t && u !in shown[..k]
  }

  /** The entries are the Rems shown, numbered in the order in which they first occur. */
  ghost predicate FirstCome(entries: seq<TagEntry>, shown: seq<RemId>) {
    && (forall e :: e in entries ==> e.remId in shown)
    && (forall x :: x in shown ==> HasEntry(entries, x))
    && (forall e, f :: e in entries && f in entries && e.sourceIndex < f.sourceIndex ==>
          OccursBefore(shown, e.remId, f.remId))
  }

  function FindEntry(entries: seq<TagEntry>, id: RemId): (i: nat)
    ensures i <= |entries|
    ensures i < |entries| ==> entries[i].remId == id
    ensures i == |entries| ==> !HasEntry(entries, id)
  {
    if entries == [] then 0
    else if entries[0].remId == id then 0
    else
      var i := FindEntry(entries[1..], id);
      assert entries == [entries[0]] + entries[1..];
      1 + i
  }

  lemma {:induction false} NoMatchesUnlessShown(kb: KnowledgeBase, scanned: seq<RemId>, target: RemId)
    requires target !in Targets(kb, scanned)
    ensures MatchesFor(kb, scanned, target) == []
  {
    if scanned != [] {
      var before, t := scanned[..|scanned| - 1], Targets(kb, scanned);
      assert forall i :: 0 <= i < |before| ==> Targets(kb, before)[i] == t[i];
      NoMatchesUnlessShown(kb, before, target);
      assert t[|scanned| - 1] in t;
    }
  }

  lemma MatchesForNext(kb: KnowledgeBase, scanned: seq<RemId>, x: RemId, target: RemId)
    ensures MatchesFor(kb, scanned + [x], target)
         == MatchesFor(kb, scanned, target) + if Target(kb, x) == target then [x] else []
  {
    assert (scanned + [x])[..|scanned|] == scanned;
  }

  lemma AddToEntry(kb: KnowledgeBase, entries: seq<TagEntry>, scanned: seq<RemId>, i: nat, x: RemId)
    requires Groups(kb, entries, scanned) && i < |entries| && entries[i].remId == Target(kb, x)
    ensures Groups(kb, entries[i := entries[i].(matchedRemIds := entries[i].matchedRemIds + [x])], scanned + [x])
  {
    var more := entries[i := entries[i].(matchedRemIds := entries[i].matchedRemIds + [x])];
    forall e | e in more
      ensures e.remId in kb && e.remType == kb[e.remId].remType && e.context.None?
      ensures e.matchedRemIds == MatchesFor(kb, scanned + [x], e.remId)
    {
      var j :| 0 <= j < |more| && more[j] == e;
      assert entries[j] in entries && entries[j].remId == e.remId;
      MatchesForNext(kb, scanned, x, e.remId);
    }
  }

  lemma AddEntry(kb: KnowledgeBase, entries: seq<TagEntry>, scanned: seq<RemId>, x: RemId)
    requires Groups(kb, entries, scanned) && FirstCome(entries, Targets(kb, scanned))
    requires Target(kb, x) in kb && !HasEntry(entries, Target(kb, x))
    ensures var t := Target(kb, x);
            Groups(kb, entries + [TagEntry(t, kb[t].remType, |entries|, [x], None)], scanned + [x])
  {
    var t := Target(kb, x);
    NoMatchesUnlessShown(kb, scanned, t);
    MatchesForNext(kb, scanned, x, t);
    forall e | e in entries ensures e.matchedRemIds == MatchesFor(kb, scanned + [x], e.remId) && e.remId != t {
      MatchesForNext(kb, scanned, x, e.remId);
    }
    DistinctWith(entries, TagEntry(t, kb[t].remType, |entries|, [x], None));
  }

  lemma DistinctWith(entries: seq<TagEntry>, e: TagEntry)
    requires Distinct(entries) && !HasEntry(entries, e.remId)
    ensures Distinct(entries + [e])
  {
    assert forall i :: 0 <= i < |entries| ==> entries[i] in entries;
  }

  /** Showing a Rem that has an entry changes nothing in the order. */
  lemma ShownAgain(entries: seq<TagEntry>, more: seq<TagEntry>, shown: seq<RemId>, x: RemId)
    requires FirstCome(entries, shown) && HasEntry(entries, x) && |more| == |entries|
    requires forall i :: 0 <= i < |more| ==>
               more[i].remId == entries[i].remId && more[i].sourceIndex == entries[i].sourceIndex
    ensures FirstCome(more, shown + [x])
  {
    forall e, f | e in more && f in more && e.sourceIndex < f.sourceIndex
      ensures OccursBefore(shown + [x], e.remId, f.remId)
    {
      var i :| 0 <= i < |more| && more[i] == e;
      var j :| 0 <= j < |more| && more[j] == f;
      assert entries[i] in entries && entries[j] in entries;
      StillBefore(shown, x, e.remId, f.remId);
    }
    forall y | y in shown + [x] ensures HasEntry(more, y) {
      assert HasEntry(entries, y);
      var j :| 0 <= j < |entries| && entries[j].remId == y;
      assert more[j] in more;
    }
    forall e | e in more ensures e.remId in shown + [x] {
      var i :| 0 <= i < |more| && more[i] == e;
      assert entries[i] in entries;
    }
  }

  lemma StillBefore(shown: seq<RemId>, x: RemId, t: RemId, u: RemId)
    requires OccursBefore(shown, t, u)
    ensures OccursBefore(shown + [x], t, u)
  {
    var k :| 0 <= k < |shown| && shown[k] == t && u !in shown[..k];
    assert (shown + [x])[..k] == shown[..k] && (shown + [x])[k] == t;
  }

  lemma ShownFirst(entries: seq<TagEntry>, shown: seq<RemId>, e: TagEntry)
    requires FirstCome(entries, shown) && Numbered(entries)
    requires !HasEntry(entries, e.remId) && e.sourceIndex == |entries|
    ensures FirstCome(entries + [e], shown + [e.remId]) && Numbered(entries + [e])
  {
    var more, x := entries + [e], e.remId;
    assert x !in shown;
    forall g | g in entries ensures g.sourceIndex < |entries| && g.remId in shown {
      var i :| 0 <= i < |entries| && entries[i] == g;
    }
    forall f, g | f in more && g in more && f.sourceIndex < g.sourceIndex
      ensures OccursBefore(shown + [x], f.remId, g.remId)
    {
      if g == e {
        var k :| 0 <= k < |shown| && shown[k] == f.remId;
        assert (shown + [x])[..k] == shown[..k] && (shown + [x])[k] == f.remId;
      } else {
        StillBefore(shown, x, f.remId, g.remId);
      }
    }
    forall y | y in shown + [x] ensures HasEntry(more, y) {
      if y == x { assert e in more; } else { assert HasEntry(entries, y); }
    }
  }

  // ---- ordering ----

  predicate Before(a: TagEntry, b: TagEntry) {
    || Priority(a.remType) < Priority(b.remType)
    || (Priority(a.remType) == Priority(b.remType) && a.sourceIndex < b.sourceIndex)
  }

  ghost predicate Ordered(entries: seq<TagEntry>) {
    forall i, j :: 0 <= i < j < |entries| ==> Before(entries[i], entries[j])
  }

  /** Documents and concepts, then daily documents, portals, descriptors, and plain text. */
  const TYPE_ORDER: seq<set<RemType>> := [{Document, Concept}, {DailyDocument}, {Portal}, {Descriptor}, {PlainText}]

  /** By this order of types, and by first occurrence among equals. */
  ghost predicate InTypeOrder(entries: seq<TagEntry>) {
    forall i, j, m, n ::
      0 <= i < j < |entries| && 0 <= m < 5 && 0 <= n < 5
      && entries[i].remType in TYPE_ORDER[m] && entries[j].remType in TYPE_ORDER[n] ==>
        m <= n && (m == n ==> entries[i].sourceIndex < entries[j].sourceIndex)
  }

  lemma OrderedIsInTypeOrder(entries: seq<TagEntry>)
    requires Ordered(entries)
    ensures InTypeOrder(entries)
  {
    forall i, j, m, n |
      0 <= i < j < |entries| && 0 <= m < 5 && 0 <= n < 5
      && entries[i].remType in TYPE_ORDER[m] && entries[j].remType in TYPE_ORDER[n]
      ensures m <= n && (m == n ==> entries[i].sourceIndex < entries[j].sourceIndex)
    {
      assert Before(entries[i], entries[j]);
      PriorityIsPlace(entries[i].remType, m);
      PriorityIsPlace(entries[j].remType, n);
    }
  }

  lemma PriorityIsPlace(t: RemType, m: nat)
    requires m < 5 && t in TYPE_ORDER[m]
    ensures Priority(t) == m
  {
  }

  function Insert(e: TagEntry, es: seq<TagEntry>): seq<TagEntry> {
    if es == [] || Before(e, es[0]) then [e] + es else [es[0]] + Insert(e, es[1..])
  }

  function Sorted(es: seq<TagEntry>): seq<TagEntry> {
    if es == [] then [] else Insert(es[0], Sorted(es[1..]))
  }

  lemma InsertFacts(e: TagEntry, es: seq<TagEntry>)
    requires Distinct([e] + es) && Ordered(es) && forall f :: f in es ==> f.sourceIndex != e.sourceIndex
    ensures forall f :: f in Insert(e, es) <==> f == e || f in es
    ensures Distinct(Insert(e, es)) && Ordered(Insert(e, es)) && |Insert(e, es)| == |es| + 1
  {
    InsertMembers(e, es);
    InsertDistinct(e, es);
    InsertOrdered(e, es);
  }

  lemma {:induction false} InsertMembers(e: TagEntry, es: seq<TagEntry>)
    ensures forall f :: f in Insert(e, es) <==> f == e || f in es
    ensures |Insert(e, es)| == |es| + 1
  {
    if es != [] && !Before(e, es[0]) {
      InsertMembers(e, es[1..]);
      assert es == [es[0]] + es[1..];
    }
  }

  lemma DistinctParts(e: TagEntry, es: seq<TagEntry>)
    ensures Distinct([e] + es) <==> Distinct(es) && forall f :: f in es ==> f.remId != e.remId
  {
    var all := [e] + es;
    assert forall i :: 0 <= i < |es| ==> all[i + 1] == es[i];
    if Distinct(all) {
      forall i, j | 0 <= i < j < |es| ensures es[i].remId != es[j].remId { assert all[i + 1] == es[i]; }
      forall f | f in es ensures f.remId != e.remId {
        var i :| 0 <= i < |es| && es[i] == f;
        assert all[i + 1] == f && all[0] == e;
      }
    } else {
      var i, j :| 0 <= i < j < |all| && all[i].remId == all[j].remId;
      assert es[j - 1] == all[j] && es[j - 1] in es;
      if i > 0 { assert es[i - 1] == all[i]; }
    }
  }

  lemma {:induction false} InsertDistinct(e: TagEntry, es: seq<TagEntry>)
    requires Distinct([e] + es)
    ensures Distinct(Insert(e, es))
  {
    if es != [] && !Before(e, es[0]) {
      DistinctParts(e, es);
      DistinctParts(es[0], es[1..]);
      assert es == [es[0]] + es[1..];
      DistinctParts(e, es[1..]);
      InsertDistinct(e, es[1..]);
      InsertMembers(e, es[1..]);
      DistinctParts(es[0], Insert(e, es[1..]));
    }
  }

  lemma {:induction false} InsertOrdered(e: TagEntry, es: seq<TagEntry>)
    requires Ordered(es) && forall f :: f in es ==> f.sourceIndex != e.sourceIndex
    ensures Ordered(Insert(e, es))
  {
    if es != [] && !Before(e, es[0]) {
      var r := Insert(e, es[1..]);
      InsertOrdered(e, es[1..]);
      InsertMembers(e, es[1..]);
      assert es[0] in es;
      forall j | 0 <= j < |r| ensures Before(es[0], r[j]) {
        assert r[j] in r;
        if r[j] != e {
          var i :| 0 <= i < |es| - 1 && es[1..][i] == r[j];
          assert es[i + 1] == r[j];
        }
      }
    }
  }

  lemma {:induction false} SortedFacts(es: seq<TagEntry>)
    requires Distinct(es)
    requires forall i, j :: 0 <= i < j < |es| ==> es[i].sourceIndex != es[j].sourceIndex
    ensures forall f :: f in Sorted(es) <==> f in es
    ensures Distinct(Sorted(es)) && Ordered(Sorted(es)) && |Sorted(es)| == |es|
  {
    if es != [] {
      SortedFacts(es[1..]);
      var r := Sorted(es[1..]);
      assert es == [es[0]] + es[1..];
      forall j | 0 <= j < |r| ensures r[j].remId != es[0].remId && r[j].sourceIndex != es[0].sourceIndex {
        assert r[j] in r;
        var i :| 0 <= i < |es| - 1 && es[1..][i] == r[j];
        assert es[i + 1] == r[j];
      }
      InsertFacts(es[0], r);
    }
  }

  lemma SortingKeeps(entries: seq<TagEntry>, shown: seq<RemId>)
    requires Distinct(entries) && Numbered(entries) && FirstCome(entries, shown)
    ensures forall e :: e in Sorted(entries) <==> e in entries
    ensures Distinct(Sorted(entries)) && Ordered(Sorted(entries)) && FirstCome(Sorted(entries), shown)
  {
    SortedFacts(entries);
    forall x | x in shown ensures HasEntry(Sorted(entries), x) {
      assert HasEntry(entries, x);
    }
  }

  // ---- the snapshots ----

  function Scanned(tagged: seq<RemId>): (r: seq<RemId>)
    ensures r <= tagged && |r| == Min(|tagged|, 1000)
  {
    if |tagged| <= SNAPSHOT_LIMIT then tagged else tagged[..SNAPSHOT_LIMIT]
  }

  /** The entries so far, for the Rems scanned so far. */
  ghost predicate Collected(kb: KnowledgeBase, entries: seq<TagEntry>, scanned: seq<RemId>) {
    && |entries| <= |scanned| && Numbered(entries)
    && Groups(kb, entries, scanned) && FirstCome(entries, Targets(kb, scanned))
  }

  lemma TargetsNext(kb: KnowledgeBase, scanned: seq<RemId>, x: RemId)
    ensures Targets(kb, scanned + [x]) == Targets(kb, scanned) + [Target(kb, x)]
  {
  }

  lemma CollectedAgain(kb: KnowledgeBase, entries: seq<TagEntry>, scanned: seq<RemId>, at: nat, x: RemId)
    requires Collected(kb, entries, scanned) && at < |entries| && entries[at].remId == Target(kb, x)
    ensures Collected(
      kb, entries[at := entries[at].(matchedRemIds := entries[at].matchedRemIds + [x])], scanned + [x])
  {
    var more := entries[at := entries[at].(matchedRemIds := entries[at].matchedRemIds + [x])];
    assert entries[at] in entries;
    TargetsNext(kb, scanned, x);
    AddToEntry(kb, entries, scanned, at, x);
    ShownAgain(entries, more, Targets(kb, scanned), Target(kb, x));
  }

  lemma CollectedFirst(kb: KnowledgeBase, entries: seq<TagEntry>, scanned: seq<RemId>, x: RemId)
    requires Collected(kb, entries, scanned) && Target(kb, x) in kb && !HasEntry(entries, Target(kb, x))
    ensures var t := Target(kb, x);
            Collected(kb, entries + [TagEntry(t, kb[t].remType, |entries|, [x], None)], scanned + [x])
  {
    var t := Target(kb, x);
    TargetsNext(kb, scanned, x);
    AddEntry(kb, entries, scanned, x);
    ShownFirst(entries, Targets(kb, scanned), TagEntry(t, kb[t].remType, |entries|, [x], None));
  }

  /** One tagged Rem: join the entry of its target, or open one. The break on the entry count is never taken. */
  method AddMatch(kb: KnowledgeBase, entries: seq<TagEntry>, ghost scanned: seq<RemId>, x: RemId)
    returns (more: seq<TagEntry>)
    requires x in kb && WalkEnds(kb, x) && |scanned| < SNAPSHOT_LIMIT && Collected(kb, entries, scanned)
    ensures Collected(kb, more, scanned + [x])
  {
    var target, _ := ResolveSearchByTagContext(kb, x);
    var at := FindEntry(entries, target);
    if at < |entries| {
      CollectedAgain(kb, entries, scanned, at, x);
      return entries[at := entries[at].(matchedRemIds := entries[at].matchedRemIds + [x])];
    }
    if |entries| >= SNAPSHOT_LIMIT { assert false; }
    CollectedFirst(kb, entries, scanned, x);
    more := entries + [TagEntry(target, kb[target].remType, |entries|, [x], None)];
  }

  lemma SortedGroups(kb: KnowledgeBase, entries: seq<TagEntry>, scanned: seq<RemId>)
    requires Collected(kb, entries, scanned)
    ensures Groups(kb, Sorted(entries), scanned) && Ordered(Sorted(entries))
    ensures FirstCome(Sorted(entries), Targets(kb, scanned))
  {
    SortingKeeps(entries, Targets(kb, scanned));
  }

  /**
   Context mode: the scanned Rems are distributed over their targets, and the entries are ordered by type and then
   by first occurrence.
   */
  method SnapshotByContext(kb: KnowledgeBase, tagged: seq<RemId>) returns (r: TagSnapshot)
    requires forall x :: x in tagged ==> x in kb && WalkEnds(kb, x)
    ensures Groups(kb, r.entries, Scanned(tagged)) && Ordered(r.entries) && InTypeOrder(r.entries)
    ensures FirstCome(r.entries, Targets(kb, Scanned(tagged)))
    ensures r.truncated <==> |tagged| > SNAPSHOT_LIMIT
  {
    var entries: seq<TagEntry> := [];
    var scannedCount := 0;
    ghost var scanned: seq<RemId> := [];
    while scannedCount < |tagged|
      invariant scannedCount <= |tagged| && scannedCount <= SNAPSHOT_LIMIT
      invariant scanned == tagged[..scannedCount]
      invariant Collected(kb, entries, scanned)
    {
      if scannedCount >= SNAPSHOT_LIMIT { break; }
      entries := AddMatch(kb, entries, scanned, tagged[scannedCount]);
      scanned := scanned + [tagged[scannedCount]];
      scannedCount := scannedCount + 1;
    }
    assert scanned == Scanned(tagged);
    SortedGroups(kb, entries, Scanned(tagged));
    OrderedIsInTypeOrder(Sorted(entries));
    return TagSnapshot(Sorted(entries), scannedCount < |tagged|);
  }

  /** Tagged mode: an entry is a tagged Rem itself, with its target as context. */
  ghost predicate Lists(kb: KnowledgeBase, entries: seq<TagEntry>) {
    && Distinct(entries)
    && (forall e :: e in entries ==>
          && e.remId in kb && e.remType == kb[e.remId].remType && e.matchedRemIds == []
          && Target(kb, e.remId) in kb
          && e.context == Some((Target(kb, e.remId), ContextReason(kb, e.remId, Target(kb, e.remId)))))
  }

  /** The entries made so far for these tagged Rems, and the targets seen. */
  ghost predicate Listed(
    kb: KnowledgeBase, entries: seq<TagEntry>, seenTargets: set<RemId>, scanned: seq<RemId>)
  {
    && |entries| <= |scanned| && Numbered(entries) && Lists(kb, entries) && FirstCome(entries, scanned)
    && forall x :: x in seenTargets <==> HasEntry(entries, x)
  }

  lemma ListsOneMore(
    kb: KnowledgeBase, entries: seq<TagEntry>, seenTargets: set<RemId>, scanned: seq<RemId>, e: TagEntry)
    requires Listed(kb, entries, seenTargets, scanned) && Lists(kb, [e]) && e.sourceIndex == |entries|
    requires e.remId !in seenTargets
    ensures Listed(kb, entries + [e], seenTargets + {e.remId}, scanned + [e.remId])
  {
    DistinctWith(entries, e);
    ShownFirst(entries, scanned, e);
    HasMore(entries, e);
    assert e in [e];
  }

  lemma ListsAgain(
    kb: KnowledgeBase, entries: seq<TagEntry>, seenTargets: set<RemId>, scanned: seq<RemId>, x: RemId)
    requires Listed(kb, entries, seenTargets, scanned) && x in seenTargets
    ensures Listed(kb, entries, seenTargets, scanned + [x])
  {
    ShownAgain(entries, entries, scanned, x);
  }

  /** Tagged mode: every scanned Rem once, ordered by type and then by first occurrence. */
  method SnapshotTagged(kb: KnowledgeBase, tagged: seq<RemId>) returns (r: TagSnapshot)
    requires forall x :: x in tagged ==> x in kb && WalkEnds(kb, x)
    ensures Lists(kb, r.entries) && Ordered(r.entries) && InTypeOrder(r.entries)
    ensures FirstCome(r.entries, Scanned(tagged))
    ensures r.truncated <==> |tagged| > SNAPSHOT_LIMIT
  {
    var entries: seq<TagEntry> := [];
    var seenTargets: set<RemId> := {};
    var scannedCount := 0;
    ghost var scanned: seq<RemId> := [];
    while scannedCount < |tagged|
      invariant scannedCount <= |tagged| && scannedCount <= SNAPSHOT_LIMIT
      invariant scanned == tagged[..scannedCount]
      invariant Listed(kb, entries, seenTargets, scanned)
    {
      if scannedCount >= SNAPSHOT_LIMIT { break; }
      var x := tagged[scannedCount];
      scannedCount := scannedCount + 1;
      var target, reason := ResolveSearchByTagContext(kb, x);
      if x in seenTargets {
        ListsAgain(kb, entries, seenTargets, scanned, x);
        scanned := scanned + [x];
        continue;
      }
      if |entries| >= SNAPSHOT_LIMIT { assert false; }
      var e := TagEntry(x, kb[x].remType, |entries|, [], Some((target, reason)));
      ListsOneMore(kb, entries, seenTargets, scanned, e);
      scanned := scanned + [x];
      seenTargets := seenTargets + {x};
      entries := entries + [e];
    }
    assert scanned == Scanned(tagged);
    SortingKeeps(entries, Scanned(tagged));
    OrderedIsInTypeOrder(Sorted(entries));
    return TagSnapshot(Sorted(entries), scannedCount < |tagged|);
  }

  lemma HasMore(entries: seq<TagEntry>, e: TagEntry)
    ensures forall x :: HasEntry(entries + [e], x) <==> HasEntry(entries, x) || x == e.remId
  {
    forall x ensures HasEntry(entries + [e], x) <==> HasEntry(entries, x) || x == e.remId {
      assert e in entries + [e];
      if HasEntry(entries, x) {
        var f :| f in entries && f.remId == x;
        assert f in entries + [e];
      }
    }
  }

  // ---- nothing is lost or shown twice ----

  function AllMatches(entries: seq<TagEntry>): seq<RemId> {
    if entries == [] then [] else entries[0].matchedRemIds + AllMatches(entries[1..])
  }

  lemma {:induction false} MatchesCounted(kb: KnowledgeBase, scanned: seq<RemId>, target: RemId, x: RemId)
    ensures multiset(MatchesFor(kb, scanned, target))[x]
         == if Target(kb, x) == target then multiset(scanned)[x] else 0
  {
    if scanned != [] {
      var before := scanned[..|scanned| - 1];
      MatchesCounted(kb, before, target, x);
      assert scanned == before + [scanned[|scanned| - 1]];
      assert multiset(scanned) == multiset(before) + multiset{scanned[|scanned| - 1]};
    }
  }

  lemma {:induction false} EntriesCounted(kb: KnowledgeBase, entries: seq<TagEntry>, scanned: seq<RemId>, x: RemId)
    requires Groups(kb, entries, scanned)
    ensures multiset(AllMatches(entries))[x]
         == if HasEntry(entries, Target(kb, x)) then multiset(scanned)[x] else 0
  {
    if entries != [] {
      var rest := entries[1..];
      assert entries == [entries[0]] + rest && entries[0] in entries;
      EntriesCounted(kb, rest, scanned, x);
      MatchesCounted(kb, scanned, entries[0].remId, x);
      if entries[0].remId == Target(kb, x) {
        forall e | e in rest ensures e.remId != entries[0].remId {
          var i :| 0 <= i < |rest| && rest[i] == e;
          assert entries[i + 1] == e;
        }
      } else if HasEntry(entries, Target(kb, x)) {
        var e :| e in entries && e.remId == Target(kb, x);
        assert e in rest;
      }
    }
  }

  /** The matches of all entries together are the scanned Rems, each occurrence once. */
  lemma MatchesConserved(kb: KnowledgeBase, entries: seq<TagEntry>, scanned: seq<RemId>)
    requires Groups(kb, entries, scanned) && FirstCome(entries, Targets(kb, scanned))
    ensures multiset(AllMatches(entries)) == multiset(scanned)
  {
    forall x ensures multiset(AllMatches(entries))[x] == multiset(scanned)[x] {
      EntriesCounted(kb, entries, scanned, x);
      if x in scanned {
        var i :| 0 <= i < |scanned| && scanned[i] == x;
        assert Targets(kb, scanned)[i] == Target(kb, x);
      }
    }
  }
}
