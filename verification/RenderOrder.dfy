/** What a rendering lists: one line for each path of renderable children, in lexicographic order of child positions. */
module RenderOrder {
  import opened Prelude
  import opened Rems
  import opened Strings
  import opened ChildPaths
  import opened RenderSpec

  // ---- renderable children, by position ----

  /** Known, and no power-up part. */
  ghost predicate KeptAt(kb: KnowledgeBase, ids: seq<RemId>, i: nat) {
    i < |ids| && ids[i] in kb && !kb[ids[i]].powerup
  }

  /** How many such children stand before position `i`. */
  ghost function KeptBefore(kb: KnowledgeBase, ids: seq<RemId>, i: nat): nat {
    if i == 0 then 0 else KeptBefore(kb, ids, i - 1) + if KeptAt(kb, ids, i - 1) then 1 else 0
  }

  ghost predicate Within(kb: KnowledgeBase, ids: seq<RemId>, limit: nat, i: nat) {
    KeptAt(kb, ids, i) && KeptBefore(kb, ids, i) < limit
  }

  ghost predicate IsEmptyText(kb: KnowledgeBase, id: RemId) {
    id in kb && kb[id].remType == PlainText && kb[id].title == "" && kb[id].detail == "" && kb[id].children == []
  }

  /** Within the limit, and some child from here on within the limit is more than an empty text without children. */
  ghost predicate Renderable(kb: KnowledgeBase, limit: nat, id: RemId, i: nat) {
    var ids := ChildrenOf(kb, id);
    Within(kb, ids, limit, i) && exists j :: i <= j && Within(kb, ids, limit, j) && !IsEmptyText(kb, ids[j])
  }

  ghost function KeptPositions(kb: KnowledgeBase, ids: seq<RemId>, n: nat): seq<nat> {
    if n == 0 then [] else KeptPositions(kb, ids, n - 1) + if KeptAt(kb, ids, n - 1) then [n - 1] else []
  }

  lemma {:induction false} KeptFacts(kb: KnowledgeBase, ids: seq<RemId>, n: nat)
    ensures |KeptPositions(kb, ids, n)| == KeptBefore(kb, ids, n)
    ensures forall k :: 0 <= k < |KeptPositions(kb, ids, n)| ==>
      var i := KeptPositions(kb, ids, n)[k]; i < n && KeptAt(kb, ids, i) && KeptBefore(kb, ids, i) == k
    ensures forall k, l :: 0 <= k < l < |KeptPositions(kb, ids, n)| ==>
      KeptPositions(kb, ids, n)[k] < KeptPositions(kb, ids, n)[l]
    ensures forall i: nat :: i < n && KeptAt(kb, ids, i) ==>
      KeptBefore(kb, ids, i) < KeptBefore(kb, ids, n) && KeptPositions(kb, ids, n)[KeptBefore(kb, ids, i)] == i
  {
    if n > 0 { KeptFacts(kb, ids, n - 1); }
  }

  lemma {:induction false} KeptBeforeGrows(kb: KnowledgeBase, ids: seq<RemId>, i: nat, j: nat)
    requires i <= j
    ensures KeptBefore(kb, ids, i) <= KeptBefore(kb, ids, j)
  {
    if i < j { KeptBeforeGrows(kb, ids, i, j - 1); }
  }

  lemma {:induction false} VisibleJoins(kb: KnowledgeBase, a: seq<RemId>, b: seq<RemId>)
    ensures Visible(kb, a + b) == Visible(kb, a) + Visible(kb, b)
  {
    if a == [] {
      assert a + b == b;
    } else {
      VisibleJoins(kb, a[1..], b);
      assert (a + b)[1..] == a[1..] + b;
    }
  }

  lemma {:induction false} VisibleAreKept(kb: KnowledgeBase, ids: seq<RemId>, n: nat)
    requires n <= |ids|
    ensures |Visible(kb, ids[..n])| == |KeptPositions(kb, ids, n)|
    ensures forall k :: 0 <= k < |KeptPositions(kb, ids, n)| ==>
      KeptPositions(kb, ids, n)[k] < n && Visible(kb, ids[..n])[k] == ids[KeptPositions(kb, ids, n)[k]]
  {
    if n > 0 {
      VisibleAreKept(kb, ids, n - 1);
      assert ids[..n] == ids[..n - 1] + [ids[n - 1]];
      VisibleJoins(kb, ids[..n - 1], [ids[n - 1]]);
    }
  }

  lemma {:induction false} TailFacts(kb: KnowledgeBase, ids: seq<RemId>)
    ensures var r := DropEmptyTail(kb, ids);
      && (r != [] ==> !IsEmptyText(kb, r[|r| - 1]))
      && forall k :: |r| <= k < |ids| ==> IsEmptyText(kb, ids[k])
  {
    if ids != [] && EmptyTextLeaf(kb, ids[|ids| - 1]) { TailFacts(kb, ids[..|ids| - 1]); }
  }

  /** Where the children shown stand. */
  ghost function ShownPositions(kb: KnowledgeBase, limit: nat, id: RemId): (r: seq<nat>) {
    var kept, n := KeptPositions(kb, ChildrenOf(kb, id), |ChildrenOf(kb, id)|), |Shown(kb, id, limit)|;
    if n <= |kept| then kept[..n] else kept
  }

  lemma ShownIsPrefix(kb: KnowledgeBase, limit: nat, id: RemId)
    ensures Shown(kb, id, limit) <= Limited(kb, id, limit) <= Visible(kb, ChildrenOf(kb, id))
    ensures |Limited(kb, id, limit)| == Min(limit, |Visible(kb, ChildrenOf(kb, id))|)
  {
  }

  lemma ShownFacts(kb: KnowledgeBase, limit: nat, id: RemId)
    ensures var ids, at, shown := ChildrenOf(kb, id), ShownPositions(kb, limit, id), Shown(kb, id, limit);
      && |at| == |shown| && Exist(kb, id, at)
      && (forall k :: 0 <= k < |at| ==> shown[k] == ids[at[k]])
      && (forall k, l :: 0 <= k < l < |at| ==> at[k] < at[l])
  {
    var ids := ChildrenOf(kb, id);
    assert ids[..|ids|] == ids;
    ShownIsPrefix(kb, limit, id);
    KeptFacts(kb, ids, |ids|);
    VisibleAreKept(kb, ids, |ids|);
    TakenFrom(ids, KeptPositions(kb, ids, |ids|), Visible(kb, ids), Shown(kb, id, limit));
  }

  lemma TakenFrom(ids: seq<RemId>, at: seq<nat>, all: seq<RemId>, some: seq<RemId>)
    requires |at| == |all| && some <= all
    requires forall k :: 0 <= k < |at| ==> at[k] < |ids| && all[k] == ids[at[k]]
    ensures forall k :: 0 <= k < |some| ==> at[k] < |ids| && some[k] == ids[at[k]]
  {
  }

  lemma ShownIsRenderable(kb: KnowledgeBase, limit: nat, id: RemId, i: nat)
    requires i in ShownPositions(kb, limit, id)
    ensures i < |ChildrenOf(kb, id)| && Renderable(kb, limit, id, i)
  {
    var ids, at, shown := ChildrenOf(kb, id), ShownPositions(kb, limit, id), Shown(kb, id, limit);
    ShownFacts(kb, limit, id);
    KeptFacts(kb, ids, |ids|);
    assert ids[..|ids|] == ids;
    VisibleAreKept(kb, ids, |ids|);
    ShownIsPrefix(kb, limit, id);
    TailFacts(kb, Limited(kb, id, limit));
    var k :| 0 <= k < |at| && at[k] == i;
    var last := at[|at| - 1];
    assert shown[|at| - 1] == ids[last] && i <= last && Within(kb, ids, limit, last);
  }

  lemma RenderableIsShown(kb: KnowledgeBase, limit: nat, id: RemId, i: nat)
    requires Renderable(kb, limit, id, i)
    ensures i in ShownPositions(kb, limit, id)
  {
    var ids, at := ChildrenOf(kb, id), ShownPositions(kb, limit, id);
    ShownFacts(kb, limit, id);
    KeptFacts(kb, ids, |ids|);
    assert ids[..|ids|] == ids;
    VisibleAreKept(kb, ids, |ids|);
    ShownIsPrefix(kb, limit, id);
    TailFacts(kb, Limited(kb, id, limit));
    var j: nat :| i <= j && Within(kb, ids, limit, j) && !IsEmptyText(kb, ids[j]);
    KeptBeforeGrows(kb, ids, i, j);
    assert Limited(kb, id, limit)[KeptBefore(kb, ids, j)] == ids[j];
    assert at[KeptBefore(kb, ids, i)] == i;
  }

  // ---- the lines ----

  /** The title, and the detail behind the delimiter of the Rem's type. */
  ghost function HeadlineFor(r: Rem): string {
    if r.detail == "" then r.title
    else if r.remType == Concept then r.title + " :: " + r.detail
    else if r.remType == Descriptor then r.title + " ;; " + r.detail
    else r.title + " >> " + r.detail
  }

  /** Two spaces for each level, a dash, the headline, and the end of the line. */
  ghost function LineFor(r: Rem, level: nat): Text {
    Utf16(seq(2 * level, i => ' ') + "- " + HeadlineFor(r) + "\n")
  }

  /** The line of the Rem at the end of a path. */
  ghost function LineAt(kb: KnowledgeBase, id: RemId, level: nat, p: Path): Text {
    match At(kb, id, p)
    case None => []
    case Some(x) => if x in kb && p != [] then LineFor(kb[x], level + |p| - 1) else []
  }

  lemma {:induction false} IndentIs(level: nat)
    ensures Indent(level) == seq(2 * level, i => ' ')
  {
    if level > 0 {
      IndentIs(level - 1);
      assert Indent(level) == "  " + seq(2 * (level - 1), i => ' ');
    }
  }

  lemma LineIs(r: Rem, level: nat)
    ensures Line(r, level) == LineFor(r, level)
  {
    IndentIs(level);
    HeadlineIs(r);
  }

  lemma HeadlineIs(r: Rem)
    ensures Headline(r) == HeadlineFor(r)
  {
    var d := Delimiter(r.remType);
    assert r.title + " " + d + " " + r.detail == r.title + (" " + d + " ") + r.detail;
    assert " " + "::" + " " == " :: " && " " + ";;" + " " == " ;; " && " " + ">>" + " " == " >> ";
  }

  ghost function ShownSteps(kb: KnowledgeBase, limit: nat): Steps {
    (id: RemId, i: nat) => Renderable(kb, limit, id, i)
  }

  ghost function ShownAt(kb: KnowledgeBase, limit: nat): Positions { id => ShownPositions(kb, limit, id) }

  lemma ShownGives(kb: KnowledgeBase, limit: nat)
    ensures InRange(kb, ShownAt(kb, limit)) && Gives(kb, ShownSteps(kb, limit), ShownAt(kb, limit))
  {
    forall id ensures Exist(kb, id, ShownPositions(kb, limit, id)) { ShownFacts(kb, limit, id); }
    forall id
      ensures forall k, l :: 0 <= k < l < |ShownPositions(kb, limit, id)| ==>
                ShownPositions(kb, limit, id)[k] < ShownPositions(kb, limit, id)[l]
      ensures forall i: nat :: i in ShownPositions(kb, limit, id)
                <==> i < |ChildrenOf(kb, id)| && Renderable(kb, limit, id, i)
    {
      ShownFacts(kb, limit, id);
      forall i: nat ensures i in ShownPositions(kb, limit, id)
        <==> i < |ChildrenOf(kb, id)| && Renderable(kb, limit, id, i)
      {
        if i in ShownPositions(kb, limit, id) { ShownIsRenderable(kb, limit, id, i); }
        if Renderable(kb, limit, id, i) { RenderableIsShown(kb, limit, id, i); }
      }
    }
  }

  ghost predicate LinesOf(kb: KnowledgeBase, id: RemId, level: nat, paths: seq<Path>, es: seq<Text>) {
    |es| == |paths| && forall k :: 0 <= k < |es| ==> paths[k] != [] && es[k] == LineAt(kb, id, level, paths[k])
  }

  /** The entries are the lines of the paths. */
  lemma {:induction false} EntriesAreLines(kb: KnowledgeBase, id: RemId, depth: int, limit: nat, level: nat)
    requires InRange(kb, ShownAt(kb, limit))
    ensures LinesOf(kb, id, level, Paths(kb, ShownAt(kb, limit), id, depth), Entries(kb, id, depth, limit, level))
    decreases depth, 1, 0
  {
    if depth > 0 {
      ShownFacts(kb, limit, id);
      EntriesOverLines(kb, id, ShownPositions(kb, limit, id), Shown(kb, id, limit), depth, limit, level);
    }
  }

  lemma {:induction false} EntriesOverLines(
    kb: KnowledgeBase, id: RemId, at: seq<nat>, ids: seq<RemId>, depth: int, limit: nat, level: nat)
    requires InRange(kb, ShownAt(kb, limit)) && depth > 0 && Exist(kb, id, at) && |ids| == |at|
    requires forall x :: x in ids ==> x in kb
    requires forall k :: 0 <= k < |at| ==> ids[k] == ChildrenOf(kb, id)[at[k]]
    ensures LinesOf(
      kb, id, level, PathsOver(kb, ShownAt(kb, limit), id, at, depth), EntriesOf(kb, ids, depth, limit, level))
    decreases depth, 0, |ids|
  {
    if ids != [] {
      EntriesAreLines(kb, ids[0], depth - 1, limit, level + 1);
      EntriesOverLines(kb, id, at[1..], ids[1..], depth, limit, level);
      ChildLines(
        kb, id, at[0], level, Paths(kb, ShownAt(kb, limit), ids[0], depth - 1),
        Entries(kb, ids[0], depth - 1, limit, level + 1));
    }
  }

  /** The lines below a child, with its own in front, are lines below its parent. */
  lemma ChildLines(kb: KnowledgeBase, id: RemId, i: nat, level: nat, below: seq<Path>, es: seq<Text>)
    requires i < |ChildrenOf(kb, id)| && ChildrenOf(kb, id)[i] in kb
    requires LinesOf(kb, ChildrenOf(kb, id)[i], level + 1, below, es)
    ensures LinesOf(kb, id, level, Down(i, below), [Line(kb[ChildrenOf(kb, id)[i]], level)] + es)
  {
    var child := ChildrenOf(kb, id)[i];
    var all := [Line(kb[child], level)] + es;
    OwnLine(kb, id, i, level);
    forall k | 0 < k < |all| ensures all[k] == LineAt(kb, id, level, Down(i, below)[k]) {
      assert Down(i, below)[k] == [i] + below[k - 1] && all[k] == es[k - 1];
      LineBelow(kb, id, i, level, below[k - 1]);
    }
  }

  lemma OwnLine(kb: KnowledgeBase, id: RemId, i: nat, level: nat)
    requires i < |ChildrenOf(kb, id)| && ChildrenOf(kb, id)[i] in kb
    ensures LineAt(kb, id, level, [i]) == Line(kb[ChildrenOf(kb, id)[i]], level)
  {
    var child := ChildrenOf(kb, id)[i];
    LineIs(kb[child], level);
    assert [i][1..] == [] && At(kb, child, []) == Some(child) && At(kb, id, [i]) == Some(child);
  }

  lemma LineBelow(kb: KnowledgeBase, id: RemId, i: nat, level: nat, p: Path)
    requires i < |ChildrenOf(kb, id)| && p != []
    ensures LineAt(kb, id, level, [i] + p) == LineAt(kb, ChildrenOf(kb, id)[i], level + 1, p)
  {
    assert ([i] + p)[1..] == p;
  }

  // ---- what a rendering shows ----

  /** The lines of the paths, one after the other. */
  ghost function Lines(kb: KnowledgeBase, id: RemId, level: nat, paths: seq<Path>): Text {
    if paths == [] then [] else LineAt(kb, id, level, paths[0]) + Lines(kb, id, level, paths[1..])
  }

  /** The longest run of these lines from the front that fits after what is already there. */
  ghost predicate LongestFitting(
    kb: KnowledgeBase, id: RemId, level: nat, paths: seq<Path>, accumulated: Text, limit: int, r: RenderResult)
  {
    var n := r.childrenRendered;
    && n <= |paths| && r.content == accumulated + Lines(kb, id, level, paths[..n])
    && (n > 0 ==> |r.content| <= limit)
    && (n < |paths| ==> |accumulated + Lines(kb, id, level, paths[..n + 1])| > limit)
    && (r.truncatedByLength <==> n < |paths|)
  }

  /** Line by line, in lexicographic order of child positions, everything renderable down to the depth that fits. */
  ghost predicate ShowsPaths(
    kb: KnowledgeBase, id: RemId, depth: int, childLimit: nat, limit: int, level: nat, accumulated: Text,
    r: RenderResult)
  {
    exists paths ::
      && Lists(kb, ShownSteps(kb, childLimit), id, depth, paths)
      && LongestFitting(kb, id, level, paths, accumulated, limit, r)
  }

  lemma {:induction false} LinesConcat(kb: KnowledgeBase, id: RemId, level: nat, paths: seq<Path>, es: seq<Text>)
    requires LinesOf(kb, id, level, paths, es)
    ensures Lines(kb, id, level, paths) == Concat(es)
  {
    if paths != [] { LinesConcat(kb, id, level, paths[1..], es[1..]); }
  }

  lemma RenderingShowsPaths(
    kb: KnowledgeBase, id: RemId, depth: int, childLimit: nat, limit: int, level: nat, accumulated: Text)
    ensures ShowsPaths(
      kb, id, depth, childLimit, limit, level, accumulated,
      FittedTo(Entries(kb, id, depth, childLimit, level), accumulated, limit))
  {
    ShownGives(kb, childLimit);
    var paths, es := Paths(kb, ShownAt(kb, childLimit), id, depth), Entries(kb, id, depth, childLimit, level);
    PathsList(kb, ShownSteps(kb, childLimit), ShownAt(kb, childLimit), id, depth);
    EntriesAreLines(kb, id, depth, childLimit, level);
    FittedIsLongest(kb, id, level, paths, es, accumulated, limit);
  }

  lemma FittedIsLongest(
    kb: KnowledgeBase, id: RemId, level: nat, paths: seq<Path>, es: seq<Text>, accumulated: Text, limit: int)
    requires LinesOf(kb, id, level, paths, es)
    ensures LongestFitting(kb, id, level, paths, accumulated, limit, FittedTo(es, accumulated, limit))
  {
    var n := Fit(es, |accumulated|, limit);
    LinesConcat(kb, id, level, paths[..n], es[..n]);
    if n < |es| { LinesConcat(kb, id, level, paths[..n + 1], es[..n + 1]); }
    if |accumulated| <= limit {
      FitIsLongest(es, |accumulated|, limit, n);
      if n < |es| { FitIsLongest(es, |accumulated|, limit, n + 1); }
    } else {
      assert n == 0;
    }
  }

  /** The renderable children, in the order of their positions. */
  ghost predicate ListsRenderable(kb: KnowledgeBase, limit: nat, id: RemId, children: seq<RemId>) {
    exists at: seq<nat> ::
      && |at| == |children| && (forall k, l :: 0 <= k < l < |at| ==> at[k] < at[l])
      && (forall i: nat :: i in at <==> i < |ChildrenOf(kb, id)| && Renderable(kb, limit, id, i))
      && forall k :: 0 <= k < |at| ==> at[k] < |ChildrenOf(kb, id)| && children[k] == ChildrenOf(kb, id)[at[k]]
  }

  lemma ShownListsRenderable(kb: KnowledgeBase, limit: nat, id: RemId)
    ensures ListsRenderable(kb, limit, id, Shown(kb, id, limit))
  {
    ShownGives(kb, limit);
    ShownFacts(kb, limit, id);
    var at := ShownAt(kb, limit)(id);
    assert forall i: nat :: i in at <==> i < |ChildrenOf(kb, id)| && ShownSteps(kb, limit)(id, i);
  }

  // ---- counting every Rem below ----

  ghost function AllSteps(): Steps { (id: RemId, i: nat) => true }

  ghost function AllPositions(kb: KnowledgeBase): Positions {
    id => seq(|ChildrenOf(kb, id)|, i requires 0 <= i < |ChildrenOf(kb, id)| => i)
  }

  lemma AllGive(kb: KnowledgeBase)
    ensures InRange(kb, AllPositions(kb)) && Gives(kb, AllSteps(), AllPositions(kb))
  {
    forall id, i: nat ensures i in AllPositions(kb)(id) <==> i < |ChildrenOf(kb, id)| {
      if i < |ChildrenOf(kb, id)| { assert AllPositions(kb)(id)[i] == i; }
    }
  }

  lemma {:induction false} DescendantsAreCounted(kb: KnowledgeBase, id: RemId, depth: int)
    requires InRange(kb, AllPositions(kb))
    ensures |Paths(kb, AllPositions(kb), id, depth)| == Descendants(kb, id, depth)
    decreases depth, 1, 0
  {
    if depth > 0 {
      var at := AllPositions(kb)(id);
      DescendantsOverAre(kb, id, at, ChildrenOf(kb, id), depth);
    }
  }

  lemma {:induction false} DescendantsOverAre(
    kb: KnowledgeBase, id: RemId, at: seq<nat>, ids: seq<RemId>, depth: int)
    requires InRange(kb, AllPositions(kb)) && depth > 0 && Exist(kb, id, at) && |ids| == |at|
    requires forall k :: 0 <= k < |at| ==> ids[k] == ChildrenOf(kb, id)[at[k]]
    ensures |PathsOver(kb, AllPositions(kb), id, at, depth)| == DescendantsOf(kb, ids, depth)
    decreases depth, 0, |ids|
  {
    if ids != [] {
      DescendantsAreCounted(kb, ids[0], depth - 1);
      DescendantsOverAre(kb, id, at[1..], ids[1..], depth);
    }
  }

  /** As many as there are ways down, of at most so many steps, to any child. */
  ghost predicate CountsPaths(kb: KnowledgeBase, id: RemId, depth: int, n: nat) {
    exists paths :: Lists(kb, AllSteps(), id, depth, paths) && n == |paths|
  }

  ghost predicate CountsUpTo(kb: KnowledgeBase, id: RemId, depth: int, cap: nat, total: nat) {
    exists n: nat :: CountsPaths(kb, id, depth, n) && total == if n < cap then n else cap
  }

  lemma DescendantsCountPaths(kb: KnowledgeBase, id: RemId, depth: int)
    ensures CountsPaths(kb, id, depth, Descendants(kb, id, depth))
  {
    AllGive(kb);
    PathsList(kb, AllSteps(), AllPositions(kb), id, depth);
    DescendantsAreCounted(kb, id, depth);
  }
}
