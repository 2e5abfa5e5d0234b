/** Length-limited rendering of a Rem's subtree as indented Markdown, and the capped child count beside it. */
module RenderContent {
  import opened Rems
  import opened Strings
  import opened RenderSpec
  import opened ChildPaths
  import opened RenderOrder

  method GetRenderableChildren(kb: KnowledgeBase, id: RemId, childLimit: nat) returns (limited: seq<RemId>)
    ensures limited == Shown(kb, id, childLimit) && ListsRenderable(kb, childLimit, id, limited)
  {
    var children := ChildrenOf(kb, id);
    var visible: seq<RemId> := [];
    assert children[0..] == children;
    for i := 0 to |children|
      invariant Visible(kb, children) == visible + Visible(kb, children[i..])
    {
      assert children[i..][1..] == children[i + 1..];
      if children[i] in kb && !kb[children[i]].powerup {
        visible := visible + [children[i]];
      }
    }
    assert visible == Visible(kb, children);
    limited := if childLimit < |visible| then visible[..childLimit] else visible;
    while limited != []
      invariant DropEmptyTail(kb, limited) == Shown(kb, id, childLimit)
    {
      if !EmptyTextLeaf(kb, limited[|limited| - 1]) { break; }
      limited := limited[..|limited| - 1];
    }
    ShownListsRenderable(kb, childLimit, id);
  }

  /** The body of the loop over the children: the child's own line, then what is below it. */
  method RenderChild(
    kb: KnowledgeBase, child: RemId, depth: int, childLimit: nat, limit: int, level: nat, accumulated: Text)
    returns (one: RenderResult)
    requires depth > 0 && child in kb
    ensures one == FittedTo(EntriesFrom(kb, child, depth, childLimit, level), accumulated, limit)
    decreases depth, 0
  {
    var line := Line(kb[child], level);
    LineThenSub(line, Entries(kb, child, depth - 1, childLimit, level + 1), accumulated, limit);
    if |accumulated| + |line| > limit { return RenderResult(accumulated, 0, true); }
    var sub := RenderContentMarkdown(kb, child, depth - 1, childLimit, limit, level + 1, accumulated + line);
    one := RenderResult(sub.content, 1 + sub.childrenRendered, sub.truncatedByLength);
  }

  method RenderContentMarkdown(
    kb: KnowledgeBase, id: RemId, depth: int, childLimit: nat, limit: int, level: nat, accumulated: Text)
    returns (r: RenderResult)
    ensures r == FittedTo(Entries(kb, id, depth, childLimit, level), accumulated, limit)
    ensures ShowsPaths(kb, id, depth, childLimit, limit, level, accumulated, r)
    decreases depth, 1
  {
    RenderingShowsPaths(kb, id, depth, childLimit, limit, level, accumulated);
    if depth <= 0 { return RenderResult(accumulated, 0, false); }
    var children := GetRenderableChildren(kb, id, childLimit);
    if children == [] { return RenderResult(accumulated, 0, false); }
    r := RenderResult(accumulated, 0, false);
    ghost var done: seq<Text> := [];
    assert children[0..] == children;
    for i := 0 to |children|
      invariant Entries(kb, id, depth, childLimit, level)
             == done + EntriesOf(kb, children[i..], depth, childLimit, level)
      invariant AllFitted(done, r, accumulated, limit)
    {
      var one := RenderChild(kb, children[i], depth, childLimit, limit, level, r.content);
      ghost var here := EntriesFrom(kb, children[i], depth, childLimit, level);
      ghost var rest := EntriesOf(kb, children[i + 1..], depth, childLimit, level);
      NextEntries(kb, children, i, depth, childLimit, level);
      OneMoreChild(done, here, rest, r, one, accumulated, limit);
      r := RenderResult(one.content, r.childrenRendered + one.childrenRendered, one.truncatedByLength);
      if r.truncatedByLength { return; }
      done := done + here;
    }
    assert done + [] == done;
  }

  /** So far every entry has been written. */
  ghost predicate AllFitted(done: seq<Text>, r: RenderResult, accumulated: Text, limit: int) {
    r == FittedTo(done, accumulated, limit) && !r.truncatedByLength
  }

  lemma NextEntries(kb: KnowledgeBase, ids: seq<RemId>, i: nat, depth: int, childLimit: nat, level: nat)
    requires depth > 0 && i < |ids| && forall x :: x in ids ==> x in kb
    ensures EntriesOf(kb, ids[i..], depth, childLimit, level)
         == EntriesFrom(kb, ids[i], depth, childLimit, level) + EntriesOf(kb, ids[i + 1..], depth, childLimit, level)
  {
    assert ids[i..][1..] == ids[i + 1..];
  }

  /** One more child: the running result either stops for good or covers that child too. */
  lemma OneMoreChild(
    done: seq<Text>, here: seq<Text>, rest: seq<Text>,
    r: RenderResult, one: RenderResult, accumulated: Text, limit: int)
    requires AllFitted(done, r, accumulated, limit) && one == FittedTo(here, r.content, limit)
    ensures done + (here + rest) == done + here + rest
    ensures var next := RenderResult(one.content, r.childrenRendered + one.childrenRendered, one.truncatedByLength);
            if one.truncatedByLength then next == FittedTo(done + here + rest, accumulated, limit)
            else AllFitted(done + here, next, accumulated, limit)
  {
    assert done[..|done|] == done;
    assert done + (here + rest) == done + here + rest;
    if one.truncatedByLength {
      StopsInside(done, here, rest, accumulated, limit);
    } else {
      KeepsFitting(done, here, accumulated, limit);
      assert (done + here)[..|done + here|] == done + here;
    }
  }

  /** Writing the line and then rendering below it is rendering the Rem's own entries. */
  lemma LineThenSub(line: Text, below: seq<Text>, content: Text, limit: int)
    ensures FittedTo([line] + below, content, limit)
         == if |content| + |line| > limit then RenderResult(content, 0, true)
            else var sub := FittedTo(below, content + line, limit);
                 RenderResult(sub.content, 1 + sub.childrenRendered, sub.truncatedByLength)
  {
    var es := [line] + below;
    var k := Fit(below, |content + line|, limit);
    assert es[1..] == below;
    assert es[..k + 1] == [line] + below[..k];
    assert ([line] + below[..k])[1..] == below[..k];
  }

  /** If all of `here` fits after `done`, then `done + here` fits. */
  lemma KeepsFitting(done: seq<Text>, here: seq<Text>, accumulated: Text, limit: int)
    requires Fit(done, |accumulated|, limit) == |done|
    requires !FittedTo(here, accumulated + Concat(done), limit).truncatedByLength
    ensures Fit(done + here, |accumulated|, limit) == |done + here|
    ensures FittedTo(here, accumulated + Concat(done), limit)
         == RenderResult(accumulated + Concat(done + here), |here|, false)
  {
    FitSplits(done, here, |accumulated|, limit);
    ConcatSplits(done, here);
    assert here[..|here|] == here;
  }

  /** Once an entry does not fit, nothing after it is looked at. */
  lemma StopsInside(done: seq<Text>, here: seq<Text>, rest: seq<Text>, accumulated: Text, limit: int)
    requires Fit(done, |accumulated|, limit) == |done|
    requires FittedTo(here, accumulated + Concat(done), limit).truncatedByLength
    ensures var whole := FittedTo(done + here + rest, accumulated, limit);
            var part := FittedTo(here, accumulated + Concat(done), limit);
            && whole.content == part.content && whole.childrenRendered == |done| + part.childrenRendered
            && whole.truncatedByLength
  {
    FitStopsInside(done, here, rest, |accumulated|, limit);
    var k := Fit(here, |accumulated| + |Concat(done)|, limit);
    assert (done + here + rest)[..|done| + k] == done + here[..k];
    ConcatSplits(done, here[..k]);
    assert accumulated + (Concat(done) + Concat(here[..k])) == accumulated + Concat(done) + Concat(here[..k]);
  }

  lemma FitStopsInside(done: seq<Text>, here: seq<Text>, rest: seq<Text>, used: nat, limit: int)
    requires Fit(done, used, limit) == |done| && Fit(here, used + |Concat(done)|, limit) < |here|
    ensures Fit(done + here + rest, used, limit) == |done| + Fit(here, used + |Concat(done)|, limit)
  {
    FitSplits(done, here, used, limit);
    FitSplits(done + here, rest, used, limit);
  }

  // ---- counting ----

  method CountChildren(kb: KnowledgeBase, id: RemId, depth: int) returns (total: nat)
    ensures total == Capped(Descendants(kb, id, depth))
    ensures CountsUpTo(kb, id, depth, 2000, total)
    decreases depth
  {
    DescendantsCountPaths(kb, id, depth);
    if depth <= 0 { return 0; }
    var children := ChildrenOf(kb, id);
    if children == [] { return 0; }
    total := |children|;
    AtLeastTheChildren(kb, children, depth);
    if total >= CHILDREN_TOTAL_CAP { return CHILDREN_TOTAL_CAP; }
    assert children[0..] == children;
    for i := 0 to |children|
      invariant total + DescendantsOf(kb, children[i..], depth) == Descendants(kb, id, depth) + (|children| - i)
      invariant total < CHILDREN_TOTAL_CAP
    {
      assert children[i..][1..] == children[i + 1..];
      AtLeastTheChildren(kb, children[i + 1..], depth);
      var below := CountChildren(kb, children[i], depth - 1);
      total := total + below;
      if total >= CHILDREN_TOTAL_CAP { return CHILDREN_TOTAL_CAP; }
    }
  }

  /** Rendering never lists more Rems than there are. */
  lemma {:induction false} EntriesAreDescendants(kb: KnowledgeBase, id: RemId, depth: int, childLimit: nat, level: nat)
    ensures |Entries(kb, id, depth, childLimit, level)| <= Descendants(kb, id, depth)
    decreases depth, 1, 0
  {
    if depth > 0 {
      EntriesOfAreDescendants(kb, Shown(kb, id, childLimit), depth, childLimit, level);
      ShownCount(kb, id, childLimit, depth);
    }
  }

  lemma {:induction false} EntriesOfAreDescendants(
    kb: KnowledgeBase, ids: seq<RemId>, depth: int, childLimit: nat, level: nat)
    requires depth > 0 && forall x :: x in ids ==> x in kb
    ensures |EntriesOf(kb, ids, depth, childLimit, level)| <= DescendantsOf(kb, ids, depth)
    decreases depth, 0, |ids|
  {
    if ids != [] {
      EntriesAreDescendants(kb, ids[0], depth - 1, childLimit, level + 1);
      EntriesOfAreDescendants(kb, ids[1..], depth, childLimit, level);
    }
  }

  lemma ShownCount(kb: KnowledgeBase, id: RemId, childLimit: nat, depth: int)
    requires depth > 0
    ensures DescendantsOf(kb, Shown(kb, id, childLimit), depth) <= Descendants(kb, id, depth)
  {
    var children := ChildrenOf(kb, id);
    var visible := Visible(kb, children);
    VisibleCount(kb, children, depth);
    var limited := if childLimit < |visible| then visible[..childLimit] else visible;
    PrefixCount(kb, limited, visible, depth);
    PrefixCount(kb, DropEmptyTail(kb, limited), limited, depth);
  }

  lemma {:induction false} VisibleCount(kb: KnowledgeBase, ids: seq<RemId>, depth: int)
    requires depth > 0
    ensures DescendantsOf(kb, Visible(kb, ids), depth) <= DescendantsOf(kb, ids, depth)
  {
    if ids != [] {
      VisibleCount(kb, ids[1..], depth);
      if ids[0] in kb && !kb[ids[0]].powerup {
        assert Visible(kb, ids)[1..] == Visible(kb, ids[1..]);
      } else {
        assert Visible(kb, ids) == Visible(kb, ids[1..]);
      }
    }
  }

  lemma {:induction false} PrefixCount(kb: KnowledgeBase, a: seq<RemId>, b: seq<RemId>, depth: int)
    requires depth > 0 && a <= b
    ensures DescendantsOf(kb, a, depth) <= DescendantsOf(kb, b, depth)
  {
    if a != [] { PrefixCount(kb, a[1..], b[1..], depth); }
  }

  datatype ContentProperties = ContentProperties(childrenRendered: nat, childrenTotal: nat, contentTruncated: bool)

  /**
   Nothing missing: the total is what was rendered. Otherwise it is the capped true count, at least what was
   rendered.
   */
  method BuildContentProperties(kb: KnowledgeBase, id: RemId, depth: int, childLimit: nat, limit: int)
    returns (p: ContentProperties)
    ensures p.childrenRendered == Fit(Entries(kb, id, depth, childLimit, 0), 0, limit)
    ensures p.contentTruncated <==> p.childrenRendered < |Entries(kb, id, depth, childLimit, 0)|
    ensures !p.contentTruncated ==> p.childrenTotal == |Entries(kb, id, depth, childLimit, 0)|
    ensures p.contentTruncated ==> p.childrenTotal == Capped(Descendants(kb, id, depth))
    ensures p.childrenTotal >= Capped(p.childrenRendered)
    ensures exists r :: ShowsPaths(kb, id, depth, childLimit, limit, 0, [], r)
                        && p.childrenRendered == r.childrenRendered && p.contentTruncated == r.truncatedByLength
    ensures if p.contentTruncated then CountsUpTo(kb, id, depth, 2000, p.childrenTotal)
            else p.childrenTotal == p.childrenRendered
  {
    var r := RenderContentMarkdown(kb, id, depth, childLimit, limit, 0, []);
    EntriesAreDescendants(kb, id, depth, childLimit, 0);
    if r.truncatedByLength {
      var total := CountChildren(kb, id, depth);
      return ContentProperties(r.childrenRendered, total, true);
    }
    return ContentProperties(r.childrenRendered, r.childrenRendered, false);
  }
}
