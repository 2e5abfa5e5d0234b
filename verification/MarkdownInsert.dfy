/** Inserting Markdown through a temporary root, and replacing the content children of a Rem. */
module MarkdownInsert {
  import opened Prelude
  import opened Rems
  import opened RemEdits
  import opened MoveNote

  /** What `createTreeWithMarkdown` adds: its Rems, listed in the order it returns them, the root first. */
  datatype Tree = Tree(added: KnowledgeBase, order: seq<RemId>) {
    ghost predicate Valid() {
      && (order == [] <==> added == map[])
      && (forall x :: x in order <==> x in added)
      && Consistent(added)
      && (order != [] ==> added[order[0]].parent.None?)
    }

    /** The Rems below the temporary root. */
    function Top(): seq<RemId>
      requires Valid() && order != []
    {
      added[order[0]].children
    }
  }

  predicate White(c: char) {
    c in {' ', '\t', '\n', '\r', '\U{000B}', '\U{000C}', '\U{00A0}', '\U{1680}', '\U{2028}', '\U{2029}', '\U{202F}',
          '\U{205F}', '\U{3000}', '\U{FEFF}'}
    || '\U{2000}' <= c <= '\U{200A}'
  }

  function TrimStart(s: string): string { if s != "" && White(s[0]) then TrimStart(s[1..]) else s }

  function TrimEnd(s: string): string { if s != "" && White(s[|s| - 1]) then TrimEnd(s[..|s| - 1]) else s }

  function Trim(s: string): string { TrimEnd(TrimStart(s)) }

  ghost predicate Blank(s: string) { forall i :: 0 <= i < |s| ==> White(s[i]) }

  /** `trim()` leaves nothing of a text exactly when it is white all through. */
  lemma TrimmedAwayIff(s: string)
    ensures Trim(s) == "" <==> Blank(s)
  {
    TrimStartIsBlankIff(s);
    if TrimStart(s) != "" { TrimEndKeepsFirst(TrimStart(s)); }
  }

  lemma {:induction false} TrimStartIsBlankIff(s: string)
    ensures TrimStart(s) == "" <==> Blank(s)
    ensures TrimStart(s) != "" ==> !White(TrimStart(s)[0])
  {
    if s != "" {
      TrimStartIsBlankIff(s[1..]);
      assert forall i :: 0 < i < |s| ==> s[i] == s[1..][i - 1];
    }
  }

  lemma {:induction false} TrimEndKeepsFirst(s: string)
    requires s != "" && !White(s[0])
    ensures TrimEnd(s) != ""
  {
    if White(s[|s| - 1]) { TrimEndKeepsFirst(s[..|s| - 1]); }
  }

  function Splice(ids: seq<RemId>, at: nat, block: seq<RemId>): seq<RemId> {
    ids[..Min(at, |ids|)] + block + ids[Min(at, |ids|)..]
  }

  // ---- the loop that promotes the temporary root's children ----

  /** The parent's list after `i` promotions: the root is still last, or in front when the position is past the end. */
  ghost function Underway(ids: seq<RemId>, at: nat, root: RemId, top: seq<RemId>, i: nat): seq<RemId>
    requires i <= |top|
  {
    if at <= |ids| then ids[..at] + top[..i] + ids[at..] + [root] else ids + [root] + top[..i]
  }

  lemma UnderwayNext(ids: seq<RemId>, at: nat, root: RemId, top: seq<RemId>, i: nat)
    requires i < |top| && NoRepeats(top) && root !in top && forall t :: t in top ==> t !in ids
    ensures Without(Underway(ids, at, root, top, i), top[i]) == Underway(ids, at, root, top, i)
    ensures InsertAt(Underway(ids, at, root, top, i), at + i, top[i]) == Underway(ids, at, root, top, i + 1)
  {
    var list := Underway(ids, at, root, top, i);
    assert top[i] !in top[..i];
    assert top[i] in top;
    WithoutFacts(list, top[i]);
    assert top[..i + 1] == top[..i] + [top[i]];
    if at <= |ids| {
      assert list == (ids[..at] + top[..i]) + (ids[at..] + [root]);
      assert list[..at + i] == ids[..at] + top[..i];
      assert list[at + i..] == ids[at..] + [root];
    } else {
      assert Min(at + i, |list|) == |list|;
      assert list[..|list|] == list;
    }
  }

  lemma UnderwayDone(ids: seq<RemId>, at: nat, root: RemId, top: seq<RemId>)
    requires root !in top && root !in ids
    ensures Without(Underway(ids, at, root, top, |top|), root) == Splice(ids, at, top)
  {
    assert top[..|top|] == top;
    if at <= |ids| {
      WithoutOne(ids[..at] + top + ids[at..], [], root);
      assert ids[..at] + top + ids[at..] + [root] + [] == ids[..at] + top + ids[at..] + [root];
    } else {
      WithoutOne(ids, top, root);
      assert ids[..|ids|] == ids;
    }
  }

  /** Everything but the parent, the temporary root and its children is as it was made. */
  ghost predicate OthersKept(kb: KnowledgeBase, n: KnowledgeBase, added: KnowledgeBase, root: RemId, parent: RemId)
    requires root in added
  {
    && n.Keys == kb.Keys + added.Keys
    && (forall y :: y in kb && y != parent ==> n[y] == kb[y])
    && (forall y :: y in added && y != root && y !in added[root].children ==> n[y] == added[y])
  }

  /** The first `i` of the root's children hang under the parent, the rest still under the root. */
  ghost predicate Promoted(
    kb: KnowledgeBase, n: KnowledgeBase, added: KnowledgeBase, root: RemId, parent: RemId, at: nat, i: nat)
    requires root in added && parent in kb && i <= |added[root].children|
  {
    var top := added[root].children;
    && OthersKept(kb, n, added, root, parent)
    && n[parent] == kb[parent].(children := Underway(kb[parent].children, at, root, top, i))
    && n[root] == added[root].(parent := Some(parent), children := top[i..])
    && (forall j :: 0 <= j < |top| ==>
          top[j] in added && n[top[j]] == if j < i then added[top[j]].(parent := Some(parent)) else added[top[j]])
  }

  ghost predicate Joinable(kb: KnowledgeBase, added: KnowledgeBase, root: RemId, parent: RemId) {
    && added.Keys !! kb.Keys && parent in kb && (forall c :: c in kb[parent].children ==> c in kb)
    && Consistent(added) && root in added && added[root].parent.None?
  }

  lemma RootNotBelowItself(kb: KnowledgeBase, added: KnowledgeBase, root: RemId, parent: RemId)
    requires Joinable(kb, added, root, parent)
    ensures root !in added[root].children && root !in kb[parent].children && NoRepeats(added[root].children)
    ensures forall t :: t in added[root].children ==> t in added && t !in kb && t !in kb[parent].children
    ensures forall t :: t in added[root].children ==> added[t].parent == Some(root)
  {
  }

  lemma CreatedStarts(kb: KnowledgeBase, added: KnowledgeBase, root: RemId, parent: RemId, at: nat)
    requires Joinable(kb, added, root, parent)
    ensures Promoted(kb, Created(kb, added, root, parent), added, root, parent, at, 0)
  {
    RootNotBelowItself(kb, added, root, parent);
    var ids := kb[parent].children;
    assert added[root].children[0..] == added[root].children;
    assert at <= |ids| ==> ids[..at] + [] + ids[at..] + [root] == ids + [root];
    assert ids + [root] + [] == ids + [root];
  }

  /** One promotion, written out. */
  ghost function NextPromotion(
    kb: KnowledgeBase, n: KnowledgeBase, top: seq<RemId>, root: RemId, parent: RemId, at: nat, i: nat): KnowledgeBase
    requires i < |top| && top[i] in n && root in n && parent in kb
  {
    n[root := n[root].(children := top[i + 1..])]
     [top[i] := n[top[i]].(parent := Some(parent))]
     [parent := kb[parent].(children := Underway(kb[parent].children, at, root, top, i + 1))]
  }

  lemma PromotesNext(
    kb: KnowledgeBase, n: KnowledgeBase, added: KnowledgeBase, root: RemId, parent: RemId, at: nat, i: nat)
    requires Joinable(kb, added, root, parent) && i < |added[root].children|
    requires Promoted(kb, n, added, root, parent, at, i)
    ensures Promoted(kb, SetParent(n, added[root].children[i], parent, Some(at + i)), added, root, parent, at, i + 1)
  {
    RootNotBelowItself(kb, added, root, parent);
    SetParentPromotes(kb, n, added, root, parent, at, i);
    PromotionKeepsShape(kb, n, added, root, parent, at, i);
  }

  lemma SetParentPromotes(
    kb: KnowledgeBase, n: KnowledgeBase, added: KnowledgeBase, root: RemId, parent: RemId, at: nat, i: nat)
    requires Joinable(kb, added, root, parent) && i < |added[root].children|
    requires Promoted(kb, n, added, root, parent, at, i)
    ensures SetParent(n, added[root].children[i], parent, Some(at + i))
         == NextPromotion(kb, n, added[root].children, root, parent, at, i)
  {
    RootNotBelowItself(kb, added, root, parent);
    var top := added[root].children;
    var x := top[i];
    assert x in top;
    UnderwayNext(kb[parent].children, at, root, top, i);
    UnlinkPromotes(n, top, root, i);
  }

  lemma UnlinkPromotes(n: KnowledgeBase, top: seq<RemId>, root: RemId, i: nat)
    requires i < |top| && NoRepeats(top) && top[i] in n && root in n && n[root].children == top[i..]
    requires n[top[i]].parent == Some(root)
    ensures Unlinked(n, top[i]) == n[root := n[root].(children := top[i + 1..])]
  {
    DropsFirst(top, i);
    assert ParentOf(n, top[i]) == Some(root);
  }

  lemma DropsFirst(top: seq<RemId>, i: nat)
    requires i < |top| && NoRepeats(top)
    ensures Without(top[i..], top[i]) == top[i + 1..]
  {
    assert top[i..] == [top[i]] + top[i + 1..];
    WithoutFacts(top[i + 1..], top[i]);
  }

  lemma PromotionKeepsShape(
    kb: KnowledgeBase, n: KnowledgeBase, added: KnowledgeBase, root: RemId, parent: RemId, at: nat, i: nat)
    requires Joinable(kb, added, root, parent) && i < |added[root].children|
    requires Promoted(kb, n, added, root, parent, at, i)
    ensures var next := NextPromotion(kb, n, added[root].children, root, parent, at, i);
            Promoted(kb, next, added, root, parent, at, i + 1)
  {
    RootNotBelowItself(kb, added, root, parent);
    assert added[root].children[i] in added[root].children;
  }

  /** The result: the new Rems stand in the parent's list at the position, and the temporary root is gone. */
  ghost predicate Spliced(
    kb: KnowledgeBase, n: KnowledgeBase, added: KnowledgeBase, root: RemId, parent: RemId, at: nat)
    requires root in added && parent in kb
  {
    var top := added[root].children;
    && OthersKept(kb, n, added, root, parent)
    && n[parent] == kb[parent].(children := Splice(kb[parent].children, at, top))
    && n[root] == added[root].(parent := None, children := [])
    && (forall t :: t in top ==> t in added && n[t] == added[t].(parent := Some(parent)))
  }

  lemma RemovingTheRootSplices(
    kb: KnowledgeBase, n: KnowledgeBase, added: KnowledgeBase, root: RemId, parent: RemId, at: nat)
    requires Joinable(kb, added, root, parent)
    requires Promoted(kb, n, added, root, parent, at, |added[root].children|)
    ensures Spliced(kb, Removed(n, root), added, root, parent, at)
  {
    RootNotBelowItself(kb, added, root, parent);
    UnderwayDone(kb[parent].children, at, root, added[root].children);
    assert ParentOf(n, root) == Some(parent);
  }

  /** Without a parent the new Rems are not promoted; the temporary root is emptied all the same. */
  ghost predicate Unattached(kb: KnowledgeBase, n: KnowledgeBase, added: KnowledgeBase, root: RemId)
    requires root in added
  {
    && n.Keys == kb.Keys + added.Keys
    && (forall y :: y in kb ==> n[y] == kb[y])
    && (forall y :: y in added && y != root ==> n[y] == added[y])
    && n[root] == added[root].(children := [])
  }

  function BasePosition(kb: KnowledgeBase, parent: RemId, position: Option<nat>): nat {
    if position.Some? then position.value else |ChildrenOf(kb, parent)|
  }

  /** Nothing to create: blank text, or an import that made nothing. */
  ghost predicate Nothing(markdown: string, tree: Tree) { Blank(markdown) || tree.order == [] }

  method CreateRemsFromPreparedMarkdown(
    store: Store, markdown: string, tree: Tree, parent: RemId, position: Option<nat>)
    returns (created: seq<RemId>)
    requires tree.Valid() && tree.added.Keys !! store.rems.Keys && parent !in tree.added
    requires forall c :: c in ChildrenOf(store.rems, parent) ==> c in store.rems
    modifies store
    ensures Nothing(markdown, tree) ==> created == [] && store.rems == old(store.rems)
    ensures !Nothing(markdown, tree) ==> created == tree.order[1..]
    ensures !Nothing(markdown, tree) && parent in old(store.rems) ==>
      Spliced(old(store.rems), store.rems, tree.added, tree.order[0], parent,
              BasePosition(old(store.rems), parent, position))
    ensures !Nothing(markdown, tree) && parent !in old(store.rems) ==>
      Unattached(old(store.rems), store.rems, tree.added, tree.order[0])
  {
    TrimmedAwayIff(markdown);
    if Trim(markdown) == "" { return []; }
    if tree.order == [] { return []; }
    ghost var kb := store.rems;
    var root := tree.order[0];
    assert root in tree.order;
    store.CreateTree(tree.added, root, parent);
    var directChildren := ChildrenOf(store.rems, root);
    if parent in store.rems {
      CreatedStarts(kb, tree.added, root, parent, BasePosition(kb, parent, position));
      RootAside(kb, tree.added, root, parent);
      var base := if position.None? then |Without(store.rems[parent].children, root)| else position.value;
      Promote(store, directChildren, parent, base, kb, tree.added, root);
      RemovingTheRootSplices(kb, store.rems, tree.added, root, parent, base);
    }
    store.RemoveRem(root);
    return tree.order[1..];
  }

  lemma RootAside(kb: KnowledgeBase, added: KnowledgeBase, root: RemId, parent: RemId)
    requires Joinable(kb, added, root, parent)
    ensures Without(Created(kb, added, root, parent)[parent].children, root) == kb[parent].children
  {
    RootNotBelowItself(kb, added, root, parent);
    WithoutOne(kb[parent].children, [], root);
    assert kb[parent].children + [root] + [] == kb[parent].children + [root];
    assert kb[parent].children + [] == kb[parent].children;
  }

  /** The loop over the temporary root's children. */
  method Promote(
    store: Store, directChildren: seq<RemId>, parent: RemId, base: nat,
    ghost kb: KnowledgeBase, ghost added: KnowledgeBase, ghost root: RemId)
    requires Joinable(kb, added, root, parent) && directChildren == added[root].children
    requires Promoted(kb, store.rems, added, root, parent, base, 0)
    modifies store
    ensures Promoted(kb, store.rems, added, root, parent, base, |directChildren|)
  {
    for i := 0 to |directChildren|
      invariant Promoted(kb, store.rems, added, root, parent, base, i)
    {
      PromotesNext(kb, store.rems, added, root, parent, base, i);
      store.SetRemParent(directChildren[i], parent, Some(base + i));
    }
  }

  // ---- the result is a forest again ----

  /** Every new Rem is under the parent or under another new Rem; nothing old has moved. */
  lemma {:induction false} NewIsRooted(
    kb: KnowledgeBase, n: KnowledgeBase, added: KnowledgeBase, root: RemId, parent: RemId, at: nat, y: RemId, k: nat)
    requires Joinable(kb, added, root, parent) && Spliced(kb, n, added, root, parent, at)
    requires Rooted(n, parent) && y in added && Above(added, y, k).None?
    ensures Rooted(n, y)
    decreases k
  {
    RootNotBelowItself(kb, added, root, parent);
    assert Above(added, y, 0) == Some(y) && Above(n, y, 0) == Some(y);
    if y in added[root].children {
      var m: nat :| Above(n, parent, m).None?;
      RootedBelow(n, y, parent, m);
    } else if y == root || ParentOf(added, y).None? {
      assert ParentOf(n, y).None?;
      assert Above(n, y, 1).None?;
    } else {
      var a := ParentOf(added, y).value;
      assert Above(added, y, 1) == Some(a);
      AboveAdds(added, y, 1, k - 1);
      NewIsRooted(kb, n, added, root, parent, at, a, k - 1);
      var m: nat :| Above(n, a, m).None?;
      RootedBelow(n, y, a, m);
    }
  }

  lemma {:induction false} OldChainKept(kb: KnowledgeBase, n: KnowledgeBase, y: RemId, k: nat)
    requires kb.Keys <= n.Keys && y in kb && forall z :: z in kb ==> n[z].parent == kb[z].parent
    requires forall z :: z in kb && kb[z].parent.Some? ==> kb[z].parent.value in kb
    ensures Above(n, y, k) == Above(kb, y, k) && (Above(kb, y, k).Some? ==> Above(kb, y, k).value in kb)
  {
    if k > 0 { OldChainKept(kb, n, y, k - 1); }
  }

  lemma SpliceFacts(ids: seq<RemId>, at: nat, block: seq<RemId>)
    requires NoRepeats(ids) && NoRepeats(block) && forall t :: t in block ==> t !in ids
    ensures NoRepeats(Splice(ids, at, block))
    ensures forall y :: y in Splice(ids, at, block) <==> y in ids || y in block
  {
    var k, r := Min(at, |ids|), Splice(ids, at, block);
    assert ids == ids[..k] + ids[k..];
    assert forall t :: 0 <= t < |block| ==> block[t] !in ids;
    forall i, j | 0 <= i < j < |r| ensures r[i] != r[j] {
      var p := if i < k then ids[i] else if i < k + |block| then block[i - k] else ids[i - |block|];
      var q := if j < k then ids[j] else if j < k + |block| then block[j - k] else ids[j - |block|];
      assert r[i] == p && r[j] == q;
    }
  }

  lemma SplicedLists(
    kb: KnowledgeBase, n: KnowledgeBase, added: KnowledgeBase, root: RemId, parent: RemId, at: nat, p: RemId)
    requires Consistent(kb) && Joinable(kb, added, root, parent) && Spliced(kb, n, added, root, parent, at)
    requires p in n
    ensures NoRepeats(n[p].children)
    ensures forall c :: c in n[p].children ==> c in n && n[c].parent == Some(p)
  {
    RootNotBelowItself(kb, added, root, parent);
    if p == parent {
      SpliceFacts(kb[parent].children, at, added[root].children);
    }
  }

  lemma SplicedIsConsistent(
    kb: KnowledgeBase, n: KnowledgeBase, added: KnowledgeBase, root: RemId, parent: RemId, at: nat)
    requires Consistent(kb) && Joinable(kb, added, root, parent) && Spliced(kb, n, added, root, parent, at)
    ensures Consistent(n)
  {
    RootNotBelowItself(kb, added, root, parent);
    forall p | p in n
      ensures NoRepeats(n[p].children)
      ensures forall c :: c in n[p].children ==> c in n && n[c].parent == Some(p)
    {
      SplicedLists(kb, n, added, root, parent, at, p);
    }
    SpliceFacts(kb[parent].children, at, added[root].children);
    forall c | c in n && n[c].parent.Some?
      ensures n[c].parent.value in n && c in n[n[c].parent.value].children
    {
    }
  }

  /** Inserting a new tree into a forest leaves a forest. */
  lemma SplicedIsForest(
    kb: KnowledgeBase, n: KnowledgeBase, added: KnowledgeBase, root: RemId, parent: RemId, at: nat)
    requires Forest(kb) && Forest(added) && Joinable(kb, added, root, parent)
    requires Spliced(kb, n, added, root, parent, at)
    ensures Forest(n)
  {
    SplicedIsConsistent(kb, n, added, root, parent, at);
    forall y | y in kb ensures Rooted(n, y) {
      var k: nat :| Above(kb, y, k).None?;
      OldChainKept(kb, n, y, k);
    }
    forall y | y in added ensures Rooted(n, y) {
      var k: nat :| Above(added, y, k).None?;
      NewIsRooted(kb, n, added, root, parent, at, y, k);
    }
  }
}
