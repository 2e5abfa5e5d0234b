/** Inserting children at a place, and replacing the content children of a Rem. */
module ChildEdits {
  import opened Prelude
  import opened Rems
  import opened RemEdits
  import opened MarkdownInsert
  import opened MoveNote

  datatype EditError = NoWrites | NoReplace | NoSuchParent | BadPlace(reason: MoveError)

  // ---- clearing the content children ----

  /** Children that are not content: power-up parts, properties and aliases. */
  predicate IsMetadata(kb: KnowledgeBase, id: RemId) { id in kb && (kb[id].powerup || kb[id].attached) }

  function Kept(kb: KnowledgeBase, ids: seq<RemId>): (r: seq<RemId>)
    ensures forall y :: y in r <==> y in ids && IsMetadata(kb, y)
    ensures forall y :: y in r <==> y in ids && y in kb && (kb[y].powerup || kb[y].attached)
  {
    if ids == [] then []
    else (if IsMetadata(kb, ids[0]) then [ids[0]] else []) + Kept(kb, ids[1..])
  }

  lemma {:induction false} KeptOneMore(kb: KnowledgeBase, ids: seq<RemId>, i: nat)
    requires i < |ids|
    ensures Kept(kb, ids[..i + 1]) == Kept(kb, ids[..i]) + if IsMetadata(kb, ids[i]) then [ids[i]] else []
  {
    if i > 0 {
      KeptOneMore(kb, ids[1..], i - 1);
      assert ids[..i + 1][1..] == ids[1..][..i] && ids[..i][1..] == ids[1..][..i - 1];
    }
  }

  ghost predicate GoneUpTo(kb: KnowledgeBase, p: RemId, i: nat, y: RemId)
    requires p in kb && i <= |kb[p].children|
  {
    y in kb[p].children[..i] && !IsMetadata(kb, y)
  }

  ghost function RecordCleared(kb: KnowledgeBase, p: RemId, i: nat, y: RemId): Rem
    requires p in kb && i <= |kb[p].children| && y in kb
  {
    if y == p then kb[p].(children := Kept(kb, kb[p].children[..i]) + kb[p].children[i..])
    else if GoneUpTo(kb, p, i, y) then kb[y].(parent := None, children := [])
    else kb[y]
  }

  /** The first `i` children have been dealt with. */
  ghost predicate Clearing(kb: KnowledgeBase, n: KnowledgeBase, p: RemId, i: nat)
    requires p in kb && i <= |kb[p].children|
  {
    n.Keys == kb.Keys && forall y :: y in kb ==> n[y] == RecordCleared(kb, p, i, y)
  }

  lemma GoneNext(kb: KnowledgeBase, p: RemId, i: nat, y: RemId)
    requires p in kb && i < |kb[p].children|
    ensures GoneUpTo(kb, p, i + 1, y)
        <==> GoneUpTo(kb, p, i, y) || (y == kb[p].children[i] && !IsMetadata(kb, y))
  {
    var ids := kb[p].children;
    assert ids[..i + 1] == ids[..i] + [ids[i]];
  }

  /** The parent's list without the next child. */
  lemma ListNext(kb: KnowledgeBase, ids: seq<RemId>, i: nat)
    requires i < |ids| && NoRepeats(ids)
    ensures IsMetadata(kb, ids[i]) ==> Kept(kb, ids[..i]) + ids[i..] == Kept(kb, ids[..i + 1]) + ids[i + 1..]
    ensures !IsMetadata(kb, ids[i]) ==>
      Without(Kept(kb, ids[..i]) + ids[i..], ids[i]) == Kept(kb, ids[..i + 1]) + ids[i + 1..]
  {
    var x := ids[i];
    KeptOneMore(kb, ids, i);
    assert x !in ids[..i] && x !in ids[i + 1..];
    assert Kept(kb, ids[..i]) + ids[i..] == Kept(kb, ids[..i]) + [x] + ids[i + 1..];
    if !IsMetadata(kb, x) { WithoutOne(Kept(kb, ids[..i]), ids[i + 1..], x); }
  }

  /** One removal, written out. */
  ghost function NextCleared(kb: KnowledgeBase, n: KnowledgeBase, p: RemId, i: nat): KnowledgeBase
    requires p in kb && i < |kb[p].children| && kb[p].children[i] in n
  {
    var ids := kb[p].children;
    n[p := kb[p].(children := Kept(kb, ids[..i + 1]) + ids[i + 1..])]
     [ids[i] := n[ids[i]].(parent := None, children := [])]
  }

  lemma ChildUntouched(kb: KnowledgeBase, n: KnowledgeBase, p: RemId, i: nat)
    requires Forest(kb) && p in kb && i < |kb[p].children| && Clearing(kb, n, p, i)
    ensures var x := kb[p].children[i];
            x in n && x in kb && x != p && n[x] == kb[x] && ParentOf(n, x) == Some(p) && NoRepeats(kb[p].children)
  {
    var ids := kb[p].children;
    NotOwnChild(kb, p);
    assert ids[i] in ids;
    assert !GoneUpTo(kb, p, i, ids[i]);
  }

  lemma RemovalClears(kb: KnowledgeBase, n: KnowledgeBase, p: RemId, i: nat)
    requires p in kb && i < |kb[p].children| && NoRepeats(kb[p].children)
    requires p in n && n[p] == kb[p].(children := Kept(kb, kb[p].children[..i]) + kb[p].children[i..])
    requires kb[p].children[i] in n && kb[p].children[i] != p && ParentOf(n, kb[p].children[i]) == Some(p)
    requires !IsMetadata(kb, kb[p].children[i])
    ensures Removed(n, kb[p].children[i]) == NextCleared(kb, n, p, i)
  {
    ListNext(kb, kb[p].children, i);
  }

  lemma ClearsNext(kb: KnowledgeBase, n: KnowledgeBase, p: RemId, i: nat)
    requires p in kb && i < |kb[p].children| && NoRepeats(kb[p].children) && Clearing(kb, n, p, i)
    requires kb[p].children[i] in kb && kb[p].children[i] != p && n[kb[p].children[i]] == kb[kb[p].children[i]]
    ensures Clearing(kb, if IsMetadata(kb, kb[p].children[i]) then n else NextCleared(kb, n, p, i), p, i + 1)
  {
    if IsMetadata(kb, kb[p].children[i]) {
      forall y | y in kb ensures RecordCleared(kb, p, i + 1, y) == n[y] { MetadataStays(kb, n, p, i, y); }
    } else {
      forall y | y in kb ensures RecordCleared(kb, p, i + 1, y) == NextCleared(kb, n, p, i)[y] {
        ContentGoes(kb, n, p, i, y);
      }
    }
  }

  lemma MetadataStays(kb: KnowledgeBase, n: KnowledgeBase, p: RemId, i: nat, y: RemId)
    requires p in kb && i < |kb[p].children| && NoRepeats(kb[p].children) && y in kb && y in n
    requires n[y] == RecordCleared(kb, p, i, y) && IsMetadata(kb, kb[p].children[i])
    ensures n[y] == RecordCleared(kb, p, i + 1, y)
  {
    ListNext(kb, kb[p].children, i);
    GoneNext(kb, p, i, y);
  }

  lemma ContentGoes(kb: KnowledgeBase, n: KnowledgeBase, p: RemId, i: nat, y: RemId)
    requires p in kb && i < |kb[p].children| && y in kb && y in n && !IsMetadata(kb, kb[p].children[i])
    requires kb[p].children[i] in kb && kb[p].children[i] != p && kb[p].children[i] in n
    requires n[y] == RecordCleared(kb, p, i, y) && n[kb[p].children[i]] == kb[kb[p].children[i]]
    ensures NextCleared(kb, n, p, i)[y] == RecordCleared(kb, p, i + 1, y)
  {
    GoneNext(kb, p, i, y);
  }

  lemma ClearingEnds(kb: KnowledgeBase, n: KnowledgeBase, p: RemId)
    requires p in kb && Clearing(kb, n, p, |kb[p].children|)
    ensures Cleared(kb, n, p)
  {
    var ids := kb[p].children;
    assert ids[..|ids|] == ids && Kept(kb, ids) + ids[|ids|..] == Kept(kb, ids);
    assert forall y :: GoneUpTo(kb, p, |ids|, y) <==> y in ids && !IsMetadata(kb, y);
  }

  /** Metadata children stay, in order; content children are detached and emptied; nothing else changes. */
  ghost predicate Cleared(kb: KnowledgeBase, n: KnowledgeBase, p: RemId)
    requires p in kb
  {
    && n.Keys == kb.Keys
    && n[p] == kb[p].(children := Kept(kb, kb[p].children))
    && (forall y :: y in kb && y != p ==>
          n[y] == if y in kb[p].children && !IsMetadata(kb, y) then kb[y].(parent := None, children := []) else kb[y])
  }

  /** No content child has children of its own. */
  ghost predicate ContentIsFlat(kb: KnowledgeBase, p: RemId)
    requires p in kb
  {
    forall y :: y in kb[p].children && !IsMetadata(kb, y) ==> ChildrenOf(kb, y) == []
  }

  /** Outside the parent, `n` has the old Rems as clearing leaves them. */
  ghost predicate OldRemsCleared(kb: KnowledgeBase, n: KnowledgeBase, p: RemId)
    requires p in kb
  {
    forall y :: y in kb && y != p ==>
      && y in n
      && n[y] == if y in kb[p].children && !IsMetadata(kb, y) then kb[y].(parent := None, children := []) else kb[y]
  }

  /** Two Rems of a forest are never each other's parents. */
  lemma NotMutual(kb: KnowledgeBase, a: RemId, b: RemId)
    requires Forest(kb) && a in kb
    ensures !MutualParents(kb, a, b)
  {
    if MutualParents(kb, a, b) {
      var k: nat :| Above(kb, a, k).None?;
      AboveAlternates(kb, a, b, k);
    }
  }

  /** A child of a detached content child still points to it, but is in its list no more. */
  lemma DanglingChild(kb: KnowledgeBase, n: KnowledgeBase, p: RemId)
    requires Forest(kb) && p in kb && OldRemsCleared(kb, n, p) && !ContentIsFlat(kb, p)
    ensures !Consistent(n)
  {
    var y :| y in kb[p].children && !IsMetadata(kb, y) && ChildrenOf(kb, y) != [];
    var c := kb[y].children[0];
    assert c in kb[y].children;
    NotMutual(kb, p, y);
    NotOwnChild(kb, p);
    Dangles(kb, n, p, y, c);
  }

  lemma Dangles(kb: KnowledgeBase, n: KnowledgeBase, p: RemId, y: RemId, c: RemId)
    requires Consistent(kb) && p in kb && OldRemsCleared(kb, n, p) && !MutualParents(kb, p, y)
    requires y in kb[p].children && !IsMetadata(kb, y) && y != p && y in kb && c in kb[y].children
    ensures !Consistent(n)
  {
    assert kb[c].parent == Some(y) && kb[y].parent == Some(p);
    assert n[c] == kb[c] && n[y].children == [];
  }

  lemma {:induction false} KeptHasNoRepeats(kb: KnowledgeBase, ids: seq<RemId>)
    requires NoRepeats(ids)
    ensures NoRepeats(Kept(kb, ids))
  {
    if ids != [] {
      assert NoRepeats(ids[1..]) && ids[0] !in ids[1..];
      KeptHasNoRepeats(kb, ids[1..]);
      var r := Kept(kb, ids[1..]);
      assert forall i :: 0 <= i < |r| ==> r[i] in ids[1..];
    }
  }

  lemma ClearedListsAgree(kb: KnowledgeBase, n: KnowledgeBase, p: RemId, q: RemId, c: RemId)
    requires Consistent(kb) && p in kb && p !in kb[p].children
    requires Cleared(kb, n, p) && q in n && c in n[q].children
    ensures c in n && n[c].parent == Some(q)
  {
    assert c in kb[q].children && kb[c].parent == Some(q);
  }

  lemma ClearedParentsAgree(kb: KnowledgeBase, n: KnowledgeBase, p: RemId, c: RemId)
    requires Consistent(kb) && p in kb && p !in kb[p].children
    requires Cleared(kb, n, p) && ContentIsFlat(kb, p) && c in n && n[c].parent.Some?
    ensures n[c].parent.value in n && c in n[n[c].parent.value].children
  {
    var q := n[c].parent.value;
    assert kb[c].parent == Some(q) && c in kb[q].children && ChildrenOf(kb, q) != [];
  }

  lemma ClearedIsConsistent(kb: KnowledgeBase, n: KnowledgeBase, p: RemId)
    requires Forest(kb) && p in kb && Cleared(kb, n, p) && ContentIsFlat(kb, p)
    ensures Consistent(n)
  {
    NotOwnChild(kb, p);
    forall q | q in n ensures NoRepeats(n[q].children) { KeptHasNoRepeats(kb, kb[p].children); }
    forall q, c | q in n && c in n[q].children ensures c in n && n[c].parent == Some(q) {
      ClearedListsAgree(kb, n, p, q, c);
    }
    forall c | c in n && n[c].parent.Some?
      ensures n[c].parent.value in n && c in n[n[c].parent.value].children
    {
      ClearedParentsAgree(kb, n, p, c);
    }
  }

  /** Clearing only cuts parent links. */
  lemma {:induction false} ChainIsCut(kb: KnowledgeBase, n: KnowledgeBase, p: RemId, y: RemId, k: nat)
    requires p in kb && Cleared(kb, n, p) && y in kb
    ensures Above(n, y, k).None? || Above(n, y, k) == Above(kb, y, k)
  {
    if k > 0 { ChainIsCut(kb, n, p, y, k - 1); }
  }

  /** Clearing leaves a forest if and only if no content child has children of its own. */
  lemma ClearedIsForestIff(kb: KnowledgeBase, n: KnowledgeBase, p: RemId)
    requires Forest(kb) && p in kb && Cleared(kb, n, p)
    ensures Forest(n) <==> ContentIsFlat(kb, p)
  {
    if ContentIsFlat(kb, p) {
      ClearedIsConsistent(kb, n, p);
      forall y | y in n ensures Rooted(n, y) {
        var k: nat :| Above(kb, y, k).None?;
        ChainIsCut(kb, n, p, y, k);
      }
    } else {
      DanglingChild(kb, n, p);
    }
  }

  method ClearDirectContentChildren(store: Store, p: RemId)
    requires Forest(store.rems) && p in store.rems
    modifies store
    ensures Cleared(old(store.rems), store.rems, p)
    ensures Forest(store.rems) <==> ContentIsFlat(old(store.rems), p)
  {
    var kb := store.rems;
    var children := kb[p].children;
    for i := 0 to |children|
      invariant Clearing(kb, store.rems, p, i)
    {
      ChildUntouched(kb, store.rems, p, i);
      ClearsNext(kb, store.rems, p, i);
      if !IsMetadata(kb, children[i]) {
        RemovalClears(kb, store.rems, p, i);
        store.RemoveRem(children[i]);
      }
    }
    ClearingEnds(kb, store.rems, p);
    ClearedIsForestIff(kb, store.rems, p);
  }

  // ---- replacing them ----

  /** The parent keeps its metadata children and gets the new top-level Rems after them. */
  ghost predicate Replaced(kb: KnowledgeBase, n: KnowledgeBase, added: KnowledgeBase, root: RemId, p: RemId)
    requires p in kb && root in added
  {
    var top := added[root].children;
    && n.Keys == kb.Keys + added.Keys
    && n[p] == kb[p].(children := Kept(kb, kb[p].children) + top)
    && (forall y :: y in kb && y != p ==>
          n[y] == if y in kb[p].children && !IsMetadata(kb, y) then kb[y].(parent := None, children := []) else kb[y])
    && (forall t :: t in top ==> t in added && n[t] == added[t].(parent := Some(p)))
    && (forall y :: y in added && y != root && y !in top ==> n[y] == added[y])
    && n[root] == added[root].(parent := None, children := [])
  }

  method ReplaceChildren(
    store: Store, acceptWrites: bool, acceptReplace: bool, p: RemId, normalized: string, tree: Tree)
    returns (r: Result<seq<RemId>, EditError>)
    requires Forest(store.rems)
    requires tree.Valid() && tree.added.Keys !! store.rems.Keys && p !in tree.added
    modifies store
    ensures r.Err? <==> !acceptWrites || !acceptReplace || p !in old(store.rems)
    ensures r.Err? ==> store.rems == old(store.rems)
    ensures r.Err? ==>
      r.error == if !acceptWrites then NoWrites else if !acceptReplace then NoReplace else NoSuchParent
    ensures r.Ok? && Nothing(normalized, tree) ==> r.value == [] && Cleared(old(store.rems), store.rems, p)
    ensures r.Ok? && !Nothing(normalized, tree) ==>
      r.value == tree.order[1..] && Replaced(old(store.rems), store.rems, tree.added, tree.order[0], p)
    ensures r.Ok? && Forest(tree.added) ==> (Forest(store.rems) <==> ContentIsFlat(old(store.rems), p))
  {
    if !acceptWrites { return Err(NoWrites); }
    if !acceptReplace { return Err(NoReplace); }
    if p !in store.rems { return Err(NoSuchParent); }
    ghost var kb := store.rems;
    ClearDirectContentChildren(store, p);
    if normalized == "" { return Ok([]); }
    ghost var cleared := store.rems;
    KeptAreKnown(kb, cleared, p);
    var created := CreateRemsFromPreparedMarkdown(store, normalized, tree, p, None);
    if !Nothing(normalized, tree) {
      assert tree.order[0] in tree.order;
      ClearedThenSpliced(kb, cleared, store.rems, tree.added, tree.order[0], p);
      if Forest(tree.added) { ReplacedIsForestIff(kb, cleared, store.rems, tree.added, tree.order[0], p); }
    }
    return Ok(created);
  }

  lemma KeptAreKnown(kb: KnowledgeBase, mid: KnowledgeBase, p: RemId)
    requires p in kb && Cleared(kb, mid, p)
    ensures forall c :: c in ChildrenOf(mid, p) ==> c in mid
  {
  }

  lemma ClearedThenSpliced(
    kb: KnowledgeBase, mid: KnowledgeBase, n: KnowledgeBase, added: KnowledgeBase, root: RemId, p: RemId)
    requires p in kb && root in added && added.Keys !! kb.Keys && Cleared(kb, mid, p)
    requires Spliced(mid, n, added, root, p, BasePosition(mid, p, None))
    ensures Replaced(kb, n, added, root, p)
  {
    var kept := Kept(kb, kb[p].children);
    assert kept[..|kept|] == kept;
    assert Splice(kept, |kept|, added[root].children) == kept + added[root].children;
  }

  /** Replacing leaves a forest under the same condition. */
  lemma ReplacedIsForestIff(
    kb: KnowledgeBase, mid: KnowledgeBase, n: KnowledgeBase, added: KnowledgeBase, root: RemId, p: RemId)
    requires Forest(kb) && Forest(added) && p in kb && Cleared(kb, mid, p) && Joinable(mid, added, root, p)
    requires Spliced(mid, n, added, root, p, BasePosition(mid, p, None))
    ensures Forest(n) <==> ContentIsFlat(kb, p)
  {
    if ContentIsFlat(kb, p) {
      ClearedIsForestIff(kb, mid, p);
      SplicedIsForest(mid, n, added, root, p, BasePosition(mid, p, None));
    } else {
      DanglingChild(kb, n, p);
    }
  }

  // ---- inserting at a place ----

  /** What is wrong with the arguments, in the order in which it is found. */
  ghost predicate InsertRefusedFor(
    kb: KnowledgeBase, acceptWrites: bool, p: RemId, position: Position, sibling: Option<RemId>, e: EditError)
  {
    if !acceptWrites then e == NoWrites
    else if (position == BeforeSibling || position == AfterSibling) && sibling.None? then e == BadPlace(SiblingRequired)
    else if (position == First || position == Last) && sibling.Some? then e == BadPlace(SiblingForbidden)
    else if p !in kb then e == NoSuchParent
    else e == BadPlace(SiblingNotFound) && sibling.Some? && sibling.value !in kb[p].children
  }

  /** `getInsertPosition`: the arguments are checked before the parent is looked up. */
  function InsertPosition(kb: KnowledgeBase, p: RemId, position: Position, sibling: Option<RemId>)
    : Result<nat, EditError>
  {
    if (position.BeforeSibling? || position.AfterSibling?) && sibling.None? then Err(BadPlace(SiblingRequired))
    else if (position.First? || position.Last?) && sibling.Some? then Err(BadPlace(SiblingForbidden))
    else if p !in kb then Err(NoSuchParent)
    else match MovePosition(kb[p].children, position, sibling)
      case Err(e) => Err(BadPlace(e))
      case Ok(at) => Ok(at)
  }

  ghost predicate StandsAt(children: seq<RemId>, block: seq<RemId>, k: int) {
    0 <= k && k + |block| <= |children| && children[k..k + |block|] == block
  }

  /** The block stands first, last, or directly on the asked side of the sibling. */
  ghost predicate BlockPlaced(
    children: seq<RemId>, block: seq<RemId>, position: Position, sibling: Option<RemId>)
  {
    var n := |block|;
    match position
    case First => n <= |children| && children[..n] == block
    case Last => n <= |children| && children[|children| - n..] == block
    case BeforeSibling =>
      sibling.Some? && exists k ::
        StandsAt(children, block, k) && k + n < |children| && children[k + n] == sibling.value
    case AfterSibling =>
      sibling.Some? && exists k :: StandsAt(children, block, k) && k > 0 && children[k - 1] == sibling.value
  }

  lemma InsertPlacesBlock(kb: KnowledgeBase, p: RemId, position: Position, sibling: Option<RemId>, block: seq<RemId>)
    requires p in kb && InsertPosition(kb, p, position, sibling).Ok?
    ensures var at := InsertPosition(kb, p, position, sibling).value;
            at <= |kb[p].children| && BlockPlaced(Splice(kb[p].children, at, block), block, position, sibling)
  {
    var ids, at, n := kb[p].children, InsertPosition(kb, p, position, sibling).value, |block|;
    var r := Splice(ids, at, block);
    match position
    case First => assert r[..n] == block;
    case Last => assert r[|r| - n..] == block;
    case BeforeSibling => StandsBefore(ids, at, block);
    case AfterSibling => StandsAfter(ids, at, block);
  }

  lemma StandsBefore(ids: seq<RemId>, at: nat, block: seq<RemId>)
    requires at < |ids|
    ensures StandsAt(Splice(ids, at, block), block, at)
    ensures at + |block| < |Splice(ids, at, block)| && Splice(ids, at, block)[at + |block|] == ids[at]
  {
  }

  lemma StandsAfter(ids: seq<RemId>, at: nat, block: seq<RemId>)
    requires 0 < at <= |ids|
    ensures StandsAt(Splice(ids, at, block), block, at) && Splice(ids, at, block)[at - 1] == ids[at - 1]
  {
  }

  method InsertChildren(
    store: Store, acceptWrites: bool, p: RemId, normalized: string, position: Position, sibling: Option<RemId>,
    tree: Tree)
    returns (r: Result<seq<RemId>, EditError>)
    requires Forest(store.rems)
    requires tree.Valid() && tree.added.Keys !! store.rems.Keys && p !in tree.added
    modifies store
    ensures r.Err? <==> !acceptWrites || InsertPosition(old(store.rems), p, position, sibling).Err?
    ensures r.Err? ==> store.rems == old(store.rems)
    ensures r.Err? ==>
      r.error == if !acceptWrites then NoWrites else InsertPosition(old(store.rems), p, position, sibling).error
    ensures r.Err? ==> InsertRefusedFor(old(store.rems), acceptWrites, p, position, sibling, r.error)
    ensures r.Ok? ==>
      acceptWrites && p in old(store.rems) && (sibling.Some? <==> position == BeforeSibling || position == AfterSibling)
    ensures r.Ok? && sibling.Some? ==> sibling.value in old(store.rems)[p].children
    ensures r.Ok? && Nothing(normalized, tree) ==> r.value == [] && store.rems == old(store.rems)
    ensures r.Ok? && !Nothing(normalized, tree) ==>
      && r.value == tree.order[1..]
      && Spliced(old(store.rems), store.rems, tree.added, tree.order[0], p,
                 InsertPosition(old(store.rems), p, position, sibling).value)
      && BlockPlaced(store.rems[p].children, tree.Top(), position, sibling)
    ensures Forest(tree.added) ==> Forest(store.rems)
  {
    if !acceptWrites { return Err(NoWrites); }
    ghost var kb := store.rems;
    if (position.BeforeSibling? || position.AfterSibling?) && sibling.None? { return Err(BadPlace(SiblingRequired)); }
    if (position.First? || position.Last?) && sibling.Some? { return Err(BadPlace(SiblingForbidden)); }
    if p !in store.rems { return Err(NoSuchParent); }
    var at := MovePosition(store.rems[p].children, position, sibling);
    if at.Err? { return Err(BadPlace(at.error)); }
    if normalized == "" { return Ok([]); }
    assert forall c :: c in kb[p].children ==> c in kb;
    var created := CreateRemsFromPreparedMarkdown(store, normalized, tree, p, Some(at.value));
    if !Nothing(normalized, tree) {
      assert tree.order[0] in tree.order;
      InsertPlacesBlock(kb, p, position, sibling, tree.Top());
      if Forest(tree.added) { SplicedIsForest(kb, store.rems, tree.added, tree.order[0], p, at.value); }
    }
    return Ok(created);
  }
}
