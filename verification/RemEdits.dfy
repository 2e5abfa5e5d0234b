/** The edits the plugin SDK offers on the knowledge base, and the forest they work on. */
module RemEdits {
  import opened Prelude
  import opened Rems

  function Without(ids: seq<RemId>, x: RemId): (r: seq<RemId>)
    ensures x !in r && forall y :: y in r <==> y in ids && y != x
    ensures |r| <= |ids|
  {
    if ids == [] then []
    else if ids[0] == x then Without(ids[1..], x)
    else [ids[0]] + Without(ids[1..], x)
  }

  /** JavaScript `splice`: an index past the end means the end. */
  function InsertAt(ids: seq<RemId>, i: nat, x: RemId): seq<RemId> {
    ids[..Min(i, |ids|)] + [x] + ids[Min(i, |ids|)..]
  }

  /** Leave the old parent's list. */
  function Unlinked(kb: KnowledgeBase, x: RemId): KnowledgeBase
    requires x in kb
  {
    match ParentOf(kb, x)
    case None => kb
    case Some(o) => kb[o := kb[o].(children := Without(kb[o].children, x))]
  }

  /** `setParent`: leave the old parent, then enter the new parent's list at the index, or last. */
  function SetParent(kb: KnowledgeBase, x: RemId, parent: RemId, position: Option<nat>): KnowledgeBase
    requires x in kb && parent in kb
  {
    var u := Unlinked(kb, x);
    var v := u[x := u[x].(parent := Some(parent))];
    var others := Without(v[parent].children, x);
    var at := if position.Some? then position.value else |others|;
    v[parent := v[parent].(children := InsertAt(others, at, x))]
  }

  /** `remove`: leave the parent's list and keep nothing. */
  function Removed(kb: KnowledgeBase, x: RemId): KnowledgeBase
    requires x in kb
  {
    var u := Unlinked(kb, x);
    u[x := u[x].(parent := None, children := [])]
  }

  /** `createTreeWithMarkdown`: new Rems, their root last under the parent when there is one. */
  function Created(kb: KnowledgeBase, added: KnowledgeBase, root: RemId, parent: RemId): KnowledgeBase
    requires root in added && added.Keys !! kb.Keys
  {
    if parent in kb then
      var all := kb + added[root := added[root].(parent := Some(parent))];
      all[parent := all[parent].(children := all[parent].children + [root])]
    else kb + added
  }

  class Store {
    var rems: KnowledgeBase

    constructor (kb: KnowledgeBase)
      ensures rems == kb
    {
      rems := kb;
    }

    method Unlink(x: RemId)
      requires x in rems
      modifies this
      ensures rems == Unlinked(old(rems), x)
    {
      var o := ParentOf(rems, x);
      if o.Some? {
        rems := rems[o.value := rems[o.value].(children := Without(rems[o.value].children, x))];
      }
    }

    method SetRemParent(x: RemId, parent: RemId, position: Option<nat>)
      requires x in rems && parent in rems
      modifies this
      ensures rems == SetParent(old(rems), x, parent, position)
    {
      Unlink(x);
      rems := rems[x := rems[x].(parent := Some(parent))];
      var others := Without(rems[parent].children, x);
      var at := if position.Some? then position.value else |others|;
      rems := rems[parent := rems[parent].(children := InsertAt(others, at, x))];
    }

    method RemoveRem(x: RemId)
      requires x in rems
      modifies this
      ensures rems == Removed(old(rems), x)
    {
      Unlink(x);
      rems := rems[x := rems[x].(parent := None, children := [])];
    }

    method CreateTree(added: KnowledgeBase, root: RemId, parent: RemId)
      requires root in added && added.Keys !! rems.Keys
      modifies this
      ensures rems == Created(old(rems), added, root, parent)
    {
      if parent in rems {
        rems := rems + added[root := added[root].(parent := Some(parent))];
        rems := rems[parent := rems[parent].(children := rems[parent].children + [root])];
      } else {
        rems := rems + added;
      }
    }
  }

  // ---- the forest ----

  ghost predicate NoRepeats(ids: seq<RemId>) { forall i, j :: 0 <= i < j < |ids| ==> ids[i] != ids[j] }

  /** Parent links and child lists tell the same story. */
  ghost predicate Consistent(kb: KnowledgeBase) {
    && (forall p :: p in kb ==> NoRepeats(kb[p].children))
    && (forall p, c :: p in kb && c in kb[p].children ==> c in kb && kb[c].parent == Some(p))
    && (forall c :: c in kb && kb[c].parent.Some? ==> kb[c].parent.value in kb && c in kb[kb[c].parent.value].children)
  }

  ghost predicate Rooted(kb: KnowledgeBase, id: RemId) { exists n: nat :: Above(kb, id, n).None? }

  ghost predicate Forest(kb: KnowledgeBase) { Consistent(kb) && forall x :: x in kb ==> Rooted(kb, x) }

  ghost predicate NotAbove(kb: KnowledgeBase, x: RemId, from: RemId) {
    forall n: nat :: Above(kb, from, n) != Some(x)
  }

  lemma {:induction false} WithoutFacts(ids: seq<RemId>, x: RemId)
    ensures NoRepeats(ids) ==> NoRepeats(Without(ids, x))
    ensures x !in ids ==> Without(ids, x) == ids
  {
    if ids != [] {
      WithoutFacts(ids[1..], x);
      if x !in ids { assert ids == [ids[0]] + ids[1..]; }
      var r := Without(ids[1..], x);
      if NoRepeats(ids) {
        assert NoRepeats(ids[1..]);
        assert forall i :: 0 <= i < |r| ==> r[i] in ids[1..];
      }
    }
  }

  lemma {:induction false} WithoutOne(a: seq<RemId>, b: seq<RemId>, x: RemId)
    requires x !in a && x !in b
    ensures Without(a + [x] + b, x) == a + b
  {
    if a == [] {
      WithoutFacts(b, x);
      assert ([x] + b)[1..] == b;
      assert a + [x] + b == [x] + b && a + b == b;
    } else {
      WithoutOne(a[1..], b, x);
      assert (a + [x] + b)[1..] == a[1..] + [x] + b;
      assert a + b == [a[0]] + (a[1..] + b);
    }
  }

  lemma InsertAtFacts(ids: seq<RemId>, i: nat, x: RemId)
    requires NoRepeats(ids) && x !in ids
    ensures NoRepeats(InsertAt(ids, i, x))
    ensures forall y :: y in InsertAt(ids, i, x) <==> y == x || y in ids
  {
    var r, k := InsertAt(ids, i, x), Min(i, |ids|);
    assert r[k] == x;
    assert forall j :: 0 <= j < |ids| ==> ids[j] == r[if j < k then j else j + 1];
  }

  /** Leaving the old parent takes the Rem out of every list. */
  lemma UnlinkedChanges(kb: KnowledgeBase, x: RemId)
    requires Consistent(kb) && x in kb
    ensures Unlinked(kb, x).Keys == kb.Keys
    ensures forall y :: y in kb ==> Unlinked(kb, x)[y] == kb[y].(children := Without(kb[y].children, x))
  {
    forall y | y in kb ensures Unlinked(kb, x)[y] == kb[y].(children := Without(kb[y].children, x)) {
      if kb[x].parent != Some(y) {
        WithoutFacts(kb[y].children, x);
      }
    }
  }

  /** The record of one Rem after a move. */
  ghost function RecordAfter(kb: KnowledgeBase, x: RemId, parent: RemId, position: Option<nat>, y: RemId): Rem
    requires x in kb && parent in kb && y in kb
  {
    var others := Without(kb[y].children, x);
    if y == x then kb[x].(parent := Some(parent))
    else if y == parent then
      kb[y].(children := InsertAt(others, if position.Some? then position.value else |others|, x))
    else kb[y].(children := others)
  }

  lemma RecordIsAfter(kb: KnowledgeBase, x: RemId, parent: RemId, position: Option<nat>, y: RemId)
    requires Consistent(kb) && x in kb && parent in kb && x != parent && x !in kb[x].children && y in kb
    ensures y in SetParent(kb, x, parent, position)
    ensures SetParent(kb, x, parent, position)[y] == RecordAfter(kb, x, parent, position, y)
  {
    UnlinkedChanges(kb, x);
    WithoutFacts(kb[y].children, x);
    if y == parent {
      WithoutFacts(Without(kb[y].children, x), x);
    }
  }

  /** The Rem is in its new parent's list and in no other; nothing else changed. */
  ghost predicate Relinked(
    kb: KnowledgeBase, n: KnowledgeBase, x: RemId, parent: RemId, position: Option<nat>)
    requires x in kb && parent in kb
  {
    n.Keys == kb.Keys && forall y :: y in kb ==> n[y] == RecordAfter(kb, x, parent, position, y)
  }

  lemma SetParentRelinks(kb: KnowledgeBase, x: RemId, parent: RemId, position: Option<nat>)
    requires Consistent(kb) && x in kb && parent in kb && x != parent && x !in kb[x].children
    ensures Relinked(kb, SetParent(kb, x, parent, position), x, parent, position)
  {
    forall y | y in kb
      ensures y in SetParent(kb, x, parent, position)
      ensures SetParent(kb, x, parent, position)[y] == RecordAfter(kb, x, parent, position, y)
    {
      RecordIsAfter(kb, x, parent, position, y);
    }
    KeysKept(kb, x, parent, position);
  }

  lemma KeysKept(kb: KnowledgeBase, x: RemId, parent: RemId, position: Option<nat>)
    requires x in kb && parent in kb
    ensures SetParent(kb, x, parent, position).Keys == kb.Keys
  {
    assert Unlinked(kb, x).Keys == kb.Keys;
  }

  lemma RelinkedIsConsistent(
    kb: KnowledgeBase, n: KnowledgeBase, x: RemId, parent: RemId, position: Option<nat>)
    requires Consistent(kb) && x in kb && parent in kb && x != parent && x !in kb[x].children
    requires Relinked(kb, n, x, parent, position)
    ensures Consistent(n)
  {
    forall y | y in n
      ensures NoRepeats(n[y].children)
      ensures forall c :: c in n[y].children <==> (c == x && y == parent) || (c != x && c in kb[y].children)
    {
      WithoutFacts(kb[y].children, x);
      if y == parent {
        var others := Without(kb[parent].children, x);
        InsertAtFacts(others, if position.Some? then position.value else |others|, x);
      } else if y == x {
        assert n[y].children == kb[y].children;
      }
    }
    forall y | y in kb && y != x ensures n[y].parent == kb[y].parent {}
    InStep(kb, n, x, parent);
  }

  /** Re-linking one Rem in both directions keeps lists and links in step. */
  lemma InStep(kb: KnowledgeBase, n: KnowledgeBase, x: RemId, parent: RemId)
    requires Consistent(kb) && n.Keys == kb.Keys && x in kb && parent in kb
    requires n[x].parent == Some(parent) && forall y :: y in kb && y != x ==> n[y].parent == kb[y].parent
    requires forall y :: y in n ==> NoRepeats(n[y].children)
    requires forall y, c :: y in n ==>
               (c in n[y].children <==> (c == x && y == parent) || (c != x && c in kb[y].children))
    ensures Consistent(n)
  {
    ListsInStep(kb, n, x, parent);
    ParentsInStep(kb, n, x, parent);
  }

  lemma ListsInStep(kb: KnowledgeBase, n: KnowledgeBase, x: RemId, parent: RemId)
    requires Consistent(kb) && n.Keys == kb.Keys && x in kb && parent in kb
    requires n[x].parent == Some(parent) && forall y :: y in kb && y != x ==> n[y].parent == kb[y].parent
    requires forall y, c :: y in n ==>
               (c in n[y].children <==> (c == x && y == parent) || (c != x && c in kb[y].children))
    ensures forall p, c :: p in n && c in n[p].children ==> c in n && n[c].parent == Some(p)
  {
    forall p, c | p in n && c in n[p].children ensures c in n && n[c].parent == Some(p) {
      assert c != x ==> c in kb[p].children;
    }
  }

  lemma ParentsInStep(kb: KnowledgeBase, n: KnowledgeBase, x: RemId, parent: RemId)
    requires Consistent(kb) && n.Keys == kb.Keys && x in kb && parent in kb
    requires n[x].parent == Some(parent) && forall y :: y in kb && y != x ==> n[y].parent == kb[y].parent
    requires forall y, c :: y in n ==>
               (c in n[y].children <==> (c == x && y == parent) || (c != x && c in kb[y].children))
    ensures forall c :: c in n && n[c].parent.Some? ==>
              n[c].parent.value in n && c in n[n[c].parent.value].children
  {
    forall c | c in n && n[c].parent.Some?
      ensures n[c].parent.value in n && c in n[n[c].parent.value].children
    {
      assert c != x ==> c in kb[n[c].parent.value].children;
    }
  }

  /** The chain above a Rem that is not below `x` does not notice `x` moving. */
  lemma {:induction false} ChainUnmoved(kb: KnowledgeBase, n: KnowledgeBase, x: RemId, from: RemId, k: nat)
    requires n.Keys == kb.Keys && from in kb && NotAbove(kb, x, from)
    requires forall y :: y in kb && y != x ==> n[y].parent == kb[y].parent
    ensures Above(n, from, k) == Above(kb, from, k)
    ensures Above(kb, from, k).Some? ==> Above(kb, from, k).value in kb
  {
    if k > 0 {
      ChainUnmoved(kb, n, x, from, k - 1);
      assert Above(kb, from, k - 1) != Some(x);
    }
  }

  lemma {:induction false} StillRooted(
    kb: KnowledgeBase, n: KnowledgeBase, x: RemId, parent: RemId, y: RemId, k: nat)
    requires n.Keys == kb.Keys && x in kb && parent in kb && y in kb && Above(kb, y, k).None?
    requires NotAbove(kb, x, parent) && Rooted(kb, parent) && n[x].parent == Some(parent)
    requires forall z :: z in kb && z != x ==> n[z].parent == kb[z].parent
    ensures Rooted(n, y)
    decreases k
  {
    if y == x {
      var m: nat :| Above(kb, parent, m).None?;
      ChainUnmoved(kb, n, x, parent, m);
      RootedBelow(n, x, parent, m);
    } else {
      assert ParentOf(n, y) == ParentOf(kb, y);
      match ParentOf(kb, y)
      case None => assert Above(n, y, 1).None? by { assert Above(n, y, 0) == Some(y); }
      case Some(a) =>
        assert Above(kb, y, 1) == Some(a) by { assert Above(kb, y, 0) == Some(y); }
        AboveAdds(kb, y, 1, k - 1);
        StillRooted(kb, n, x, parent, a, k - 1);
        var m: nat :| Above(n, a, m).None?;
        RootedBelow(n, y, a, m);
    }
  }

  lemma RootedBelow(kb: KnowledgeBase, y: RemId, parent: RemId, m: nat)
    requires ParentOf(kb, y) == Some(parent) && Above(kb, parent, m).None?
    ensures Rooted(kb, y)
  {
    assert Above(kb, y, 1) == Some(parent) by { assert Above(kb, y, 0) == Some(y); }
    AboveAdds(kb, y, 1, m);
  }

  /** Moving a Rem anywhere but below itself keeps the forest. */
  lemma SetParentKeepsForest(kb: KnowledgeBase, x: RemId, parent: RemId, position: Option<nat>)
    requires Forest(kb) && x in kb && parent in kb && NotAbove(kb, x, parent)
    ensures Forest(SetParent(kb, x, parent, position))
  {
    var n := SetParent(kb, x, parent, position);
    assert x != parent by { assert Above(kb, parent, 0) == Some(parent); }
    NotOwnChild(kb, x);
    SetParentRelinks(kb, x, parent, position);
    RelinkedIsConsistent(kb, n, x, parent, position);
    RelinkedIsRooted(kb, n, x, parent, position);
  }

  lemma RelinkedIsRooted(kb: KnowledgeBase, n: KnowledgeBase, x: RemId, parent: RemId, position: Option<nat>)
    requires Forest(kb) && x in kb && parent in kb && NotAbove(kb, x, parent)
    requires Relinked(kb, n, x, parent, position)
    ensures forall y :: y in n ==> Rooted(n, y)
  {
    forall y | y in n ensures Rooted(n, y) {
      var k: nat :| Above(kb, y, k).None?;
      StillRooted(kb, n, x, parent, y, k);
    }
  }

  lemma NotOwnChild(kb: KnowledgeBase, x: RemId)
    requires Forest(kb) && x in kb
    ensures x !in kb[x].children
  {
    if x in kb[x].children {
      var k: nat :| Above(kb, x, k).None?;
      SelfLoop(kb, x, k);
    }
  }

  lemma {:induction false} SelfLoop(kb: KnowledgeBase, x: RemId, k: nat)
    requires ParentOf(kb, x) == Some(x)
    ensures Above(kb, x, k) == Some(x)
  {
    if k > 0 { SelfLoop(kb, x, k - 1); }
  }
}
