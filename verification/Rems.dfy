/** The knowledge base the bridge reads and edits: Rems with a parent link and an ordered list of children. */
module Rems {
  import opened Prelude

  type RemId = string

  datatype RemType = Document | DailyDocument | Concept | Descriptor | Portal | PlainText

  /**
   `detail` is "" for a Rem without one. `powerup` marks power-up properties, slots and enums; `attached`
   marks other metadata kept among the children: properties and aliases.
   */
  datatype Rem = Rem(
    parent: Option<RemId>, children: seq<RemId>, title: string, detail: string, remType: RemType,
    powerup: bool, attached: bool)

  type KnowledgeBase = map<RemId, Rem>

  function ParentOf(kb: KnowledgeBase, id: RemId): Option<RemId> {
    if id in kb && kb[id].parent.Some? && kb[id].parent.value in kb then kb[id].parent else None
  }

  function ChildrenOf(kb: KnowledgeBase, id: RemId): seq<RemId> { if id in kb then kb[id].children else [] }

  /** The Rem `n` parent links above `id`; `id` itself for 0. */
  function Above(kb: KnowledgeBase, id: RemId, n: nat): Option<RemId> {
    if n == 0 then Some(id)
    else match Above(kb, id, n - 1)
      case None => None
      case Some(a) => ParentOf(kb, a)
  }

  lemma {:induction false} AboveAdds(kb: KnowledgeBase, id: RemId, m: nat, n: nat)
    requires Above(kb, id, m).Some?
    ensures Above(kb, id, m + n) == Above(kb, Above(kb, id, m).value, n)
  {
    if n > 0 { AboveAdds(kb, id, m, n - 1); }
  }

  lemma {:induction false} AboveEnds(kb: KnowledgeBase, id: RemId, m: nat, n: nat)
    requires m <= n && Above(kb, id, m).None?
    ensures Above(kb, id, n).None?
  {
    if m < n { AboveEnds(kb, id, m, n - 1); }
  }

  /** Some proper ancestor of `id` is `ancestor`. On a cycle a Rem is not counted below itself. */
  ghost predicate Descends(kb: KnowledgeBase, id: RemId, ancestor: RemId) {
    id != ancestor && exists n: nat :: Above(kb, id, n) == Some(ancestor)
  }

  // ---- walks on any parent map ----

  lemma AboveIsKnown(kb: KnowledgeBase, id: RemId, n: nat)
    requires id in kb && Above(kb, id, n).Some?
    ensures Above(kb, id, n).value in kb
  {
  }

  /** The Rems on a walk that has not met one twice. */
  lemma {:induction false} Passed(kb: KnowledgeBase, id: RemId, n: nat) returns (passed: set<RemId>)
    requires id in kb && Above(kb, id, n).Some?
    requires forall i: nat, j: nat :: i < j <= n ==> Above(kb, id, i) != Above(kb, id, j)
    ensures passed <= kb.Keys && |passed| == n + 1
    ensures forall y :: y in passed ==> PassedWithin(kb, id, n, y)
  {
    AboveIsKnown(kb, id, n);
    var last := Above(kb, id, n).value;
    if n == 0 {
      passed := {last};
    } else {
      var before := Passed(kb, id, n - 1);
      assert last !in before;
      passed := before + {last};
    }
  }

  ghost predicate PassedWithin(kb: KnowledgeBase, id: RemId, n: nat, y: RemId) {
    exists i: nat :: i <= n && Above(kb, id, i) == Some(y)
  }

  /** A walk of as many steps as there are Rems has met one of them twice. */
  lemma WalkRepeats(kb: KnowledgeBase, id: RemId) returns (i: nat, j: nat)
    requires id in kb && Above(kb, id, |kb|).Some?
    ensures i < j <= |kb| && Above(kb, id, i) == Above(kb, id, j)
  {
    if forall i: nat, j: nat :: i < j <= |kb| ==> Above(kb, id, i) != Above(kb, id, j) {
      var passed := Passed(kb, id, |kb|);
      SubsetIsSmaller(passed, kb.Keys);
      assert false;
    }
    i, j :| i < j <= |kb| && Above(kb, id, i) == Above(kb, id, j);
  }

  /** Whatever a walk meets, it meets within as many steps as there are Rems. */
  lemma {:induction false} WalkShortens(kb: KnowledgeBase, id: RemId, n: nat) returns (m: nat)
    requires id in kb
    ensures m <= |kb| && Above(kb, id, m) == Above(kb, id, n)
    decreases n
  {
    if n <= |kb| {
      m := n;
    } else if Above(kb, id, |kb|).None? {
      AboveEnds(kb, id, |kb|, n);
      m := |kb|;
    } else {
      var i, j := WalkRepeats(kb, id);
      if Above(kb, id, j).None? { AboveEnds(kb, id, j, |kb|); }
      AboveAdds(kb, id, j, n - j);
      AboveAdds(kb, id, i, n - j);
      m := WalkShortens(kb, id, i + (n - j));
    }
  }

  ghost predicate MutualParents(kb: KnowledgeBase, a: RemId, b: RemId) {
    a in kb && b in kb && kb[a].parent == Some(b) && kb[b].parent == Some(a)
  }

  lemma {:induction false} AboveAlternates(kb: KnowledgeBase, a: RemId, b: RemId, n: nat)
    requires MutualParents(kb, a, b)
    ensures Above(kb, a, n) == Some(if n % 2 == 0 then a else b)
  {
    if n > 0 { AboveAlternates(kb, a, b, n - 1); }
  }
}
