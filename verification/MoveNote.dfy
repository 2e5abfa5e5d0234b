/** Moving a note: position, guards, the move, and the dry-run preview of the new ancestors. */
module MoveNote {
  import opened Prelude
  import opened Rems
  import opened RemEdits

  const MAX_ANCESTOR_DEPTH := 20

  datatype Position = First | Last | BeforeSibling | AfterSibling

  datatype MoveError =
    | WritesDisabled | BadAncestorDepth | NotFound | ParentNotFound | UnderItself | UnderDescendant
    | UnexpectedOldParent | SiblingRequired | SiblingForbidden | SiblingNotFound

  datatype MoveParams = MoveParams(
    remId: RemId, newParentRemId: RemId, position: Position, siblingRemId: Option<RemId>,
    expectedOldParentRemId: Option<RemId>, dryRun: bool, ancestorDepth: int)

  // ---- ancestors ----

  datatype AncestorInfo = AncestorInfo(remId: RemId, title: string, remType: RemType)

  datatype AncestorContext = AncestorContext(ancestors: seq<AncestorInfo>, truncated: bool)

  function Info(kb: KnowledgeBase, id: RemId): AncestorInfo
    requires id in kb
  {
    AncestorInfo(id, kb[id].title, kb[id].remType)
  }

  /** Up to `depth` Rems from `from` upwards, and whether more follow. */
  function Chain(kb: KnowledgeBase, from: Option<RemId>, depth: nat): AncestorContext
    requires from.Some? ==> from.value in kb
    decreases depth
  {
    if from.None? then AncestorContext([], false)
    else if depth == 0 then AncestorContext([], true)
    else
      var rest := Chain(kb, ParentOf(kb, from.value), depth - 1);
      AncestorContext([Info(kb, from.value)] + rest.ancestors, rest.truncated)
  }

  /** `getAncestors`: nothing is reported for a depth of zero or less. */
  function Ancestors(kb: KnowledgeBase, id: RemId, depth: int): AncestorContext {
    if depth <= 0 then AncestorContext([], false) else Chain(kb, ParentOf(kb, id), depth)
  }

  /** The Rems above, nearest first, down to the depth or to the top, and whether one more follows. */
  ghost predicate ListsAbove(kb: KnowledgeBase, id: RemId, depth: int, r: AncestorContext) {
    var n := |r.ancestors|;
    if depth <= 0 then n == 0 && !r.truncated
    else
      && n <= depth && (r.truncated ==> n == depth) && (r.truncated <==> Above(kb, id, n + 1).Some?)
      && forall i: nat :: i < n ==>
           && Above(kb, id, i + 1) == Some(r.ancestors[i].remId) && r.ancestors[i].remId in kb
           && r.ancestors[i].title == kb[r.ancestors[i].remId].title
           && r.ancestors[i].remType == kb[r.ancestors[i].remId].remType
  }

  lemma {:induction false} ChainListsAbove(kb: KnowledgeBase, from: RemId, depth: nat)
    requires from in kb && depth > 0
    ensures var r := Chain(kb, Some(from), depth);
      && 0 < |r.ancestors| <= depth && (r.truncated ==> |r.ancestors| == depth)
      && (r.truncated <==> Above(kb, from, |r.ancestors|).Some?)
      && forall i: nat :: i < |r.ancestors| ==>
           && Above(kb, from, i) == Some(r.ancestors[i].remId) && r.ancestors[i].remId in kb
           && r.ancestors[i] == Info(kb, r.ancestors[i].remId)
    decreases depth
  {
    var up, r := ParentOf(kb, from), Chain(kb, Some(from), depth);
    assert Above(kb, from, 0) == Some(from) && Above(kb, from, 1) == up;
    if up.Some? && depth > 1 {
      ChainListsAbove(kb, up.value, depth - 1);
      var rest := Chain(kb, up, depth - 1);
      forall i: nat | i <= |rest.ancestors| ensures Above(kb, from, i + 1) == Above(kb, up.value, i) {
        AboveAdds(kb, from, 1, i);
      }
      forall i: nat | 0 < i < |r.ancestors|
        ensures Above(kb, from, i) == Some(r.ancestors[i].remId) && r.ancestors[i].remId in kb
        ensures r.ancestors[i] == Info(kb, r.ancestors[i].remId)
      {
        assert Above(kb, from, (i - 1) + 1) == Above(kb, up.value, i - 1);
      }
    }
  }

  lemma AncestorsListAbove(kb: KnowledgeBase, id: RemId, depth: int)
    ensures ListsAbove(kb, id, depth, Ancestors(kb, id, depth))
  {
    var up, r := ParentOf(kb, id), Ancestors(kb, id, depth);
    assert Above(kb, id, 0) == Some(id) && Above(kb, id, 1) == up;
    if depth > 0 && up.Some? {
      ChainListsAbove(kb, up.value, depth);
      forall i: nat ensures Above(kb, id, i + 1) == Above(kb, up.value, i) { AboveAdds(kb, id, 1, i); }
    }
  }

  method GetAncestors(kb: KnowledgeBase, id: RemId, depth: int) returns (r: AncestorContext)
    ensures r == Ancestors(kb, id, depth) && ListsAbove(kb, id, depth, r)
  {
    AncestorsListAbove(kb, id, depth);
    if depth <= 0 { return AncestorContext([], false); }
    var ancestors: seq<AncestorInfo> := [];
    var parent := ParentOf(kb, id);
    while parent.Some? && |ancestors| < depth
      invariant |ancestors| <= depth && (parent.Some? ==> parent.value in kb)
      invariant var rest := Chain(kb, parent, depth - |ancestors|);
                Ancestors(kb, id, depth) == AncestorContext(ancestors + rest.ancestors, rest.truncated)
      decreases depth - |ancestors|
    {
      ancestors := ancestors + [Info(kb, parent.value)];
      parent := ParentOf(kb, parent.value);
    }
    r := AncestorContext(ancestors, parent.Some?);
  }

  /** The dry run's answer: the new parent in front of its own ancestors, cut to the depth. */
  function Preview(kb: KnowledgeBase, newParent: RemId, depth: int): AncestorContext
    requires newParent in kb
  {
    var above := Ancestors(kb, newParent, depth);
    if depth <= 0 then above
    else
      var all := [Info(kb, newParent)] + above.ancestors;
      AncestorContext(if |all| <= depth then all else all[..depth], above.truncated || |above.ancestors| >= depth)
  }

  lemma {:induction false} ChainPreviewed(kb: KnowledgeBase, from: RemId, depth: nat)
    requires from in kb && depth > 0
    ensures Preview(kb, from, depth) == Chain(kb, Some(from), depth)
  {
    ChainShorter(kb, ParentOf(kb, from), depth);
    var long, short := Chain(kb, ParentOf(kb, from), depth), Chain(kb, ParentOf(kb, from), depth - 1);
    var all := [Info(kb, from)] + long.ancestors;
    if |all| <= depth {
    } else {
      assert all[..depth] == [Info(kb, from)] + long.ancestors[..depth - 1];
    }
  }

  /** Asking for one level less drops the last level and truncates exactly when there was one. */
  lemma {:induction false} ChainShorter(kb: KnowledgeBase, from: Option<RemId>, depth: nat)
    requires (from.Some? ==> from.value in kb) && depth > 0
    ensures var long, short := Chain(kb, from, depth), Chain(kb, from, depth - 1);
      && |long.ancestors| <= depth
      && (long.truncated ==> |long.ancestors| == depth)
      && short.truncated == (long.truncated || |long.ancestors| >= depth)
      && short.ancestors == if |long.ancestors| < depth then long.ancestors else long.ancestors[..depth - 1]
    decreases depth
  {
    if from.Some? && depth > 1 {
      ChainShorter(kb, ParentOf(kb, from.value), depth - 1);
    }
  }

  lemma {:induction false} ChainUnaffected(
    kb: KnowledgeBase, n: KnowledgeBase, x: RemId, from: Option<RemId>, depth: nat)
    requires n.Keys == kb.Keys && (from.Some? ==> from.value in kb && NotAbove(kb, x, from.value))
    requires forall y :: y in kb ==> n[y].title == kb[y].title && n[y].remType == kb[y].remType
    requires forall y :: y in kb && y != x ==> n[y].parent == kb[y].parent
    ensures Chain(n, from, depth) == Chain(kb, from, depth)
    decreases depth
  {
    if from.Some? && depth > 0 {
      assert Above(kb, from.value, 0) == Some(from.value);
      var up := ParentOf(kb, from.value);
      if up.Some? {
        forall k: nat ensures Above(kb, up.value, k) != Some(x) {
          AboveAdds(kb, from.value, 1, k);
          assert Above(kb, from.value, 1) == up;
        }
      }
      ChainUnaffected(kb, n, x, up, depth - 1);
    }
  }

  /** The preview is exact: for every depth it is what the real move would report. */
  lemma PreviewIsExact(kb: KnowledgeBase, x: RemId, newParent: RemId, position: nat, depth: int)
    requires Forest(kb) && x in kb && newParent in kb && NotAbove(kb, x, newParent)
    ensures Preview(kb, newParent, depth) == Ancestors(SetParent(kb, x, newParent, Some(position)), x, depth)
  {
    var n := SetParent(kb, x, newParent, Some(position));
    MoveLinks(kb, x, newParent, Some(position));
    assert ParentOf(n, x) == Some(newParent);
    if depth > 0 {
      ChainPreviewed(kb, newParent, depth);
      ChainUnaffected(kb, n, x, Some(newParent), depth);
    }
  }

  /** A move changes one parent link and no title or type. */
  ghost predicate OneLinkMoved(kb: KnowledgeBase, n: KnowledgeBase, x: RemId, parent: RemId) {
    && n.Keys == kb.Keys && x in kb && n[x].parent == Some(parent)
    && (forall y :: y in kb && y != x ==> n[y].parent == kb[y].parent)
    && (forall y :: y in kb ==> n[y].title == kb[y].title && n[y].remType == kb[y].remType)
  }

  lemma MoveLinks(kb: KnowledgeBase, x: RemId, parent: RemId, position: Option<nat>)
    requires Forest(kb) && x in kb && parent in kb && NotAbove(kb, x, parent)
    ensures OneLinkMoved(kb, SetParent(kb, x, parent, position), x, parent)
  {
    assert x != parent by { assert Above(kb, parent, 0) == Some(parent); }
    NotOwnChild(kb, x);
    SetParentRelinks(kb, x, parent, position);
    RelinkMovesOneLink(kb, SetParent(kb, x, parent, position), x, parent, position);
  }

  lemma RelinkMovesOneLink(
    kb: KnowledgeBase, n: KnowledgeBase, x: RemId, parent: RemId, position: Option<nat>)
    requires x in kb && parent in kb && x != parent && Relinked(kb, n, x, parent, position)
    ensures OneLinkMoved(kb, n, x, parent)
  {
  }

  // ---- position ----

  /** The first place of `x` in the list, or its length. */
  function IndexOf(ids: seq<RemId>, x: RemId): (i: nat)
    ensures i <= |ids| && (i < |ids| <==> x in ids) && (i < |ids| ==> ids[i] == x)
  {
    if ids == [] || ids[0] == x then 0 else 1 + IndexOf(ids[1..], x)
  }

  /** The index among the other children at which the Rem is to be inserted. */
  function MovePosition(others: seq<RemId>, position: Position, sibling: Option<RemId>): Result<nat, MoveError> {
    if (position.BeforeSibling? || position.AfterSibling?) && sibling.None? then Err(SiblingRequired)
    else if (position.First? || position.Last?) && sibling.Some? then Err(SiblingForbidden)
    else match position
      case First => Ok(0)
      case Last => Ok(|others|)
      case BeforeSibling =>
        if sibling.value in others then Ok(IndexOf(others, sibling.value)) else Err(SiblingNotFound)
      case AfterSibling =>
        if sibling.value in others then Ok(IndexOf(others, sibling.value) + 1) else Err(SiblingNotFound)
  }

  /** What the caller asked for: first, last, or next to the sibling on the given side. */
  ghost predicate Placed(children: seq<RemId>, x: RemId, position: Position, sibling: Option<RemId>) {
    match position
    case First => children != [] && children[0] == x
    case Last => children != [] && children[|children| - 1] == x
    case BeforeSibling =>
      sibling.Some? && exists i :: 0 <= i < |children| - 1 && children[i] == x && children[i + 1] == sibling.value
    case AfterSibling =>
      sibling.Some? && exists i :: 0 < i < |children| && children[i] == x && children[i - 1] == sibling.value
  }

  lemma PositionPlaces(others: seq<RemId>, x: RemId, position: Position, sibling: Option<RemId>)
    requires MovePosition(others, position, sibling).Ok?
    ensures var at := MovePosition(others, position, sibling).value;
            at <= |others| && Placed(InsertAt(others, at, x), x, position, sibling)
  {
    var at := MovePosition(others, position, sibling).value;
    var r := InsertAt(others, at, x);
    assert r[at] == x;
    if position.BeforeSibling? {
      assert r[at + 1] == others[at];
    } else if position.AfterSibling? {
      assert r[at - 1] == others[at - 1];
    }
  }

  // ---- the operation ----

  /** Why a move is refused, in the order the checks are made. */
  ghost function Refusal(kb: KnowledgeBase, acceptWrites: bool, p: MoveParams): Option<MoveError> {
    if !acceptWrites then Some(WritesDisabled)
    else if p.ancestorDepth < 0 || p.ancestorDepth > MAX_ANCESTOR_DEPTH then Some(BadAncestorDepth)
    else if p.remId !in kb then Some(NotFound)
    else if p.newParentRemId !in kb then Some(ParentNotFound)
    else if p.remId == p.newParentRemId then Some(UnderItself)
    else if !NotAbove(kb, p.remId, p.newParentRemId) then Some(UnderDescendant)
    else if p.expectedOldParentRemId.Some? && ParentOf(kb, p.remId) != p.expectedOldParentRemId then
      Some(UnexpectedOldParent)
    else match MovePosition(Without(kb[p.newParentRemId].children, p.remId), p.position, p.siblingRemId)
      case Err(e) => Some(e)
      case Ok(_) => None
  }

  /** The place asked for exists: a sibling is named exactly where one is needed, and it is another child there. */
  ghost predicate PlaceExists(kb: KnowledgeBase, p: MoveParams)
    requires p.newParentRemId in kb
  {
    if p.position.First? || p.position.Last? then p.siblingRemId.None?
    else
      p.siblingRemId.Some? && p.siblingRemId.value in kb[p.newParentRemId].children && p.siblingRemId.value != p.remId
  }

  /** Writing is allowed, both Rems exist, the move is not below itself, and the caller's expectations hold. */
  ghost predicate MayMove(kb: KnowledgeBase, acceptWrites: bool, p: MoveParams) {
    && acceptWrites && 0 <= p.ancestorDepth <= 20 && p.remId in kb && p.newParentRemId in kb
    && (forall n: nat :: Above(kb, p.newParentRemId, n) != Some(p.remId))
    && (p.expectedOldParentRemId.Some? ==> ParentOf(kb, p.remId) == p.expectedOldParentRemId)
    && PlaceExists(kb, p)
  }

  /** What the error says is so. */
  ghost predicate Explains(kb: KnowledgeBase, acceptWrites: bool, p: MoveParams, e: MoveError) {
    match e
    case WritesDisabled => !acceptWrites
    case BadAncestorDepth => p.ancestorDepth < 0 || p.ancestorDepth > 20
    case NotFound => p.remId !in kb
    case ParentNotFound => p.newParentRemId !in kb
    case UnderItself => p.remId == p.newParentRemId
    case UnderDescendant =>
      p.remId != p.newParentRemId && exists n: nat :: Above(kb, p.newParentRemId, n) == Some(p.remId)
    case UnexpectedOldParent => p.expectedOldParentRemId.Some? && ParentOf(kb, p.remId) != p.expectedOldParentRemId
    case SiblingRequired => (p.position.BeforeSibling? || p.position.AfterSibling?) && p.siblingRemId.None?
    case SiblingForbidden => (p.position.First? || p.position.Last?) && p.siblingRemId.Some?
    case SiblingNotFound =>
      p.siblingRemId.Some? && !(p.newParentRemId in kb && p.siblingRemId.value in kb[p.newParentRemId].children
                                && p.siblingRemId.value != p.remId)
  }

  const CHECKS: seq<MoveError> :=
    [WritesDisabled, BadAncestorDepth, NotFound, ParentNotFound, UnderItself, UnderDescendant, UnexpectedOldParent,
     SiblingRequired, SiblingForbidden, SiblingNotFound]

  /** The error is the first of these that applies. */
  ghost predicate FirstToApply(kb: KnowledgeBase, acceptWrites: bool, p: MoveParams, e: MoveError) {
    exists i :: 0 <= i < |CHECKS| && CHECKS[i] == e && Explains(kb, acceptWrites, p, e)
                && forall j :: 0 <= j < i ==> !Explains(kb, acceptWrites, p, CHECKS[j])
  }

  lemma IsChecked(e: MoveError) returns (i: nat)
    ensures i < |CHECKS| && CHECKS[i] == e
  {
    i := match e
      case WritesDisabled => 0
      case BadAncestorDepth => 1
      case NotFound => 2
      case ParentNotFound => 3
      case UnderItself => 4
      case UnderDescendant => 5
      case UnexpectedOldParent => 6
      case SiblingRequired => 7
      case SiblingForbidden => 8
      case SiblingNotFound => 9;
  }

  lemma RefusedIff(kb: KnowledgeBase, acceptWrites: bool, p: MoveParams)
    ensures Refusal(kb, acceptWrites, p).None? <==> MayMove(kb, acceptWrites, p)
    ensures Refusal(kb, acceptWrites, p).Some? ==>
      FirstToApply(kb, acceptWrites, p, Refusal(kb, acceptWrites, p).value)
  {
    assert Above(kb, p.newParentRemId, 0) == Some(p.newParentRemId);
    if Refusal(kb, acceptWrites, p).Some? { RefusalIsFirst(kb, acceptWrites, p); }
  }

  lemma RefusalIsFirst(kb: KnowledgeBase, acceptWrites: bool, p: MoveParams)
    requires Refusal(kb, acceptWrites, p).Some?
    ensures FirstToApply(kb, acceptWrites, p, Refusal(kb, acceptWrites, p).value)
  {
    var e := Refusal(kb, acceptWrites, p).value;
    var i := IsChecked(e);
    RefusalExplained(kb, acceptWrites, p);
    forall j | 0 <= j < i ensures !Explains(kb, acceptWrites, p, CHECKS[j]) {
      EarlierPassed(kb, acceptWrites, p, j);
    }
  }

  lemma RefusalExplained(kb: KnowledgeBase, acceptWrites: bool, p: MoveParams)
    requires Refusal(kb, acceptWrites, p).Some?
    ensures Explains(kb, acceptWrites, p, Refusal(kb, acceptWrites, p).value)
  {
  }

  lemma EarlierPassed(kb: KnowledgeBase, acceptWrites: bool, p: MoveParams, j: nat)
    requires Refusal(kb, acceptWrites, p).Some? && j < |CHECKS|
    requires exists i :: j < i < |CHECKS| && CHECKS[i] == Refusal(kb, acceptWrites, p).value
    ensures !Explains(kb, acceptWrites, p, CHECKS[j])
  {
    assert Above(kb, p.newParentRemId, 0) == Some(p.newParentRemId);
  }

  ghost function Moved(kb: KnowledgeBase, p: MoveParams): KnowledgeBase
    requires p.remId in kb && p.newParentRemId in kb
    requires MovePosition(Without(kb[p.newParentRemId].children, p.remId), p.position, p.siblingRemId).Ok?
  {
    var at := MovePosition(Without(kb[p.newParentRemId].children, p.remId), p.position, p.siblingRemId).value;
    SetParent(kb, p.remId, p.newParentRemId, Some(at))
  }

  datatype MoveReport = MoveReport(
    oldParentRemId: Option<RemId>, ancestorsBefore: AncestorContext, ancestorsAfter: AncestorContext)

  /** Where the walk up from the new parent stops: at the end of the chain, or at the Rem to be moved. */
  ghost predicate StopsAt(kb: KnowledgeBase, x: RemId, newParent: RemId, n: nat) {
    Above(kb, newParent, n).None? || Above(kb, newParent, n) == Some(x)
  }

  ghost predicate WalkStops(kb: KnowledgeBase, x: RemId, newParent: RemId) {
    exists n: nat :: StopsAt(kb, x, newParent, n)
  }

  /** The condition can be checked: a walk that stops does so within as many steps as there are Rems. */
  lemma WalkStopsIff(kb: KnowledgeBase, x: RemId, newParent: RemId)
    requires newParent in kb
    ensures WalkStops(kb, x, newParent) <==> exists n: nat :: n <= |kb| && StopsAt(kb, x, newParent, n)
  {
    if WalkStops(kb, x, newParent) {
      var n: nat :| StopsAt(kb, x, newParent, n);
      var m := WalkShortens(kb, newParent, n);
      assert StopsAt(kb, x, newParent, m);
    }
  }

  /** Two Rems that are each other's parents: the walk for a third one never stops. */
  lemma TwoRemsLoop(kb: KnowledgeBase, x: RemId, a: RemId, b: RemId)
    requires MutualParents(kb, a, b) && x != a && x != b
    ensures !WalkStops(kb, x, a)
  {
    forall n: nat ensures !StopsAt(kb, x, a, n) { AboveAlternates(kb, a, b, n); }
  }

  /** The walk up from the new parent, on any knowledge base on which it stops. */
  method AssertNotMovingUnderDescendant(kb: KnowledgeBase, x: RemId, newParent: RemId)
    returns (error: Option<MoveError>)
    requires newParent in kb && WalkStops(kb, x, newParent)
    ensures error == if x == newParent then Some(UnderItself)
                     else if NotAbove(kb, x, newParent) then None else Some(UnderDescendant)
  {
    if x == newParent { return Some(UnderItself); }
    var current: Option<RemId> := Some(newParent);
    ghost var height: nat :| StopsAt(kb, x, newParent, height);
    ghost var k: nat := 0;
    while current.Some?
      invariant current == Above(kb, newParent, k) && (k > height ==> current.None?)
      invariant forall j: nat :: j < k ==> Above(kb, newParent, j) != Some(x)
      decreases height - k
    {
      if current.value == x { return Some(UnderDescendant); }
      current := ParentOf(kb, current.value);
      k := k + 1;
    }
    forall j: nat ensures Above(kb, newParent, j) != Some(x) {
      if j >= k { AboveEnds(kb, newParent, k, j); }
    }
    error := None;
  }

  /**
   A refused move or a dry run changes nothing. Either way a successful call reports the ancestors the Rem
   has, or would have, after the move; the moved knowledge base is again a forest.
   */
  method MoveNote(store: Store, acceptWrites: bool, p: MoveParams) returns (r: Result<MoveReport, MoveError>)
    requires Forest(store.rems)
    modifies store
    ensures Forest(store.rems)
    ensures r.Err? <==> Refusal(old(store.rems), acceptWrites, p).Some?
    ensures r.Err? ==> r.error == Refusal(old(store.rems), acceptWrites, p).value && store.rems == old(store.rems)
    ensures r.Ok? <==> MayMove(old(store.rems), acceptWrites, p)
    ensures r.Err? ==> FirstToApply(old(store.rems), acceptWrites, p, r.error)
    ensures r.Ok? && p.dryRun ==> store.rems == old(store.rems)
    ensures r.Ok? && !p.dryRun ==> store.rems == Moved(old(store.rems), p)
    ensures r.Ok? ==>
      && r.value.oldParentRemId == ParentOf(old(store.rems), p.remId)
      && r.value.ancestorsBefore == Ancestors(old(store.rems), p.remId, p.ancestorDepth)
      && r.value.ancestorsAfter == Ancestors(Moved(old(store.rems), p), p.remId, p.ancestorDepth)
  {
    var kb := store.rems;
    RefusedIff(kb, acceptWrites, p);
    if !acceptWrites { return Err(WritesDisabled); }
    if p.ancestorDepth < 0 || p.ancestorDepth > MAX_ANCESTOR_DEPTH { return Err(BadAncestorDepth); }
    if p.remId !in kb { return Err(NotFound); }
    if p.newParentRemId !in kb { return Err(ParentNotFound); }
    ghost var top: nat :| Above(kb, p.newParentRemId, top).None?;
    assert StopsAt(kb, p.remId, p.newParentRemId, top);
    var blocked := AssertNotMovingUnderDescendant(kb, p.remId, p.newParentRemId);
    if blocked.Some? { return Err(blocked.value); }
    var oldParent := ParentOf(kb, p.remId);
    if p.expectedOldParentRemId.Some? && oldParent != p.expectedOldParentRemId {
      return Err(UnexpectedOldParent);
    }
    var others := Without(kb[p.newParentRemId].children, p.remId);
    var at := MovePosition(others, p.position, p.siblingRemId);
    if at.Err? { return Err(at.error); }
    var before := GetAncestors(kb, p.remId, p.ancestorDepth);
    SetParentKeepsForest(kb, p.remId, p.newParentRemId, Some(at.value));
    PreviewIsExact(kb, p.remId, p.newParentRemId, at.value, p.ancestorDepth);
    if !p.dryRun {
      store.SetRemParent(p.remId, p.newParentRemId, Some(at.value));
      var after := GetAncestors(store.rems, p.remId, p.ancestorDepth);
      return Ok(MoveReport(oldParent, before, after));
    }
    var above := GetAncestors(kb, p.newParentRemId, p.ancestorDepth);
    if p.ancestorDepth <= 0 { return Ok(MoveReport(oldParent, before, above)); }
    var all := [Info(kb, p.newParentRemId)] + above.ancestors;
    var preview := AncestorContext(
      if |all| <= p.ancestorDepth then all else all[..p.ancestorDepth],
      above.truncated || |above.ancestors| >= p.ancestorDepth);
    return Ok(MoveReport(oldParent, before, preview));
  }

  /** What a real move does: same Rems, the moved one where it was asked for, every other order and Rem kept. */
  lemma MoveEffect(kb: KnowledgeBase, acceptWrites: bool, p: MoveParams)
    requires Forest(kb) && Refusal(kb, acceptWrites, p).None?
    ensures var n, x, q := Moved(kb, p), p.remId, p.newParentRemId;
      && n.Keys == kb.Keys
      && n[x] == kb[x].(parent := Some(q))
      && Without(n[q].children, x) == Without(kb[q].children, x)
      && Placed(n[q].children, x, p.position, p.siblingRemId)
      && n[q] == kb[q].(children := n[q].children)
      && (forall y :: y in kb && y != x && y != q ==> n[y] == kb[y].(children := Without(kb[y].children, x)))
  {
    var x, q := p.remId, p.newParentRemId;
    var others := Without(kb[q].children, x);
    var at := MovePosition(others, p.position, p.siblingRemId).value;
    NotOwnChild(kb, x);
    SetParentRelinks(kb, x, q, Some(at));
    PositionPlaces(others, x, p.position, p.siblingRemId);
    WithoutInserted(others, at, x);
  }

  lemma WithoutInserted(ids: seq<RemId>, i: nat, x: RemId)
    requires x !in ids && i <= |ids|
    ensures Without(InsertAt(ids, i, x), x) == ids
  {
    WithoutOne(ids[..i], ids[i..], x);
    assert ids[..i] + ids[i..] == ids;
  }
}
