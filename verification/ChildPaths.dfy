/** The Rems below a Rem, addressed by child positions: one path for each way down. */
module ChildPaths {
  import opened Prelude
  import opened Rems

  /** A path gives the position of a child, then the position of a child of that child, and so on. */
  type Path = seq<nat>

  /** The Rem at the end of the path, if every position on the way exists. */
  function At(kb: KnowledgeBase, id: RemId, p: Path): Option<RemId>
    decreases |p|
  {
    if p == [] then Some(id)
    else if p[0] < |ChildrenOf(kb, id)| then At(kb, ChildrenOf(kb, id)[p[0]], p[1..]) else None
  }

  /** Which positions of which Rem count as steps. */
  type Steps = (RemId, nat) -> bool

  /** From 1 to `depth` steps, each to an existing child position that counts. */
  ghost predicate IsPath(kb: KnowledgeBase, counts: Steps, id: RemId, depth: int, p: Path)
    decreases |p|
  {
    && p != [] && depth > 0 && p[0] < |ChildrenOf(kb, id)| && counts(id, p[0])
    && (|p| == 1 || IsPath(kb, counts, ChildrenOf(kb, id)[p[0]], depth - 1, p[1..]))
  }

  /** Lexicographic order: a Rem comes before everything below it, and that before its next sibling. */
  ghost predicate Before(p: Path, q: Path)
    decreases |p|
  {
    q != [] && (p == [] || p[0] < q[0] || (p[0] == q[0] && Before(p[1..], q[1..])))
  }

  ghost predicate Ascending(paths: seq<Path>) { forall k, l :: 0 <= k < l < |paths| ==> Before(paths[k], paths[l]) }

  /** Exactly the paths, in lexicographic order. */
  ghost predicate Lists(kb: KnowledgeBase, counts: Steps, id: RemId, depth: int, paths: seq<Path>) {
    Ascending(paths) && forall p :: p in paths <==> IsPath(kb, counts, id, depth, p)
  }

  // ---- listing them ----

  /** The positions of a Rem that count, in ascending order. */
  type Positions = RemId -> seq<nat>

  ghost predicate Gives(kb: KnowledgeBase, counts: Steps, positions: Positions) {
    forall id ::
      && (forall k, l :: 0 <= k < l < |positions(id)| ==> positions(id)[k] < positions(id)[l])
      && (forall i: nat :: i in positions(id) <==> i < |ChildrenOf(kb, id)| && counts(id, i))
  }

  ghost predicate InRange(kb: KnowledgeBase, positions: Positions) {
    forall id :: Exist(kb, id, positions(id))
  }

  ghost predicate Exist(kb: KnowledgeBase, id: RemId, at: seq<nat>) {
    forall k :: 0 <= k < |at| ==> at[k] < |ChildrenOf(kb, id)|
  }

  ghost function Down(i: nat, paths: seq<Path>): seq<Path> {
    [[i]] + seq(|paths|, k requires 0 <= k < |paths| => [i] + paths[k])
  }

  ghost function Paths(kb: KnowledgeBase, positions: Positions, id: RemId, depth: int): seq<Path>
    requires InRange(kb, positions)
    decreases depth, 1, 0
  {
    if depth <= 0 then [] else PathsOver(kb, positions, id, positions(id), depth)
  }

  ghost function PathsOver(kb: KnowledgeBase, positions: Positions, id: RemId, at: seq<nat>, depth: int): seq<Path>
    requires InRange(kb, positions) && depth > 0 && Exist(kb, id, at)
    decreases depth, 0, |at|
  {
    if at == [] then []
    else
      Down(at[0], Paths(kb, positions, ChildrenOf(kb, id)[at[0]], depth - 1))
      + PathsOver(kb, positions, id, at[1..], depth)
  }

  lemma DownMembers(i: nat, paths: seq<Path>, p: Path)
    ensures p in Down(i, paths) <==> p != [] && p[0] == i && (|p| == 1 || p[1..] in paths)
  {
    var all := Down(i, paths);
    if p in all {
      var k :| 0 <= k < |all| && all[k] == p;
      if k > 0 { assert p == [i] + paths[k - 1] && p[1..] == paths[k - 1]; }
    }
    if p != [] && p[0] == i {
      if |p| == 1 {
        assert p == [i] && all[0] == p;
      } else if p[1..] in paths {
        var k :| 0 <= k < |paths| && paths[k] == p[1..];
        assert all[k + 1] == [i] + paths[k] == p;
      }
    }
  }

  lemma DownAscends(i: nat, paths: seq<Path>)
    requires Ascending(paths) && forall p :: p in paths ==> p != []
    ensures Ascending(Down(i, paths))
  {
    var all := Down(i, paths);
    forall k, l | 0 <= k < l < |all| ensures Before(all[k], all[l]) {
      assert paths[l - 1] in paths && all[l] == [i] + paths[l - 1];
      assert all[l][1..] == paths[l - 1];
      if k == 0 {
        assert all[k] == [i] && all[k][1..] == [];
      } else {
        assert all[k] == [i] + paths[k - 1] && all[k][1..] == paths[k - 1];
      }
    }
  }

  lemma {:induction false} PathsList(kb: KnowledgeBase, counts: Steps, positions: Positions, id: RemId, depth: int)
    requires InRange(kb, positions) && Gives(kb, counts, positions)
    ensures Lists(kb, counts, id, depth, Paths(kb, positions, id, depth))
    decreases depth, 1, 0
  {
    if depth > 0 {
      PathsOverList(kb, counts, positions, id, positions(id), depth);
      forall p ensures p in Paths(kb, positions, id, depth) <==> IsPath(kb, counts, id, depth, p) {}
    }
  }

  /** The paths that begin with one of these positions. */
  ghost predicate BeginsIn(kb: KnowledgeBase, counts: Steps, id: RemId, at: seq<nat>, depth: int, p: Path)
  {
    && p != [] && p[0] in at && p[0] < |ChildrenOf(kb, id)|
    && (|p| == 1 || IsPath(kb, counts, ChildrenOf(kb, id)[p[0]], depth - 1, p[1..]))
  }

  lemma {:induction false} PathsOverList(
    kb: KnowledgeBase, counts: Steps, positions: Positions, id: RemId, at: seq<nat>, depth: int)
    requires InRange(kb, positions) && Gives(kb, counts, positions) && depth > 0
    requires Exist(kb, id, at)
    requires forall k, l :: 0 <= k < l < |at| ==> at[k] < at[l]
    ensures Ascending(PathsOver(kb, positions, id, at, depth))
    ensures forall p :: p in PathsOver(kb, positions, id, at, depth) <==> BeginsIn(kb, counts, id, at, depth, p)
    decreases depth, 0, |at|
  {
    if at != [] {
      var child := ChildrenOf(kb, id)[at[0]];
      var below, rest := Paths(kb, positions, child, depth - 1), PathsOver(kb, positions, id, at[1..], depth);
      PathsList(kb, counts, positions, child, depth - 1);
      PathsOverList(kb, counts, positions, id, at[1..], depth);
      forall p ensures p in Down(at[0], below) + rest <==> BeginsIn(kb, counts, id, at, depth, p) {
        DownMembers(at[0], below, p);
      }
      DownAscends(at[0], below);
      Appended(at, Down(at[0], below), rest);
    }
  }

  /** Everything that begins with the first position comes before everything that begins with a later one. */
  lemma Appended(at: seq<nat>, first: seq<Path>, rest: seq<Path>)
    requires at != [] && (forall l :: 0 < l < |at| ==> at[0] < at[l]) && Ascending(first) && Ascending(rest)
    requires forall p :: p in first ==> p != [] && p[0] == at[0]
    requires forall p :: p in rest ==> p != [] && p[0] in at[1..]
    ensures Ascending(first + rest)
  {
    var all := first + rest;
    forall k, l | 0 <= k < l < |all| ensures Before(all[k], all[l]) {
      if k < |first| <= l {
        assert all[k] in first && all[l] in rest;
        var m :| 0 <= m < |at| - 1 && at[1..][m] == all[l][0];
      }
    }
  }
}
