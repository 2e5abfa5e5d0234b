/** What a rendering is: the lines of a Rem's subtree in preorder, how many of them fit, and how many Rems there are. */
module RenderSpec {
  import opened Rems
  import opened Strings

  const CHILDREN_TOTAL_CAP := 2000

  // ---- one line per Rem ----

  function Delimiter(t: RemType): string {
    match t
    case Concept => "::"
    case Descriptor => ";;"
    case _ => ">>"
  }

  function Headline(r: Rem): string {
    if r.detail == "" then r.title else r.title + " " + Delimiter(r.remType) + " " + r.detail
  }

  function Indent(level: nat): string { if level == 0 then "" else "  " + Indent(level - 1) }

  function Line(r: Rem, level: nat): Text { Utf16(Indent(level) + "- " + Headline(r) + "\n") }

  // ---- which children are shown ----

  predicate EmptyTextLeaf(kb: KnowledgeBase, id: RemId) {
    id in kb && kb[id].remType == PlainText && kb[id].title == "" && kb[id].detail == "" && kb[id].children == []
  }

  /** Children the knowledge base knows and that are not power-up metadata, in order. */
  function Visible(kb: KnowledgeBase, ids: seq<RemId>): (r: seq<RemId>)
    ensures forall x :: x in r ==> x in kb
  {
    if ids == [] then []
    else (if ids[0] in kb && !kb[ids[0]].powerup then [ids[0]] else []) + Visible(kb, ids[1..])
  }

  function DropEmptyTail(kb: KnowledgeBase, ids: seq<RemId>): (r: seq<RemId>)
    ensures r <= ids
  {
    if ids != [] && EmptyTextLeaf(kb, ids[|ids| - 1]) then DropEmptyTail(kb, ids[..|ids| - 1]) else ids
  }

  function Shown(kb: KnowledgeBase, id: RemId, childLimit: nat): (r: seq<RemId>)
    ensures forall x :: x in r ==> x in kb
  {
    DropEmptyTail(kb, Limited(kb, id, childLimit))
  }

  function Limited(kb: KnowledgeBase, id: RemId, childLimit: nat): (r: seq<RemId>)
    ensures forall x :: x in r ==> x in kb
  {
    var visible := Visible(kb, ChildrenOf(kb, id));
    if childLimit < |visible| then visible[..childLimit] else visible
  }

  // ---- the unlimited rendering, and how much of it fits ----

  /** Every line of the subtree in preorder, with no length limit. */
  function Entries(kb: KnowledgeBase, id: RemId, depth: int, childLimit: nat, level: nat): seq<Text>
    decreases depth, 1, 0
  {
    if depth <= 0 then [] else EntriesOf(kb, Shown(kb, id, childLimit), depth, childLimit, level)
  }

  function EntriesOf(kb: KnowledgeBase, ids: seq<RemId>, depth: int, childLimit: nat, level: nat): seq<Text>
    requires depth > 0 && forall x :: x in ids ==> x in kb
    decreases depth, 0, |ids|
  {
    if ids == [] then []
    else EntriesFrom(kb, ids[0], depth, childLimit, level) + EntriesOf(kb, ids[1..], depth, childLimit, level)
  }

  function EntriesFrom(kb: KnowledgeBase, id: RemId, depth: int, childLimit: nat, level: nat): seq<Text>
    requires depth > 0 && id in kb
    decreases depth - 1, 2, 0
  {
    [Line(kb[id], level)] + Entries(kb, id, depth - 1, childLimit, level + 1)
  }

  function Concat(es: seq<Text>): Text { if es == [] then [] else es[0] + Concat(es[1..]) }

  /** How many entries can be taken from the front before one would overflow the limit. */
  function Fit(es: seq<Text>, used: nat, limit: int): (k: nat)
    ensures k <= |es|
  {
    if es == [] || used + |es[0]| > limit then 0 else 1 + Fit(es[1..], used + |es[0]|, limit)
  }

  lemma {:induction false} ConcatSplits(a: seq<Text>, b: seq<Text>)
    ensures Concat(a + b) == Concat(a) + Concat(b)
  {
    if a == [] {
      assert a + b == b;
    } else {
      ConcatSplits(a[1..], b);
      assert (a + b)[1..] == a[1..] + b;
    }
  }

  lemma {:induction false} FitSplits(a: seq<Text>, b: seq<Text>, used: nat, limit: int)
    ensures Fit(a + b, used, limit)
         == if Fit(a, used, limit) == |a| then |a| + Fit(b, used + |Concat(a)|, limit) else Fit(a, used, limit)
  {
    if a == [] {
      assert a + b == b;
    } else {
      assert (a + b)[1..] == a[1..] + b;
      FitSplits(a[1..], b, used + |a[0]|, limit);
    }
  }

  /** The greedy count is the longest prefix whose total length fits. */
  lemma {:induction false} FitIsLongest(es: seq<Text>, used: nat, limit: int, j: nat)
    requires used <= limit && j <= |es|
    ensures used + |Concat(es[..j])| <= limit <==> j <= Fit(es, used, limit)
  {
    if j > 0 {
      assert es[..j][1..] == es[1..][..j - 1];
      if used + |es[0]| <= limit {
        FitIsLongest(es[1..], used + |es[0]|, limit, j - 1);
      }
    }
  }

  datatype RenderResult = RenderResult(content: Text, childrenRendered: nat, truncatedByLength: bool)

  /** What rendering must return: as much of the unlimited rendering as fits after what is already there. */
  function FittedTo(es: seq<Text>, accumulated: Text, limit: int): RenderResult {
    var k := Fit(es, |accumulated|, limit);
    RenderResult(accumulated + Concat(es[..k]), k, k < |es|)
  }

  // ---- counting ----

  /** Exactly how many Rems lie below, down to `depth` levels. */
  function Descendants(kb: KnowledgeBase, id: RemId, depth: int): nat
    decreases depth, 1, 0
  {
    if depth <= 0 then 0 else DescendantsOf(kb, ChildrenOf(kb, id), depth)
  }

  function DescendantsOf(kb: KnowledgeBase, ids: seq<RemId>, depth: int): nat
    requires depth > 0
    decreases depth, 0, |ids|
  {
    if ids == [] then 0 else 1 + Descendants(kb, ids[0], depth - 1) + DescendantsOf(kb, ids[1..], depth)
  }

  function Capped(n: nat): nat { if n < CHILDREN_TOTAL_CAP then n else CHILDREN_TOTAL_CAP }

  lemma {:induction false} AtLeastTheChildren(kb: KnowledgeBase, ids: seq<RemId>, depth: int)
    requires depth > 0
    ensures DescendantsOf(kb, ids, depth) >= |ids|
  {
    if ids != [] { AtLeastTheChildren(kb, ids[1..], depth); }
  }
}
