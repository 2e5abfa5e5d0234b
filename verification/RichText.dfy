/** Rendering rich text, whose references can form cycles, to plain Markdown. */
module RichText {
  import opened Prelude
  import opened Rems

  /** `Ignored` is anything that is neither a string nor an object; missing ids and texts are empty. */
  datatype Element =
    | Plain(text: string)
    | Formatted(text: string, code: bool, bold: bool, italic: bool, url: string)
    | Reference(id: RemId, textOfDeleted: seq<Element>)
    | GlobalName(id: RemId)
    | Latex(text: string)
    | Annotation(text: string)
    | Image(title: string)
    | Audio
    | Drawing
    | CardDelimiter
    | Plugin
    | Unknown(text: string)
    | Ignored

  /** The rich text of every existing Rem. */
  type Library = map<RemId, seq<Element>>

  datatype InlineRef = InlineRef(text: string, target: RemId)

  datatype Rendered = Rendered(text: string, refs: seq<InlineRef>)

  function Or(text: string, otherwise: string): string { if text == "" then otherwise else text }

  function Marked(text: string, mark: bool, with: string): string { if mark then with + text + with else text }

  function Markdown(text: string, code: bool, bold: bool, italic: bool, url: string): string {
    var marked := Marked(Marked(Marked(text, code, "`"), bold, "**"), italic, "*");
    if text == "" then "" else if url != "" then "[" + marked + "](" + url + ")" else marked
  }

  /** Elements that involve no other Rem. */
  function Simple(e: Element): string
    requires !e.Reference? && !e.GlobalName?
  {
    match e
    case Plain(text) => text
    case Formatted(text, code, bold, italic, url) => Markdown(text, code, bold, italic, url)
    case Latex(text) => text
    case Annotation(text) => text
    case Image(title) => Or(title, "[image]")
    case Audio => "[audio]"
    case Drawing => "[drawing]"
    case CardDelimiter => ""
    case Plugin => ""
    case Unknown(text) => text
    case Ignored => ""
  }

  // ---- what rendering computes ----

  function Then(a: Rendered, b: Rendered): Rendered { Rendered(a.text + b.text, a.refs + b.refs) }

  lemma ThenAssociates(a: Rendered, b: Rendered, c: Rendered)
    ensures Then(Then(a, b), c) == Then(a, Then(b, c))
  {
  }

  /** `visited` are the Rems being rendered around this text. */
  function Render(lib: Library, rich: seq<Element>, visited: set<RemId>): Rendered
    decreases lib.Keys - visited, rich, 0
  {
    if rich == [] then Rendered("", [])
    else
      Then(RenderElement(lib, rich[0], visited), Render(lib, rich[1..], visited))
  }

  function RenderElement(lib: Library, e: Element, visited: set<RemId>): Rendered
    decreases lib.Keys - visited, e, 0
  {
    match e
    case Reference(id, deleted) =>
      if id == "" then Rendered("[deleted reference]", [])
      else if id in visited then Rendered("[circular reference]", [])
      else if id in lib then
        assert id in lib.Keys - visited;
        var shown := Or(Render(lib, lib[id], visited + {id}).text, "[untitled reference]");
        Rendered("[[" + shown + "]]", [InlineRef(shown, id)])
      else if deleted != [] then
        assert lib.Keys - (visited + {id}) == lib.Keys - visited;
        Rendered(Or(Render(lib, deleted, visited + {id}).text, "[deleted reference]"), [])
      else Rendered("[deleted reference]", [])
    case GlobalName(id) =>
      if id == "" then Rendered("", [])
      else if id in visited then Rendered("[circular reference]", [])
      else if id in lib then
        assert id in lib.Keys - visited;
        Rendered(Render(lib, lib[id], visited + {id}).text, [])
      else Rendered("", [])
    case _ => Rendered(Simple(e), [])
  }

  // ---- the loop over the elements, with its shared visited set ----

  class Visited {
    var ids: set<RemId>

    constructor ()
      ensures ids == {}
    {
      ids := {};
    }
  }

  /** Renders to the specification and leaves the shared set as it found it, on any reference graph. */
  method RenderRichText(lib: Library, rich: seq<Element>, visited: Visited) returns (r: Rendered)
    modifies visited
    ensures r == Render(lib, rich, old(visited.ids)) && Reads(lib, rich, old(visited.ids), r)
    ensures visited.ids == old(visited.ids)
    decreases lib.Keys - visited.ids, rich, 1
  {
    var text, refs := "", [];
    ghost var around := visited.ids;
    for i := 0 to |rich|
      invariant visited.ids == around
      invariant Rendered(text, refs) == Render(lib, rich[..i], around)
    {
      var one := RenderOne(lib, rich[i], visited);
      assert rich[..i + 1] == rich[..i] + [rich[i]];
      RenderJoins(lib, rich[..i], [rich[i]], around);
      RenderSingle(lib, rich[i], around);
      text, refs := text + one.text, refs + one.refs;
    }
    assert rich[..|rich|] == rich;
    ghost var _, _ := RenderingReads(lib, rich, around);
    return Rendered(text, refs);
  }

  method RenderOne(lib: Library, e: Element, visited: Visited) returns (r: Rendered)
    modifies visited
    ensures r == RenderElement(lib, e, old(visited.ids))
    ensures visited.ids == old(visited.ids)
    decreases lib.Keys - visited.ids, e, 1
  {
    ghost var around := visited.ids;
    if e.Reference? {
      if e.id == "" { return Rendered("[deleted reference]", []); }
      if e.id in visited.ids { return Rendered("[circular reference]", []); }
      visited.ids := visited.ids + {e.id};
      if e.id in lib {
        assert e.id in lib.Keys - around;
        var inner := RenderRichText(lib, lib[e.id], visited);
        var shown := Or(inner.text, "[untitled reference]");
        r := Rendered("[[" + shown + "]]", [InlineRef(shown, e.id)]);
      } else if e.textOfDeleted != [] {
        assert lib.Keys - visited.ids == lib.Keys - around;
        var inner := RenderRichText(lib, e.textOfDeleted, visited);
        r := Rendered(Or(inner.text, "[deleted reference]"), []);
      } else {
        r := Rendered("[deleted reference]", []);
      }
      visited.ids := visited.ids - {e.id};
    } else if e.GlobalName? {
      if e.id == "" { return Rendered("", []); }
      if e.id in visited.ids { return Rendered("[circular reference]", []); }
      visited.ids := visited.ids + {e.id};
      r := Rendered("", []);
      if e.id in lib {
        assert e.id in lib.Keys - around;
        var inner := RenderRichText(lib, lib[e.id], visited);
        r := Rendered(inner.text, []);
      }
      visited.ids := visited.ids - {e.id};
    } else {
      r := Rendered(Simple(e), []);
    }
  }

  // ---- properties ----

  lemma RenderSingle(lib: Library, e: Element, visited: set<RemId>)
    ensures Render(lib, [e], visited) == RenderElement(lib, e, visited)
  {
    var one := RenderElement(lib, e, visited);
    assert one.text + "" == one.text && one.refs + [] == one.refs;
  }

  /** Rendering pieces and joining them is rendering the whole. */
  lemma {:induction false} RenderJoins(lib: Library, a: seq<Element>, b: seq<Element>, visited: set<RemId>)
    ensures Render(lib, a + b, visited) == Then(Render(lib, a, visited), Render(lib, b, visited))
    ensures Render(lib, a + b, visited).text == Render(lib, a, visited).text + Render(lib, b, visited).text
    ensures Render(lib, a + b, visited).refs == Render(lib, a, visited).refs + Render(lib, b, visited).refs
  {
    if a == [] {
      assert a + b == b;
    } else {
      RenderJoins(lib, a[1..], b, visited);
      RenderFirst(lib, a, visited);
      RenderFirst(lib, a + b, visited);
      assert (a + b)[1..] == a[1..] + b;
      ThenAssociates(
        RenderElement(lib, a[0], visited), Render(lib, a[1..], visited), Render(lib, b, visited));
    }
  }

  lemma RenderFirst(lib: Library, rich: seq<Element>, visited: set<RemId>)
    requires rich != []
    ensures Render(lib, rich, visited) == Then(RenderElement(lib, rich[0], visited), Render(lib, rich[1..], visited))
  {
  }

  // ---- the text, piece by piece ----

  /** The pieces one after the other. */
  function Joined(pieces: seq<string>): string { if pieces == [] then "" else pieces[0] + Joined(pieces[1..]) }

  /** The inline references that some of the elements give, in order. */
  function Given(refs: seq<Option<InlineRef>>): seq<InlineRef> {
    if refs == [] then [] else (if refs[0].Some? then [refs[0].value] else []) + Given(refs[1..])
  }

  /** Code marks inside bold marks inside italic marks, and a link around them all; nothing around no text. */
  ghost predicate FormattedAs(text: string, code: bool, bold: bool, italic: bool, url: string, piece: string) {
    var tick, stars, star := if code then "`" else "", if bold then "**" else "", if italic then "*" else "";
    var marked := star + stars + tick + text + tick + stars + star;
    piece == if text == "" then "" else if url == "" then marked else "[" + marked + "](" + url + ")"
  }

  /** What one element contributes: a piece of text, and an inline reference if it leads to a Rem not around it. */
  ghost predicate Contributes(
    lib: Library, e: Element, visited: set<RemId>, piece: string, ref: Option<InlineRef>)
  {
    match e
    case Plain(text) => piece == text && ref.None?
    case Formatted(text, code, bold, italic, url) => FormattedAs(text, code, bold, italic, url, piece) && ref.None?
    case Latex(text) => piece == text && ref.None?
    case Annotation(text) => piece == text && ref.None?
    case Image(title) => piece == (if title == "" then "[image]" else title) && ref.None?
    case Audio => piece == "[audio]" && ref.None?
    case Drawing => piece == "[drawing]" && ref.None?
    case Unknown(text) => piece == text && ref.None?
    case Reference(id, deleted) =>
      if id != "" && id !in visited && id in lib then
        var inner := Render(lib, lib[id], visited + {id}).text;
        && ref == Some(InlineRef(if inner == "" then "[untitled reference]" else inner, id))
        && piece == "[[" + ref.value.text + "]]"
      else if id != "" && id !in visited && deleted != [] then
        var inner := Render(lib, deleted, visited + {id}).text;
        piece == (if inner == "" then "[deleted reference]" else inner) && ref.None?
      else piece == (if id != "" && id in visited then "[circular reference]" else "[deleted reference]") && ref.None?
    case GlobalName(id) =>
      && ref.None?
      && piece == (if id == "" then "" else if id in visited then "[circular reference]"
                   else if id in lib then Render(lib, lib[id], visited + {id}).text else "")
    case _ => piece == "" && ref.None?
  }

  /** The text is the elements' pieces in order, and the references are theirs in order. */
  ghost predicate Reads(lib: Library, rich: seq<Element>, visited: set<RemId>, r: Rendered) {
    exists pieces: seq<string>, refs: seq<Option<InlineRef>> ::
      && |pieces| == |rich| && |refs| == |rich|
      && (forall i :: 0 <= i < |rich| ==> Contributes(lib, rich[i], visited, pieces[i], refs[i]))
      && r.text == Joined(pieces) && r.refs == Given(refs)
  }

  lemma ElementContributes(lib: Library, e: Element, visited: set<RemId>) returns (ref: Option<InlineRef>)
    ensures Contributes(lib, e, visited, RenderElement(lib, e, visited).text, ref)
    ensures RenderElement(lib, e, visited).refs == if ref.Some? then [ref.value] else []
  {
    var r := RenderElement(lib, e, visited);
    ref := if r.refs == [] then None else Some(r.refs[0]);
    if e.Formatted? { MarkdownFormats(e.text, e.code, e.bold, e.italic, e.url); }
  }

  lemma MarkdownFormats(text: string, code: bool, bold: bool, italic: bool, url: string)
    ensures FormattedAs(text, code, bold, italic, url, Markdown(text, code, bold, italic, url))
  {
    var tick, stars, star := if code then "`" else "", if bold then "**" else "", if italic then "*" else "";
    MarkSurrounds(text, code, "`");
    MarkSurrounds(tick + text + tick, bold, "**");
    MarkSurrounds(stars + (tick + text + tick) + stars, italic, "*");
    Nests(tick, stars, star, text);
  }

  lemma MarkSurrounds(text: string, mark: bool, with: string)
    ensures var around := if mark then with else ""; Marked(text, mark, with) == around + text + around
  {
  }

  lemma Nests(a: string, b: string, c: string, text: string)
    ensures c + (b + (a + text + a) + b) + c == c + b + a + text + a + b + c
  {
  }

  /** Rendering reads like this for every rich text. */
  lemma {:induction false} RenderingReads(lib: Library, rich: seq<Element>, visited: set<RemId>)
    returns (pieces: seq<string>, refs: seq<Option<InlineRef>>)
    ensures |pieces| == |rich| && |refs| == |rich|
    ensures forall i :: 0 <= i < |rich| ==> Contributes(lib, rich[i], visited, pieces[i], refs[i])
    ensures Render(lib, rich, visited).text == Joined(pieces) && Render(lib, rich, visited).refs == Given(refs)
    ensures Reads(lib, rich, visited, Render(lib, rich, visited))
  {
    if rich == [] {
      pieces, refs := [], [];
    } else {
      var p, r := RenderingReads(lib, rich[1..], visited);
      var ref := ElementContributes(lib, rich[0], visited);
      pieces, refs := [RenderElement(lib, rich[0], visited).text] + p, [ref] + r;
      RenderFirst(lib, rich, visited);
      forall i | 0 <= i < |rich| ensures Contributes(lib, rich[i], visited, pieces[i], refs[i]) {
        if i > 0 { assert rich[i] == rich[1..][i - 1]; }
      }
    }
  }

  /** Plain strings are shown as they are, one after the other. */
  lemma {:induction false} PlainTextsAreJoined(lib: Library, texts: seq<string>, visited: set<RemId>)
    ensures var rich := seq(|texts|, i requires 0 <= i < |texts| => Plain(texts[i]));
            Render(lib, rich, visited) == Rendered(Joined(texts), [])
  {
    var rich := seq(|texts|, i requires 0 <= i < |texts| => Plain(texts[i]));
    if texts != [] {
      PlainTextsAreJoined(lib, texts[1..], visited);
      assert rich[1..] == seq(|texts| - 1, i requires 0 <= i < |texts| - 1 => Plain(texts[1..][i]));
      RenderFirst(lib, rich, visited);
    }
  }

  /** The outer references that lead to an existing Rem not being rendered already. */
  function Resolved(lib: Library, rich: seq<Element>, visited: set<RemId>): seq<RemId> {
    if rich == [] then []
    else
      (if rich[0].Reference? && rich[0].id != "" && rich[0].id !in visited && rich[0].id in lib then [rich[0].id]
       else []) + Resolved(lib, rich[1..], visited)
  }

  /** One inline reference per resolved outer reference, in order, carrying the text shown for it. */
  lemma {:induction false} OneRefPerReference(lib: Library, rich: seq<Element>, visited: set<RemId>)
    ensures var refs, ids := Render(lib, rich, visited).refs, Resolved(lib, rich, visited);
      && |refs| == |ids|
      && forall i :: 0 <= i < |refs| ==>
           && refs[i].target == ids[i] && ids[i] in lib && refs[i].text != ""
           && refs[i].text == Or(Render(lib, lib[ids[i]], visited + {ids[i]}).text, "[untitled reference]")
  {
    if rich != [] {
      OneRefPerReference(lib, rich[1..], visited);
    }
  }

  // ---- what a cycle guard can change ----

  ghost predicate MentionsOnly(rich: seq<Element>, c: set<RemId>)
    decreases rich, 0
  {
    forall i :: 0 <= i < |rich| ==> ElementMentionsOnly(rich[i], c)
  }

  ghost predicate ElementMentionsOnly(e: Element, c: set<RemId>)
    decreases e, 0
  {
    match e
    case Reference(id, deleted) => id in c && MentionsOnly(deleted, c)
    case GlobalName(id) => id in c
    case _ => true
  }

  /** Everything mentioned from inside the set is in the set. */
  ghost predicate ClosedUnder(lib: Library, c: set<RemId>) {
    forall id :: id in c && id in lib ==> MentionsOnly(lib[id], c)
  }

  /** Only the visited Rems that can be reached from the text matter. */
  lemma {:induction false} OnlyReachableMatters(
    lib: Library, rich: seq<Element>, c: set<RemId>, v: set<RemId>, w: set<RemId>)
    requires ClosedUnder(lib, c) && MentionsOnly(rich, c) && v * c == w * c
    ensures Render(lib, rich, v) == Render(lib, rich, w)
    decreases lib.Keys - v, rich, 0
  {
    if rich != [] {
      ElementMatters(lib, rich[0], c, v, w);
      OnlyReachableMatters(lib, rich[1..], c, v, w);
    }
  }

  lemma {:induction false} ElementMatters(lib: Library, e: Element, c: set<RemId>, v: set<RemId>, w: set<RemId>)
    requires ClosedUnder(lib, c) && ElementMentionsOnly(e, c) && v * c == w * c
    ensures RenderElement(lib, e, v) == RenderElement(lib, e, w)
    decreases lib.Keys - v, e, 0
  {
    if e.Reference? || e.GlobalName? {
      var id := e.id;
      assert id in v <==> id in v * c;
      assert id in w <==> id in w * c;
      assert (v + {id}) * c == v * c + {id} && (w + {id}) * c == w * c + {id};
      if id != "" && id !in v && id in lib {
        assert id in lib.Keys - v;
        OnlyReachableMatters(lib, lib[id], c, v + {id}, w + {id});
      } else if id != "" && id !in v && e.Reference? && e.textOfDeleted != [] {
        assert lib.Keys - (v + {id}) == lib.Keys - v;
        OnlyReachableMatters(lib, e.textOfDeleted, c, v + {id}, w + {id});
      }
    }
  }

  /** A reference shows what its Rem renders on its own, unless a chain of mentions leads back to a Rem around it. */
  lemma ReferenceShowsItsRem(lib: Library, id: RemId, c: set<RemId>, visited: set<RemId>)
    requires id in lib && ClosedUnder(lib, c) && MentionsOnly(lib[id], c) && id !in c && visited !! c
    ensures Render(lib, lib[id], visited + {id}) == Render(lib, lib[id], {})
  {
    assert (visited + {id}) * c == {} * c;
    OnlyReachableMatters(lib, lib[id], c, visited + {id}, {});
  }
}
