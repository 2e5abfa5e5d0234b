/**
 The canonical text the audit log hashes: `stableStringify` prints a JSON value with object keys sorted.
 Text is a sequence of UTF-16 code units, as in JavaScript.
 */
module StableStringify {
  import Strings

  type Unit = Strings.Unit

  type Text = Strings.Text

  /**
   What a payload can hold. A number is its ECMAScript decimal text; NaN and the infinities are `NonFinite`.
   An object lists its properties in whatever order they were inserted.
   */
  datatype Json =
    | Undefined
    | Null
    | Bool(b: bool)
    | Number(digits: Text)
    | NonFinite
    | String(text: Text)
    | Array(items: seq<Json>)
    | Object(fields: seq<Field>)

  datatype Field = Field(key: Text, value: Json)

  const COMMA: Unit := 0x2C
  const COLON: Unit := 0x3A
  const QUOTE: Unit := 0x22
  const BACKSLASH: Unit := 0x5C
  const OPEN_BRACKET: Unit := 0x5B
  const CLOSE_BRACKET: Unit := 0x5D
  const OPEN_BRACE: Unit := 0x7B
  const CLOSE_BRACE: Unit := 0x7D

  // ---- numbers ----

  predicate NumberUnit(u: Unit) {
    0x30 <= u <= 0x39 || u == 0x2D || u == 0x2B || u == 0x2E || u == 0x65
  }

  predicate NumberText(t: Text) {
    && t != [] && (0x30 <= t[0] <= 0x39 || t[0] == 0x2D)
    && forall i :: 0 <= i < |t| ==> NumberUnit(t[i])
  }

  // ---- strings: section 7 of RFC 8259, with lone surrogates escaped ----

  predicate High(u: Unit) { 0xD800 <= u <= 0xDBFF }

  predicate Low(u: Unit) { 0xDC00 <= u <= 0xDFFF }

  function HexDigit(n: int): Unit requires 0 <= n < 16 { if n < 10 then 0x30 + n else 0x57 + n }

  /** A backslash, `u`, and the four hexadecimal digits. */
  function UnicodeEscape(u: Unit): Text {
    var q1 := u / 0x10;
    var q2 := q1 / 0x10;
    var q3 := q2 / 0x10;
    [BACKSLASH, 0x75, HexDigit(q3), HexDigit(q2 % 0x10), HexDigit(q1 % 0x10), HexDigit(u % 0x10)]
  }

  function EscapeUnit(u: Unit): Text {
    if u == QUOTE || u == BACKSLASH then [BACKSLASH, u]
    else if u == 0x08 then [BACKSLASH, 0x62]
    else if u == 0x09 then [BACKSLASH, 0x74]
    else if u == 0x0A then [BACKSLASH, 0x6E]
    else if u == 0x0C then [BACKSLASH, 0x66]
    else if u == 0x0D then [BACKSLASH, 0x72]
    else if u < 0x20 || High(u) || Low(u) then UnicodeEscape(u)
    else [u]
  }

  predicate StartsPair(t: Text) { |t| >= 2 && High(t[0]) && Low(t[1]) }

  function Escape(t: Text): Text {
    if t == [] then []
    else if StartsPair(t) then [t[0], t[1]] + Escape(t[2..])
    else EscapeUnit(t[0]) + Escape(t[1..])
  }

  function Quote(t: Text): Text { [QUOTE] + Escape(t) + [QUOTE] }

  // ---- key order: by code unit ----

  predicate Before(a: Text, b: Text) {
    b != [] && (a == [] || a[0] < b[0] || (a[0] == b[0] && Before(a[1..], b[1..])))
  }

  function Insert(f: Field, fs: seq<Field>): (r: seq<Field>)
    ensures multiset(r) == multiset([f]) + multiset(fs)
  {
    if fs == [] || Before(f.key, fs[0].key) then [f] + fs
    else
      assert fs == [fs[0]] + fs[1..];
      [fs[0]] + Insert(f, fs[1..])
  }

  /** The properties in ascending key order. */
  function Sorted(fs: seq<Field>): (r: seq<Field>)
    ensures multiset(r) == multiset(fs)
  {
    if fs == [] then []
    else
      assert fs == [fs[0]] + fs[1..];
      Insert(fs[0], Sorted(fs[1..]))
  }

  lemma SortedMembers(fs: seq<Field>)
    ensures |Sorted(fs)| == |fs|
    ensures forall f :: f in Sorted(fs) <==> f in fs
  {
    assert |multiset(Sorted(fs))| == |multiset(fs)|;
    forall f ensures f in Sorted(fs) <==> f in fs {
      assert f in multiset(Sorted(fs)) <==> f in multiset(fs);
    }
  }

  // ---- printing ----

  function Literal(v: Json): Text
    requires !v.Array? && !v.Object?
  {
    match v
    case Undefined => [0x75, 0x6E, 0x64, 0x65, 0x66, 0x69, 0x6E, 0x65, 0x64]
    case Null => [0x6E, 0x75, 0x6C, 0x6C]
    case Bool(b) => if b then [0x74, 0x72, 0x75, 0x65] else [0x66, 0x61, 0x6C, 0x73, 0x65]
    case Number(d) => d
    case NonFinite => [0x6E, 0x75, 0x6C, 0x6C]
    case String(t) => Quote(t)
  }

  function Print(v: Json): Text
    decreases v, 2, 0
  {
    match v
    case Array(items) => [OPEN_BRACKET] + PrintItems(items) + [CLOSE_BRACKET]
    case Object(fields) =>
      SortedInside(v);
      [OPEN_BRACE] + PrintFields(v, Sorted(fields)) + [CLOSE_BRACE]
    case _ => Literal(v)
  }

  ghost predicate Inside(v: Json, fs: seq<Field>) { forall i :: 0 <= i < |fs| ==> fs[i].value < v }

  lemma SortedInside(v: Json)
    requires v.Object?
    ensures Inside(v, Sorted(v.fields))
  {
    SortedMembers(v.fields);
    forall i | 0 <= i < |Sorted(v.fields)| ensures Sorted(v.fields)[i].value < v {
      assert Sorted(v.fields)[i] in v.fields;
      var j :| 0 <= j < |v.fields| && v.fields[j] == Sorted(v.fields)[i];
      assert v.fields[j].value < v;
    }
  }

  function PrintItems(items: seq<Json>): Text
    decreases items, 0, 0
  {
    if items == [] then []
    else if |items| == 1 then Print(items[0])
    else Print(items[0]) + [COMMA] + PrintItems(items[1..])
  }

  function PrintField(ghost v: Json, f: Field): Text
    requires f.value < v
    decreases v, 0, 0
  {
    Quote(f.key) + [COLON] + Print(f.value)
  }

  function PrintFields(ghost v: Json, fs: seq<Field>): Text
    requires Inside(v, fs)
    decreases v, 1, |fs|
  {
    if fs == [] then []
    else if |fs| == 1 then PrintField(v, fs[0])
    else PrintField(v, fs[0]) + [COMMA] + PrintFields(v, fs[1..])
  }

  // ---- what the text means ----

  ghost predicate UniqueKeys(fs: seq<Field>) {
    forall i, j :: 0 <= i < j < |fs| ==> fs[i].key != fs[j].key
  }

  ghost predicate WellFormed(v: Json) {
    match v
    case Number(d) => NumberText(d)
    case Array(items) => forall i :: 0 <= i < |items| ==> WellFormed(items[i])
    case Object(fields) => UniqueKeys(fields) && forall i :: 0 <= i < |fields| ==> WellFormed(fields[i].value)
    case _ => true
  }

  ghost function KeysOf(fs: seq<Field>): set<Text> { set i | 0 <= i < |fs| :: fs[i].key }

  /**
   Equal up to the order of object keys, at every depth. Non-finite numbers are null in JSON text, so they
   are identified with it.
   */
  ghost predicate Same(a: Json, b: Json) {
    match a
    case Array(items) =>
      && b.Array? && |items| == |b.items|
      && forall i :: 0 <= i < |items| ==> Same(items[i], b.items[i])
    case Object(fields) =>
      && b.Object? && KeysOf(fields) == KeysOf(b.fields)
      && forall i, j :: 0 <= i < |fields| && 0 <= j < |b.fields| && fields[i].key == b.fields[j].key
           ==> Same(fields[i].value, b.fields[j].value)
    case Null => b.Null? || b.NonFinite?
    case NonFinite => b.Null? || b.NonFinite?
    case _ => a == b
  }

  // ---- strings can be read back ----

  /** The text of the first character of a non-empty string, and what is left of the string. */
  function First(t: Text): Text requires t != [] { if StartsPair(t) then [t[0], t[1]] else EscapeUnit(t[0]) }

  function Rest(t: Text): Text requires t != [] { if StartsPair(t) then t[2..] else t[1..] }

  lemma HexDigitsDecode(u: Unit, w: Unit)
    requires UnicodeEscape(u) == UnicodeEscape(w)
    ensures u == w
  {
    var a, b := UnicodeEscape(u), UnicodeEscape(w);
    assert a[2] == b[2] && a[3] == b[3] && a[4] == b[4] && a[5] == b[5];
    DigitsDecode(u / 0x10 / 0x10, w / 0x10 / 0x10);
    DigitsDecode(u / 0x10, w / 0x10);
    DigitsDecode(u, w);
  }

  lemma DigitsDecode(n: nat, m: nat)
    requires n / 0x10 == m / 0x10 && HexDigit(n % 0x10) == HexDigit(m % 0x10)
    ensures n == m
  {
  }

  /** Character texts are prefix-free, and a character's text determines it. */
  lemma FirstDecodes(s: Text, t: Text, x: Text, y: Text)
    requires s != [] && t != [] && First(s) + x == First(t) + y
    ensures First(s) == First(t) && x == y && StartsPair(s) == StartsPair(t) && s[0] == t[0]
    ensures StartsPair(s) ==> s[1] == t[1]
  {
    var p, q := First(s), First(t);
    assert (p + x)[0] == (q + y)[0];
    assert p[0] == q[0];
    if |p| >= 2 && |q| >= 2 {
      assert (p + x)[1] == (q + y)[1];
    }
    assert |p| == |q|;
    assert p == (p + x)[..|p|] == (q + y)[..|q|] == q;
    assert x == (p + x)[|p|..] == (q + y)[|q|..] == y;
    if |p| == 6 { HexDigitsDecode(s[0], t[0]); }
  }

  lemma {:induction false} EscapeDecodes(s: Text, t: Text, x: Text, y: Text)
    requires Escape(s) + [QUOTE] + x == Escape(t) + [QUOTE] + y
    ensures s == t && x == y
    decreases |s| + |t|
  {
    EscapeEnds(s, x);
    EscapeEnds(t, y);
    if s != [] {
      EscapeSplits(s, x);
      EscapeSplits(t, y);
      FirstDecodes(s, t, Escape(Rest(s)) + [QUOTE] + x, Escape(Rest(t)) + [QUOTE] + y);
      EscapeDecodes(Rest(s), Rest(t), x, y);
      assert s == (if StartsPair(s) then [s[0], s[1]] else [s[0]]) + Rest(s);
      assert t == (if StartsPair(t) then [t[0], t[1]] else [t[0]]) + Rest(t);
    } else {
      assert x == (Escape(s) + [QUOTE] + x)[1..] == (Escape(t) + [QUOTE] + y)[1..] == y;
    }
  }

  /** The closing quote comes first exactly after the empty text. */
  lemma EscapeEnds(s: Text, x: Text)
    ensures (Escape(s) + [QUOTE] + x)[0] == QUOTE <==> s == []
  {
    if s != [] { EscapeSplits(s, x); }
  }

  lemma EscapeSplits(s: Text, x: Text)
    requires s != []
    ensures Escape(s) + [QUOTE] + x == First(s) + (Escape(Rest(s)) + [QUOTE] + x)
    ensures First(s)[0] != QUOTE
  {
  }

  lemma WithoutOpening(open: Unit, body: Text, close: Unit, x: Text)
    ensures ([open] + body + [close] + x)[1..] == body + [close] + x
  {
    assert [open] + body + [close] + x == [open] + (body + [close] + x);
  }

  lemma QuoteDecodes(s: Text, t: Text, x: Text, y: Text)
    requires Quote(s) + x == Quote(t) + y
    ensures s == t && x == y
  {
    WithoutOpening(QUOTE, Escape(s), QUOTE, x);
    WithoutOpening(QUOTE, Escape(t), QUOTE, y);
    EscapeDecodes(s, t, x, y);
  }

  // ---- sorting ----

  lemma {:induction false} BeforeTotal(a: Text, b: Text)
    ensures a == b || Before(a, b) || Before(b, a)
    ensures !Before(a, a)
    ensures !(Before(a, b) && Before(b, a))
    decreases |a|
  {
    if a != [] && b != [] {
      BeforeTotal(a[1..], b[1..]);
      BeforeTotal(a[1..], a[1..]);
      assert a == [a[0]] + a[1..] && b == [b[0]] + b[1..];
    } else if a != [] {
      BeforeTotal(a[1..], a[1..]);
    }
  }

  lemma {:induction false} BeforeTransitive(a: Text, b: Text, c: Text)
    requires Before(a, b) && Before(b, c)
    ensures Before(a, c)
    decreases |a|
  {
    if a != [] && a[0] == b[0] == c[0] {
      BeforeTransitive(a[1..], b[1..], c[1..]);
    }
  }

  ghost predicate Ascending(fs: seq<Field>) {
    forall i, j :: 0 <= i < j < |fs| ==> Before(fs[i].key, fs[j].key)
  }

  lemma {:induction false} InsertAscends(f: Field, fs: seq<Field>)
    requires Ascending(fs) && forall i :: 0 <= i < |fs| ==> fs[i].key != f.key
    ensures Ascending(Insert(f, fs))
  {
    if fs == [] {
    } else if Before(f.key, fs[0].key) {
      forall j | 0 < j < |fs| ensures Before(f.key, fs[j].key) {
        BeforeTransitive(f.key, fs[0].key, fs[j].key);
      }
    } else {
      InsertAscends(f, fs[1..]);
      BeforeTotal(f.key, fs[0].key);
      var r := Insert(f, fs[1..]);
      forall j | 0 <= j < |r| ensures Before(fs[0].key, r[j].key) {
        assert r[j] in multiset(r);
        assert r[j] == f || r[j] in fs[1..];
      }
    }
  }

  lemma {:induction false} SortedAscends(fs: seq<Field>)
    requires UniqueKeys(fs)
    ensures Ascending(Sorted(fs))
  {
    if fs != [] {
      SortedAscends(fs[1..]);
      SortedMembers(fs[1..]);
      forall i | 0 <= i < |Sorted(fs[1..])| ensures Sorted(fs[1..])[i].key != fs[0].key {
        assert Sorted(fs[1..])[i] in fs[1..];
      }
      InsertAscends(fs[0], Sorted(fs[1..]));
    }
  }

  lemma AscendingIsUnique(fs: seq<Field>)
    requires Ascending(fs)
    ensures UniqueKeys(fs)
  {
    forall i, j | 0 <= i < j < |fs| ensures fs[i].key != fs[j].key {
      BeforeTotal(fs[i].key, fs[j].key);
    }
  }

  /** Sorting keeps the keys; so two ascending lists with the same keys list them in the same order. */
  lemma {:induction false} SameKeysSameOrder(fs: seq<Field>, gs: seq<Field>)
    requires Ascending(fs) && Ascending(gs) && KeysOf(fs) == KeysOf(gs)
    ensures |fs| == |gs| && forall i :: 0 <= i < |fs| ==> fs[i].key == gs[i].key
  {
    NoKeys(fs);
    NoKeys(gs);
    if fs != [] {
      assert fs[0].key in KeysOf(fs) && gs[0].key in KeysOf(gs);
      BeforeTotal(fs[0].key, gs[0].key);
      assert fs[0].key == gs[0].key;
      TailKeys(fs);
      TailKeys(gs);
      SameKeysSameOrder(fs[1..], gs[1..]);
      assert forall i :: 0 < i < |fs| ==> fs[i] == fs[1..][i - 1] && gs[i] == gs[1..][i - 1];
    }
  }

  lemma NoKeys(fs: seq<Field>)
    ensures KeysOf(fs) == {} <==> fs == []
  {
    if fs != [] { assert fs[0].key in KeysOf(fs); }
  }

  lemma TailKeys(fs: seq<Field>)
    requires fs != [] && Ascending(fs)
    ensures Ascending(fs[1..]) && KeysOf(fs[1..]) == KeysOf(fs) - {fs[0].key}
  {
    AscendingIsUnique(fs);
    forall k | k in KeysOf(fs) - {fs[0].key} ensures k in KeysOf(fs[1..]) {
      var i :| 0 <= i < |fs| && fs[i].key == k;
      assert fs[1..][i - 1].key == k;
    }
    forall k | k in KeysOf(fs[1..]) ensures k in KeysOf(fs) - {fs[0].key} {
      var i :| 0 <= i < |fs| - 1 && fs[1..][i].key == k;
      assert fs[i + 1].key == k;
    }
  }

  lemma SortedKeys(fs: seq<Field>)
    requires UniqueKeys(fs)
    ensures Ascending(Sorted(fs)) && UniqueKeys(Sorted(fs)) && KeysOf(Sorted(fs)) == KeysOf(fs)
  {
    SortedAscends(fs);
    AscendingIsUnique(Sorted(fs));
    SortedMembers(fs);
    forall k ensures k in KeysOf(Sorted(fs)) <==> k in KeysOf(fs) {
      if k in KeysOf(fs) {
        var i :| 0 <= i < |fs| && fs[i].key == k;
        assert fs[i] in Sorted(fs);
      }
      if k in KeysOf(Sorted(fs)) {
        var i :| 0 <= i < |Sorted(fs)| && Sorted(fs)[i].key == k;
        assert Sorted(fs)[i] in fs;
      }
    }
  }

  // ---- values can be read back ----

  /** What may follow a value: nothing, a comma, or a closing bracket or brace. */
  ghost predicate Delimited(x: Text) {
    x == [] || x[0] == COMMA || x[0] == CLOSE_BRACKET || x[0] == CLOSE_BRACE
  }

  /** The first unit of a value's text tells its kind. */
  lemma FirstUnit(v: Json)
    requires WellFormed(v)
    ensures Print(v) != []
    ensures Print(v)[0] == match v
      case Undefined => 0x75
      case Null => 0x6E
      case NonFinite => 0x6E
      case Bool(b) => if b then 0x74 else 0x66
      case Number(d) => d[0]
      case String(_) => QUOTE
      case Array(_) => OPEN_BRACKET
      case Object(_) => OPEN_BRACE
  {
  }

  lemma NumberDecodes(d: Text, e: Text, x: Text, y: Text)
    requires NumberText(d) && NumberText(e) && Delimited(x) && Delimited(y) && d + x == e + y
    ensures d == e && x == y
  {
    NumberNoLonger(d, e, x, y);
    NumberNoLonger(e, d, y, x);
    assert d == (d + x)[..|d|] && e == (e + y)[..|e|];
    assert x == (d + x)[|d|..] && y == (e + y)[|e|..];
  }

  /** Where one number ends the other cannot go on. */
  lemma NumberNoLonger(d: Text, e: Text, x: Text, y: Text)
    requires NumberText(e) && Delimited(x) && d + x == e + y
    ensures |e| <= |d|
  {
    assert forall i :: 0 <= i < |e| ==> (e + y)[i] == e[i];
    assert x != [] ==> (d + x)[|d|] == x[0];
  }

  lemma LiteralDecodes(a: Json, b: Json, x: Text, y: Text)
    requires WellFormed(a) && WellFormed(b) && Delimited(x) && Delimited(y)
    requires !a.Array? && !a.Object? && !b.Array? && !b.Object?
    requires Print(a) + x == Print(b) + y
    ensures Same(a, b) && x == y
  {
    FirstUnit(a);
    FirstUnit(b);
    assert (Print(a) + x)[0] == Print(a)[0] && (Print(b) + y)[0] == Print(b)[0];
    if a.String? && b.String? {
      QuoteDecodes(a.text, b.text, x, y);
    } else if a.Number? && b.Number? {
      NumberDecodes(a.digits, b.digits, x, y);
    } else {
      assert Same(a, b) && Print(a) == Print(b);
      assert x == (Print(a) + x)[|Print(a)|..] == (Print(b) + y)[|Print(b)|..] == y;
    }
  }

  /** Print determines the value up to key order, whatever delimiter and text follow it. */
  lemma {:induction false} Decodes(a: Json, b: Json, x: Text, y: Text)
    requires WellFormed(a) && WellFormed(b) && Delimited(x) && Delimited(y)
    requires Print(a) + x == Print(b) + y
    ensures Same(a, b) && x == y
    decreases a, 2, 0
  {
    SameKind(a, b, x, y);
    if a.Array? {
      ArraySplit(a, x);
      ArraySplit(b, y);
      ItemsDecode(a.items, b.items, x, y);
    } else if a.Object? {
      ObjectSplit(a, x);
      ObjectSplit(b, y);
      SortedWellFormed(a);
      SortedWellFormed(b);
      FieldsDecode(a, Sorted(a.fields), b, Sorted(b.fields), x, y);
      SameFromSorted(a, b);
    } else {
      LiteralDecodes(a, b, x, y);
    }
  }

  lemma SameKind(a: Json, b: Json, x: Text, y: Text)
    requires WellFormed(a) && WellFormed(b) && Print(a) + x == Print(b) + y
    ensures a.Array? == b.Array? && a.Object? == b.Object?
  {
    FirstUnit(a);
    FirstUnit(b);
    assert (Print(a) + x)[0] == Print(a)[0] && (Print(b) + y)[0] == Print(b)[0];
  }

  lemma ArraySplit(v: Json, x: Text)
    requires v.Array?
    ensures (Print(v) + x)[1..] == PrintItems(v.items) + [CLOSE_BRACKET] + x
  {
    WithoutOpening(OPEN_BRACKET, PrintItems(v.items), CLOSE_BRACKET, x);
  }

  lemma ObjectSplit(v: Json, x: Text)
    requires v.Object?
    ensures Inside(v, Sorted(v.fields))
    ensures (Print(v) + x)[1..] == PrintFields(v, Sorted(v.fields)) + [CLOSE_BRACE] + x
  {
    SortedInside(v);
    WithoutOpening(OPEN_BRACE, PrintFields(v, Sorted(v.fields)), CLOSE_BRACE, x);
  }

  lemma SortedWellFormed(v: Json)
    requires v.Object? && WellFormed(v)
    ensures forall i :: 0 <= i < |Sorted(v.fields)| ==> WellFormed(Sorted(v.fields)[i].value)
  {
    SortedMembers(v.fields);
    forall i | 0 <= i < |Sorted(v.fields)| ensures WellFormed(Sorted(v.fields)[i].value) {
      assert Sorted(v.fields)[i] in v.fields;
    }
  }

  /** What follows the first of some items, when `close` ends them all and `x` comes after. */
  ghost function After(more: bool, tail: Text, close: Unit, x: Text): Text {
    if more then [COMMA] + tail + [close] + x else [close] + x
  }

  lemma ItemsSplit(items: seq<Json>, x: Text)
    requires items != []
    ensures PrintItems(items) + [CLOSE_BRACKET] + x
         == Print(items[0]) + After(|items| > 1, PrintItems(items[1..]), CLOSE_BRACKET, x)
  {
    if |items| > 1 {
      Regroup(Print(items[0]), [COMMA], PrintItems(items[1..]), [CLOSE_BRACKET], x);
    } else {
      assert PrintItems(items) == Print(items[0]);
    }
  }

  lemma Regroup(a: Text, b: Text, c: Text, d: Text, x: Text)
    ensures a + b + c + d + x == a + (b + c + d + x)
  {
  }

  lemma ItemsEnd(items: seq<Json>, x: Text)
    requires forall i :: 0 <= i < |items| ==> WellFormed(items[i])
    ensures (PrintItems(items) + [CLOSE_BRACKET] + x)[0] == CLOSE_BRACKET <==> items == []
  {
    if items != [] {
      ItemsSplit(items, x);
      FirstUnit(items[0]);
    }
  }

  /** Equal texts: both lists are empty, or both begin with an item. */
  lemma BothItems(s: seq<Json>, t: seq<Json>, x: Text, y: Text)
    requires forall i :: 0 <= i < |s| ==> WellFormed(s[i])
    requires forall i :: 0 <= i < |t| ==> WellFormed(t[i])
    requires PrintItems(s) + [CLOSE_BRACKET] + x == PrintItems(t) + [CLOSE_BRACKET] + y
    ensures s == [] <==> t == []
    ensures s == [] ==> x == y
    ensures s != [] ==>
      Print(s[0]) + After(|s| > 1, PrintItems(s[1..]), CLOSE_BRACKET, x)
      == Print(t[0]) + After(|t| > 1, PrintItems(t[1..]), CLOSE_BRACKET, y)
  {
    ItemsEnd(s, x);
    ItemsEnd(t, y);
    if s == [] {
      assert x == (PrintItems(s) + [CLOSE_BRACKET] + x)[1..];
      assert y == (PrintItems(t) + [CLOSE_BRACKET] + y)[1..];
    } else {
      ItemsSplit(s, x);
      ItemsSplit(t, y);
    }
  }

  lemma {:induction false} ItemsDecode(s: seq<Json>, t: seq<Json>, x: Text, y: Text)
    requires forall i :: 0 <= i < |s| ==> WellFormed(s[i])
    requires forall i :: 0 <= i < |t| ==> WellFormed(t[i])
    requires PrintItems(s) + [CLOSE_BRACKET] + x == PrintItems(t) + [CLOSE_BRACKET] + y
    ensures |s| == |t| && (forall i :: 0 <= i < |s| ==> Same(s[i], t[i])) && x == y
    decreases s, 0, 0
  {
    BothItems(s, t, x, y);
    if s != [] {
      var p := After(|s| > 1, PrintItems(s[1..]), CLOSE_BRACKET, x);
      var q := After(|t| > 1, PrintItems(t[1..]), CLOSE_BRACKET, y);
      Decodes(s[0], t[0], p, q);
      AfterDecodes(|s| > 1, PrintItems(s[1..]), |t| > 1, PrintItems(t[1..]), CLOSE_BRACKET, x, y);
      if |s| > 1 {
        ItemsDecode(s[1..], t[1..], x, y);
      }
      AllSame(s, t);
    }
  }

  lemma AllSame(s: seq<Json>, t: seq<Json>)
    requires |s| == |t| > 0 && Same(s[0], t[0])
    requires forall i :: 0 <= i < |s[1..]| ==> Same(s[1..][i], t[1..][i])
    ensures forall i :: 0 <= i < |s| ==> Same(s[i], t[i])
  {
    forall i | 0 <= i < |s| ensures Same(s[i], t[i]) {
      if i > 0 { assert s[i] == s[1..][i - 1] && t[i] == t[1..][i - 1]; }
    }
  }

  lemma AfterDecodes(m: bool, s: Text, n: bool, t: Text, close: Unit, x: Text, y: Text)
    requires close != COMMA && After(m, s, close, x) == After(n, t, close, y)
    ensures m == n && (if m then s + [close] + x == t + [close] + y else x == y)
  {
    var l, r := After(m, s, close, x), After(n, t, close, y);
    assert l[0] == r[0];
    assert l[1..] == (if m then s + [close] + x else x);
    assert r[1..] == (if n then t + [close] + y else y);
  }

  lemma FieldsSplit(v: Json, fs: seq<Field>, x: Text)
    requires Inside(v, fs) && fs != []
    ensures PrintFields(v, fs) + [CLOSE_BRACE] + x
         == Quote(fs[0].key) + ([COLON] + (Print(fs[0].value)
              + After(|fs| > 1, PrintFields(v, fs[1..]), CLOSE_BRACE, x)))
  {
  }

  lemma FieldsEnd(v: Json, fs: seq<Field>, x: Text)
    requires Inside(v, fs)
    ensures (PrintFields(v, fs) + [CLOSE_BRACE] + x)[0] == CLOSE_BRACE <==> fs == []
  {
    if fs != [] { FieldsSplit(v, fs, x); }
  }

  lemma KeyDecodes(k: Text, l: Text, s: Text, t: Text)
    requires Quote(k) + ([COLON] + s) == Quote(l) + ([COLON] + t)
    ensures k == l && s == t
  {
    QuoteDecodes(k, l, [COLON] + s, [COLON] + t);
    assert s == ([COLON] + s)[1..] && t == ([COLON] + t)[1..];
  }

  /** Equal texts: both lists are empty, or both begin with the same key. */
  lemma BothFields(v: Json, fs: seq<Field>, w: Json, gs: seq<Field>, x: Text, y: Text)
    requires Inside(v, fs) && Inside(w, gs)
    requires PrintFields(v, fs) + [CLOSE_BRACE] + x == PrintFields(w, gs) + [CLOSE_BRACE] + y
    ensures fs == [] <==> gs == []
    ensures fs == [] ==> x == y
    ensures fs != [] ==>
      && fs[0].key == gs[0].key
      && Print(fs[0].value) + After(|fs| > 1, PrintFields(v, fs[1..]), CLOSE_BRACE, x)
         == Print(gs[0].value) + After(|gs| > 1, PrintFields(w, gs[1..]), CLOSE_BRACE, y)
  {
    FieldsEnd(v, fs, x);
    FieldsEnd(w, gs, y);
    if fs == [] {
      assert x == (PrintFields(v, fs) + [CLOSE_BRACE] + x)[1..];
      assert y == (PrintFields(w, gs) + [CLOSE_BRACE] + y)[1..];
    } else {
      FieldsSplit(v, fs, x);
      FieldsSplit(w, gs, y);
      KeyDecodes(
        fs[0].key, gs[0].key,
        Print(fs[0].value) + After(|fs| > 1, PrintFields(v, fs[1..]), CLOSE_BRACE, x),
        Print(gs[0].value) + After(|gs| > 1, PrintFields(w, gs[1..]), CLOSE_BRACE, y));
    }
  }

  lemma {:induction false} FieldsDecode(v: Json, fs: seq<Field>, w: Json, gs: seq<Field>, x: Text, y: Text)
    requires Inside(v, fs) && Inside(w, gs)
    requires forall i :: 0 <= i < |fs| ==> WellFormed(fs[i].value)
    requires forall i :: 0 <= i < |gs| ==> WellFormed(gs[i].value)
    requires PrintFields(v, fs) + [CLOSE_BRACE] + x == PrintFields(w, gs) + [CLOSE_BRACE] + y
    ensures |fs| == |gs| && x == y
    ensures forall i :: 0 <= i < |fs| ==> fs[i].key == gs[i].key && Same(fs[i].value, gs[i].value)
    decreases v, 1, |fs|
  {
    BothFields(v, fs, w, gs, x, y);
    if fs != [] {
      var p := After(|fs| > 1, PrintFields(v, fs[1..]), CLOSE_BRACE, x);
      var q := After(|gs| > 1, PrintFields(w, gs[1..]), CLOSE_BRACE, y);
      Decodes(fs[0].value, gs[0].value, p, q);
      AfterDecodes(|fs| > 1, PrintFields(v, fs[1..]), |gs| > 1, PrintFields(w, gs[1..]), CLOSE_BRACE, x, y);
      if |fs| > 1 {
        FieldsDecode(v, fs[1..], w, gs[1..], x, y);
        assert forall i :: 0 < i < |fs| ==> fs[i] == fs[1..][i - 1] && gs[i] == gs[1..][i - 1];
      }
    }
  }

  /** Objects whose sorted properties agree one by one are the same. */
  lemma SameFromSorted(a: Json, b: Json)
    requires a.Object? && b.Object? && WellFormed(a) && WellFormed(b)
    requires |Sorted(a.fields)| == |Sorted(b.fields)|
    requires forall i :: 0 <= i < |Sorted(a.fields)| ==>
               Sorted(a.fields)[i].key == Sorted(b.fields)[i].key
               && Same(Sorted(a.fields)[i].value, Sorted(b.fields)[i].value)
    ensures Same(a, b)
  {
    SortedKeys(a.fields);
    SortedKeys(b.fields);
    SameKeys(Sorted(a.fields), Sorted(b.fields));
    forall i, j | 0 <= i < |a.fields| && 0 <= j < |b.fields| && a.fields[i].key == b.fields[j].key
      ensures Same(a.fields[i].value, b.fields[j].value)
    {
      SortedMembers(a.fields);
      SortedMembers(b.fields);
      assert a.fields[i] in a.fields && b.fields[j] in b.fields;
      SameAt(Sorted(a.fields), Sorted(b.fields), a.fields[i], b.fields[j]);
    }
  }

  lemma SameKeys(fs: seq<Field>, gs: seq<Field>)
    requires |fs| == |gs| && forall i :: 0 <= i < |fs| ==> fs[i].key == gs[i].key
    ensures KeysOf(fs) == KeysOf(gs)
  {
    forall k ensures k in KeysOf(fs) <==> k in KeysOf(gs) {
      if k in KeysOf(fs) { var i :| 0 <= i < |fs| && fs[i].key == k; assert gs[i].key == k; }
      if k in KeysOf(gs) { var i :| 0 <= i < |gs| && gs[i].key == k; assert fs[i].key == k; }
    }
  }

  lemma SameAt(fs: seq<Field>, gs: seq<Field>, f: Field, g: Field)
    requires UniqueKeys(fs) && |fs| == |gs| && f in fs && g in gs && f.key == g.key
    requires forall i :: 0 <= i < |fs| ==> fs[i].key == gs[i].key && Same(fs[i].value, gs[i].value)
    ensures Same(f.value, g.value)
  {
    var p :| 0 <= p < |fs| && fs[p] == f;
    var q :| 0 <= q < |gs| && gs[q] == g;
    assert fs[p].key == fs[q].key;
    assert p == q;
  }

  // ---- and key order does not show ----

  lemma {:induction false} SamePrintsEqual(a: Json, b: Json)
    requires WellFormed(a) && WellFormed(b) && Same(a, b)
    ensures Print(a) == Print(b)
    decreases a, 2, 0
  {
    if a.Array? {
      SameItemsPrintEqual(a.items, b.items);
    } else if a.Object? {
      var fs, gs := Sorted(a.fields), Sorted(b.fields);
      SortedKeys(a.fields);
      SortedKeys(b.fields);
      SameKeysSameOrder(fs, gs);
      SortedInside(a);
      SortedInside(b);
      SortedWellFormed(a);
      SortedWellFormed(b);
      SortedMembers(a.fields);
      SortedMembers(b.fields);
      forall i | 0 <= i < |fs| ensures Same(fs[i].value, gs[i].value) {
        assert fs[i] in a.fields && gs[i] in b.fields;
        var p :| 0 <= p < |a.fields| && a.fields[p] == fs[i];
        var q :| 0 <= q < |b.fields| && b.fields[q] == gs[i];
        assert a.fields[p].key == b.fields[q].key;
      }
      SameFieldsPrintEqual(a, fs, b, gs);
    }
  }

  lemma {:induction false} SameItemsPrintEqual(s: seq<Json>, t: seq<Json>)
    requires |s| == |t| && forall i :: 0 <= i < |s| ==> WellFormed(s[i]) && WellFormed(t[i]) && Same(s[i], t[i])
    ensures PrintItems(s) == PrintItems(t)
    decreases s, 0, 0
  {
    if s != [] {
      SamePrintsEqual(s[0], t[0]);
      SameItemsPrintEqual(s[1..], t[1..]);
    }
  }

  lemma {:induction false} SameFieldsPrintEqual(v: Json, fs: seq<Field>, w: Json, gs: seq<Field>)
    requires Inside(v, fs) && Inside(w, gs) && |fs| == |gs|
    requires forall i :: 0 <= i < |fs| ==> fs[i].key == gs[i].key && Same(fs[i].value, gs[i].value)
    requires forall i :: 0 <= i < |fs| ==> WellFormed(fs[i].value) && WellFormed(gs[i].value)
    ensures PrintFields(v, fs) == PrintFields(w, gs)
    decreases v, 1, |fs|
  {
    if fs != [] {
      SamePrintsEqual(fs[0].value, gs[0].value);
      SameFieldsPrintEqual(v, fs[1..], w, gs[1..]);
    }
  }

  /** Equal text, and so an equal fingerprint, exactly for values that are equal up to key order. */
  lemma EqualTextIffSame(a: Json, b: Json)
    requires WellFormed(a) && WellFormed(b)
    ensures Print(a) == Print(b) <==> Same(a, b)
  {
    if Print(a) == Print(b) {
      assert Print(a) + [] == Print(b) + [];
      Decodes(a, b, [], []);
    }
    if Same(a, b) { SamePrintsEqual(a, b); }
  }
}
