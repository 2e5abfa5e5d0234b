/** The canonical text is JSON by the grammar of RFC 8259: it reads back as the value with its keys in order. */
module JsonText {
  import opened Prelude
  import opened StableStringify
  import Strings

  /** The characters of a text in the basic plane. */
  ghost function Word(s: string): Text { Strings.Utf16(s) }

  ghost function Mark(c: char): Unit
    requires c as int < 0x1_0000
  {
    c as int
  }

  // ---- strings ----

  function HexValue(u: Unit): Option<int> {
    if 0x30 <= u <= 0x39 then Some(u - 0x30)
    else if 0x61 <= u <= 0x66 then Some(u - 0x57)
    else None
  }

  /** The unit that four hexadecimal digits stand for. */
  function FromHex(t: Text): Option<int> {
    if |t| < 4 || HexValue(t[0]).None? || HexValue(t[1]).None? || HexValue(t[2]).None? || HexValue(t[3]).None? then None
    else
      Some(((HexValue(t[0]).value * 16 + HexValue(t[1]).value) * 16 + HexValue(t[2]).value) * 16 + HexValue(t[3]).value)
  }

  /** The unit after a backslash, for the escapes of two characters. */
  ghost function Escaped(u: Unit): Option<Unit> {
    if u == Mark('"') || u == Mark('\\') || u == Mark('/') then Some(u)
    else if u == Mark('b') then Some(8)
    else if u == Mark('t') then Some(9)
    else if u == Mark('n') then Some(10)
    else if u == Mark('f') then Some(12)
    else if u == Mark('r') then Some(13)
    else None
  }

  /** What stands between the quotation marks, with its escapes resolved; section 7 of RFC 8259. */
  ghost function Unescape(t: Text): Option<Text> {
    if t == [] then Some([])
    else if t[0] == Mark('"') || t[0] < 0x20 then None
    else if t[0] != Mark('\\') then Before1(t[0], Unescape(t[1..]))
    else if |t| >= 6 && t[1] == Mark('u') then
      match FromHex(t[2..6])
      case None => None
      case Some(n) => if 0 <= n < 0x1_0000 then Before1(n, Unescape(t[6..])) else None
    else if |t| >= 2 && Escaped(t[1]).Some? then Before1(Escaped(t[1]).value, Unescape(t[2..]))
    else None
  }

  ghost function Before1(u: Unit, rest: Option<Text>): Option<Text> {
    match rest
    case None => None
    case Some(t) => Some([u] + t)
  }

  lemma HexIs(u: Unit)
    ensures |UnicodeEscape(u)| == 6 && UnicodeEscape(u)[0] == Mark('\\') && UnicodeEscape(u)[1] == Mark('u')
    ensures FromHex(UnicodeEscape(u)[2..6]) == Some(u)
  {
    var e := UnicodeEscape(u);
    var q1 := u / 0x10;
    var q2 := q1 / 0x10;
    var q3 := q2 / 0x10;
    assert q3 < 16;
    assert e[2..6] == [HexDigit(q3), HexDigit(q2 % 0x10), HexDigit(q1 % 0x10), HexDigit(u % 0x10)];
    HexDigitIs(q3);
    HexDigitIs(q2 % 0x10);
    HexDigitIs(q1 % 0x10);
    HexDigitIs(u % 0x10);
  }

  lemma HexDigitIs(n: int)
    requires 0 <= n < 16
    ensures HexValue(HexDigit(n)) == Some(n)
  {
  }

  lemma OneIsUnescaped(u: Unit, rest: Text)
    ensures Unescape(EscapeUnit(u) + rest) == Before1(u, Unescape(rest))
  {
    var e := EscapeUnit(u);
    var t := e + rest;
    assert t[|e|..] == rest;
    if |e| == 6 {
      HexIs(u);
      assert t[2..6] == e[2..6];
    } else if |e| == 2 {
      assert t[0] == e[0] && t[1] == e[1];
    } else {
      assert t[0] == u;
    }
  }

  /** Escaping is undone by reading. */
  lemma {:induction false} UnescapeUndoes(s: Text)
    ensures Unescape(Escape(s)) == Some(s)
  {
    if s != [] {
      if StartsPair(s) {
        UnescapeUndoes(s[2..]);
        var t := [s[0], s[1]] + Escape(s[2..]);
        assert t[1..][1..] == Escape(s[2..]) && s == [s[0]] + ([s[1]] + s[2..]);
      } else {
        UnescapeUndoes(s[1..]);
        OneIsUnescaped(s[0], Escape(s[1..]));
        assert s == [s[0]] + s[1..];
      }
    }
  }

  /** The two-character escape where there is one, the unit itself where it may stand, and six characters else. */
  lemma EscapeIsShortest(u: Unit)
    ensures forall x :: Escaped(x) == Some(u) && x != Mark('/') ==> EscapeUnit(u) == [Mark('\\'), x]
    ensures 0x20 <= u && u != Mark('"') && u != Mark('\\') && !(0xD800 <= u <= 0xDFFF) ==> EscapeUnit(u) == [u]
    ensures |EscapeUnit(u)| == 6 <==>
      0xD800 <= u <= 0xDFFF || (u < 0x20 && forall x :: Escaped(x) != Some(u))
  {
    assert Escaped(Mark('b')) == Some(8) && Escaped(Mark('t')) == Some(9) && Escaped(Mark('n')) == Some(10);
    assert Escaped(Mark('f')) == Some(12) && Escaped(Mark('r')) == Some(13);
  }

  /** Units that may stand as they are, and whole surrogate pairs. */
  ghost predicate NeedsNoEscape(t: Text) {
    t != [] ==>
      if |t| >= 2 && 0xD800 <= t[0] < 0xDC00 && 0xDC00 <= t[1] < 0xE000 then NeedsNoEscape(t[2..])
      else
        && 0x20 <= t[0] && t[0] != Mark('"') && t[0] != Mark('\\') && !(0xD800 <= t[0] < 0xE000)
        && NeedsNoEscape(t[1..])
  }

  /** Such a text is printed as it is. */
  lemma {:induction false} PlainTextIsKept(t: Text)
    requires NeedsNoEscape(t)
    ensures Escape(t) == t
  {
    if t != [] { PlainTextIsKept(if StartsPair(t) then t[2..] else t[1..]); }
  }

  // ---- values ----

  /** In quotation marks, and what is between them reads as the string. */
  ghost predicate IsString(s: Text, t: Text) {
    && |t| >= 2 && t[0] == Mark('"') && t[|t| - 1] == Mark('"') && Unescape(t[1..|t| - 1]) == Some(s)
  }

  /** One after the other, with commas between them. */
  ghost function Separated(parts: seq<Text>): Text {
    if parts == [] then []
    else if |parts| == 1 then parts[0]
    else Separated(parts[..|parts| - 1]) + [Mark(',')] + parts[|parts| - 1]
  }

  /** Strictly before it by code units: a proper prefix, or smaller at the first difference. */
  ghost predicate Precedes(a: Text, b: Text) {
    exists i :: 0 <= i <= |a| && i < |b| && a[..i] == b[..i] && (i == |a| || a[i] < b[i])
  }

  /** The key, a colon, and the value. */
  ghost predicate IsMember(v: Json, f: Field, member: Text)
    requires f.value < v
    decreases v, 0, 0
  {
    exists k, t :: member == k + [Mark(':')] + t && IsString(f.key, k) && IsText(f.value, t)
  }

  ghost predicate AreMembers(v: Json, fs: seq<Field>, members: seq<Text>)
    decreases v, 0, 1
  {
    |members| == |fs| && Inside(v, fs) && forall i :: 0 <= i < |fs| ==> IsMember(v, fs[i], members[i])
  }

  ghost predicate InOrder(fs: seq<Field>) { forall i, j :: 0 <= i < j < |fs| ==> Precedes(fs[i].key, fs[j].key) }

  ghost predicate AreTexts(v: Json, items: seq<Json>, parts: seq<Text>)
    requires forall i :: 0 <= i < |items| ==> items[i] < v
    decreases v, 0, 0
  {
    |parts| == |items| && forall i :: 0 <= i < |items| ==> IsText(items[i], parts[i])
  }

  /** The text of the value, its keys ascending; numbers stand for themselves, and what JSON lacks is null. */
  ghost predicate IsText(v: Json, t: Text)
    decreases v, 1, 0
  {
    match v
    case Undefined => t == Word("undefined")
    case Null => t == Word("null")
    case NonFinite => t == Word("null")
    case Bool(b) => t == if b then Word("true") else Word("false")
    case Number(d) => t == d
    case String(s) => IsString(s, t)
    case Array(items) =>
      exists parts: seq<Text> ::
        t == [Mark('[')] + Separated(parts) + [Mark(']')] && AreTexts(v, items, parts)
    case Object(fields) =>
      exists fs: seq<Field>, members: seq<Text> ::
        && multiset(fs) == multiset(fields) && InOrder(fs)
        && t == [Mark('{')] + Separated(members) + [Mark('}')] && AreMembers(v, fs, members)
  }

  lemma {:induction false} SeparatedFirst(first: Text, rest: seq<Text>)
    requires rest != []
    ensures Separated([first] + rest) == first + [Mark(',')] + Separated(rest)
  {
    var all := [first] + rest;
    if |rest| == 1 {
      assert all[..1] == [first];
    } else {
      SeparatedFirst(first, rest[..|rest| - 1]);
      assert all[..|all| - 1] == [first] + rest[..|rest| - 1];
    }
  }

  lemma {:induction false} BeforePrecedes(a: Text, b: Text)
    requires Before(a, b)
    ensures Precedes(a, b)
  {
    if a != [] && a[0] == b[0] {
      BeforePrecedes(a[1..], b[1..]);
      var i :| 0 <= i <= |a| - 1 && i < |b| - 1 && a[1..][..i] == b[1..][..i]
        && (i == |a| - 1 || a[1..][i] < b[1..][i]);
      assert a[..i + 1] == [a[0]] + a[1..][..i] && b[..i + 1] == [b[0]] + b[1..][..i];
    } else {
      assert a[..0] == b[..0];
    }
  }

  lemma QuoteIsString(s: Text)
    ensures IsString(s, Quote(s))
  {
    UnescapeUndoes(s);
    var t := Quote(s);
    assert t[1..|t| - 1] == Escape(s);
  }

  lemma LiteralIsText(v: Json)
    requires !v.Array? && !v.Object?
    ensures IsText(v, Literal(v))
  {
    if v.String? { QuoteIsString(v.text); }
    WordsAre();
  }

  lemma WordsAre()
    ensures Word("null") == [0x6E, 0x75, 0x6C, 0x6C]
    ensures Word("true") == [0x74, 0x72, 0x75, 0x65] && Word("false") == [0x66, 0x61, 0x6C, 0x73, 0x65]
    ensures Word("undefined") == [0x75, 0x6E, 0x64, 0x65, 0x66, 0x69, 0x6E, 0x65, 0x64]
  {
    NullIs();
    BoolsAre();
    UndefinedIs();
  }

  lemma NullIs()
    ensures Word("null") == [0x6E, 0x75, 0x6C, 0x6C]
  {
    Spelled("null");
  }

  lemma BoolsAre()
    ensures Word("true") == [0x74, 0x72, 0x75, 0x65] && Word("false") == [0x66, 0x61, 0x6C, 0x73, 0x65]
  {
    Spelled("true");
    Spelled("false");
  }

  lemma UndefinedIs()
    ensures Word("undefined") == [0x75, 0x6E, 0x64, 0x65, 0x66, 0x69, 0x6E, 0x65, 0x64]
  {
    Spelled("undefined");
  }

  lemma {:induction false} Spelled(s: string)
    requires forall i :: 0 <= i < |s| ==> s[i] as int < 0x1_0000
    ensures Word(s) == seq(|s|, i requires 0 <= i < |s| => s[i] as int)
  {
    if s != "" { Spelled(s[1..]); }
  }

  /** Every value prints to its text. */
  lemma {:induction false} PrintIsText(v: Json)
    requires WellFormed(v)
    ensures IsText(v, Print(v))
    decreases v, 2, 0
  {
    match v
    case Array(items) => var parts := ItemsAreText(v, items);
    case Object(fields) =>
      SortedInside(v);
      SortedWellFormed(v);
      SortedAreInOrder(fields);
      var members := MembersAreText(v, Sorted(fields));
    case _ => LiteralIsText(v);
  }

  lemma SortedAreInOrder(fs: seq<Field>)
    requires UniqueKeys(fs)
    ensures InOrder(Sorted(fs)) && multiset(Sorted(fs)) == multiset(fs)
  {
    SortedAscends(fs);
    forall i, j | 0 <= i < j < |Sorted(fs)| ensures Precedes(Sorted(fs)[i].key, Sorted(fs)[j].key) {
      BeforePrecedes(Sorted(fs)[i].key, Sorted(fs)[j].key);
    }
  }

  lemma {:induction false} ItemsAreText(v: Json, items: seq<Json>) returns (parts: seq<Text>)
    requires forall i :: 0 <= i < |items| ==> items[i] < v && WellFormed(items[i])
    ensures AreTexts(v, items, parts) && PrintItems(items) == Separated(parts)
    decreases v, 1, |items|
  {
    if items == [] {
      parts := [];
    } else {
      PrintIsText(items[0]);
      var rest := ItemsAreText(v, items[1..]);
      parts := [Print(items[0])] + rest;
      OneMoreItem(items, rest);
      OneMoreText(v, items, Print(items[0]), rest);
    }
  }

  lemma OneMoreText(v: Json, items: seq<Json>, first: Text, rest: seq<Text>)
    requires items != [] && forall i :: 0 <= i < |items| ==> items[i] < v
    requires IsText(items[0], first) && AreTexts(v, items[1..], rest)
    ensures AreTexts(v, items, [first] + rest)
  {
    forall i | 0 <= i < |items| ensures IsText(items[i], ([first] + rest)[i]) {
      if i > 0 { assert items[i] == items[1..][i - 1] && ([first] + rest)[i] == rest[i - 1]; }
    }
  }

  lemma OneMoreItem(items: seq<Json>, rest: seq<Text>)
    requires items != [] && |rest| == |items| - 1 && PrintItems(items[1..]) == Separated(rest)
    ensures PrintItems(items) == Separated([Print(items[0])] + rest)
  {
    if rest != [] { SeparatedFirst(Print(items[0]), rest); }
  }

  lemma {:induction false} MembersAreText(v: Json, fs: seq<Field>) returns (members: seq<Text>)
    requires Inside(v, fs) && forall i :: 0 <= i < |fs| ==> WellFormed(fs[i].value)
    ensures AreMembers(v, fs, members) && PrintFields(v, fs) == Separated(members)
    decreases v, 1, |fs|
  {
    if fs == [] {
      members := [];
    } else {
      var first := PrintField(v, fs[0]);
      PrintIsText(fs[0].value);
      FieldIsMember(v, fs[0]);
      var rest := MembersAreText(v, fs[1..]);
      members := [first] + rest;
      if rest != [] { SeparatedFirst(first, rest); }
      OneMoreMember(v, fs, first, rest);
    }
  }

  lemma OneMoreMember(v: Json, fs: seq<Field>, first: Text, rest: seq<Text>)
    requires fs != [] && Inside(v, fs) && IsMember(v, fs[0], first) && AreMembers(v, fs[1..], rest)
    ensures AreMembers(v, fs, [first] + rest)
  {
    forall i | 0 <= i < |fs| ensures IsMember(v, fs[i], ([first] + rest)[i]) {
      if i > 0 { assert fs[i] == fs[1..][i - 1] && ([first] + rest)[i] == rest[i - 1]; }
    }
  }

  lemma FieldIsMember(v: Json, f: Field)
    requires f.value < v && IsText(f.value, Print(f.value))
    ensures IsMember(v, f, PrintField(v, f))
  {
    QuoteIsString(f.key);
    assert PrintField(v, f) == Quote(f.key) + [Mark(':')] + Print(f.value);
  }
}
