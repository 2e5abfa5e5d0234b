/** UTF-16 text, numerals, and joining and splitting text at a separator. */
module Strings {

  // ---- code units ----

  type Unit = u: int | 0 <= u < 0x1_0000

  /** What a JavaScript string is; its `length` counts code units. */
  type Text = seq<Unit>

  /** Characters beyond the basic plane take a surrogate pair. */
  function Units(c: char): Text {
    var v := c as int;
    if v < 0x1_0000 then [v] else [0xD800 + (v - 0x1_0000) / 0x400, 0xDC00 + (v - 0x1_0000) % 0x400]
  }

  function Utf16(s: string): Text { if s == "" then [] else Units(s[0]) + Utf16(s[1..]) }

  /** A character beyond the basic plane is a high and a low surrogate, each with ten of its bits. */
  lemma Utf16OfOne(c: char)
    ensures var t, v := Utf16([c]), c as int;
      if v < 0x1_0000 then t == [v]
      else
        && |t| == 2 && 0xD800 <= t[0] < 0xDC00 && 0xDC00 <= t[1] < 0xE000
        && v == 0x1_0000 + (t[0] as int - 0xD800) * 0x400 + (t[1] as int - 0xDC00)
  {
  }

  lemma Associates(a: Text, b: Text, c: Text)
    ensures a + (b + c) == a + b + c
  {
  }

  lemma {:induction false} Utf16Joins(a: string, b: string)
    ensures Utf16(a + b) == Utf16(a) + Utf16(b)
  {
    if a == "" {
      assert a + b == b;
    } else {
      Utf16Joins(a[1..], b);
      assert (a + b)[1..] == a[1..] + b;
      Associates(Units(a[0]), Utf16(a[1..]), Utf16(b));
    }
  }

  // ---- numerals ----

  const DIGITS := "0123456789abcdef"

  function Digit(d: nat): char
    requires d < 16
  {
    DIGITS[d]
  }

  function Numeral(n: nat, radix: nat): string
    requires 2 <= radix <= 16
  {
    if n < radix then [Digit(n)] else Numeral(n / radix, radix) + [Digit(n % radix)]
  }

  /** What a digit stands for. */
  function DigitValue(c: char): nat {
    if '0' <= c <= '9' then (c - '0') as int else if 'a' <= c <= 'f' then 10 + (c - 'a') as int else 0
  }

  function Value(s: string, radix: nat): nat {
    if s == "" then 0 else Value(s[..|s| - 1], radix) * radix + DigitValue(s[|s| - 1])
  }

  /** A numeral is worth the number it was made of. */
  lemma {:induction false} NumeralIsWorth(n: nat, radix: nat)
    requires 2 <= radix <= 16
    ensures Value(Numeral(n, radix), radix) == n
  {
    if n < radix {
      OneDigitIsWorth("", n, radix);
      assert "" + [Digit(n)] == Numeral(n, radix);
    } else {
      NumeralIsWorth(n / radix, radix);
      OneDigitIsWorth(Numeral(n / radix, radix), n % radix, radix);
      DivMod(n, radix);
    }
  }

  lemma OneDigitIsWorth(s: string, d: nat, radix: nat)
    requires d < 16
    ensures Value(s + [Digit(d)], radix) == Value(s, radix) * radix + d
  {
    var t := s + [Digit(d)];
    assert t[..|t| - 1] == s && t[|t| - 1] == Digit(d);
    DigitIsWorth(d);
  }

  lemma DigitIsWorth(d: nat)
    requires d < 16
    ensures DigitValue(Digit(d)) == d
  {
  }

  lemma DivMod(n: nat, radix: nat)
    requires radix > 0
    ensures n / radix * radix + n % radix == n
  {
  }

  lemma {:induction false} NumeralIsPlain(n: nat, radix: nat, sep: char)
    requires 2 <= radix <= 16 && sep !in DIGITS
    ensures sep !in Numeral(n, radix) && Numeral(n, radix) != ""
  {
    if n >= radix { NumeralIsPlain(n / radix, radix, sep); }
  }

  lemma DigitDecodes(a: nat, b: nat)
    requires a < 16 && b < 16 && Digit(a) == Digit(b)
    ensures a == b
  {
  }

  /** Different numbers have different decimal numerals. */
  lemma {:induction false} DecimalDecodes(a: nat, b: nat)
    requires Numeral(a, 10) == Numeral(b, 10)
    ensures a == b
  {
    DecimalEnds(a);
    DecimalEnds(b);
    DigitDecodes(a % 10, b % 10);
    if a >= 10 { DecimalDecodes(a / 10, b / 10); }
  }

  /** The last digit is the remainder; what is before it is the numeral of the quotient. */
  lemma DecimalEnds(n: nat)
    ensures var s := Numeral(n, 10);
      && |s| > 0 && s[|s| - 1] == Digit(n % 10)
      && (if n < 10 then |s| == 1 else |s| > 1 && s[..|s| - 1] == Numeral(n / 10, 10))
  {
    if n >= 10 { NumeralIsPlain(n / 10, 10, ' '); }
  }

  // ---- join and split ----

  /** `split(sep)`. */
  function Split(s: string, sep: char): (parts: seq<string>)
    ensures parts != []
  {
    if s == "" then [""]
    else
      var rest := Split(s[1..], sep);
      if s[0] == sep then [""] + rest else [[s[0]] + rest[0]] + rest[1..]
  }

  /** `join(sep)` of at least one part. */
  function Join(parts: seq<string>, sep: char): string
    requires parts != []
  {
    if |parts| == 1 then parts[0] else parts[0] + [sep] + Join(parts[1..], sep)
  }

  function Count(s: string, c: char): nat { if s == "" then 0 else (if s[0] == c then 1 else 0) + Count(s[1..], c) }

  function CountIn(parts: seq<string>, c: char): nat {
    if parts == [] then 0 else Count(parts[0], c) + CountIn(parts[1..], c)
  }

  lemma {:induction false} SplitCounts(s: string, sep: char)
    ensures |Split(s, sep)| == 1 + Count(s, sep)
  {
    if s != "" { SplitCounts(s[1..], sep); }
  }

  /** Joining undoes splitting, and no part contains the separator. */
  lemma {:induction false} JoinUndoesSplit(s: string, sep: char)
    ensures Join(Split(s, sep), sep) == s
    ensures forall i :: 0 <= i < |Split(s, sep)| ==> sep !in Split(s, sep)[i]
  {
    if s != "" {
      JoinUndoesSplit(s[1..], sep);
      var rest, parts := Split(s[1..], sep), Split(s, sep);
      if s[0] == sep {
        assert parts[1..] == rest;
        assert Join(parts, sep) == "" + [sep] + s[1..];
      } else {
        assert parts[1..] == rest[1..] && parts[0] == [s[0]] + rest[0];
        assert Join(parts, sep) == [s[0]] + Join(rest, sep);
      }
      assert forall i :: 0 < i < |parts| ==> parts[i] == parts[1..][i - 1];
    }
  }

  lemma {:induction false} CountAdds(a: string, b: string, c: char)
    ensures Count(a + b, c) == Count(a, c) + Count(b, c)
  {
    if a == "" {
      assert a + b == b;
    } else {
      CountAdds(a[1..], b, c);
      assert (a + b)[1..] == a[1..] + b;
    }
  }

  lemma {:induction false} CountIsZero(s: string, c: char)
    ensures Count(s, c) == 0 <==> c !in s
  {
    if s != "" {
      CountIsZero(s[1..], c);
      assert s == [s[0]] + s[1..];
    }
  }

  lemma {:induction false} CountInIsZero(parts: seq<string>, c: char)
    ensures CountIn(parts, c) == 0 <==> forall i :: 0 <= i < |parts| ==> c !in parts[i]
  {
    if parts != [] {
      CountInIsZero(parts[1..], c);
      CountIsZero(parts[0], c);
      assert forall i :: 0 < i < |parts| ==> parts[i] == parts[1..][i - 1];
    }
  }

  /** The separators in a joined text are the ones put between the parts and the ones inside them. */
  lemma {:induction false} JoinCounts(parts: seq<string>, sep: char)
    requires parts != []
    ensures Count(Join(parts, sep), sep) == |parts| - 1 + CountIn(parts, sep)
  {
    if |parts| > 1 {
      JoinCounts(parts[1..], sep);
      CountAdds(parts[0] + [sep], Join(parts[1..], sep), sep);
      CountAdds(parts[0], [sep], sep);
    }
  }

  lemma {:induction false} SplitFirst(a: string, b: string, sep: char)
    requires sep !in a
    ensures Split(a + [sep] + b, sep) == [a] + Split(b, sep)
  {
    var s := a + [sep] + b;
    if a == "" {
      assert s[1..] == b;
    } else {
      SplitFirst(a[1..], b, sep);
      assert s[1..] == a[1..] + [sep] + b;
      assert a[0] in a && a == [a[0]] + a[1..];
      assert ([a[1..]] + Split(b, sep))[1..] == Split(b, sep);
    }
  }

  lemma {:induction false} SplitWhole(a: string, sep: char)
    requires sep !in a
    ensures Split(a, sep) == [a]
  {
    if a != "" {
      SplitWhole(a[1..], sep);
      assert a[0] in a && a == [a[0]] + a[1..];
    }
  }

  /** Splitting undoes joining exactly when no part contains the separator. */
  lemma {:induction false} SplitUndoesJoinIff(parts: seq<string>, sep: char)
    requires parts != []
    ensures Split(Join(parts, sep), sep) == parts <==> forall i :: 0 <= i < |parts| ==> sep !in parts[i]
  {
    SplitCounts(Join(parts, sep), sep);
    JoinCounts(parts, sep);
    CountInIsZero(parts, sep);
    if forall i :: 0 <= i < |parts| ==> sep !in parts[i] {
      SplitJoin(parts, sep);
    }
  }

  lemma {:induction false} SplitJoin(parts: seq<string>, sep: char)
    requires parts != [] && forall i :: 0 <= i < |parts| ==> sep !in parts[i]
    ensures Split(Join(parts, sep), sep) == parts
  {
    if |parts| == 1 {
      SplitWhole(parts[0], sep);
    } else {
      SplitJoin(parts[1..], sep);
      SplitFirst(parts[0], Join(parts[1..], sep), sep);
    }
  }
}
