/** The text of a search cursor. */
module SearchCursor {
  import opened Prelude
  import opened Strings

  datatype Kind = Search | ByTag

  datatype Parsed = Parsed(snapshotId: string, offset: nat, hash: string)

  datatype CursorError = InvalidCursor | InvalidOffset | NotFound | Mismatch

  function Prefix(kind: Kind): string { if kind.Search? then "search" else "search_by_tag" }

  // ---- hashes ----

  function Folded(step: (bv32, Unit) -> bv32, text: seq<Unit>, hash: bv32): bv32 {
    if text == [] then hash else Folded(step, text[1..], step(hash, text[0]))
  }

  lemma {:induction false} FoldedOneMore(step: (bv32, Unit) -> bv32, text: seq<Unit>, u: Unit, hash: bv32)
    ensures Folded(step, text + [u], hash) == step(Folded(step, text, hash), u)
  {
    if text == [] {
      assert text + [u] == [u];
    } else {
      FoldedOneMore(step, text[1..], u, step(hash, text[0]));
      assert (text + [u])[1..] == text[1..] + [u];
    }
  }

  function Mixed(hash: bv32, u: Unit): bv32 { (hash ^ (u as bv32)) * 16777619 }

  /** 32-bit FNV-1a over the code units. */
  function Fnv(text: seq<Unit>): bv32 { Folded(Mixed, text, 2166136261) }

  method Hash(query: string) returns (r: string)
    ensures r == HashSearchQuery(query)
  {
    var units := Utf16(query);
    var hash: bv32 := 2166136261;
    for i := 0 to |units|
      invariant hash == Fnv(units[..i])
    {
      assert units[..i + 1] == units[..i] + [units[i]];
      FoldedOneMore(Mixed, units[..i], units[i], 2166136261);
      hash := Mixed(hash, units[i]);
    }
    assert units[..|units|] == units;
    return Numeral(hash as int, 16);
  }

  /** Two published values of the 32-bit FNV-1a hash. */
  lemma HashIsFnv1a()
    ensures Fnv(Utf16("")) == 0x811C_9DC5
    ensures Fnv(Utf16("a")) == 0xE40C_292C
  {
    assert Utf16("a") == [0x61];
    assert Fnv(Utf16("a")) == Mixed(2166136261, 0x61);
  }

  function HashSearchQuery(query: string): string { Numeral(Fnv(Utf16(query)) as int, 16) }

  // ---- cursors ----

  function Parts(kind: Kind, id: string, offset: nat, hash: string): seq<string> {
    [Prefix(kind), "v1", id, Numeral(offset, 10), hash]
  }

  function CursorText(kind: Kind, id: string, offset: nat, hash: string): string {
    Join(Parts(kind, id, offset, hash), ':')
  }

  /** The kind of search, the version, the snapshot, the offset and the hash, with colons between them. */
  lemma CursorTextIs(kind: Kind, id: string, offset: nat, hash: string)
    ensures CursorText(kind, id, offset, hash)
         == (if kind.Search? then "search" else "search_by_tag") + ":v1:" + id + ":" + Numeral(offset, 10) + ":" + hash
  {
    PartsAreJoined(kind, id, Numeral(offset, 10), hash);
  }

  /** No cursor when nothing is left. */
  function CreateCursor(kind: Kind, id: string, hash: string, total: nat, offset: nat): Option<string> {
    if offset >= total then None else Some(CursorText(kind, id, offset, hash))
  }

  /** `number` is JavaScript's `Number`, reduced to its integer results. */
  function ParseCursor(number: string -> Option<int>, kind: Kind, cursor: string): Result<Parsed, CursorError> {
    var parts := Split(cursor, ':');
    if |parts| != 5 || parts[0] != Prefix(kind) || parts[1] != "v1" then Err(InvalidCursor)
    else match number(parts[3])
      case None => Err(InvalidOffset)
      case Some(offset) => if offset < 0 then Err(InvalidOffset) else Ok(Parsed(parts[2], offset, parts[4]))
  }

  /** A kind and a version, then an id, a text for the offset, and a hash, without colons in any of them. */
  ghost predicate IsCursor(kind: Kind, cursor: string, id: string, text: string, hash: string) {
    && ':' !in id && ':' !in text && ':' !in hash
    && cursor == (if kind.Search? then "search" else "search_by_tag") + ":v1:" + id + ":" + text + ":" + hash
  }

  lemma PartsAreJoined(kind: Kind, id: string, text: string, hash: string)
    ensures Join([Prefix(kind), "v1", id, text, hash], ':')
         == (if kind.Search? then "search" else "search_by_tag") + ":v1:" + id + ":" + text + ":" + hash
  {
    var parts := [Prefix(kind), "v1", id, text, hash];
    assert parts[1..] == ["v1", id, text, hash] && parts[1..][1..] == [id, text, hash];
    assert parts[1..][1..][1..] == [text, hash] && parts[1..][1..][1..][1..] == [hash];
    var tail := text + [':'] + hash;
    assert Join(parts[1..][1..][1..], ':') == tail;
    assert Join(parts[1..][1..], ':') == id + [':'] + tail;
    assert Join(parts[1..], ':') == "v1" + [':'] + (id + [':'] + tail);
  }

  lemma CursorIsSplit(kind: Kind, cursor: string, id: string, text: string, hash: string)
    ensures IsCursor(kind, cursor, id, text, hash) <==> Split(cursor, ':') == [Prefix(kind), "v1", id, text, hash]
  {
    var parts := [Prefix(kind), "v1", id, text, hash];
    PartsAreJoined(kind, id, text, hash);
    if IsCursor(kind, cursor, id, text, hash) { SplitJoin(parts, ':'); }
    JoinUndoesSplit(cursor, ':');
    assert parts[2] == id && parts[3] == text && parts[4] == hash;
  }

  /** Which texts are read as a cursor, which have a bad offset, and which are no cursors of this kind at all. */
  lemma CursorReadIff(number: string -> Option<int>, kind: Kind, cursor: string)
    ensures var r := ParseCursor(number, kind, cursor);
      && (r == Err(InvalidCursor) <==> forall id, text, hash :: !IsCursor(kind, cursor, id, text, hash))
      && (r == Err(InvalidOffset) <==> exists id, text, hash ::
            IsCursor(kind, cursor, id, text, hash) && (number(text).None? || number(text).value < 0))
      && (forall p :: r == Ok(p) <==> exists text ::
            IsCursor(kind, cursor, p.snapshotId, text, p.hash) && number(text) == Some(p.offset))
  {
    var parts := Split(cursor, ':');
    forall id, text, hash
      ensures IsCursor(kind, cursor, id, text, hash) <==> parts == [Prefix(kind), "v1", id, text, hash]
    {
      CursorIsSplit(kind, cursor, id, text, hash);
    }
    if |parts| == 5 && parts[0] == Prefix(kind) && parts[1] == "v1" {
      assert parts == [Prefix(kind), "v1", parts[2], parts[3], parts[4]];
      assert IsCursor(kind, cursor, parts[2], parts[3], parts[4]);
    }
  }

  /** `Number` reads a decimal numeral back as the number it was printed from. */
  ghost predicate ReadsNumerals(number: string -> Option<int>) {
    forall n: nat {:trigger number(Numeral(n, 10))} :: number(Numeral(n, 10)) == Some(n)
  }

  /** A query's hash has no colon. */
  lemma HashIsPlain(query: string)
    ensures ':' !in HashSearchQuery(query)
  {
    NumeralIsPlain(Fnv(Utf16(query)) as int, 16, ':');
  }

  lemma OnlyTheIdCanHaveColons(kind: Kind, id: string, offset: nat, hash: string)
    requires ':' !in hash
    ensures var parts := Parts(kind, id, offset, hash);
            (forall i :: 0 <= i < |parts| ==> ':' !in parts[i]) <==> ':' !in id
  {
    NumeralIsPlain(offset, 10, ':');
    var parts := Parts(kind, id, offset, hash);
    assert parts[2] == id;
  }

  /** A cursor is read back as what it was made of exactly when the snapshot id has no colon. */
  lemma CursorRoundTripsIff(number: string -> Option<int>, kind: Kind, id: string, hash: string, offset: nat)
    requires ReadsNumerals(number) && ':' !in hash
    ensures ParseCursor(number, kind, CursorText(kind, id, offset, hash))
         == (if ':' !in id then Ok(Parsed(id, offset, hash)) else Err(InvalidCursor))
  {
    var parts := Parts(kind, id, offset, hash);
    OnlyTheIdCanHaveColons(kind, id, offset, hash);
    if ':' !in id {
      SplitJoin(parts, ':');
      assert number(Numeral(offset, 10)) == Some(offset);
    } else {
      SplitCounts(CursorText(kind, id, offset, hash), ':');
      JoinCounts(parts, ':');
      CountInIsZero(parts, ':');
    }
  }

  /** A cursor of one kind is refused by the other. */
  lemma KindsDoNotMix(number: string -> Option<int>, kind: Kind, other: Kind, id: string, hash: string, offset: nat)
    requires kind != other && ':' !in id && ':' !in hash
    ensures ParseCursor(number, other, CursorText(kind, id, offset, hash)) == Err(InvalidCursor)
  {
    OnlyTheIdCanHaveColons(kind, id, offset, hash);
    SplitJoin(Parts(kind, id, offset, hash), ':');
  }
}
