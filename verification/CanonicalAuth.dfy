/** The text both ends sign, and when it determines what was signed. */
module CanonicalAuth {
  import opened Strings

  datatype Signed = Signed(
    serverInstanceId: string, serverNonce: string, clientNonce: string, installationId: string,
    bridgeVersion: string, protocolVersion: nat)

  function Fields(m: Signed): seq<string> {
    ["remnote-agent-auth-v2", m.serverInstanceId, m.serverNonce, m.clientNonce, m.installationId, m.bridgeVersion,
     Numeral(m.protocolVersion, 10)]
  }

  function CanonicalAuthMessage(m: Signed): string { Join(Fields(m), '\n') }

  /** The label and the six fields in this order, one a line. */
  lemma TextIs(m: Signed)
    ensures CanonicalAuthMessage(m)
         == "remnote-agent-auth-v2\n" + m.serverInstanceId + "\n" + m.serverNonce + "\n" + m.clientNonce + "\n"
            + m.installationId + "\n" + m.bridgeVersion + "\n" + Numeral(m.protocolVersion, 10)
  {
    var f := Fields(m);
    var last := m.bridgeVersion + ['\n'] + Numeral(m.protocolVersion, 10);
    assert f[5..][1..] == f[6..] && Join(f[6..], '\n') == f[6] && Join(f[5..], '\n') == last;
    assert f[4..][1..] == f[5..] && Join(f[4..], '\n') == m.installationId + ['\n'] + last;
    assert f[3..][1..] == f[4..] && f[2..][1..] == f[3..] && f[1..][1..] == f[2..];
    var middle := m.clientNonce + ['\n'] + (m.installationId + ['\n'] + last);
    assert Join(f[3..], '\n') == middle && Join(f[2..], '\n') == m.serverNonce + ['\n'] + middle;
    assert Join(f[1..], '\n') == m.serverInstanceId + ['\n'] + (m.serverNonce + ['\n'] + middle);
  }

  predicate NewlineFree(m: Signed) { forall i :: 0 <= i < |Fields(m)| ==> '\n' !in Fields(m)[i] }

  /** No other message has the same text. */
  ghost predicate Determined(m: Signed) {
    forall n :: CanonicalAuthMessage(n) == CanonicalAuthMessage(m) ==> n == m
  }

  lemma SameTextSameMessage(m: Signed, n: Signed)
    requires NewlineFree(m) && CanonicalAuthMessage(m) == CanonicalAuthMessage(n)
    ensures m == n
  {
    JoinCounts(Fields(m), '\n');
    JoinCounts(Fields(n), '\n');
    CountInIsZero(Fields(m), '\n');
    CountInIsZero(Fields(n), '\n');
    SplitJoin(Fields(m), '\n');
    SplitJoin(Fields(n), '\n');
    FieldsDecode(m, n);
  }

  lemma FieldsDecode(m: Signed, n: Signed)
    requires Fields(m) == Fields(n)
    ensures m == n
  {
    var f, g := Fields(m), Fields(n);
    assert f[1] == g[1] && f[2] == g[2] && f[3] == g[3] && f[4] == g[4] && f[5] == g[5] && f[6] == g[6];
    DecimalDecodes(m.protocolVersion, n.protocolVersion);
  }

  lemma {:induction false} FirstNewline(s: string) returns (a: string, b: string)
    requires '\n' in s
    ensures s == a + "\n" + b
  {
    var i :| 0 <= i < |s| && s[i] == '\n';
    a, b := s[..i], s[i + 1..];
  }

  /** Moving text across a separator between two neighbours leaves the joined text the same. */
  lemma {:induction false} ShiftKeepsJoin(parts: seq<string>, i: nat, a: string, b: string, c: string)
    requires i + 1 < |parts| && parts[i] == a + "\n" + b && parts[i + 1] == c
    ensures Join(parts[i := a][i + 1 := b + "\n" + c], '\n') == Join(parts, '\n')
  {
    var other := parts[i := a][i + 1 := b + "\n" + c];
    if i > 0 {
      ShiftKeepsJoin(parts[1..], i - 1, a, b, c);
      assert other[1..] == parts[1..][i - 1 := a][i := b + "\n" + c];
    } else if |parts| == 2 {
      assert a + "\n" + (b + "\n" + c) == a + "\n" + b + "\n" + c;
    } else {
      var rest := Join(parts[2..], '\n');
      assert parts[1..][1..] == parts[2..] && other[1..][1..] == parts[2..];
      assert a + "\n" + (b + "\n" + c + "\n" + rest) == a + "\n" + b + "\n" + (c + "\n" + rest);
    }
  }

  /** With a newline in some field there is another message with the same text. */
  lemma NewlineConfuses(m: Signed) returns (n: Signed)
    requires !NewlineFree(m)
    ensures n != m && CanonicalAuthMessage(n) == CanonicalAuthMessage(m)
  {
    var f := Fields(m);
    NumeralIsPlain(m.protocolVersion, 10, '\n');
    if '\n' in m.serverInstanceId || '\n' in m.serverNonce {
      n := ServerConfuses(m);
    } else if '\n' in m.clientNonce {
      var a, b := FirstNewline(m.clientNonce);
      n := m.(clientNonce := a, installationId := b + "\n" + m.installationId);
      ShiftKeepsJoin(f, 3, a, b, m.installationId);
      assert Fields(n) == f[3 := a][4 := b + "\n" + m.installationId];
    } else if '\n' in m.installationId {
      var a, b := FirstNewline(m.installationId);
      n := m.(installationId := a, bridgeVersion := b + "\n" + m.bridgeVersion);
      ShiftKeepsJoin(f, 4, a, b, m.bridgeVersion);
      assert Fields(n) == f[4 := a][5 := b + "\n" + m.bridgeVersion];
    } else {
      n := VersionConfuses(m);
    }
  }

  lemma ServerConfuses(m: Signed) returns (n: Signed)
    requires '\n' in m.serverInstanceId || '\n' in m.serverNonce
    ensures n != m && CanonicalAuthMessage(n) == CanonicalAuthMessage(m)
  {
    var f := Fields(m);
    if '\n' in m.serverInstanceId {
      var a, b := FirstNewline(m.serverInstanceId);
      n := m.(serverInstanceId := a, serverNonce := b + "\n" + m.serverNonce);
      ShiftKeepsJoin(f, 1, a, b, m.serverNonce);
      assert Fields(n) == f[1 := a][2 := b + "\n" + m.serverNonce];
    } else {
      var a, b := FirstNewline(m.serverNonce);
      n := m.(serverNonce := a, clientNonce := b + "\n" + m.clientNonce);
      ShiftKeepsJoin(f, 2, a, b, m.clientNonce);
      assert Fields(n) == f[2 := a][3 := b + "\n" + m.clientNonce];
    }
  }

  lemma VersionConfuses(m: Signed) returns (n: Signed)
    requires '\n' in m.bridgeVersion
    ensures n != m && CanonicalAuthMessage(n) == CanonicalAuthMessage(m)
  {
    var a, b := FirstNewline(m.bridgeVersion);
    n := m.(installationId := m.installationId + "\n" + a, bridgeVersion := b);
    ShiftKeepsJoin(Fields(n), 4, m.installationId, a, b);
    assert Fields(m) == Fields(n)[4 := m.installationId][5 := a + "\n" + b];
  }

  /** The signed text determines the message exactly when no field contains a newline. */
  lemma DeterminedIffNewlineFree(m: Signed)
    ensures Determined(m) <==> NewlineFree(m)
  {
    if NewlineFree(m) {
      forall n | CanonicalAuthMessage(n) == CanonicalAuthMessage(m) ensures n == m { SameTextSameMessage(m, n); }
    } else {
      var n := NewlineConfuses(m);
    }
  }
}
