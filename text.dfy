/** Small string toolkit shared by the server-side (Python) and client-side
    (JavaScript) parts of the storefront: optional values, whitespace
    trimming, splitting on a separator, prefix tests and decimal rendering. */
module Text {

  datatype Option<+T> = None | Some(value: T)

  /** The characters Python's `str.strip()` removes (those with `str.isspace()`). */
  const PythonWhitespace: set<char> := {
    '\t', '\n', '\U{0B}', '\U{0C}', '\r', '\U{1C}', '\U{1D}', '\U{1E}', '\U{1F}', ' ',
    '\U{85}', '\U{A0}', '\U{1680}',
    '\U{2000}', '\U{2001}', '\U{2002}', '\U{2003}', '\U{2004}', '\U{2005}',
    '\U{2006}', '\U{2007}', '\U{2008}', '\U{2009}', '\U{200A}',
    '\U{2028}', '\U{2029}', '\U{202F}', '\U{205F}', '\U{3000}'
  }

  /** The characters JavaScript's `String.prototype.trim()` removes
      (WhiteSpace and LineTerminator of ECMA-262). */
  const JsWhitespace: set<char> := {
    '\t', '\n', '\U{0B}', '\U{0C}', '\r', ' ', '\U{A0}', '\U{1680}',
    '\U{2000}', '\U{2001}', '\U{2002}', '\U{2003}', '\U{2004}', '\U{2005}',
    '\U{2006}', '\U{2007}', '\U{2008}', '\U{2009}', '\U{200A}',
    '\U{2028}', '\U{2029}', '\U{202F}', '\U{205F}', '\U{3000}', '\U{FEFF}'
  }

  predicate AllIn(s: string, ws: set<char>)
  {
    forall i :: 0 <= i < |s| ==> s[i] in ws
  }

  /** Drops the leading characters that belong to `ws`. */
  function TrimStart(s: string, ws: set<char>): string
  {
    if s != [] && s[0] in ws then TrimStart(s[1..], ws) else s
  }

  /** Drops the trailing characters that belong to `ws`. */
  function TrimEnd(s: string, ws: set<char>): string
  {
    if s != [] && s[|s| - 1] in ws then TrimEnd(s[..|s| - 1], ws) else s
  }

  /** Both ends trimmed: Python's `strip()` with `PythonWhitespace`,
      JavaScript's `trim()` with `JsWhitespace`. */
  function Trim(s: string, ws: set<char>): string
  {
    TrimEnd(TrimStart(s, ws), ws)
  }

  /** What is left after dropping leading whitespace is a suffix of the
      input, everything dropped is whitespace, and the rest does not start
      with whitespace. */
  lemma {:induction false} TrimStartShape(s: string, ws: set<char>)
    ensures var r := TrimStart(s, ws);
      |r| <= |s| && r == s[|s| - |r|..] && AllIn(s[..|s| - |r|], ws) && (r == [] || r[0] !in ws)
  {
    if s != [] && s[0] in ws {
      TrimStartShape(s[1..], ws);
      var r := TrimStart(s[1..], ws);
      var k := |s| - |r|;
      assert s[1..][k - 1..] == s[k..];
      forall i | 0 <= i < k ensures s[..k][i] in ws {
        if i > 0 {
          assert s[..k][i] == s[1..][..k - 1][i - 1];
        }
      }
    }
  }

  /** The mirror image for trailing whitespace: a prefix remains. */
  lemma {:induction false} TrimEndShape(s: string, ws: set<char>)
    ensures var r := TrimEnd(s, ws);
      |r| <= |s| && r == s[..|r|] && AllIn(s[|r|..], ws) && (r == [] || r[|r| - 1] !in ws)
  {
    if s != [] && s[|s| - 1] in ws {
      var init := s[..|s| - 1];
      TrimEndShape(init, ws);
      var r := TrimEnd(init, ws);
      assert init[..|r|] == s[..|r|];
      forall i | |r| <= i < |s| ensures s[i] in ws {
        if i < |s| - 1 {
          assert s[i] == init[|r|..][i - |r|];
        }
      }
      assert AllIn(s[|r|..], ws) by {
        forall i | 0 <= i < |s[|r|..]| ensures s[|r|..][i] in ws {
          assert s[|r|..][i] == s[|r| + i];
        }
      }
    }
  }

  /** The trimmed string is a contiguous piece of the input, only
      whitespace was removed around it, and it neither starts nor ends with
      whitespace. */
  lemma TrimShape(s: string, ws: set<char>)
    ensures var r := Trim(s, ws);
      exists k :: 0 <= k <= |s| - |r| && r == s[k..k + |r|]
                  && AllIn(s[..k], ws) && AllIn(s[k + |r|..], ws)
    ensures var r := Trim(s, ws); r == [] || (r[0] !in ws && r[|r| - 1] !in ws)
  {
    TrimStartShape(s, ws);
    var t := TrimStart(s, ws);
    TrimEndShape(t, ws);
    var r := TrimEnd(t, ws);
    var k := |s| - |t|;
    assert r == t[..|r|];
    assert r == s[k..k + |r|];
    assert s[k + |r|..] == t[|r|..];
    if r != [] {
      assert r[0] == t[0];
    }
  }

  /** Stripping leaves nothing exactly when the input is all whitespace. */
  lemma TrimEmptyIff(s: string, ws: set<char>)
    ensures Trim(s, ws) == [] <==> AllIn(s, ws)
  {
    TrimShape(s, ws);
    var r := Trim(s, ws);
    var k :| 0 <= k <= |s| - |r| && r == s[k..k + |r|] && AllIn(s[..k], ws) && AllIn(s[k + |r|..], ws);
    if r == [] {
      forall i | 0 <= i < |s| ensures s[i] in ws {
        if i < k {
          assert s[i] == s[..k][i];
        } else {
          assert s[i] == s[k..][i - k];
        }
      }
    } else {
      assert r[0] == s[k];
    }
  }

  /** Trimming twice removes nothing more. */
  lemma TrimIdempotent(s: string, ws: set<char>)
    ensures Trim(Trim(s, ws), ws) == Trim(s, ws)
  {
    TrimShape(s, ws);
  }

  function StartsWith(s: string, prefix: string): bool
  {
    |prefix| <= |s| && s[..|prefix|] == prefix
  }

  /** JavaScript's `s.split(sep)` for a one-character separator: the pieces
      between separators, with an empty piece at either end where `s`
      starts or ends with `sep` (so `""` splits into `[""]`). */
  function Split(s: string, sep: char): (parts: seq<string>)
    ensures |parts| >= 1
    ensures forall i :: 0 <= i < |parts| ==> sep !in parts[i]
  {
    if s == [] then [""]
    else if s[0] == sep then [""] + Split(s[1..], sep)
    else
      var rest := Split(s[1..], sep);
      [[s[0]] + rest[0]] + rest[1..]
  }

  /** Python's `sep.join(parts)` / JavaScript's `parts.join(sep)`. */
  function Join(parts: seq<string>, sep: char): string
  {
    if parts == [] then ""
    else if |parts| == 1 then parts[0]
    else parts[0] + [sep] + Join(parts[1..], sep)
  }

  lemma {:induction false} JoinSplit(s: string, sep: char)
    ensures Join(Split(s, sep), sep) == s
  {
    if s == [] {
    } else if s[0] == sep {
      JoinSplit(s[1..], sep);
      assert s == [sep] + s[1..];
    } else {
      JoinSplit(s[1..], sep);
      var rest := Split(s[1..], sep);
      assert s == [s[0]] + s[1..];
      if |rest| == 1 {
      } else {
        assert Join(rest, sep) == rest[0] + [sep] + Join(rest[1..], sep);
        assert ([[s[0]] + rest[0]] + rest[1..])[1..] == rest[1..];
      }
    }
  }

  lemma {:induction false} SplitNoSeparator(p: string, sep: char)
    requires sep !in p
    ensures Split(p, sep) == [p]
  {
    if p != [] {
      assert p[0] in p;
      assert sep !in p[1..] by { assert forall c :: c in p[1..] ==> c in p; }
      SplitNoSeparator(p[1..], sep);
      assert p == [p[0]] + p[1..];
    }
  }

  lemma {:induction false} SplitAfterPiece(p: string, sep: char, rest: string)
    requires sep !in p
    ensures Split(p + [sep] + rest, sep) == [p] + Split(rest, sep)
  {
    if p == [] {
      assert p + [sep] + rest == [sep] + rest;
    } else {
      var s := p + [sep] + rest;
      assert p[0] in p;
      assert sep !in p[1..] by { assert forall c :: c in p[1..] ==> c in p; }
      assert s[1..] == p[1..] + [sep] + rest;
      SplitAfterPiece(p[1..], sep, rest);
      assert p == [p[0]] + p[1..];
    }
  }

  /** Joining pieces that do not contain the separator and splitting again
      gives the pieces back. */
  lemma {:induction false} SplitJoin(parts: seq<string>, sep: char)
    requires |parts| >= 1
    requires forall i :: 0 <= i < |parts| ==> sep !in parts[i]
    ensures Split(Join(parts, sep), sep) == parts
  {
    if |parts| == 1 {
      SplitNoSeparator(parts[0], sep);
    } else {
      SplitJoin(parts[1..], sep);
      SplitAfterPiece(parts[0], sep, Join(parts[1..], sep));
      assert parts == [parts[0]] + parts[1..];
    }
  }

  predicate IsDigit(c: char)
  {
    '0' <= c <= '9'
  }

  function DigitChar(d: nat): (c: char)
    requires d < 10
    ensures IsDigit(c) && c as int - '0' as int == d
  {
    ('0' as int + d) as char
  }

  /** Python's `str(n)` / an f-string field for a natural number. */
  function NatToString(n: nat): (s: string)
    ensures |s| >= 1
    ensures forall i :: 0 <= i < |s| ==> IsDigit(s[i])
    ensures |s| > 1 ==> s[0] != '0'
  {
    if n < 10 then [DigitChar(n)] else NatToString(n / 10) + [DigitChar(n % 10)]
  }

  /** Python's `str(i)` for any integer: a minus sign before the digits of a
      negative value. */
  function IntToString(i: int): (s: string)
  {
    if i < 0 then "-" + NatToString(-i) else NatToString(i)
  }

  function DigitValue(c: char): nat
    requires IsDigit(c)
  {
    c as int - '0' as int
  }

  /** The number a string of decimal digits denotes. */
  function DecimalValue(s: string): nat
    requires forall i :: 0 <= i < |s| ==> IsDigit(s[i])
  {
    if s == [] then 0
    else DecimalValue(s[..|s| - 1]) * 10 + DigitValue(s[|s| - 1])
  }

  /** Reading the rendered digits back yields the number. */
  lemma {:induction false} DecimalRoundTrip(n: nat)
    ensures DecimalValue(NatToString(n)) == n
  {
    if n >= 10 {
      DecimalRoundTrip(n / 10);
      var s := NatToString(n);
      assert s[..|s| - 1] == NatToString(n / 10);
    }
  }
}
