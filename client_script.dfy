/** The two pieces of logic in static/js/script.js: the password-strength
    meter of the sign-up form and the `getCookie` helper that reads the CSRF
    token. The DOM is reduced to the three properties the meter writes. */
module ClientScript {
  import opened Text

  /** JavaScript's `length`: UTF-16 code units, two for a character outside
      the Basic Multilingual Plane. */
  function Utf16Length(s: string): (n: nat)
    ensures |s| <= n <= 2 * |s|
  {
    if s == [] then 0
    else Utf16Length(s[..|s| - 1]) + (if s[|s| - 1] as int >= 0x1_0000 then 2 else 1)
  }

  predicate IsUpper(c: char) { 'A' <= c <= 'Z' }
  predicate IsDigitChar(c: char) { '0' <= c <= '9' }
  predicate IsAsciiAlnum(c: char) { 'A' <= c <= 'Z' || 'a' <= c <= 'z' || '0' <= c <= '9' }

  /** The four things the meter looks for. */
  datatype Criterion = MinLength | Uppercase | Digit | Symbol

  const AllCriteria: set<Criterion> := {MinLength, Uppercase, Digit, Symbol}

  /** The character class of a regular-expression criterion:
      `[A-Z]`, `[0-9]` and `[^A-Za-z0-9]`. */
  predicate InClass(ch: char, c: Criterion)
  {
    match c
    case MinLength => false
    case Uppercase => IsUpper(ch)
    case Digit => IsDigitChar(ch)
    case Symbol => !IsAsciiAlnum(ch)
  }

  /** Whether `val` meets one criterion: at least 8 code units, or the
      criterion's regular expression finding a match. (A character outside
      the Basic Multilingual Plane is two surrogates to `[^A-Za-z0-9]`, and
      both match it, so testing it as one character agrees.) */
  predicate Meets(val: string, c: Criterion)
  {
    if c == MinLength then Utf16Length(val) >= 8
    else exists i :: 0 <= i < |val| && InClass(val[i], c)
  }

  /** The criteria `val` meets. */
  function Satisfied(val: string): (met: set<Criterion>)
    ensures met <= AllCriteria
    ensures forall c :: c in met <==> Meets(val, c)
  {
    set c | c in AllCriteria && Meets(val, c)
  }

  /** 1 for a criterion met, 0 otherwise. */
  function Point(val: string, c: Criterion): nat
  {
    if Meets(val, c) then 1 else 0
  }

  /** The number of criteria met is the sum of the four points. */
  lemma SatisfiedCount(val: string)
    ensures |Satisfied(val)| == Point(val, MinLength) + Point(val, Uppercase) + Point(val, Digit) + Point(val, Symbol)
  {
    var s1 := Gain({}, val, MinLength);
    var s2 := Gain(s1, val, Uppercase);
    var s3 := Gain(s2, val, Digit);
    var s4 := Gain(s3, val, Symbol);
    assert Satisfied(val) == s4 by {
      forall c ensures c in Satisfied(val) <==> c in s4 {
        assert c in AllCriteria;
      }
    }
  }

  /** Adding criterion `c` when it is met, to a set that lacks it. */
  function Gain(met: set<Criterion>, val: string, c: Criterion): (r: set<Criterion>)
    requires c !in met
    ensures |r| == |met| + Point(val, c)
    ensures forall d :: d in r <==> d in met || (d == c && Meets(val, c))
  {
    if Meets(val, c) then met + {c} else met
  }

  /** Linear scan behind a regular-expression test for one character class. */
  method Scan(val: string, c: Criterion) returns (found: bool)
    requires c != MinLength
    ensures found <==> Meets(val, c)
  {
    found := false;
    var i := 0;
    while i < |val|
      invariant 0 <= i <= |val|
      invariant found <==> exists j :: 0 <= j < i && InClass(val[j], c)
    {
      if InClass(val[i], c) {
        found := true;
      }
      i := i + 1;
    }
  }

  /** The score built by the four `strength++` steps: the number of
      criteria met, so at most 4. */
  method StrengthScore(val: string) returns (strength: nat)
    ensures strength == |Satisfied(val)|
    ensures strength <= 4
  {
    strength := 0;
    if Utf16Length(val) >= 8 {
      strength := strength + 1;
    }
    var upper := Scan(val, Uppercase);
    if upper {
      strength := strength + 1;
    }
    var digit := Scan(val, Digit);
    if digit {
      strength := strength + 1;
    }
    var symbol := Scan(val, Symbol);
    if symbol {
      strength := strength + 1;
    }
    SatisfiedCount(val);
  }

  lemma SubsetCardinality(a: set<Criterion>, b: set<Criterion>)
    requires a <= b
    ensures |a| <= |b|
    ensures |a| == |b| ==> a == b
  {
    if a != b {
      var x :| x in b && x !in a;
      assert a <= b - {x};
      SubsetCardinality(a, b - {x});
    }
  }

  /** The level the meter shows. */
  datatype Level = Blank | Weak | Medium | Strong

  /** The classification: nothing for an empty password, whatever its
      score; otherwise weak up to 1, medium up to 3, strong above. */
  function LevelOf(val: string, strength: nat): Level
  {
    if val == "" then Blank
    else if strength <= 1 then Weak
    else if strength <= 3 then Medium
    else Strong
  }

  function Rank(l: Level): nat
  {
    match l
    case Blank => 0
    case Weak => 1
    case Medium => 2
    case Strong => 3
  }

  /** The bar's width, the caption and the bar's class list. */
  datatype Meter = Meter(width: string, text: string, classes: seq<string>)

  function MeterOf(l: Level): Meter
  {
    match l
    case Blank => Meter("0%", "", ["strength-bar"])
    case Weak => Meter("33%", "Weak password", ["strength-bar", "weak"])
    case Medium => Meter("66%", "Medium strength", ["strength-bar", "medium"])
    case Strong => Meter("100%", "Strong password", ["strength-bar", "strong"])
  }

  /** Meeting more criteria never shows a weaker level. */
  lemma {:induction false} LevelMonotone(val: string, other: string)
    requires val != "" && other != ""
    requires Satisfied(val) <= Satisfied(other)
    ensures Rank(LevelOf(val, |Satisfied(val)|)) <= Rank(LevelOf(other, |Satisfied(other)|))
  {
    SubsetCardinality(Satisfied(val), Satisfied(other));
  }

  /** A non-empty password is shown as strong exactly when it meets all four
      criteria, and as weak exactly when it meets at most one. */
  lemma {:induction false} StrongExactlyWhenAllMet(val: string)
    requires val != ""
    ensures LevelOf(val, |Satisfied(val)|) == Strong <==> Satisfied(val) == AllCriteria
    ensures LevelOf(val, |Satisfied(val)|) == Weak <==> |Satisfied(val)| <= 1
  {
    assert |AllCriteria| == 4;
    SubsetCardinality(Satisfied(val), AllCriteria);
  }

  /** Inside the Basic Multilingual Plane each character is one code unit. */
  lemma {:induction false} Utf16LengthBmp(s: string)
    requires forall i :: 0 <= i < |s| ==> s[i] as int < 0x1_0000
    ensures Utf16Length(s) == |s|
  {
    if s != [] {
      Utf16LengthBmp(s[..|s| - 1]);
    }
  }

  /** A password of 8 or more characters with an upper-case letter, a digit
      and a symbol is strong. */
  lemma StrongExample()
    ensures LevelOf("Passw0rd!", |Satisfied("Passw0rd!")|) == Strong
  {
    var strong := "Passw0rd!";
    Utf16LengthBmp(strong);
    assert Meets(strong, MinLength);
    assert InClass(strong[0], Uppercase) && InClass(strong[5], Digit) && InClass(strong[8], Symbol);
    assert Satisfied(strong) == AllCriteria;
  }

  /** Lower-case letters alone are weak, whatever the length. */
  lemma LowerCaseIsWeak(val: string)
    requires val != ""
    requires forall i :: 0 <= i < |val| ==> 'a' <= val[i] <= 'z'
    ensures LevelOf(val, |Satisfied(val)|) == Weak
  {
    assert Satisfied(val) <= {MinLength} by {
      forall c | c in Satisfied(val) ensures c == MinLength {
        if c != MinLength {
          var i :| 0 <= i < |val| && InClass(val[i], c);
        }
      }
    }
    SubsetCardinality(Satisfied(val), {MinLength});
  }

  /** The `strength-bar` element and its caption. */
  class StrengthMeter {
    var width: string
    var text: string
    var classes: seq<string>

    constructor ()
      ensures width == "" && text == "" && classes == ["strength-bar"]
    {
      width := "";
      text := "";
      classes := ["strength-bar"];
    }

    /** The `input` listener: score the password, reset the class list,
        then show the level (or nothing for an empty password). */
    method OnInput(val: string)
      modifies this
      ensures Meter(width, text, classes) == MeterOf(LevelOf(val, |Satisfied(val)|))
    {
      var strength := StrengthScore(val);
      classes := ["strength-bar"];
      if val == "" {
        width := "0%";
        text := "";
        return;
      }
      if strength <= 1 {
        width := "33%";
        classes := classes + ["weak"];
        text := "Weak password";
      } else if strength <= 3 {
        width := "66%";
        classes := classes + ["medium"];
        text := "Medium strength";
      } else {
        width := "100%";
        classes := classes + ["strong"];
        text := "Strong password";
      }
    }
  }

  /** The text after `name=` in a trimmed entry, or None when the entry does
      not start with it. `decodeURIComponent` is taken as the identity. */
  function EntryValue(entry: string, name: string): Option<string>
  {
    var e := Trim(entry, JsWhitespace);
    if StartsWith(e, name + "=") then Some(e[|name| + 1..]) else None
  }

  /** An entry matches exactly when, trimmed, it is `name=` followed by the
      value returned. */
  lemma EntryValueMeaning(entry: string, name: string)
    ensures EntryValue(entry, name).Some? <==> StartsWith(Trim(entry, JsWhitespace), name + "=")
    ensures EntryValue(entry, name).Some? ==>
      Trim(entry, JsWhitespace) == name + "=" + EntryValue(entry, name).value
  {
    var e := Trim(entry, JsWhitespace);
    if StartsWith(e, name + "=") {
      assert e == e[..|name| + 1] + e[|name| + 1..];
    }
  }

  /** The value of the last entry that matches, or None when none does. */
  function LastMatch(entries: seq<string>, name: string): Option<string>
  {
    if entries == [] then None
    else
      var v := EntryValue(entries[|entries| - 1], name);
      if v.Some? then v else LastMatch(entries[..|entries| - 1], name)
  }

  /** getCookie over the `document.cookie` string: null for an empty string;
      otherwise each `;`-separated entry is visited in order and every match
      overwrites the value found so far. */
  method GetCookie(cookie: string, name: string) returns (value: Option<string>)
    ensures cookie == "" ==> value == None
    ensures value == (if cookie == "" then None else LastMatch(Split(cookie, ';'), name))
  {
    value := None;
    if cookie == "" {
      return;
    }
    var entries := Split(cookie, ';');
    var i := 0;
    while i < |entries|
      invariant 0 <= i <= |entries|
      invariant value == LastMatch(entries[..i], name)
    {
      assert entries[..i + 1][..i] == entries[..i];
      var v := EntryValue(entries[i], name);
      if v.Some? {
        value := v;
      }
      i := i + 1;
    }
    assert entries[..|entries|] == entries;
  }

  /** No value is found exactly when no entry matches. */
  lemma {:induction false} LastMatchNone(entries: seq<string>, name: string)
    ensures LastMatch(entries, name).None? <==>
      forall i :: 0 <= i < |entries| ==> EntryValue(entries[i], name).None?
  {
    if entries != [] {
      var n := |entries| - 1;
      LastMatchNone(entries[..n], name);
      assert forall i :: 0 <= i < n ==> entries[..n][i] == entries[i];
    }
  }

  /** A value found is that of a matching entry with no matching entry
      after it: the last match wins. */
  lemma {:induction false} LastMatchWins(entries: seq<string>, name: string)
    requires LastMatch(entries, name).Some?
    ensures exists i :: 0 <= i < |entries| && EntryValue(entries[i], name) == LastMatch(entries, name)
              && forall j :: i < j < |entries| ==> EntryValue(entries[j], name).None?
  {
    var n := |entries| - 1;
    if EntryValue(entries[n], name).Some? {
      assert EntryValue(entries[n], name) == LastMatch(entries, name);
    } else {
      var init := entries[..n];
      LastMatchWins(init, name);
      var i :| 0 <= i < n && EntryValue(init[i], name) == LastMatch(init, name)
               && forall j :: i < j < n ==> EntryValue(init[j], name).None?;
      assert init[i] == entries[i];
      assert forall j :: i < j < n ==> init[j] == entries[j];
    }
  }
}
