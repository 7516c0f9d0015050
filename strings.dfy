/**
 * String helpers shared by the backend (Python `str` methods) and the
 * frontend (JavaScript `String.prototype` methods). Characters are ASCII
 * for the purpose of case and whitespace; see README for what that leaves out.
 */
module Strings {
  import opened Wrappers

  /** The whitespace both `str.strip()` and `String.prototype.trim()` remove, restricted to ASCII. */
  predicate IsSpace(c: char)
  {
    c == ' ' || c == '\t' || c == '\n' || c == '\r' || c == '\U{B}' || c == '\U{C}'
  }

  predicate IsDigit(c: char) { '0' <= c <= '9' }
  predicate IsUpper(c: char) { 'A' <= c <= 'Z' }
  predicate IsLower(c: char) { 'a' <= c <= 'z' }
  predicate IsAlnum(c: char) { IsDigit(c) || IsUpper(c) || IsLower(c) }

  /** Drops leading whitespace (`lstrip`, `trimStart`). */
  function TrimLeft(s: string): (r: string)
    ensures |r| <= |s| && r == s[|s| - |r|..]
    ensures forall k :: 0 <= k < |s| - |r| ==> IsSpace(s[k])
    ensures r == [] || !IsSpace(r[0])
  {
    if s != [] && IsSpace(s[0]) then TrimLeft(s[1..]) else s
  }

  /** Drops trailing whitespace (`rstrip`, `trimEnd`). */
  function TrimRight(s: string): (r: string)
    ensures |r| <= |s| && r == s[..|r|]
    ensures forall k :: |r| <= k < |s| ==> IsSpace(s[k])
    ensures r == [] || !IsSpace(r[|r| - 1])
  {
    if s != [] && IsSpace(s[|s| - 1]) then TrimRight(s[..|s| - 1]) else s
  }

  /** `str.strip()` / `String.prototype.trim()`. */
  function Trim(s: string): (r: string)
    ensures |r| <= |s|
    ensures r == [] || (!IsSpace(r[0]) && !IsSpace(r[|r| - 1]))
  {
    TrimRight(TrimLeft(s))
  }

  /** A string with no whitespace at either end is its own trim. */
  lemma TrimmedIsFixed(s: string)
    requires s == [] || (!IsSpace(s[0]) && !IsSpace(s[|s| - 1]))
    ensures Trim(s) == s
  {
  }

  /** Trimming twice is trimming once. */
  lemma TrimIdempotent(s: string)
    ensures Trim(Trim(s)) == Trim(s)
  {
    TrimmedIsFixed(Trim(s));
  }

  /** `!s.trim()`: every character is whitespace (the empty string included). */
  predicate Blank(s: string)
  {
    forall k :: 0 <= k < |s| ==> IsSpace(s[k])
  }

  /** Blankness is what trimming to the empty string means. */
  lemma BlankIsTrimEmpty(s: string)
    ensures Blank(s) <==> Trim(s) == ""
  {
    TrimEmptyIff(s);
  }

  /** A string made only of whitespace trims to the empty string, and only such a string does. */
  lemma TrimEmptyIff(s: string)
    ensures Trim(s) == [] <==> forall k :: 0 <= k < |s| ==> IsSpace(s[k])
  {
    var l := TrimLeft(s);
    if Trim(s) == [] {
      assert TrimRight(l) == [];
      assert l == [];
    }
  }

  lemma {:induction false} TrimLeftSpaces(pad: string, x: string)
    requires forall k :: 0 <= k < |pad| ==> IsSpace(pad[k])
    ensures TrimLeft(pad + x) == TrimLeft(x)
  {
    if pad != [] {
      assert (pad + x)[1..] == pad[1..] + x;
      assert (pad + x)[0] == pad[0];
      assert forall k :: 0 <= k < |pad[1..]| ==> pad[1..][k] == pad[k + 1];
      TrimLeftSpaces(pad[1..], x);
    } else {
      assert pad + x == x;
    }
  }

  lemma {:induction false} TrimRightSpaces(x: string, pad: string)
    requires forall k :: 0 <= k < |pad| ==> IsSpace(pad[k])
    ensures TrimRight(x + pad) == TrimRight(x)
  {
    if pad != [] {
      var p' := pad[..|pad| - 1];
      assert (x + pad)[..|x + pad| - 1] == x + p';
      assert (x + pad)[|x + pad| - 1] == pad[|pad| - 1];
      assert forall k :: 0 <= k < |p'| ==> p'[k] == pad[k];
      TrimRightSpaces(x, p');
    } else {
      assert x + pad == x;
    }
  }

  lemma {:induction false} TrimLeftAppend(a: string, pad: string)
    requires forall k :: 0 <= k < |pad| ==> IsSpace(pad[k])
    ensures TrimLeft(a) != [] ==> TrimLeft(a + pad) == TrimLeft(a) + pad
    ensures TrimLeft(a) == [] ==> TrimLeft(a + pad) == []
  {
    if a == [] {
      TrimLeftSpaces(pad, []);
      assert pad + [] == pad && a + pad == pad;
    } else if IsSpace(a[0]) {
      assert (a + pad)[1..] == a[1..] + pad;
      TrimLeftAppend(a[1..], pad);
    }
  }

  /** Whitespace padding on either side does not change the trimmed text. */
  lemma TrimPadded(pad: string, x: string)
    requires forall k :: 0 <= k < |pad| ==> IsSpace(pad[k])
    ensures Trim(pad + x + pad) == Trim(x)
  {
    assert pad + x + pad == pad + (x + pad);
    TrimLeftSpaces(pad, x + pad);
    TrimLeftAppend(x, pad);
    if TrimLeft(x) != [] {
      TrimRightSpaces(TrimLeft(x), pad);
    }
  }

  function LowerChar(c: char): (r: char)
    ensures !IsUpper(r)
    ensures !IsUpper(c) ==> r == c
  {
    if IsUpper(c) then (c as int + 32) as char else c
  }

  /** `str.lower()` / `String.prototype.toLowerCase()` on ASCII letters. */
  function Lower(s: string): (r: string)
    ensures |r| == |s|
    ensures forall k :: 0 <= k < |s| ==> r[k] == LowerChar(s[k])
  {
    if s == [] then [] else [LowerChar(s[0])] + Lower(s[1..])
  }

  lemma LowerIdempotent(s: string)
    ensures Lower(Lower(s)) == Lower(s)
  {
    assert forall k :: 0 <= k < |s| ==> Lower(Lower(s))[k] == Lower(s)[k];
  }

  predicate StartsWith(s: string, p: string)
  {
    |p| <= |s| && s[..|p|] == p
  }

  predicate EndsWith(s: string, p: string)
  {
    |p| <= |s| && s[|s| - |p|..] == p
  }

  /** A string ending in `p` ends in `p`'s last character. */
  lemma EndsWithLast(s: string, p: string)
    requires p != []
    ensures EndsWith(s, p) ==> s[|s| - 1] == p[|p| - 1]
  {
    if EndsWith(s, p) {
      assert s[|s| - |p|..][|p| - 1] == s[|s| - 1];
    }
  }

  /** Substring test: Python `p in s`, JavaScript `s.includes(p)`. */
  predicate Contains(s: string, p: string)
  {
    exists i :: 0 <= i <= |s| - |p| && StartsWith(s[i..], p)
  }

  lemma ContainsEmpty(s: string)
    ensures Contains(s, "")
  {
    assert StartsWith(s[0..], "");
  }

  lemma ContainsSelfPart(a: string, p: string, b: string)
    ensures Contains(a + p + b, p)
  {
    var s := a + p + b;
    assert s[|a|..][..|p|] == p;
    assert StartsWith(s[|a|..], p);
  }

  /** Every character of `s` passes `f` (Python's `all(...)` over characters). */
  predicate AllChars(s: string, f: char -> bool)
  {
    forall k :: 0 <= k < |s| ==> f(s[k])
  }

  /** Some character of `s` passes `f` (Python's `any(...)` over characters). */
  predicate AnyChar(s: string, f: char -> bool)
  {
    exists k :: 0 <= k < |s| && f(s[k])
  }

  function DigitChar(d: nat): (c: char)
    requires d < 10
    ensures IsDigit(c)
  {
    ('0' as int + d) as char
  }

  function DigitValue(c: char): (d: nat)
    requires IsDigit(c)
    ensures d < 10 && DigitChar(d) == c
  {
    c as int - '0' as int
  }

  /** Decimal text of a natural number, as `str(n)` and template strings give it. */
  function NatToString(n: nat): (r: string)
    ensures |r| > 0
    ensures AllChars(r, IsDigit)
  {
    if n < 10 then [DigitChar(n)] else NatToString(n / 10) + [DigitChar(n % 10)]
  }

  /** Decimal text of any integer, with a leading '-' when negative. */
  function IntToString(i: int): (r: string)
    ensures |r| > 0
    ensures i >= 0 ==> AllChars(r, IsDigit)
    ensures i < 0 ==> r[0] == '-' && AllChars(r[1..], IsDigit)
  {
    if i >= 0 then NatToString(i) else "-" + NatToString(-i)
  }

  /** The value of a run of decimal digits. */
  function DigitsValue(s: string): (v: nat)
    requires AllChars(s, IsDigit)
  {
    if s == [] then 0 else DigitsValue(s[..|s| - 1]) * 10 + DigitValue(s[|s| - 1])
  }

  /** Reading the decimal text of `n` back gives `n`. */
  lemma {:induction false} NatToStringRoundTrip(n: nat)
    ensures DigitsValue(NatToString(n)) == n
  {
    var r := NatToString(n);
    if n >= 10 {
      NatToStringRoundTrip(n / 10);
      assert r[..|r| - 1] == NatToString(n / 10);
    }
  }

  lemma NatToStringInjective(a: nat, b: nat)
    requires NatToString(a) == NatToString(b)
    ensures a == b
  {
    NatToStringRoundTrip(a);
    NatToStringRoundTrip(b);
  }

  /** Distinct integers have distinct decimal texts. */
  lemma IntToStringInjective(a: int, b: int)
    requires IntToString(a) == IntToString(b)
    ensures a == b
  {
    var r := IntToString(a);
    if a >= 0 && b >= 0 {
      NatToStringInjective(a, b);
    } else if a < 0 && b < 0 {
      assert r[1..] == NatToString(-a) == NatToString(-b);
      NatToStringInjective(-a, -b);
    }
  }

  /**
   * The integer a text stands for where SQLite applies numeric affinity to
   * it: an optional sign followed by decimal digits; any other text stays
   * text and equals no integer.
   */
  function IntegerText(s: string): (r: Option<int>)
    ensures r.Some? ==> s != []
  {
    if |s| > 1 && (s[0] == '-' || s[0] == '+') && AllChars(s[1..], IsDigit) then
      var magnitude: int := DigitsValue(s[1..]);
      Some(if s[0] == '-' then -magnitude else magnitude)
    else if s != [] && AllChars(s, IsDigit) then Some(DigitsValue(s))
    else None
  }

  /** The decimal text of an integer is read back as that integer. */
  lemma IntegerTextRoundTrip(i: int)
    ensures IntegerText(IntToString(i)) == Some(i)
  {
    var r := IntToString(i);
    if i >= 0 {
      NatToStringRoundTrip(i);
    } else {
      assert r[1..] == NatToString(-i);
      NatToStringRoundTrip(-i);
    }
  }

  /** Python `s.split(sep)` with a one-character separator: never empty, "" gives [""]. */
  function Split(s: string, sep: char): (r: seq<string>)
    ensures |r| > 0
    ensures forall k :: 0 <= k < |r| ==> sep !in r[k]
  {
    if s == [] then [""]
    else
      var rest := Split(s[..|s| - 1], sep);
      if s[|s| - 1] == sep then rest + [""]
      else rest[..|rest| - 1] + [rest[|rest| - 1] + [s[|s| - 1]]]
  }

  /** `sep.join(parts)`. */
  function Join(parts: seq<string>, sep: char): (r: string)
    requires |parts| > 0
  {
    if |parts| == 1 then parts[0] else Join(parts[..|parts| - 1], sep) + [sep] + parts[|parts| - 1]
  }

  /** Splitting then joining with the same separator gives the original text back. */
  lemma {:induction false} SplitJoinRoundTrip(s: string, sep: char)
    ensures Join(Split(s, sep), sep) == s
  {
    if s != [] {
      var init := s[..|s| - 1];
      var rest := Split(init, sep);
      SplitJoinRoundTrip(init, sep);
      if s[|s| - 1] == sep {
        assert Split(s, sep) == rest + [""];
        assert (rest + [""])[..|rest|] == rest;
        assert s == init + [sep];
      } else {
        var last := rest[|rest| - 1] + [s[|s| - 1]];
        var parts := rest[..|rest| - 1] + [last];
        assert Split(s, sep) == parts;
        if |rest| == 1 {
          assert init == rest[0];
          assert s == init + [s[|s| - 1]];
        } else {
          assert parts[..|parts| - 1] == rest[..|rest| - 1];
          assert init == Join(rest[..|rest| - 1], sep) + [sep] + rest[|rest| - 1];
          assert s == init + [s[|s| - 1]];
        }
      }
    }
  }
}
