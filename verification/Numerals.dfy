/**
  The C library's decimal printing and parsing as camera/CameraParameters.cpp uses them:
  sprintf("%d"), strtol in base 10 with its 64-bit saturation, and the conversion to a 32-bit int.
  Strings contain no NUL; the position behind the last character reads as NUL.
 */
module Numerals {
  import opened Deadline

  const LONG_LIMIT := 0x8000_0000_0000_0000

  predicate IsDigit(c: char) {
    '0' <= c <= '9'
  }

  predicate IsSpace(c: char) {
    c == ' ' || '\t' <= c <= '\r'
  }

  function CharAt(s: string, i: nat): char {
    if i < |s| then s[i] else '\0'
  }

  // ---------- Printing ----------

  function Digit(d: nat): (c: char)
    requires d < 10
    ensures IsDigit(c) && c as int - '0' as int == d
  {
    '0' + d as char
  }

  function PrintNat(n: nat): (s: string)
    ensures s != [] && forall i :: 0 <= i < |s| ==> IsDigit(s[i])
  {
    if n < 10 then [Digit(n)] else PrintNat(n / 10) + [Digit(n % 10)]
  }

  function PrintInt(n: int): (s: string)
    ensures s != []
  {
    if n < 0 then "-" + PrintNat(-n) else PrintNat(n)
  }

  // ---------- Parsing ----------

  function Spaces(s: string): (n: nat)
    ensures n <= |s|
  {
    if s != [] && IsSpace(s[0]) then 1 + Spaces(s[1..]) else 0
  }

  function Digits(s: string): (n: nat)
    ensures n <= |s| && forall i :: 0 <= i < n ==> IsDigit(s[i])
  {
    if s != [] && IsDigit(s[0]) then 1 + Digits(s[1..]) else 0
  }

  function ValueOf(s: string): nat
    requires forall i :: 0 <= i < |s| ==> IsDigit(s[i])
  {
    if s == [] then 0
    else
      assert IsDigit(s[|s| - 1]);
      ValueOf(s[..|s| - 1]) * 10 + (s[|s| - 1] as int - '0' as int)
  }

  /** Saturation at the limits of a long. */
  function ToLong(n: int): int {
    if n < -LONG_LIMIT then -LONG_LIMIT else if n >= LONG_LIMIT then LONG_LIMIT - 1 else n
  }

  /** (int)strtol(s, &end, 10): the number and the position of `end`, which is the start of the
      string when there is no number. */
  function StrToInt(s: string): (r: (int, nat))
    ensures r.1 <= |s| && -INT32_LIMIT <= r.0 < INT32_LIMIT
  {
    var start := Spaces(s);
    var signed := CharAt(s, start) == '-' || CharAt(s, start) == '+';
    var first := if signed && start < |s| then start + 1 else start;
    var n := Digits(s[first..]);
    if n == 0 then (0, 0)
    else
      var magnitude: int := ValueOf(s[first..][..n]);
      (ToInt32(ToLong(if CharAt(s, start) == '-' then -magnitude else magnitude)), first + n)
  }

  // ---------- What is read of any string ----------

  lemma {:induction false} SpacesUpTo(s: string, n: nat)
    requires n <= |s| && (forall i :: 0 <= i < n ==> IsSpace(s[i])) && !IsSpace(CharAt(s, n))
    ensures Spaces(s) == n
  {
    if n > 0 {
      SpacesUpTo(s[1..], n - 1);
    }
  }

  lemma {:induction false} DigitsUpTo(s: string, n: nat)
    requires n <= |s| && (forall i :: 0 <= i < n ==> IsDigit(s[i])) && !IsDigit(CharAt(s, n))
    ensures Digits(s) == n
  {
    if n > 0 {
      DigitsUpTo(s[1..], n - 1);
    }
  }

  /** Up to `a` there are spaces only, and from there to `b` at most one sign. */
  predicate SignedAt(s: string, a: nat, b: nat) {
    && a <= b <= |s| && (forall i :: 0 <= i < a ==> IsSpace(s[i]))
    && if a == b then var c := CharAt(s, a); !IsSpace(c) && c != '-' && c != '+'
       else b == a + 1 && (s[a] == '-' || s[a] == '+')
  }

  lemma CutToInt(v: int)
    ensures ToInt32(ToLong(v)) == if v < -LONG_LIMIT then 0 else if v >= LONG_LIMIT then -1 else ToInt32(v)
  {
  }

  /** Spaces, at most one sign and digits, from `b` to `c`, are read as the number they write, modulo
      2^32 if it fits in a long, and else as the low half of the nearest long; the reading ends right
      behind the last digit. */
  lemma NumberIsRead(s: string, a: nat, b: nat, c: nat)
    requires SignedAt(s, a, b) && b < c <= |s|
    requires (forall i :: b <= i < c ==> IsDigit(s[i])) && !IsDigit(CharAt(s, c))
    ensures var n: int := ValueOf(s[b..c]);
            var v := if s[a] == '-' then -n else n;
            StrToInt(s) == (if v < -LONG_LIMIT then 0 else if v >= LONG_LIMIT then -1 else ToInt32(v), c)
  {
    var v: int := ValueOf(s[b..c]);
    CutToInt(if s[a] == '-' then -v else v);
    hide ValueOf, Digits, Spaces, ToLong, ToInt32;
    SpacesUpTo(s, a);
    DigitsUpTo(s[b..], c - b);
    assert s[b..][..c - b] == s[b..c];
  }

  /** Where a digit has to come and does not, nothing is read. */
  lemma NoNumberIsRead(s: string, a: nat, b: nat)
    requires SignedAt(s, a, b) && !IsDigit(CharAt(s, b))
    ensures StrToInt(s) == (0, 0)
  {
    SpacesUpTo(s, a);
  }

  // ---------- Where a number ends ----------

  /** Neither a space nor part of a number. */
  predicate EndsNumber(c: char) {
    !IsDigit(c) && !IsSpace(c) && c != '-' && c != '+'
  }

  lemma {:induction false} RunsEnd(s: string, tail: string)
    requires tail != [] && EndsNumber(tail[0])
    ensures Spaces(s + tail) == Spaces(s) && Digits(s + tail) == Digits(s)
  {
    if s == [] {
      assert s + tail == tail;
    } else {
      RunsEnd(s[1..], tail);
      assert (s + tail)[1..] == s[1..] + tail;
    }
  }

  /** strtol never looks behind a character that cannot be part of a number. */
  lemma NumberEnds(s: string, tail: string)
    requires tail != [] && EndsNumber(tail[0])
    ensures StrToInt(s + tail) == StrToInt(s)
  {
    hide ValueOf, ToLong, ToInt32, Spaces, Digits;
    RunsEnd(s, tail);
    var start := Spaces(s);
    assert CharAt(s + tail, start) == if start < |s| then s[start] else tail[0];
    var signed := CharAt(s, start) == '-' || CharAt(s, start) == '+';
    var first := if signed && start < |s| then start + 1 else start;
    RunsEnd(s[first..], tail);
    assert (s + tail)[first..] == s[first..] + tail;
    var n := Digits(s[first..]);
    assert (s[first..] + tail)[..n] == s[first..][..n];
  }

  // ---------- Printing and parsing back ----------

  lemma {:induction false} ValueOfPrinted(n: nat)
    ensures ValueOf(PrintNat(n)) == n
  {
    if n >= 10 {
      ValueOfPrinted(n / 10);
      assert PrintNat(n)[..|PrintNat(n)| - 1] == PrintNat(n / 10);
    } else {
      assert PrintNat(n)[..0] == [];
    }
  }

  lemma {:induction false} DigitsOfRun(digits: string, rest: string)
    requires forall i :: 0 <= i < |digits| ==> IsDigit(digits[i])
    requires !IsDigit(CharAt(rest, 0))
    ensures Digits(digits + rest) == |digits|
  {
    if digits == [] {
      assert digits + rest == rest;
    } else {
      DigitsOfRun(digits[1..], rest);
      assert (digits + rest)[1..] == digits[1..] + rest;
    }
  }

  /** A printed 32-bit number is read back in full, whatever non-digit follows it. */
  lemma PrintedIsReadBack(n: int, rest: string)
    requires -INT32_LIMIT <= n < INT32_LIMIT && !IsDigit(CharAt(rest, 0))
    ensures StrToInt(PrintInt(n) + rest) == (n, |PrintInt(n)|)
  {
    hide ValueOf, Digits, PrintNat;
    var s := PrintInt(n) + rest;
    var m := if n < 0 then -n else n;
    assert s[0] == PrintInt(n)[0];
    assert !IsSpace(s[0]);
    var first := if n < 0 then 1 else 0;
    assert s[first..] == PrintNat(m) + rest;
    DigitsOfRun(PrintNat(m), rest);
    ValueOfPrinted(m);
    assert s[first..][..|PrintNat(m)|] == PrintNat(m);
  }

  lemma {:induction false} PrintNatLength(n: nat, k: nat, bound: nat)
    requires n < bound && bound == Pow10(k) && k >= 1
    ensures |PrintNat(n)| <= k
    decreases k
  {
    if n >= 10 {
      PrintNatLength(n / 10, k - 1, bound / 10);
    }
  }

  function Pow10(k: nat): nat {
    if k == 0 then 1 else 10 * Pow10(k - 1)
  }

  /** A printed 32-bit number has at most eleven characters, none of them '=' or ';'. */
  lemma PrintedIsShort(n: int)
    requires -INT32_LIMIT <= n < INT32_LIMIT
    ensures |PrintInt(n)| <= 11
    ensures forall i :: 0 <= i < |PrintInt(n)| ==> PrintInt(n)[i] == '-' || IsDigit(PrintInt(n)[i])
  {
    assert Pow10(10) == 10000000000 by {
      assert Pow10(5) == 100000;
    }
    PrintNatLength(if n < 0 then -n else n, 10, 10000000000);
  }
}
