/** Decimal and octal numbers as text: the `%u` and `%o` conversions the programs print with,
    and Click's integer scanner `cp_integer` (a sign, digits, single underscores between
    digits, saturation at the 32-bit limits) that they read with. */
module Digits {

  const INT_MAX: int := 0x7FFF_FFFF
  const INT_MIN: int := -0x8000_0000

  predicate IsDigit(c: char, base: nat) {
    '0' <= c && c as int < '0' as int + base
  }

  function DigitChar(d: nat): char
    requires d < 10
  {
    ('0' as int + d) as char
  }

  function DigitValue(c: char): nat
    requires IsDigit(c, 10)
  {
    c as int - '0' as int
  }

  predicate IsSpace(c: char) {
    c == ' ' || ('\t' as int <= c as int <= '\r' as int)
  }

  /** The shortest numeral of `n` (C's `%u` in base 10, `%o` in base 8). */
  function Print(n: nat, base: nat): (s: string)
    requires 2 <= base <= 10
    ensures s != "" && forall i :: 0 <= i < |s| ==> IsDigit(s[i], base)
  {
    if n < base then [DigitChar(n)]
    else
      DivideShrinks(n, base);
      Print(n / base, base) + [DigitChar(n % base)]
  }

  lemma DivideShrinks(n: nat, base: nat)
    requires 2 <= base <= n
    ensures 0 <= n / base < n
  {
  }

  function Pow(base: nat, k: nat): nat {
    if k == 0 then 1 else base * Pow(base, k - 1)
  }

  /** A number below `base^k` prints in at most `k` digits: it fits a field of that width. */
  lemma {:induction false} PrintFits(n: nat, base: nat, k: nat)
    requires 2 <= base <= 10 && k > 0 && n < Pow(base, k)
    ensures |Print(n, base)| <= k
  {
    if n >= base {
      DivideShrinks(n, base);
      assert k > 1 by {
        assert Pow(base, 1) == base * Pow(base, 0);
      }
      assert n / base < Pow(base, k - 1) by {
        if n / base >= Pow(base, k - 1) {
          MulMonotone(base, Pow(base, k - 1), n / base);
        }
      }
      PrintFits(n / base, base, k - 1);
    }
  }

  lemma MulMonotone(a: nat, x: int, y: int)
    requires x <= y
    ensures a * x <= a * y
  {
  }

  /** The number a run of digits denotes, most significant digit first. Characters that are
      not digits (the sign, separating underscores) are passed over. */
  function Value(s: string, base: nat): nat {
    if s == "" then 0
    else
      var high := Value(s[..|s| - 1], base);
      var c := s[|s| - 1];
      if IsDigit(c, 10) then high * base + DigitValue(c) else high
  }

  lemma DivideBack(n: nat, base: nat)
    requires base > 0
    ensures n / base * base + n % base == n
  {
  }

  lemma ValueAppend(s: string, d: nat, base: nat)
    requires d < 10
    ensures Value(s + [DigitChar(d)], base) == Value(s, base) * base + d
  {
    assert (s + [DigitChar(d)])[..|s|] == s;
  }

  lemma {:induction false} ValueOfPrint(n: nat, base: nat)
    requires 2 <= base <= 10
    ensures Value(Print(n, base), base) == n
  {
    var s := Print(n, base);
    if n < base {
      assert s[..|s| - 1] == "";
    } else {
      DivideShrinks(n, base);
      var high := Print(n / base, base);
      ValueOfPrint(n / base, base);
      ValueAppend(high, n % base, base);
      DivideBack(n, base);
    }
  }

  /** Where the digits stop when scanning `f` from `s`; `last` is one past the last digit seen.
      An underscore is passed over only right after a digit. */
  function ScanDigits(f: string, s: nat, last: int, base: nat): (end: int)
    requires s <= |f| && last <= s
    ensures last <= end <= |f|
    decreases |f| - s
  {
    if s == |f| then last
    else if f[s] == '_' && last == s then ScanDigits(f, s + 1, last, base)
    else if IsDigit(f[s], base) then ScanDigits(f, s + 1, s + 1, base)
    else last
  }

  predicate Signed(f: string) {
    f != "" && (f[0] == '-' || f[0] == '+')
  }

  /** How many characters of `f` form an integer; 0 when it does not start with one. */
  function Span(f: string, base: nat): (end: nat)
    ensures end <= |f|
  {
    var first := if Signed(f) then 1 else 0;
    var last := ScanDigits(f, first, first - 1, base);
    if last < first then 0 else last
  }

  function Saturate(magnitude: nat, negative: bool): (v: int)
    ensures INT_MIN <= v <= INT_MAX
  {
    if negative then (if magnitude > -INT_MIN then INT_MIN else 0 - magnitude)
    else if magnitude > INT_MAX then INT_MAX else magnitude
  }

  /** `cp_integer` on the text `f`: the number of characters read and the number. */
  function Integer(f: string, base: nat): (r: (nat, int))
    ensures r.0 <= |f| && INT_MIN <= r.1 <= INT_MAX
  {
    var end := Span(f, base);
    (end, Saturate(Value(f[..end], base), f != "" && f[0] == '-'))
  }

  /** Scanning a run of digits that ends at the text's end or at a character that is neither
      a digit nor an underscore stops exactly after the run. */
  lemma {:induction false} ScanRun(f: string, s: nat, n: nat, base: nat)
    requires s < n <= |f| && base <= 10
    requires forall i :: s <= i < n ==> IsDigit(f[i], base)
    requires n == |f| || (!IsDigit(f[n], base) && f[n] != '_')
    ensures forall last :: last <= s ==> ScanDigits(f, s, last, base) == n
    decreases n - s
  {
    if s + 1 < n {
      ScanRun(f, s + 1, n, base);
    }
  }

  /** Reading a printed number back: the scanner stops where the numeral stops and returns
      the number, or the largest 32-bit integer if the number is larger than that. */
  lemma {:induction false} IntegerOfPrint(n: nat, base: nat, rest: string)
    requires base == 8 || base == 10
    requires rest == "" || (!IsDigit(rest[0], base) && rest[0] != '_')
    ensures Integer(Print(n, base) + rest, base) == (|Print(n, base)|, Saturate(n, false))
  {
    var p := Print(n, base);
    var f := p + rest;
    assert IsDigit(f[0], base);
    assert forall i :: 0 <= i < |p| ==> f[i] == p[i];
    assert rest != "" ==> f[|p|] == rest[0];
    ScanRun(f, 0, |p|, base);
    assert f[..|p|] == p;
    ValueOfPrint(n, base);
  }

  // ---------------------------------------------------------------- atoi

  function SkipSpaces(s: string, i: nat): (end: nat)
    requires i <= |s|
    ensures i <= end <= |s|
    decreases |s| - i
  {
    if i < |s| && IsSpace(s[i]) then SkipSpaces(s, i + 1) else i
  }

  /** The end of the run of decimal digits that starts at `i`. */
  function DigitsEnd(s: string, i: nat): (end: nat)
    requires i <= |s|
    ensures i <= end <= |s|
    ensures forall k :: i <= k < end ==> IsDigit(s[k], 10)
    ensures end < |s| ==> !IsDigit(s[end], 10)
    decreases |s| - i
  {
    if i < |s| && IsDigit(s[i], 10) then DigitsEnd(s, i + 1) else i
  }

  /** C's `atoi`: white space, a sign, and the digits up to the first character that is none. */
  function Atoi(s: string): int {
    AtoiAt(s, SkipSpaces(s, 0))
  }

  function AtoiAt(s: string, i: nat): int
    requires i <= |s|
  {
    var signed := i < |s| && (s[i] == '-' || s[i] == '+');
    var from := if signed then i + 1 else i;
    var magnitude := Value(s[from..DigitsEnd(s, from)], 10);
    if signed && s[i] == '-' then 0 - magnitude else magnitude
  }

  lemma AtoiOfPrint(n: nat, rest: string)
    requires rest == "" || !IsDigit(rest[0], 10)
    ensures Atoi(Print(n, 10) + rest) == n
  {
    var p := Print(n, 10);
    var s := p + rest;
    assert IsDigit(s[0], 10) && !IsSpace(s[0]) && s[0] != '-' && s[0] != '+';
    assert forall k :: 0 <= k < |p| ==> s[k] == p[k];
    assert rest != "" ==> s[|p|] == rest[0];
    assert DigitsEnd(s, 0) == |p|;
    assert s[0..|p|] == p;
    ValueOfPrint(n, 10);
  }

  lemma {:induction false} SpacesSkipped(spaces: string, rest: string, i: nat)
    requires i <= |spaces| && forall k :: 0 <= k < |spaces| ==> IsSpace(spaces[k])
    requires rest == "" || !IsSpace(rest[0])
    ensures SkipSpaces(spaces + rest, i) == |spaces|
    decreases |spaces| - i
  {
    if i < |spaces| {
      SpacesSkipped(spaces, rest, i + 1);
    } else {
      assert rest != "" ==> (spaces + rest)[i] == rest[0];
    }
  }

  lemma DigitsFrom(s: string, from: nat, p: string)
    requires from + |p| <= |s| && s[from..from + |p|] == p
    requires forall k :: 0 <= k < |p| ==> IsDigit(p[k], 10)
    requires from + |p| < |s| ==> !IsDigit(s[from + |p|], 10)
    ensures DigitsEnd(s, from) == from + |p|
  {
    forall k | from <= k < from + |p| ensures IsDigit(s[k], 10) {
      assert s[k] == p[k - from];
    }
  }

  /** What `atoi` does once it knows where the number starts. */
  lemma AtoiFrom(s: string, i: nat, sign: string, n: nat)
    requires i < |s|
    requires if sign == "" then IsDigit(s[i], 10) else sign == [s[i]] && (s[i] == '-' || s[i] == '+')
    requires var from, p := i + |sign|, Print(n, 10);
             from + |p| <= |s| && s[from..from + |p|] == p && (from + |p| < |s| ==> !IsDigit(s[from + |p|], 10))
    ensures AtoiAt(s, i) == if sign == "-" then 0 - n else n
  {
    DigitsFrom(s, i + |sign|, Print(n, 10));
    ValueOfPrint(n, 10);
  }

  lemma Middle(front: string, p: string, rest: string)
    ensures var s := front + p + rest;
            && s[|front|..|front| + |p|] == p
            && (rest != "" ==> s[|front| + |p|] == rest[0]) && (p != "" ==> s[|front|] == p[0])
  {
  }

  /** The same with white space and a sign in front. */
  lemma AtoiOfSigned(spaces: string, sign: string, n: nat, rest: string)
    requires forall k :: 0 <= k < |spaces| ==> IsSpace(spaces[k])
    requires sign == "" || sign == "-" || sign == "+"
    requires rest == "" || !IsDigit(rest[0], 10)
    ensures Atoi(spaces + sign + Print(n, 10) + rest) == if sign == "-" then 0 - n else n
  {
    var p := Print(n, 10);
    var tail := sign + p + rest;
    var s := spaces + sign + p + rest;
    assert s == spaces + tail;
    assert IsDigit(p[0], 10) && tail[0] == (if sign == "" then p[0] else sign[0]);
    SpacesSkipped(spaces, tail, 0);
    Middle(spaces + sign, p, rest);
    assert s[|spaces|] == tail[0];
    AtoiFrom(s, |spaces|, sign, n);
  }
}
