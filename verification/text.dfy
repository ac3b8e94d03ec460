/**
 * The few Python `str` operations the core relies on, restricted to ASCII:
 * `strip()`, `upper()`, `lower()`, `startswith()`, `str(int)` and `int(str)`.
 */
module Text {
  import opened Common

  /** ASCII characters for which Python's `str.isspace()` holds. */
  predicate IsSpace(c: char) {
    c == ' ' || c == '\t' || c == '\n' || c == '\r' || c == '\U{B}' || c == '\U{C}'
    || ('\U{1C}' <= c <= '\U{1F}')
  }

  /** A character matched by the regular-expression class `\w` (ASCII part). */
  predicate IsWordChar(c: char) {
    ('a' <= c <= 'z') || ('A' <= c <= 'Z') || ('0' <= c <= '9') || c == '_'
  }

  predicate IsDigit(c: char) { '0' <= c <= '9' }

  function StripLeft(s: string): (r: string)
    ensures |r| <= |s| && r == s[|s| - |r|..]
    ensures r == [] || !IsSpace(r[0])
    ensures forall i :: 0 <= i < |s| - |r| ==> IsSpace(s[i])
  {
    if s != [] && IsSpace(s[0]) then StripLeft(s[1..]) else s
  }

  function StripRight(s: string): (r: string)
    ensures |r| <= |s| && r == s[..|r|]
    ensures r == [] || !IsSpace(r[|r| - 1])
    ensures forall i :: |r| <= i < |s| ==> IsSpace(s[i])
  {
    if s != [] && IsSpace(s[|s| - 1]) then StripRight(s[..|s| - 1]) else s
  }

  /** `s.strip()`: removes leading and trailing whitespace. */
  function Strip(s: string): (r: string)
    ensures r == [] || (!IsSpace(r[0]) && !IsSpace(r[|r| - 1]))
  {
    StripRight(StripLeft(s))
  }

  function UpperChar(c: char): char {
    if 'a' <= c <= 'z' then (c as int - 'a' as int + 'A' as int) as char else c
  }

  function LowerChar(c: char): char {
    if 'A' <= c <= 'Z' then (c as int - 'A' as int + 'a' as int) as char else c
  }

  /** `f` applied to every character of `s`. */
  function MapChars(f: char -> char, s: string): (r: string)
    ensures |r| == |s| && forall i :: 0 <= i < |s| ==> r[i] == f(s[i])
  {
    seq(|s|, i requires 0 <= i < |s| => f(s[i]))
  }

  lemma MapCharsDrop(f: char -> char, s: string, k: nat)
    requires k <= |s|
    ensures MapChars(f, s)[k..] == MapChars(f, s[k..])
  {
  }

  lemma MapCharsCons(f: char -> char, c: char, t: string)
    ensures MapChars(f, [c] + t) == [f(c)] + MapChars(f, t)
  {
  }

  /** `s.upper()` on ASCII letters. */
  function Upper(s: string): string {
    MapChars(UpperChar, s)
  }

  /** `s.lower()` on ASCII letters. */
  function Lower(s: string): string {
    MapChars(LowerChar, s)
  }

  /** A character map that sends whitespace to whitespace and nothing else there. */
  ghost predicate KeepsSpace(f: char -> char) {
    forall c :: IsSpace(f(c)) <==> IsSpace(c)
  }

  lemma CaseMapsKeepSpace()
    ensures KeepsSpace(UpperChar) && KeepsSpace(LowerChar)
  {
  }

  predicate StartsWith(s: string, prefix: string) {
    |prefix| <= |s| && s[..|prefix|] == prefix
  }

  function DigitChar(d: nat): char
    requires d < 10
  {
    ('0' as int + d) as char
  }

  /** `str(n)` for a natural number: its decimal digits, most significant first. */
  function NatToDecimal(n: nat): (r: string)
    ensures |r| >= 1 && forall i :: 0 <= i < |r| ==> IsDigit(r[i])
    ensures (r[0] == '0') <==> (n == 0)
  {
    if n < 10 then [DigitChar(n)] else NatToDecimal(n / 10) + [DigitChar(n % 10)]
  }

  /** `str(n)` for an integer. */
  function IntToDecimal(n: int): string {
    if n < 0 then ['-'] + NatToDecimal(-n) else NatToDecimal(n)
  }

  /** The value of a non-empty run of decimal digits. */
  function DigitsValue(s: string): (n: nat)
    requires forall i :: 0 <= i < |s| ==> IsDigit(s[i])
  {
    if s == [] then 0
    else
      assert IsDigit(s[|s| - 1]);
      DigitsValue(s[..|s| - 1]) * 10 + (s[|s| - 1] as int - '0' as int)
  }

  predicate AllDigits(s: string) {
    s != [] && forall i :: 0 <= i < |s| ==> IsDigit(s[i])
  }

  /** An optional sign followed by at least one decimal digit, and nothing else. */
  function ParseSigned(t: string): (r: Option<int>)
    ensures r.Some? <==> AllDigits(t) || (|t| >= 2 && t[0] in "+-" && AllDigits(t[1..]))
  {
    if AllDigits(t) then Some(DigitsValue(t))
    else if |t| >= 2 && t[0] == '-' && AllDigits(t[1..]) then Some(-(DigitsValue(t[1..]) as int))
    else if |t| >= 2 && t[0] == '+' && AllDigits(t[1..]) then Some(DigitsValue(t[1..]))
    else None
  }

  /**
   * Python's `int(s)` for a string, restricted to ASCII: surrounding whitespace,
   * an optional sign and at least one ASCII decimal digit. Anything else is
   * `None`, including the underscores and non-ASCII digits that `int()` accepts.
   */
  function ParseInt(s: string): Option<int> {
    ParseSigned(Strip(s))
  }

  lemma {:induction false} NatToDecimalValue(n: nat)
    ensures DigitsValue(NatToDecimal(n)) == n
  {
    var r := NatToDecimal(n);
    if n >= 10 {
      NatToDecimalValue(n / 10);
      assert r[..|r| - 1] == NatToDecimal(n / 10);
    }
  }

  /** Writing a number and reading it back with `int()` gives the number: `int(str(n)) == n`. */
  lemma {:induction false} IntRoundTrip(n: int)
    ensures ParseInt(IntToDecimal(n)) == Some(n)
  {
    var d := NatToDecimal(if n < 0 then -n else n);
    NatToDecimalValue(if n < 0 then -n else n);
    if n < 0 {
      NegativeRoundTrip(d);
    } else {
      DigitsRoundTrip(d);
    }
  }

  /** `int()` reads back a run of digits. */
  lemma {:induction false} DigitsRoundTrip(d: string)
    requires AllDigits(d)
    ensures ParseInt(d) == Some(DigitsValue(d))
  {
    assert IsDigit(d[0]) && IsDigit(d[|d| - 1]);
    StripOfTrimmed(d);
  }

  /** `int()` reads back a minus sign followed by a run of digits. */
  lemma {:induction false} NegativeRoundTrip(d: string)
    requires AllDigits(d)
    ensures ParseInt(['-'] + d) == Some(-(DigitsValue(d) as int))
  {
    var s := ['-'] + d;
    assert s[0] == '-' && s[|s| - 1] == d[|d| - 1];
    assert IsDigit(d[|d| - 1]);
    StripOfTrimmed(s);
    assert s[1..] == d;
    assert !AllDigits(s) by { assert !IsDigit(s[0]); }
  }

  lemma {:induction false} StripOfTrimmed(s: string)
    requires s != [] && !IsSpace(s[0]) && !IsSpace(s[|s| - 1])
    ensures Strip(s) == s
  {
  }

  /** Distinct numbers have distinct decimal forms. */
  lemma {:induction false} NatToDecimalInjective(n: nat, m: nat)
    requires NatToDecimal(n) == NatToDecimal(m)
    ensures n == m
  {
    NatToDecimalValue(n);
    NatToDecimalValue(m);
  }

  /** A map that keeps whitespace where it is commutes with `strip()`; `upper()` and `lower()` are such maps. */
  lemma {:induction false} MapStrip(f: char -> char, s: string)
    requires KeepsSpace(f)
    ensures MapChars(f, Strip(s)) == Strip(MapChars(f, s))
  {
    MapStripLeft(f, s);
    MapStripRight(f, StripLeft(s));
  }

  lemma {:induction false} MapStripLeft(f: char -> char, s: string)
    requires KeepsSpace(f)
    ensures MapChars(f, StripLeft(s)) == StripLeft(MapChars(f, s))
  {
    if s != [] && IsSpace(s[0]) {
      assert MapChars(f, s)[1..] == MapChars(f, s[1..]);
      MapStripLeft(f, s[1..]);
    }
  }

  lemma {:induction false} MapStripRight(f: char -> char, s: string)
    requires KeepsSpace(f)
    ensures MapChars(f, StripRight(s)) == StripRight(MapChars(f, s))
  {
    if s != [] && IsSpace(s[|s| - 1]) {
      assert MapChars(f, s)[..|s| - 1] == MapChars(f, s[..|s| - 1]);
      MapStripRight(f, s[..|s| - 1]);
    }
  }

  /** Upper-casing after either case map is plain upper-casing. */
  lemma {:induction false} UpperAbsorbs(s: string)
    ensures Upper(Upper(s)) == Upper(s)
    ensures Upper(Lower(s)) == Upper(s)
  {
  }

  /** The index of the first `c` in `s`, if any. */
  function IndexOf(s: string, c: char): (r: Option<nat>)
    ensures r.None? <==> c !in s
    ensures r.Some? ==> r.value < |s| && s[r.value] == c && c !in s[..r.value]
  {
    if s == [] then None
    else if s[0] == c then Some(0)
    else
      match IndexOf(s[1..], c)
      case None => None
      case Some(k) =>
        assert s[..k + 1] == [s[0]] + s[1..][..k];
        Some(k + 1)
  }

  /** The first `c` of `a + [c] + b` is the one after `a` when `a` holds none. */
  lemma {:induction false} IndexOfAfter(a: string, c: char, b: string)
    requires c !in a
    ensures IndexOf(a + [c] + b, c) == Some(|a|)
  {
    if a != [] {
      assert (a + [c] + b)[1..] == a[1..] + [c] + b;
      IndexOfAfter(a[1..], c, b);
    }
  }
}
