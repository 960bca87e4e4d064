/** Decimal printing and the number parser of the C library (strtol, section 7.22.1.4 of
    ISO/IEC 9899:2011). The end pointer of a parse is the unread rest of the string. */
module Decimal {

  // --------------------------------------------------------------------------- strtol

  predicate IsSpace(c: char) { c == ' ' || '\t' <= c <= '\r' }

  /** Value of `c` as a digit, 36 if it is none. */
  function DigitOf(c: char): (d: nat)
    ensures d <= 36
  {
    if '0' <= c <= '9' then c as int - '0' as int
    else if 'a' <= c <= 'z' then c as int - 'a' as int + 10
    else if 'A' <= c <= 'Z' then c as int - 'A' as int + 10
    else 36
  }

  predicate StartsWithDigit(s: string, base: nat) { s != [] && DigitOf(s[0]) < base }

  function SkipSpace(s: string): (r: string)
    ensures |r| <= |s|
  {
    if s != [] && IsSpace(s[0]) then SkipSpace(s[1..]) else s
  }

  function Digits(acc: nat, s: string, base: nat): (r: (nat, string))
    ensures |r.1| <= |s|
    decreases |s|
  {
    if StartsWithDigit(s, base) then Digits(acc * base + DigitOf(s[0]), s[1..], base) else (acc, s)
  }

  /** The base in force and the text after its prefix; base 0 looks at the text. */
  function Prefix(s: string, base: nat): (nat, string) {
    if base != 0 then (base, s)
    else if |s| >= 3 && s[0] == '0' && (s[1] == 'x' || s[1] == 'X') && DigitOf(s[2]) < 16 then (16, s[2..])
    else if s != [] && s[0] == '0' then (8, s)
    else (10, s)
  }

  /** `max` is the largest long; out-of-range values saturate. */
  function Saturate(v: int, max: int): int { if v > max then max else if v < -max - 1 then -max - 1 else v }

  function Strtol(s: string, base: nat, max: int): (r: (int, string))
    ensures |r.1| <= |s|
  {
    var t := SkipSpace(s);
    var signed := t != [] && (t[0] == '-' || t[0] == '+');
    var p := Prefix(if signed then t[1..] else t, base);
    if !StartsWithDigit(p.1, p.0) then (0, s)
    else
      var (v: int, rest) := Digits(0, p.1, p.0);
      (Saturate(if signed && t[0] == '-' then -v else v, max), rest)
  }

  /** Conversion of a long to a 32-bit int. */
  function ToInt32(v: int): int { (v + 0x8000_0000) % 0x1_0000_0000 - 0x8000_0000 }

  predicate Int32(v: int) { -0x8000_0000 <= v < 0x8000_0000 }

  // -------------------------------------------------------------------------- printing

  function DigitChar(d: nat): (c: char)
    requires d < 10
    ensures DigitOf(c) == d && '0' <= c <= '9'
  {
    '0' + d as char
  }

  function PrintNat(n: nat): (r: string)
    ensures r != [] && forall i | 0 <= i < |r| :: '0' <= r[i] <= '9'
  {
    if n < 10 then [DigitChar(n)] else PrintNat(n / 10) + [DigitChar(n % 10)]
  }

  function PrintInt(v: int): (r: string)
    ensures r != [] && forall i | 0 <= i < |r| :: r[i] == '-' || '0' <= r[i] <= '9'
  {
    if v < 0 then "-" + PrintNat(-v) else PrintNat(v)
  }

  // ------------------------------------------------------------------------ round trips

  /** Reading a printed number, then whatever follows it, is reading on from that number. */
  lemma {:induction false} DigitsPrint(n: nat, rest: string)
    ensures Digits(0, PrintNat(n) + rest, 10) == Digits(n, rest, 10)
  {
    if n < 10 {
      assert (PrintNat(n) + rest)[1..] == rest;
    } else {
      var last := [DigitChar(n % 10)];
      assert PrintNat(n) + rest == PrintNat(n / 10) + (last + rest);
      DigitsPrint(n / 10, last + rest);
      assert (last + rest)[1..] == rest;
    }
  }

  /** Only zero prints with a leading zero. */
  lemma {:induction false} LeadingDigit(n: nat)
    ensures PrintNat(n)[0] == '0' <==> n == 0
    ensures n == 0 ==> PrintNat(n) == "0"
  {
    if n >= 10 {
      LeadingDigit(n / 10);
    }
  }

  /** A printed natural number followed by something else, as the parser sees it. */
  lemma NatText(n: nat, rest: string)
    requires !StartsWithDigit(rest, 10)
    ensures var u := PrintNat(n) + rest; '0' <= u[0] <= '9' && Digits(0, u, 10) == (n, rest)
  {
    DigitsPrint(n, rest);
    assert (PrintNat(n) + rest)[0] == PrintNat(n)[0];
  }

  /** Parsing a text that starts with a digit, without and with a minus sign. */
  lemma StrtolDigits(u: string, base: nat, v: int, rest: string, max: int)
    requires u != [] && '0' <= u[0] <= '9' && v >= 0 && Prefix(u, base).1 == u
    requires StartsWithDigit(u, Prefix(u, base).0) && Digits(0, u, Prefix(u, base).0) == (v, rest)
    ensures Strtol(u, base, max) == (Saturate(v, max), rest)
    ensures Strtol("-" + u, base, max) == (Saturate(-v, max), rest)
  {
    hide Digits, Saturate, Prefix;
    var s := "-" + u;
    assert s[0] == '-' && s[1..] == u;
    assert SkipSpace(u) == u && SkipSpace(s) == s;
  }

  /** Base ten: a printed number reads back, and the parser stops right after it. */
  lemma StrtolPrint(v: int, rest: string, max: int)
    requires !StartsWithDigit(rest, 10) && -max - 1 <= v <= max
    ensures Strtol(PrintInt(v) + rest, 10, max) == (v, rest)
  {
    hide Strtol, Digits, PrintNat;
    var n := if v < 0 then -v else v;
    NatText(n, rest);
    StrtolDigits(PrintNat(n) + rest, 10, n, rest, max);
    if v < 0 {
      assert PrintInt(v) + rest == "-" + (PrintNat(n) + rest);
    }
  }

  /** Base zero, with its octal and hexadecimal prefixes: a printed number still reads back. */
  lemma StrtolPrintAnyBase(v: int, max: int)
    requires -max - 1 <= v <= max
    ensures Strtol(PrintInt(v), 0, max) == (v, "")
  {
    var n := if v < 0 then -v else v;
    LeadingDigit(n);
    if n == 0 {
      ZeroText();
      StrtolDigits("0", 0, 0, "", max);
    } else {
      NatText(n, "");
      assert PrintNat(n) + "" == PrintNat(n);
      StrtolDigits(PrintNat(n), 0, n, "", max);
    }
    hide Strtol, Digits;
  }

  /** Zero is read in base eight. */
  lemma ZeroText()
    ensures Prefix("0", 0) == (8, "0") && Digits(0, "0", 8) == (0, "")
  {
    assert "0"[1..] == "";
    assert Digits(0, "0", 8) == Digits(0, "", 8);
  }

  lemma ToInt32Id(v: int)
    requires Int32(v)
    ensures ToInt32(v) == v
  {
  }

  /** A long that does not fit wraps around. */
  lemma ToInt32Wraps(v: int)
    ensures Int32(ToInt32(v)) && (v - ToInt32(v)) % 0x1_0000_0000 == 0
  {
  }

  // --------------------------------------------------------------------- other notations

  function BaseChar(d: nat): (c: char)
    requires d < 16
    ensures DigitOf(c) == d && !IsSpace(c) && c != '-' && c != '+' && c != 'x' && c != 'X'
  {
    if d < 10 then '0' + d as char else 'a' + (d - 10) as char
  }

  function PrintBase(n: nat, base: nat): (r: string)
    requires 2 <= base <= 16
    ensures r != []
    decreases n
  {
    if n < base then [BaseChar(n)] else PrintBase(n / base, base) + [BaseChar(n % base)]
  }

  lemma DigitsStep(acc: nat, d: nat, base: nat, rest: string)
    requires d < base <= 16
    ensures Digits(acc, [BaseChar(d)] + rest, base) == Digits(acc * base + d, rest, base)
  {
    var s := [BaseChar(d)] + rest;
    assert s[0] == BaseChar(d) && s[1..] == rest;
  }

  lemma PrintStep(n: nat, base: nat)
    requires 2 <= base <= 16
    ensures if n < base then PrintBase(n, base) == [BaseChar(n)]
            else n / base < n && n % base < base && n / base * base + n % base == n
                 && PrintBase(n, base) == PrintBase(n / base, base) + [BaseChar(n % base)]
  {
  }

  lemma {:induction false} DigitsBase(n: nat, base: nat, rest: string)
    requires 2 <= base <= 16
    ensures Digits(0, PrintBase(n, base) + rest, base) == Digits(n, rest, base)
    ensures StartsWithDigit(PrintBase(n, base) + rest, base)
    decreases n
  {
    PrintStep(n, base);
    hide Digits, PrintBase;
    if n < base {
      DigitsStep(0, n, base, rest);
    } else {
      var last := [BaseChar(n % base)];
      assert PrintBase(n, base) + rest == PrintBase(n / base, base) + (last + rest);
      DigitsBase(n / base, base, last + rest);
      DigitsStep(n / base, n % base, base, rest);
    }
  }

  lemma ReadBase(n: nat, base: nat)
    requires 2 <= base <= 16
    ensures Digits(0, PrintBase(n, base), base) == (n, "") && StartsWithDigit(PrintBase(n, base), base)
  {
    DigitsBase(n, base, "");
    assert PrintBase(n, base) + "" == PrintBase(n, base);
  }

  /** Base zero: a hexadecimal text after `0x` reads as its number, saturated. */
  lemma StrtolHex(n: nat, max: int)
    ensures Strtol("0x" + PrintBase(n, 16), 0, max) == (Saturate(n, max), "")
  {
    var t := PrintBase(n, 16);
    var s := "0x" + t;
    ReadBase(n, 16);
    hide Digits, PrintBase;
    assert s[0] == '0' && s[1] == 'x' && s[2] == t[0] && s[2..] == t;
    assert SkipSpace(s) == s;
    assert Prefix(s, 0) == (16, t);
  }

  /** Base zero: an octal text after `0` reads as its number, saturated. */
  lemma StrtolOctal(n: nat, max: int)
    ensures Strtol("0" + PrintBase(n, 8), 0, max) == (Saturate(n, max), "")
  {
    var t := PrintBase(n, 8);
    var s := "0" + t;
    ReadBase(n, 8);
    assert s[0] == '0' && s[1..] == t;
    assert Digits(0, s, 8) == Digits(0, t, 8);
    hide Digits, PrintBase;
    assert SkipSpace(s) == s;
    assert DigitOf(t[0]) < 8 && s[1] == t[0];
    assert Prefix(s, 0) == (8, s);
  }

  /** Leading white space is skipped, and a plus sign before a digit changes nothing. */
  lemma StrtolSkips(c: char, u: string, base: nat, max: int)
    requires IsSpace(c) && u != [] && '0' <= u[0] <= '9' && 10 <= base <= 16
    ensures Strtol([c] + u, base, max) == Strtol(u, base, max) && Strtol("+" + u, base, max) == Strtol(u, base, max)
  {
    var a, b := [c] + u, "+" + u;
    assert a[1..] == u && b[1..] == u && b[0] == '+';
    assert SkipSpace(u) == u && SkipSpace(a) == u && SkipSpace(b) == b;
  }

  /** A text without a number reads as zero and nothing of it is consumed. */
  lemma StrtolNothing(s: string, max: int)
    requires s == [] || (!IsSpace(s[0]) && s[0] != '-' && s[0] != '+' && !('0' <= s[0] <= '9'))
    ensures Strtol(s, 10, max) == (0, s) && Strtol(s, 0, max) == (0, s)
  {
    assert SkipSpace(s) == s;
  }
}
