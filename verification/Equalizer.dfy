/** Scaling of equaliser lines over exact reals. Coefficients are finite single-precision
    values given by their bits, because the source compares bytes to find disabled lines. */
module Equalizer {
  import opened Tfa

  // ---------------------------------------------------------------------- powers of two

  function Pow2(n: int): (r: real)
    ensures r > 0.0
    decreases if n < 0 then -n else n
  {
    if n == 0 then 1.0 else if n > 0 then 2.0 * Pow2(n - 1) else Pow2(n + 1) / 2.0
  }

  lemma {:induction false} Pow2Succ(n: int)
    ensures Pow2(n + 1) == 2.0 * Pow2(n)
  {
  }

  lemma Pow2Zero()
    ensures Pow2(0) == 1.0
  {
  }

  lemma DoubleRight(x: real, y: real)
    ensures x * (2.0 * y) == 2.0 * (x * y)
  {
  }

  lemma {:induction false} Pow2Add(a: int, b: nat)
    ensures Pow2(a + b) == Pow2(a) * Pow2(b)
    decreases b
  {
    hide Pow2;
    if b == 0 {
      Pow2Zero();
    } else {
      Pow2Add(a, b - 1);
      Pow2Succ(a + b - 1);
      Pow2Succ(b - 1);
      DoubleRight(Pow2(a), Pow2(b - 1));
    }
  }

  lemma Pow2Split(n: nat, a: int)
    requires a <= n
    ensures Pow2(a) * Pow2(n - a) == Pow2(n)
  {
    Pow2Add(a, n - a);
  }

  lemma {:induction false} Pow2Mono(a: int, b: int)
    requires a <= b
    ensures Pow2(a) <= Pow2(b)
    decreases b - a
  {
    if a < b {
      Pow2Mono(a, b - 1);
      Pow2Succ(b - 1);
    }
  }

  lemma Pow2At23()
    ensures Pow2(23) == 8388608.0
  {
    assert Pow2(4) == 16.0 && Pow2(7) == 128.0;
    Pow2Add(4, 4);
    Pow2Add(8, 8);
    Pow2Add(16, 7);
  }

  /** Two factors of two to the power of 23. */
  ghost predicate Complementary(p: real, k: real) { p * k == 8388608.0 }

  lemma ScaleTop(a: int)
    requires a <= 23
    ensures Complementary(Pow2(a), Pow2(23 - a))
  {
    hide Complementary;
    Pow2At23();
    ScaleTopAt(23, a);
  }

  lemma ScaleTopAt(n: nat, a: int)
    requires a <= n && Pow2(n) == 8388608.0
    ensures Complementary(Pow2(a), Pow2(n - a))
  {
    Pow2Split(n, a);
  }

  // ------------------------------------------------------------------------- one line

  /** Two to the power of minus 23. */
  const EPS: real := 1.0 / 8388608.0

  /** The sign, exponent and fraction fields of a single-precision number. */
  datatype Fields = Float(neg: bool, exp: nat, frac: nat)

  /** A finite number has an exponent field below 255 and a fraction of 23 bits. */
  type Float = f: Fields | f.exp < 255 && f.frac < 0x80_0000 witness Float(false, 0, 0)

  function Value(f: Float): real {
    var mag := if f.exp == 0 then f.frac as real * Pow2(-149) else (0x80_0000 + f.frac) as real * Pow2(f.exp - 150);
    if f.neg then -mag else mag
  }

  const ZERO: Float := Float(false, 0, 0)
  const ONE: Float := Float(false, 127, 0)

  function Abs(x: real): (r: real)
    ensures r >= 0.0
  {
    if x < 0.0 then -x else x
  }

  /** `s` is the exponent the source computes: the ceiling of the binary logarithm of `m`. */
  ghost predicate IsCeilLog2(m: real, s: int) { Pow2(s - 1) < m <= Pow2(s) }

  /** There is only one such exponent. */
  lemma CeilLog2Unique(m: real, s: int, t: int)
    requires IsCeilLog2(m, s) && IsCeilLog2(m, t)
    ensures s == t
  {
    if s < t { Pow2Mono(s, t - 1); }
    if t < s { Pow2Mono(t, s - 1); }
  }

  lemma {:induction false} Pow2Beats(n: nat)
    ensures Pow2(n) > n as real
  {
    if n > 0 {
      Pow2Beats(n - 1);
    }
  }

  /** Powers of two get below every positive number. */
  lemma Pow2Small(m: real, n: nat)
    requires m > 0.0 && n as real >= 1.0 / m
    ensures Pow2(0 - n) < m
  {
    Pow2Beats(n);
    Pow2Add(0 - n, n);
    Reciprocal(Pow2(0 - n), Pow2(n), m);
  }

  lemma Reciprocal(a: real, b: real, m: real)
    requires a > 0.0 && a * b == 1.0 && m > 0.0 && b > 1.0 / m
    ensures a < m
  {
    MulLess(1.0 / m, b, m);
    if a > m {
      MulLess(m, a, b);
    }
  }

  /** The first exponent at or above `s` whose power reaches `m`. */
  function Climb(m: real, s: int): (r: int)
    requires Pow2(s - 1) < m
    ensures IsCeilLog2(m, r)
    decreases m.Floor + 1 - s
  {
    if m <= Pow2(s) then s
    else
      assert s <= m.Floor by {
        if s >= 0 { Pow2Beats(s); }
      }
      Climb(m, s + 1)
  }

  /** The ceiling of the binary logarithm exists for every positive number. */
  function CeilLog2(m: real): (r: int)
    requires m > 0.0
    ensures IsCeilLog2(m, r)
  {
    var n := (1.0 / m).Floor + 1;
    assert Pow2(-n) < m by {
      InverseFloor(m);
      Pow2Small(m, n);
    }
    Climb(m, 1 - n)
  }

  lemma InverseFloor(m: real)
    requires m > 0.0
    ensures (1.0 / m).Floor >= 0
  {
    assert 1.0 / m > 0.0;
  }

  /** The exponent is at most `n` exactly when the number is at most that power. */
  lemma CeilLog2AtMost(m: real, n: int)
    requires m > 0.0
    ensures CeilLog2(m) <= n <==> m <= Pow2(n)
  {
    var s := CeilLog2(m);
    if s <= n { Pow2Mono(s, n); } else { Pow2Mono(n, s - 1); }
  }

  function Space(s: int): int { if s < 0 then 0 else s }

  /** The conversion to a 32-bit integer drops the fraction. */
  function Trunc(x: real): int { if x >= 0.0 then x.Floor else -((-x).Floor) }

  function ScaleBy(x: real, k: real): int { Trunc(x * k) }

  function Scaled(x: real, space: int): int { ScaleBy(x, Pow2(23 - space)) }

  /** The six 24-bit words of a line: the exponent, then the coefficients back to front. */
  function Words(v: seq<real>, space: int): seq<int>
    requires |v| == 5
  {
    [space, Scaled(-v[4], space), Scaled(-v[3], space), Scaled(v[2], space), Scaled(v[1], space), Scaled(v[0], space)]
  }

  ghost predicate IsMaxAbs(v: seq<real>, m: real) {
    (forall i | 0 <= i < |v| :: Abs(v[i]) <= m) && exists i :: 0 <= i < |v| && Abs(v[i]) == m
  }

  /** The largest magnitude on a line. */
  function Peak(v: seq<real>): (m: real)
    requires v != []
    ensures IsMaxAbs(v, m)
  {
    var n := |v| - 1;
    if n == 0 then Abs(v[0])
    else
      var p := Peak(v[..n]);
      assert forall i | 0 <= i < n :: v[..n][i] == v[i];
      assert exists i :: 0 <= i < n && Abs(v[i]) == p by {
        var i :| 0 <= i < n && Abs(v[..n][i]) == p;
        assert Abs(v[i]) == p;
      }
      if Abs(v[n]) > p then Abs(v[n]) else p
  }

  /** The exponent of a line, before negative ones are raised to zero. */
  function Exponent(v: seq<real>): int
    requires v != []
  {
    CeilLog2(Peak(v) + EPS)
  }

  /** A line is accepted if and only if no coefficient exceeds 256 less one rounding unit. */
  lemma AcceptedIff(v: seq<real>)
    requires v != []
    ensures Exponent(v) <= 8 <==> forall i | 0 <= i < |v| :: Abs(v[i]) <= 256.0 - EPS
  {
    CeilLog2AtMost(Peak(v) + EPS, 8);
    assert Pow2(4) == 16.0;
    Pow2Add(4, 4);
  }

  method MaxAbs(v: seq<real>) returns (m: real)
    requires |v| == 5
    ensures IsMaxAbs(v, m) && m == Peak(v)
  {
    m := Abs(v[0]);
    for j := 1 to 5
      invariant forall i | 0 <= i < j :: Abs(v[i]) <= m
      invariant exists i :: 0 <= i < j && Abs(v[i]) == m
    {
      if Abs(v[j]) > m { m := Abs(v[j]); }
    }
  }

  lemma MulLess(a: real, b: real, k: real)
    requires a < b && k > 0.0
    ensures a * k < b * k
  {
  }

  lemma TruncFits(y: real, n: int)
    requires -(n as real) < y < n as real
    ensures -n < Trunc(y) < n
  {
  }

  lemma TruncClose(y: real)
    ensures -1.0 < Trunc(y) as real - y < 1.0
  {
  }

  lemma ScaledFits(x: real, p: real, k: real)
    requires -p < x < p && k > 0.0 && Complementary(p, k)
    ensures -MIN_MAG < ScaleBy(x, k) < MIN_MAG
  {
    MulLess(x, p, k);
    MulLess(-p, x, k);
    assert (-p) * k == -(p * k);
    assert MIN_MAG as real == 8388608.0;
    TruncFits(x * k, MIN_MAG);
  }

  lemma BelowPower(max: real, s: int)
    requires IsCeilLog2(max + EPS, s)
    ensures max < Pow2(Space(s))
  {
    Pow2Mono(s, Space(s));
  }

  lemma FitsBelow(x: real, sp: int)
    requires sp <= 23 && -Pow2(sp) < x < Pow2(sp)
    ensures -MIN_MAG < Scaled(x, sp) < MIN_MAG
  {
    hide ScaleBy, Complementary;
    ScaleTop(sp);
    ScaledFits(x, Pow2(sp), Pow2(23 - sp));
  }

  /** Each coefficient, scaled with the chosen exponent, stays strictly inside 24 bits. */
  lemma NoSaturation(x: real, max: real, s: int)
    requires Abs(x) <= max && IsCeilLog2(max + EPS, s) && s <= 8
    ensures -MIN_MAG < Scaled(x, Space(s)) < MIN_MAG
  {
    hide Scaled;
    BelowPower(max, s);
    FitsBelow(x, Space(s));
  }

  /** Undoing the scaling recovers a coefficient up to one unit in the last place. */
  lemma Recovers(x: real, space: int)
    requires 0 <= space <= 23
    ensures Near(Scaled(x, space), space, x)
  {
    hide ScaleBy, NearBy;
    Inverse(space);
    Rescale(x, Pow2(23 - space), Pow2(space - 23));
  }

  lemma Inverse(space: int)
    requires space <= 23
    ensures Pow2(space - 23) * Pow2(23 - space) == 1.0
  {
    Pow2Add(space - 23, 23 - space);
  }

  lemma Rescale(x: real, k: real, u: real)
    requires u * k == 1.0 && u > 0.0
    ensures NearBy(ScaleBy(x, k), u, x)
  {
    TruncClose(x * k);
    var t := Trunc(x * k) as real;
    hide Trunc;
    var d := t - x * k;
    MulLess(d, 1.0, u);
    MulLess(-1.0, d, u);
    assert d * u == t * u - x by {
      assert d * u == t * u - (x * k) * u;
      assert (x * k) * u == x * (u * k);
    }
  }

  /** A packed line decodes to its exponent and, in reverse order and with the signs the
      amplifier expects, to all five coefficients within one unit in the last place. */
  lemma LineRoundTrip(v: seq<real>)
    requires |v| == 5 && forall i | 0 <= i < |v| :: Abs(v[i]) <= 256.0 - EPS
    ensures Decoded(Decode(Encode(Words(v, Space(Exponent(v))))), Space(Exponent(v)), v)
  {
    AcceptedIff(v);
    hide Decode, Encode, Words, Decoded;
    WordsRoundTrip(v, Peak(v), Exponent(v));
  }

  /** The words `d` are the exponent and the coefficients, each within one unit in the last place. */
  ghost predicate Decoded(d: seq<int>, space: int, v: seq<real>)
    requires |v| == 5
  {
    && |d| == 6 && d[0] == space
    && Near(d[1], space, -v[4]) && Near(d[2], space, -v[3])
    && Near(d[3], space, v[2]) && Near(d[4], space, v[1]) && Near(d[5], space, v[0])
  }

  lemma WordsRoundTrip(v: seq<real>, max: real, s: int)
    requires |v| == 5 && IsMaxAbs(v, max) && IsCeilLog2(max + EPS, s) && s <= 8
    ensures Decoded(Decode(Encode(Words(v, Space(s)))), Space(s), v)
  {
    hide Near, Scaled, Decode, Encode;
    DecodeEncode(Words(v, Space(s)));
    WordNear(-v[4], max, s);
    WordNear(-v[3], max, s);
    WordNear(v[2], max, s);
    WordNear(v[1], max, s);
    WordNear(v[0], max, s);
  }

  /** The word `d`, read with exponent `space`, is within one unit in the last place of `x`. */
  ghost predicate Near(d: int, space: int, x: real) { NearBy(d, Pow2(space - 23), x) }

  ghost predicate NearBy(d: int, u: real, x: real) { Abs(d as real * u - x) < u }

  lemma WordNear(x: real, max: real, s: int)
    requires Abs(x) <= max && IsCeilLog2(max + EPS, s) && s <= 8
    ensures Clamp(Scaled(x, Space(s))) == Scaled(x, Space(s)) && Near(Scaled(x, Space(s)), Space(s), x)
  {
    hide Near, Scaled;
    NoSaturation(x, max, s);
    Recovers(x, Space(s));
  }

  // ----------------------------------------------------------------------- disabled lines

  /** The 32 bits of a number. */
  function Bits(f: Float): nat { (if f.neg then 0x8000_0000 else 0) + f.exp * 0x80_0000 + f.frac }

  /** The bytes of a number in memory, least significant first. */
  function Bytes(f: Float): seq<nat> {
    var b := Bits(f);
    [b % 256, b / 256 % 256, b / 0x1_0000 % 256, b / 0x100_0000]
  }

  function LineBytes(c: seq<Float>): seq<nat> { if c == [] then [] else Bytes(c[0]) + LineBytes(c[1..]) }

  const DISABLED: seq<Float> := [ONE, ZERO, ZERO, ZERO, ZERO]

  predicate Disabled(c: seq<Float>) { c == DISABLED }

  /** The source compares the first five bytes of the line with those of the disabled line. */
  predicate Skipped(c: seq<Float>)
    requires |c| == 5
  {
    assert |LineBytes(c)| >= 5 by { FirstFive(c); }
    assert |LineBytes(DISABLED)| >= 5 by { FirstFive(DISABLED); }
    LineBytes(c)[..5] == LineBytes(DISABLED)[..5]
  }

  lemma BytesAreBits(a: nat, b: nat)
    requires a % 256 == b % 256 && a / 256 % 256 == b / 256 % 256
    requires a / 0x1_0000 % 256 == b / 0x1_0000 % 256 && a / 0x100_0000 == b / 0x100_0000
    ensures a == b
  {
    assert a / 0x100_0000 == a / 0x1_0000 / 256 && a / 0x1_0000 == a / 256 / 256;
    assert b / 0x100_0000 == b / 0x1_0000 / 256 && b / 0x1_0000 == b / 256 / 256;
  }

  lemma BitsAreFields(f: Float, g: Float)
    requires Bits(f) == Bits(g)
    ensures f == g
  {
  }

  lemma SameBytes(f: Float, g: Float)
    requires Bytes(f) == Bytes(g)
    ensures f == g
  {
    assert forall i | 0 <= i < 4 :: Bytes(f)[i] == Bytes(g)[i];
    var a, b := Bytes(f), Bytes(g);
    assert a[0] == b[0] && a[1] == b[1] && a[2] == b[2] && a[3] == b[3];
    BytesAreBits(Bits(f), Bits(g));
    BitsAreFields(f, g);
  }

  lemma ModShift(a: nat, b: nat)
    ensures (256 * a + b) % 256 == b % 256
  {
  }

  /** The low byte of a number is that of its fraction field. */
  lemma LowByte(f: Float)
    ensures Bytes(f)[0] == f.frac % 256
  {
    var high := (if f.neg then 0x80_0000 else 0) + f.exp * 0x8000;
    assert Bits(f) == 256 * high + f.frac;
    ModShift(high, f.frac);
  }

  lemma FirstFive(c: seq<Float>)
    requires |c| == 5
    ensures |LineBytes(c)| >= 5 && LineBytes(c)[..5] == Bytes(c[0]) + [Bytes(c[1])[0]]
  {
    assert LineBytes(c) == Bytes(c[0]) + (Bytes(c[1]) + LineBytes(c[1..][1..]));
  }

  /** The five bytes are the first coefficient and the low byte of the second. */
  lemma SkippedIff(c: seq<Float>)
    requires |c| == 5
    ensures Skipped(c) <==> c[0] == ONE && c[1].frac % 256 == 0
  {
    FirstFive(c);
    FirstFive(DISABLED);
    LowByte(c[1]);
    LowByte(ZERO);
    if Skipped(c) {
      var l, m := Bytes(c[0]) + [Bytes(c[1])[0]], Bytes(ONE) + [Bytes(ZERO)[0]];
      assert l == m && l[4] == m[4];
      assert Bytes(c[0]) == l[..4] && Bytes(ONE) == m[..4];
      SameBytes(c[0], ONE);
    }
  }

  /** The comparison recognises disabled lines exactly unless the line is not disabled, starts
      with 1.0, and has a second coefficient whose low byte is zero. */
  lemma GuardRightIff(c: seq<Float>)
    requires |c| == 5
    ensures (Skipped(c) <==> Disabled(c)) <==> Disabled(c) || c[0] != ONE || c[1].frac % 256 != 0
  {
    SkippedIff(c);
  }

  /** A line with second coefficient 0.5 is skipped although it is not disabled. */
  lemma HalfIsSkipped(c: seq<Float>)
    requires |c| == 5 && c[0] == ONE && c[1] == Float(false, 126, 0)
    ensures Value(c[1]) == 0.5 && Skipped(c) && !Disabled(c)
  {
    SkippedIff(c);
    Pow2At23();
    Inverse(-1);
    Pow2Add(-24, 23);
    assert Pow2(-1) == 0.5;
  }

  // ---------------------------------------------------------------------- packing a line

  function Values(c: seq<Float>): seq<real> { seq(|c|, i requires 0 <= i < |c| => Value(c[i])) }

  /** Packs line `i` of the buffer, 18 bytes a line. A skipped line leaves its bytes alone, too
      large a coefficient is an error. */
  method PackLine(c: seq<Float>, buf: array<Byte>, i: nat) returns (ok: bool)
    requires |c| == 5 && 18 * i + 18 <= buf.Length
    modifies buf
    ensures ok <==> Skipped(c) || Exponent(Values(c)) <= 8
    ensures buf[..18 * i] == old(buf[..18 * i]) && buf[18 * i + 18..] == old(buf[18 * i + 18..])
    ensures buf[18 * i..18 * i + 18] ==
      if Skipped(c) || !ok then old(buf[18 * i..18 * i + 18]) else Encode(Words(Values(c), Space(Exponent(Values(c)))))
  {
    if Skipped(c) { return true; }
    var v := Values(c);
    var m := MaxAbs(v);
    var log := CeilLog2(m + EPS);
    assert log == Exponent(v);
    hide Exponent, Peak, CeilLog2;
    if log > 8 { return false; }
    WordsFit(v, m, log);
    Data2Bytes(Words(v, Space(log)), buf, 18 * i);
    return true;
  }

  lemma WordsFit(v: seq<real>, max: real, s: int)
    requires |v| == 5 && IsMaxAbs(v, max) && IsCeilLog2(max + EPS, s) && s <= 8
    ensures forall i | 0 <= i < 6 :: -MIN_MAG < Words(v, Space(s))[i] < MIN_MAG
  {
    NoSaturation(-v[4], max, s);
    NoSaturation(-v[3], max, s);
    NoSaturation(v[2], max, s);
    NoSaturation(v[1], max, s);
    NoSaturation(v[0], max, s);
  }
}
