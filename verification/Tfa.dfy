/** The amplifier's 24-bit big-endian codec and the scaling of equaliser lines. Shifts and
    masks of bytes are written as multiplications, divisions and remainders; 32-bit values
    are integers with explicit ranges. */
module Tfa {

  type Byte = x: int | 0 <= x < 256

  const MAX_POS := 0x7F_FFFF
  const MIN_MAG := 0x80_0000

  // --------------------------------------------------------------------- 24-bit codec

  function Clamp(x: int): int { if x > MAX_POS then MAX_POS else if x < -MIN_MAG then -MIN_MAG else x }

  function DecodeOne(b0: Byte, b1: Byte, b2: Byte): int {
    var d := b0 * 65536 + b1 * 256 + b2;
    if b0 >= 128 then d - 0x100_0000 else d
  }

  function Unsigned(x: int): (d: int)
    ensures 0 <= d < 0x100_0000
  {
    if x >= 0 then (if x < MAX_POS then x else MAX_POS)
    else 0x100_0000 - (if -x < MIN_MAG then -x else MIN_MAG)
  }

  function EncodeByte(x: int, j: int): Byte
    requires 0 <= j < 3
  {
    if j == 0 then Unsigned(x) / 65536 % 256 else if j == 1 then Unsigned(x) / 256 % 256 else Unsigned(x) % 256
  }

  function Decode(b: seq<Byte>): seq<int> {
    seq(|b| / 3, i requires 0 <= i < |b| / 3 => DecodeOne(b[3 * i], b[3 * i + 1], b[3 * i + 2]))
  }

  function Encode(d: seq<int>): seq<Byte> {
    seq(3 * |d|, k requires 0 <= k < 3 * |d| => EncodeByte(d[k / 3], k % 3))
  }

  lemma EncodeAt(d: seq<int>, i: nat)
    requires i < |d|
    ensures Encode(d)[3 * i] == EncodeByte(d[i], 0)
    ensures Encode(d)[3 * i + 1] == EncodeByte(d[i], 1)
    ensures Encode(d)[3 * i + 2] == EncodeByte(d[i], 2)
  {
  }

  lemma DecodeUnsigned(x: int)
    ensures DecodeOne(EncodeByte(x, 0), EncodeByte(x, 1), EncodeByte(x, 2)) == Clamp(x)
  {
  }

  lemma Bytes(d: int, b0: Byte, b1: Byte, b2: Byte)
    requires d == b0 * 65536 + b1 * 256 + b2
    ensures d / 65536 % 256 == b0 && d / 256 % 256 == b1 && d % 256 == b2
  {
    assert d / 65536 == b0;
    assert d / 256 == b0 * 256 + b1;
  }

  lemma EncodeDecoded(b0: Byte, b1: Byte, b2: Byte)
    ensures var x := DecodeOne(b0, b1, b2); EncodeByte(x, 0) == b0 && EncodeByte(x, 1) == b1 && EncodeByte(x, 2) == b2
  {
    var d := b0 as int * 65536 + b1 as int * 256 + b2 as int;
    assert Unsigned(DecodeOne(b0, b1, b2)) == d;
    Bytes(d, b0, b1, b2);
  }

  /** Decoding what was encoded gives every value clamped to 24 bits. */
  lemma DecodeEncode(d: seq<int>)
    ensures |Decode(Encode(d))| == |d|
    ensures forall i | 0 <= i < |d| :: Decode(Encode(d))[i] == Clamp(d[i])
  {
    forall i | 0 <= i < |d| ensures Decode(Encode(d))[i] == Clamp(d[i]) {
      EncodeAt(d, i);
      DecodeUnsigned(d[i]);
    }
  }

  lemma TripleBack(b: seq<Byte>, i: nat)
    requires 3 * i + 3 <= |b|
    ensures |Encode(Decode(b))| == |b| / 3 * 3
    ensures Encode(Decode(b))[3 * i] == b[3 * i]
    ensures Encode(Decode(b))[3 * i + 1] == b[3 * i + 1]
    ensures Encode(Decode(b))[3 * i + 2] == b[3 * i + 2]
  {
    hide EncodeByte, DecodeOne;
    assert i < |b| / 3;
    EncodeAt(Decode(b), i);
    EncodeDecoded(b[3 * i], b[3 * i + 1], b[3 * i + 2]);
  }

  /** Encoding what was decoded gives back the bytes, up to an incomplete last triple. */
  lemma EncodeDecode(b: seq<Byte>)
    ensures Encode(Decode(b)) == b[..|b| / 3 * 3]
  {
    var n := |b| / 3;
    forall k | 0 <= k < 3 * n ensures Encode(Decode(b))[k] == b[k] {
      TripleBack(b, k / 3);
      assert k == 3 * (k / 3) || k == 3 * (k / 3) + 1 || k == 3 * (k / 3) + 2;
    }
  }

  // ------------------------------------------------------------------------ byte order

  ghost predicate In24(x: int) { -MIN_MAG <= x <= MAX_POS }

  /** The first byte counts most: `a` comes before `b` in the order of byte triples. */
  ghost predicate TripleLess(a: seq<Byte>, b: seq<Byte>)
    requires |a| == 3 && |b| == 3
  {
    a[0] < b[0] || (a[0] == b[0] && (a[1] < b[1] || (a[1] == b[1] && a[2] < b[2])))
  }

  lemma BytesOrdered(d: int, e: int)
    requires 0 <= d < 0x100_0000 && 0 <= e < 0x100_0000
    ensures d < e <==>
      || d / 65536 % 256 < e / 65536 % 256
      || (d / 65536 % 256 == e / 65536 % 256 &&
           (d / 256 % 256 < e / 256 % 256 || (d / 256 % 256 == e / 256 % 256 && d % 256 < e % 256)))
  {
    assert d / 65536 == d / 256 / 256 && e / 65536 == e / 256 / 256;
    assert d == 65536 * (d / 65536) + 256 * (d / 256 % 256) + d % 256;
    assert e == 65536 * (e / 65536) + 256 * (e / 256 % 256) + e % 256;
  }

  /** Big-endian two's complement: the top bit of the first byte is the sign, and words of equal
      sign compare as their byte triples do from the first byte on. */
  lemma BigEndian(x: int, y: int)
    requires In24(x) && In24(y)
    ensures Encode([x])[0] >= 128 <==> x < 0
    ensures (x < 0) == (y < 0) ==> (x < y <==> TripleLess(Encode([x]), Encode([y])))
  {
    EncodeAt([x], 0);
    EncodeAt([y], 0);
    BytesOrdered(Unsigned(x), Unsigned(y));
    assert x < 0 ==> Unsigned(x) == 0x100_0000 + x;
    assert y < 0 ==> Unsigned(y) == 0x100_0000 + y;
    hide Encode;
  }

  method Bytes2Data(bytes: array<Byte>, numBytes: nat, data: array<int>)
    requires numBytes <= bytes.Length && numBytes / 3 <= data.Length
    modifies data
    ensures data[..numBytes / 3] == Decode(bytes[..numBytes])
    ensures data[numBytes / 3..] == old(data[numBytes / 3..])
  {
    ghost var b := bytes[..numBytes];
    for i := 0 to numBytes / 3
      invariant data[..i] == Decode(b)[..i] && data[numBytes / 3..] == old(data[numBytes / 3..])
      invariant bytes[..numBytes] == b
    {
      var k := 3 * i;
      var b0: int, b1: int, b2: int := bytes[k], bytes[k + 1], bytes[k + 2];
      var d := b0 * 65536 + b1 * 256 + b2;
      if b0 >= 128 { d := -(0x100_0000 - d); }
      data[i] := d;
      assert data[i] == Decode(b)[i];
    }
  }

  /** Negating the least 32-bit value overflows in the source, hence the lower bound. */
  method Data2Bytes(data: seq<int>, bytes: array<Byte>, at: nat)
    requires at + 3 * |data| <= bytes.Length && forall i | 0 <= i < |data| :: -0x8000_0000 < data[i] < 0x8000_0000
    modifies bytes
    ensures bytes[at..at + 3 * |data|] == Encode(data)
    ensures bytes[..at] == old(bytes[..at]) && bytes[at + 3 * |data|..] == old(bytes[at + 3 * |data|..])
  {
    hide EncodeByte;
    for i := 0 to |data|
      invariant forall m | 0 <= m < 3 * i :: bytes[at + m] == Encode(data)[m]
      invariant forall m | 0 <= m < at || at + 3 * |data| <= m < bytes.Length :: bytes[m] == old(bytes[m])
    {
      EncodeAt(data, i);
      hide Encode;
      WriteWord(data[i], bytes, at + 3 * i);
    }
  }

  method WriteWord(x: int, bytes: array<Byte>, k: nat)
    requires k + 3 <= bytes.Length && -0x8000_0000 < x < 0x8000_0000
    modifies bytes
    ensures bytes[k] == EncodeByte(x, 0) && bytes[k + 1] == EncodeByte(x, 1) && bytes[k + 2] == EncodeByte(x, 2)
    ensures forall m | 0 <= m < bytes.Length && (m < k || m >= k + 3) :: bytes[m] == old(bytes[m])
  {
    var d;
    if x >= 0 {
      d := if x < MAX_POS then x else MAX_POS;
    } else {
      d := 0x100_0000 - if -x < MIN_MAG then -x else MIN_MAG;
    }
    bytes[k] := d / 65536 % 256;
    bytes[k + 1] := d / 256 % 256;
    bytes[k + 2] := d % 256;
  }
}
