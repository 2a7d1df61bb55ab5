/** The Bitcoin transaction parser. None stands for the run-time panic of an index out of range. */
module BlkParser {
  import opened Options

  type Byte = b: int | 0 <= b < 256
  type Bytes = seq<Byte>

  // ----- Numbers ------------------------------------------------------------------------------------

  /** Little-endian value. */
  function FromLE(bs: Bytes): nat
  {
    if bs == [] then 0 else bs[0] + 256 * FromLE(bs[1..])
  }

  /** The k low bytes of v. */
  function LE(v: nat, k: nat): (r: Bytes)
    ensures |r| == k
  {
    if k == 0 then [] else [v % 256] + LE(v / 256, k - 1)
  }

  function Pow256(k: nat): nat
  {
    if k == 0 then 1 else 256 * Pow256(k - 1)
  }

  lemma {:induction false} LERoundTrip(v: nat, k: nat)
    requires v < Pow256(k)
    ensures FromLE(LE(v, k)) == v
  {
    if k > 0 { LERoundTrip(v / 256, k - 1); }
  }

  /** b << 8 * k. */
  function Shifted(b: nat, k: nat): nat
  {
    if k == 0 then b else 256 * Shifted(b, k - 1)
  }

  lemma {:induction false} FromLEAppend(bs: Bytes, b: Byte)
    ensures FromLE(bs + [b]) == FromLE(bs) + Shifted(b, |bs|)
  {
    if bs == [] {
      assert (bs + [b])[1..] == [];
    } else {
      FromLEAppend(bs[1..], b);
      assert (bs + [b])[1..] == bs[1..] + [b];
    }
  }

  /** The conversion of a uint64 to int. */
  function ToInt(v: nat): int
  {
    if v < 0x8000_0000_0000_0000 then v else v - 0x1_0000_0000_0000_0000
  }

  // ----- Variable-length integers ---------------------------------------------------------------------

  datatype VarInt = VarInt(cnt: int, size: nat)

  function VarIntSize(first: Byte): (size: nat)
    ensures size in {1, 3, 5, 9}
  {
    if first < 0xfd then 1 else if first == 0xfd then 3 else if first == 0xfe then 5 else 9
  }

  /** A long form needs one byte more in the input than it has itself; otherwise its value reads as 0. */
  function DecodeVarInt(raw: Bytes): Option<VarInt>
  {
    if raw == [] then None
    else
      var size := VarIntSize(raw[0]);
      if size == 1 then Some(VarInt(raw[0], 1))
      else if |raw| < 1 + size then Some(VarInt(0, size))
      else Some(VarInt(ToInt(FromLE(raw[1..size])), size))
  }

  /** The bits that the loop ors together do not overlap, so the or is a sum. */
  method DecodeVariableLengthInteger(raw: Bytes) returns (r: Option<VarInt>)
    ensures r == DecodeVarInt(raw)
  {
    if |raw| == 0 {
      return None;
    }
    if raw[0] < 0xfd {
      return Some(VarInt(raw[0], 1));
    }
    var size := VarIntSize(raw[0]);
    if |raw| < 1 + size {
      return Some(VarInt(0, size));
    }
    var res: nat := 0;
    for i := 1 to size
      invariant res == FromLE(raw[1..i])
    {
      assert raw[1..i + 1] == raw[1..i] + [raw[i]];
      FromLEAppend(raw[1..i], raw[i]);
      res := res + Shifted(raw[i], i - 1);
    }
    r := Some(VarInt(ToInt(res), size));
  }

  /** The wire form of a count. */
  function EncodeVarInt(v: nat): (r: Bytes)
    requires v < 0x1_0000_0000_0000_0000
    ensures |r| in {1, 3, 5, 9}
  {
    if v < 0xfd then [v]
    else if v < 0x1_0000 then [0xfd] + LE(v, 2)
    else if v < 0x1_0000_0000 then [0xfe] + LE(v, 4)
    else [0xff] + LE(v, 8)
  }

  lemma VarIntBody(v: nat)
    requires 0xfd <= v < 0x1_0000_0000_0000_0000
    ensures var e := EncodeVarInt(v); |e| > 1 && VarIntSize(e[0]) == |e| && FromLE(e[1..]) == v
  {
    assert Pow256(2) == 0x1_0000;
    assert Pow256(4) == 0x1_0000 * 0x1_0000;
    assert Pow256(8) == Pow256(4) * 0x1_0000_0000;
    var e := EncodeVarInt(v);
    var k := |e| - 1;
    assert e[1..] == LE(v, k);
    LERoundTrip(v, k);
  }

  /** Decoding an encoded count gives it back, wrapped to a signed 64-bit integer, if the form is short or more
      input follows, and 0 otherwise; so it undoes encoding exactly then, for counts that fit. */
  lemma VarIntRoundTrip(v: nat, rest: Bytes)
    requires v < 0x1_0000_0000_0000_0000
    ensures var e := EncodeVarInt(v);
      && DecodeVarInt(e + rest) == Some(VarInt(
           if v >= 0xfd && rest == [] then 0 else if v < 0x8000_0000_0000_0000 then v else v - 0x1_0000_0000_0000_0000, |e|))
      && (DecodeVarInt(e + rest) == Some(VarInt(v, |e|)) <==> v < 0xfd || (rest != [] && v < 0x8000_0000_0000_0000))
  {
    var e := EncodeVarInt(v);
    if v >= 0xfd {
      VarIntBody(v);
      assert (e + rest)[1..|e|] == e[1..];
    }
  }

  /** Every long form is read for what it says, also where a shorter one would do. */
  lemma LongForms(first: Byte, v: nat, rest: Bytes)
    requires first >= 0xfd && v < Pow256(VarIntSize(first) - 1) && rest != []
    ensures var k := VarIntSize(first) - 1;
      && k == (if first == 0xfd then 2 else if first == 0xfe then 4 else 8)
      && DecodeVarInt([first] + LE(v, k) + rest) ==
           Some(VarInt(if v < 0x8000_0000_0000_0000 then v else v - 0x1_0000_0000_0000_0000, k + 1))
  {
    var k := VarIntSize(first) - 1;
    var raw := [first] + LE(v, k) + rest;
    assert raw[1..k + 1] == LE(v, k);
    LERoundTrip(v, k);
    assert Pow256(2) == 0x1_0000;
    assert Pow256(4) == 0x1_0000 * 0x1_0000;
    assert Pow256(8) == Pow256(4) * 0x1_0000_0000;
  }

  // ----- Hash strings -----------------------------------------------------------------------------------

  function HexDigit(d: nat): (c: char)
    requires d < 16
    ensures c as int == if d < 10 then '0' as int + d else 'a' as int + (d - 10)
  {
    "0123456789abcdef"[d]
  }

  function HexByte(b: Byte): (r: string)
    ensures |r| == 2
  {
    [HexDigit(b / 16), HexDigit(b % 16)]
  }

  /** The bytes in hexadecimal, the last one first. */
  function HexReversed(data: Bytes): (r: string)
    ensures |r| == 2 * |data|
  {
    if data == [] then "" else HexByte(data[|data| - 1]) + HexReversed(data[..|data| - 1])
  }

  method HashString(data: Bytes) returns (res: string)
    requires |data| >= 32
    ensures res == HexReversed(data[..32])
    ensures HashDigits(res, data)
  {
    res := "";
    ghost var all := HexReversed(data[..32]);
    assert res + all == all;
    for i := 0 to 32
      invariant res + HexReversed(data[..32 - i]) == all
    {
      var left := data[..32 - i];
      assert left[..31 - i] == data[..31 - i];
      assert res + (HexByte(data[31 - i]) + HexReversed(data[..31 - i])) == res + HexByte(data[31 - i]) + HexReversed(data[..31 - i]);
      res := res + HexByte(data[31 - i]);
    }
    assert res + [] == res;
    DigitsReversed(data);
  }

  /** The 64 digits of 32 bytes: characters 2 * i and 2 * i + 1 show byte 31 - i. */
  predicate HashDigits(res: string, data: Bytes)
    requires |data| >= 32
  {
    && |res| == 64
    && forall i :: 0 <= i < 32 ==> res[2 * i] == HexDigit(data[31 - i] / 16) && res[2 * i + 1] == HexDigit(data[31 - i] % 16)
  }

  lemma DigitsReversed(data: Bytes)
    requires |data| >= 32
    ensures HashDigits(HexReversed(data[..32]), data)
  {
    var r := HexReversed(data[..32]);
    forall i | 0 <= i < 32 ensures r[2 * i] == HexDigit(data[31 - i] / 16) && r[2 * i + 1] == HexDigit(data[31 - i] % 16) {
      HexAt(data[..32], i);
    }
  }

  /** The two digits of byte n - 1 - i are characters 2 * i and 2 * i + 1, the high one first. */
  lemma {:induction false} HexAt(data: Bytes, i: nat)
    requires i < |data|
    ensures var r, b := HexReversed(data), data[|data| - 1 - i]; r[2 * i] == HexDigit(b / 16) && r[2 * i + 1] == HexDigit(b % 16)
  {
    if i > 0 { HexAt(data[..|data| - 1], i - 1); }
  }

  lemma HexByteInjective(a: Byte, b: Byte)
    requires HexByte(a) == HexByte(b)
    ensures a == b
  {
    assert HexByte(a)[0] == HexByte(b)[0] && HexByte(a)[1] == HexByte(b)[1];
    assert a / 16 == b / 16 && a % 16 == b % 16;
  }

  lemma HexParts(a: Bytes)
    requires a != []
    ensures HexReversed(a)[..2] == HexByte(a[|a| - 1]) && HexReversed(a)[2..] == HexReversed(a[..|a| - 1])
  {
    var front, rest := HexByte(a[|a| - 1]), HexReversed(a[..|a| - 1]);
    assert (front + rest)[..2] == front && (front + rest)[2..] == rest;
  }

  lemma HexSplit(a: Bytes, b: Bytes)
    requires HexReversed(a) == HexReversed(b) && |a| == |b| > 0
    ensures a[|a| - 1] == b[|a| - 1] && HexReversed(a[..|a| - 1]) == HexReversed(b[..|a| - 1])
  {
    HexParts(a);
    HexParts(b);
    HexByteInjective(a[|a| - 1], b[|a| - 1]);
  }

  /** The string determines the hash. */
  lemma {:induction false} HexInjective(a: Bytes, b: Bytes)
    requires HexReversed(a) == HexReversed(b)
    ensures a == b
  {
    assert |a| == |b|;
    if a != [] {
      var n := |a| - 1;
      HexSplit(a, b);
      HexInjective(a[..n], b[..n]);
      assert a == a[..n] + [a[n]] && b == b[..n] + [b[n]];
    }
  }
}
