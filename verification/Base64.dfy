/** Padded standard base64 (section 4 of RFC 4648) over bytes, and fixed-width big-endian integers. */
module Base64 {
  import opened Prelude

  type Byte = b: int | 0 <= b < 256

  function Digit(v: int): (c: char)
    requires 0 <= v < 64
  {
    if v < 26 then 'A' + v as char
    else if v < 52 then 'a' + (v - 26) as char
    else if v < 62 then '0' + (v - 52) as char
    else if v == 62 then '+' else '/'
  }

  function DigitValue(c: char): (v: Option<int>)
    ensures v.Some? ==> 0 <= v.value < 64 && Digit(v.value) == c
  {
    if 'A' <= c <= 'Z' then Some((c - 'A') as int)
    else if 'a' <= c <= 'z' then Some((c - 'a') as int + 26)
    else if '0' <= c <= '9' then Some((c - '0') as int + 52)
    else if c == '+' then Some(62)
    else if c == '/' then Some(63)
    else None
  }

  lemma DigitRoundTrip(v: int)
    requires 0 <= v < 64
    ensures DigitValue(Digit(v)) == Some(v)
    ensures Digit(v) != '='
  {
  }

  type Sextet = v: int | 0 <= v < 64

  /** Three bytes as four six-bit digits. */
  function Pack(x: Byte, y: Byte, z: Byte): (q: seq<Sextet>)
    ensures |q| == 4
  {
    [x / 4, x % 4 * 16 + y / 16, y % 16 * 4 + z / 64, z % 64]
  }

  function Unpack(a: Sextet, b: Sextet, c: Sextet, d: Sextet): (bytes: seq<Byte>)
    ensures |bytes| == 3
  {
    [a * 4 + b / 16, b % 16 * 16 + c / 4, c % 4 * 64 + d]
  }

  lemma UnpackInvertsPack(x: Byte, y: Byte, z: Byte)
    ensures var q := Pack(x, y, z); Unpack(q[0], q[1], q[2], q[3]) == [x, y, z]
    ensures z == 0 ==> Pack(x, y, z)[3] == 0
    ensures y == z == 0 ==> Pack(x, y, z)[2] == 0
  {
  }

  function Encode(bytes: seq<Byte>): string {
    if |bytes| == 0 then ""
    else if |bytes| == 1 then
      var q := Pack(bytes[0], 0, 0);
      [Digit(q[0]), Digit(q[1]), '=', '=']
    else if |bytes| == 2 then
      var q := Pack(bytes[0], bytes[1], 0);
      [Digit(q[0]), Digit(q[1]), Digit(q[2]), '=']
    else
      var q := Pack(bytes[0], bytes[1], bytes[2]);
      [Digit(q[0]), Digit(q[1]), Digit(q[2]), Digit(q[3])] + Encode(bytes[3..])
  }

  /**
   A decoder that insists on the alphabet and on the padding, but ignores the bits that the last
   digit before the padding carries beyond a whole byte (section 3.5 of RFC 4648).
   */
  function Decode(text: string): Option<seq<Byte>> {
    if text == "" then Some([])
    else if |text| < 4 then None
    else
      var a :- DigitValue(text[0]);
      var b :- DigitValue(text[1]);
      if text[2] == '=' then
        if |text| == 4 && text[3] == '=' then Some(Unpack(a, b, 0, 0)[..1]) else None
      else
        var c :- DigitValue(text[2]);
        if text[3] == '=' then
          if |text| == 4 then Some(Unpack(a, b, c, 0)[..2]) else None
        else
          var d :- DigitValue(text[3]);
          var rest :- Decode(text[4..]);
          Some(Unpack(a, b, c, d) + rest)
  }

  lemma DigitsRoundTrip(q: seq<Sextet>)
    requires |q| == 4
    ensures forall i :: 0 <= i < 4 ==> DigitValue(Digit(q[i])) == Some(q[i]) && Digit(q[i]) != '='
  {
    forall i | 0 <= i < 4 ensures DigitValue(Digit(q[i])) == Some(q[i]) && Digit(q[i]) != '=' {
      DigitRoundTrip(q[i]);
    }
  }

  lemma DecodesLastGroup(bytes: seq<Byte>)
    requires 1 <= |bytes| <= 2
    ensures Decode(Encode(bytes)) == Some(bytes)
  {
    hide Digit, DigitValue, Pack, Unpack;
    var x, y := bytes[0], if |bytes| > 1 then bytes[1] else 0;
    DigitsRoundTrip(Pack(x, y, 0));
    UnpackInvertsPack(x, y, 0);
    assert bytes == [x, y, 0][..|bytes|];
  }

  lemma DecodesGroup(text: string, q: seq<Sextet>, rest: seq<Byte>)
    requires |q| == 4 && |text| >= 4
    requires forall i :: 0 <= i < 4 ==> text[i] != '=' && DigitValue(text[i]) == Some(q[i])
    requires Decode(text[4..]) == Some(rest)
    ensures Decode(text) == Some(Unpack(q[0], q[1], q[2], q[3]) + rest)
  {
    hide DigitValue, Unpack;
  }

  lemma EncodesGroup(bytes: seq<Byte>, q: seq<Sextet>)
    requires |bytes| >= 3 && q == Pack(bytes[0], bytes[1], bytes[2])
    ensures |Encode(bytes)| >= 4 && Encode(bytes)[4..] == Encode(bytes[3..])
    ensures forall i :: 0 <= i < 4 ==> Encode(bytes)[i] == Digit(q[i])
  {
    hide Digit, Pack;
  }

  lemma DecodesFullGroup(bytes: seq<Byte>)
    requires |bytes| >= 3
    requires Decode(Encode(bytes[3..])) == Some(bytes[3..])
    ensures Decode(Encode(bytes)) == Some(bytes)
  {
    hide Digit, DigitValue, Pack, Unpack, Decode, Encode;
    var q := Pack(bytes[0], bytes[1], bytes[2]);
    DigitsRoundTrip(q);
    UnpackInvertsPack(bytes[0], bytes[1], bytes[2]);
    EncodesGroup(bytes, q);
    DecodesGroup(Encode(bytes), q, bytes[3..]);
    assert bytes == [bytes[0], bytes[1], bytes[2]] + bytes[3..];
  }

  lemma {:induction false} DecodeInvertsEncode(bytes: seq<Byte>)
    ensures Decode(Encode(bytes)) == Some(bytes)
  {
    hide Digit, DigitValue, Pack, Unpack;
    if |bytes| > 2 {
      DecodeInvertsEncode(bytes[3..]);
      DecodesFullGroup(bytes);
    } else if |bytes| > 0 {
      DecodesLastGroup(bytes);
    }
  }

  function Power256(k: nat): (p: int)
    ensures p >= 1
  {
    if k == 0 then 1 else 256 * Power256(k - 1)
  }

  /** `n.to_bytes(width, "big")`. */
  function ToBytes(n: int, width: nat): (bytes: seq<Byte>)
    requires 0 <= n < Power256(width)
    ensures |bytes| == width
  {
    if width == 0 then [] else ToBytes(n / 256, width - 1) + [n % 256]
  }

  /** `int.from_bytes(bytes, "big")`. */
  function FromBytes(bytes: seq<Byte>): (n: int)
    ensures 0 <= n < Power256(|bytes|)
  {
    if bytes == [] then 0 else FromBytes(bytes[..|bytes| - 1]) * 256 + bytes[|bytes| - 1]
  }

  lemma {:induction false} FromInvertsTo(n: int, width: nat)
    requires 0 <= n < Power256(width)
    ensures FromBytes(ToBytes(n, width)) == n
  {
    if width > 0 {
      FromInvertsTo(n / 256, width - 1);
      assert ToBytes(n, width)[..width - 1] == ToBytes(n / 256, width - 1);
    }
  }

  lemma {:induction false} ToInvertsFrom(bytes: seq<Byte>)
    ensures ToBytes(FromBytes(bytes), |bytes|) == bytes
  {
    if bytes != [] {
      var front, last := bytes[..|bytes| - 1], bytes[|bytes| - 1];
      ToInvertsFrom(front);
      assert FromBytes(bytes) / 256 == FromBytes(front);
      assert FromBytes(bytes) % 256 == last;
      assert bytes == front + [last];
    }
  }

  // ---------- what the standard fixes ----------

  /** The alphabet of section 4 of RFC 4648: upper-case letters, lower-case letters, digits, plus and slash. */
  lemma AlphabetIsStandard(v: int)
    requires 0 <= v < 64
    ensures 'A' <= Digit(v) <= 'Z' <==> v < 26
    ensures 'a' <= Digit(v) <= 'z' <==> 26 <= v < 52
    ensures '0' <= Digit(v) <= '9' <==> 52 <= v < 62
    ensures v < 61 && v != 25 && v != 51 ==> Digit(v + 1) as int == Digit(v) as int + 1
    ensures Digit(62) == '+' && Digit(63) == '/'
  {
  }

  /** The bits of three bytes and of their four digits are the same, the first ones first. */
  lemma GroupKeepsBitOrder(x: Byte, y: Byte, z: Byte)
    ensures var q := Pack(x, y, z); 
      q[0] as int * 0x4_0000 + q[1] as int * 0x1000 + q[2] as int * 0x40 + q[3] == x as int * 0x1_0000 + y as int * 0x100 + z
  {
  }

  /** Test vectors of section 10 of RFC 4648: "f", "fo" and "foo". */
  lemma TestVectors()
    ensures Encode([0x66]) == "Zg==" && Encode([0x66, 0x6f]) == "Zm8=" && Encode([0x66, 0x6f, 0x6f]) == "Zm9v"
  {
    assert Encode([0x66, 0x6f, 0x6f]) == "Zm9v" + Encode([]);
  }

  /** The first byte counts most. */
  lemma {:induction false} BytesAreBigEndian(bytes: seq<Byte>)
    requires bytes != []
    ensures FromBytes(bytes) == bytes[0] * Power256(|bytes| - 1) + FromBytes(bytes[1..])
  {
    var front, last := bytes[..|bytes| - 1], bytes[|bytes| - 1];
    if front != [] {
      hide Power256;
      BytesAreBigEndian(front);
      assert bytes[1..][..|bytes| - 2] == front[1..];
      NextPower(|bytes| - 2);
      ShiftByOne(bytes[0], Power256(|bytes| - 2), FromBytes(front[1..]), last);
    }
  }

  lemma NextPower(k: nat)
    ensures Power256(k + 1) == 256 * Power256(k)
  {
  }

  lemma ShiftByOne(first: int, power: int, middle: int, last: int)
    ensures (first * power + middle) * 256 + last == first * (256 * power) + (middle * 256 + last)
  {
  }
}
