/**
 The one wire form of a P-256 signature: `p256:` and the padded base64 of 64 bytes, `r` and a
 low-half `s`. A DER signature is represented by the pair of integers it encodes.
 */
module WireSignature {
  import opened Prelude
  import opened Base64

  const P256_ORDER: int := 0xFFFFFFFF00000000FFFFFFFFFFFFFFFFBCE6FAADA7179E84F3B9CAC2FC632551
  const SIGNATURE_PREFIX := "p256:"
  const SCALAR_SIZE: nat := 32

  datatype Signature = Signature(r: int, s: int)

  predicate InRange(sig: Signature) {
    1 <= sig.r < P256_ORDER && 1 <= sig.s < P256_ORDER
  }

  lemma OrderFitsScalar()
    ensures P256_ORDER < Power256(SCALAR_SIZE)
  {
    assert Power256(8) == 0x1_0000_0000_0000_0000;
    assert Power256(16) == 0x1_0000_0000_0000_0000_0000_0000_0000_0000;
    assert Power256(24) == 0x1_0000_0000_0000_0000_0000_0000_0000_0000_0000_0000_0000_0000;
    assert Power256(32) == 0x1_0000_0000_0000_0000_0000_0000_0000_0000_0000_0000_0000_0000_0000_0000_0000_0000;
  }

  function CanonicalRawSignature(sig: Signature): (raw: Option<seq<Byte>>)
    ensures raw.Some? ==> |raw.value| == 2 * SCALAR_SIZE
  {
    if !InRange(sig) then None
    else
      var low := if sig.s > P256_ORDER / 2 then P256_ORDER - sig.s else sig.s;
      OrderFitsScalar();
      Some(ToBytes(sig.r, SCALAR_SIZE) + ToBytes(low, SCALAR_SIZE))
  }

  function EncodeSignature(sig: Signature): Option<string> {
    var raw :- CanonicalRawSignature(sig);
    Some(SIGNATURE_PREFIX + Encode(raw))
  }

  function DecodeSignature(wire: string): Option<Signature> {
    if |wire| < |SIGNATURE_PREFIX| || wire[..|SIGNATURE_PREFIX|] != SIGNATURE_PREFIX then None
    else
      var text := wire[|SIGNATURE_PREFIX|..];
      var raw :- Decode(text);
      if |raw| != 2 * SCALAR_SIZE then None
      else if Encode(raw) != text then None
      else
        var r, s := FromBytes(raw[..SCALAR_SIZE]), FromBytes(raw[SCALAR_SIZE..]);
        if 1 <= r < P256_ORDER && 1 <= s <= P256_ORDER / 2 then Some(Signature(r, s)) else None
  }

  /** ECDSA accepts `s` and its negation alike; the canonical one of the two is the smaller. */
  function Negated(sig: Signature): Signature {
    sig.(s := P256_ORDER - sig.s)
  }

  function Canonical(sig: Signature): Signature {
    sig.(s := if sig.s <= P256_ORDER - sig.s then sig.s else P256_ORDER - sig.s)
  }

  /** Decoding inverts encoding up to the choice of the low half. */
  lemma DecodeOfEncode(sig: Signature)
    requires InRange(sig)
    ensures EncodeSignature(sig).Some?
    ensures DecodeSignature(EncodeSignature(sig).value) == Some(Canonical(sig))
  {
    OrderFitsScalar();
    hide Encode, Decode, ToBytes, FromBytes, Power256;
    var raw := CanonicalRawSignature(sig).value;
    var wire := EncodeSignature(sig).value;
    assert wire[|SIGNATURE_PREFIX|..] == Encode(raw);
    DecodeInvertsEncode(raw);
    FromInvertsTo(sig.r, SCALAR_SIZE);
    FromInvertsTo(Canonical(sig).s, SCALAR_SIZE);
    assert raw[..SCALAR_SIZE] == ToBytes(sig.r, SCALAR_SIZE);
    assert raw[SCALAR_SIZE..] == ToBytes(Canonical(sig).s, SCALAR_SIZE);
  }

  /** The wire form is the prefix and the base64 of 64 bytes, which are r and the smaller of s and its negation. */
  lemma WireFormIsExact(sig: Signature, wire: string)
    requires InRange(sig)
    ensures EncodeSignature(sig) == Some(wire) <==>
      exists raw: seq<Byte> ::
        && wire == "p256:" + Encode(raw) && |raw| == 64
        && FromBytes(raw[..32]) == sig.r && FromBytes(raw[32..]) == if sig.s <= P256_ORDER - sig.s then sig.s else P256_ORDER - sig.s
  {
    OrderFitsScalar();
    hide Encode, ToBytes, FromBytes, Power256;
    var raw := CanonicalRawSignature(sig).value;
    FromInvertsTo(sig.r, SCALAR_SIZE);
    FromInvertsTo(Canonical(sig).s, SCALAR_SIZE);
    assert raw[..32] == ToBytes(sig.r, SCALAR_SIZE) && raw[32..] == ToBytes(Canonical(sig).s, SCALAR_SIZE);
    forall other: seq<Byte> |
      && |other| == 64 && FromBytes(other[..32]) == sig.r && FromBytes(other[32..]) == Canonical(sig).s
      ensures other == raw
    {
      ToInvertsFrom(other[..32]);
      ToInvertsFrom(other[32..]);
      assert other == other[..32] + other[32..];
    }
  }

  /** Two in-range signatures share a wire form exactly when they are equal up to negating `s`. */
  lemma SameWireForm(a: Signature, b: Signature)
    requires InRange(a) && InRange(b)
    ensures EncodeSignature(a) == EncodeSignature(b) <==> a == b || a == Negated(b)
  {
    DecodeOfEncode(a);
    DecodeOfEncode(b);
    assert Canonical(a) == Canonical(b) ==> a == b || a == Negated(b);
    if a == Negated(b) {
      assert CanonicalRawSignature(a) == CanonicalRawSignature(b);
    }
  }

  /** Nothing but the canonical form is accepted: an accepted string is what its content encodes to. */
  lemma EncodeOfDecode(wire: string)
    requires DecodeSignature(wire).Some?
    ensures InRange(DecodeSignature(wire).value)
    ensures EncodeSignature(DecodeSignature(wire).value) == Some(wire)
  {
    OrderFitsScalar();
    var sig := DecodeSignature(wire).value;
    var text := wire[|SIGNATURE_PREFIX|..];
    var raw := Decode(text).value;
    ToInvertsFrom(raw[..SCALAR_SIZE]);
    ToInvertsFrom(raw[SCALAR_SIZE..]);
    assert raw == raw[..SCALAR_SIZE] + raw[SCALAR_SIZE..];
    assert wire == SIGNATURE_PREFIX + text;
  }

  /** Distinct accepted strings decode to distinct signatures. */
  lemma OneWireFormPerSignature(a: string, b: string)
    ensures DecodeSignature(a) == DecodeSignature(b) ==> DecodeSignature(a).None? || a == b
  {
    if DecodeSignature(a).Some? && DecodeSignature(a) == DecodeSignature(b) {
      EncodeOfDecode(a);
      EncodeOfDecode(b);
    }
  }
}
