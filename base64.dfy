/**
 * The base64 encoding of section 4 of RFC 4648 ("base64", the standard
 * alphabet with `=` padding), as Go's `base64.StdEncoding` implements it.
 * The encoder is the one the credentials header uses; the decoder is the
 * strict inverse, so that the encoding can be shown to lose nothing.
 */
module Base64 {
  import opened Wrappers
  import opened Bytes

  /** A 6-bit group: an index into the alphabet. */
  type Sextet = i: bv8 | i < 64

  /** The padding character `=`. */
  const Pad: byte := 0x3D

  /**
   * The alphabet of table 1 of RFC 4648: values 0-25 map to `A`-`Z`,
   * 26-51 to `a`-`z`, 52-61 to `0`-`9`, 62 to `+` and 63 to `/`.
   */
  function CharOf(i: Sextet): (c: byte)
    ensures c != Pad
    ensures SextetOf(c) == Some(i)
  {
    if i < 26 then 0x41 + i
    else if i < 52 then 0x61 + (i - 26)
    else if i < 62 then 0x30 + (i - 52)
    else if i == 62 then 0x2B
    else 0x2F
  }

  /** The value of an alphabet character, or None for any other byte. */
  function SextetOf(c: byte): Option<Sextet>
  {
    if 0x41 <= c <= 0x5A then Some(c - 0x41)
    else if 0x61 <= c <= 0x7A then Some(c - 0x61 + 26)
    else if 0x30 <= c <= 0x39 then Some(c - 0x30 + 52)
    else if c == 0x2B then Some(62)
    else if c == 0x2F then Some(63)
    else None
  }

  /** Only alphabet characters have a value, and the alphabet maps it back. */
  lemma SextetOfInverse(c: byte)
    requires SextetOf(c).Some?
    ensures CharOf(SextetOf(c).value) == c
  {
  }

  /** Three bytes become four characters (section 4 of RFC 4648). */
  function EncodeGroup(a: byte, b: byte, c: byte): seq<byte>
  {
    [CharOf(a >> 2), CharOf(((a & 3) << 4) | (b >> 4)),
     CharOf(((b & 15) << 2) | (c >> 6)), CharOf(c & 63)]
  }

  /**
   * `base64.StdEncoding.EncodeToString`: full groups of three bytes, then a
   * final group of one or two bytes padded with `=` to four characters.
   */
  function Encode(s: GoString): (r: GoString)
    decreases |s|
  {
    if |s| == 0 then []
    else if |s| == 1 then [CharOf(s[0] >> 2), CharOf((s[0] & 3) << 4), Pad, Pad]
    else if |s| == 2 then
      [CharOf(s[0] >> 2), CharOf(((s[0] & 3) << 4) | (s[1] >> 4)), CharOf((s[1] & 15) << 2), Pad]
    else EncodeGroup(s[0], s[1], s[2]) + Encode(s[3..])
  }

  /** The three bytes that four sextets carry. */
  function Bytes3(i0: bv8, i1: bv8, i2: bv8, i3: bv8): seq<byte>
  {
    [(i0 << 2) | (i1 >> 4), ((i1 & 15) << 4) | (i2 >> 2), ((i2 & 3) << 6) | i3]
  }

  /** The encoding of `n` bytes has `4 * ceil(n / 3)` characters. */
  lemma {:induction false} EncodeLength(s: GoString)
    ensures |Encode(s)| == 4 * ((|s| + 2) / 3)
    decreases |s|
  {
    if |s| > 2 {
      EncodeLength(s[3..]);
    }
  }

  /** Four alphabet characters back to three bytes. */
  function DecodeQuad(c0: byte, c1: byte, c2: byte, c3: byte): Option<GoString>
  {
    match (SextetOf(c0), SextetOf(c1), SextetOf(c2), SextetOf(c3))
    case (Some(i0), Some(i1), Some(i2), Some(i3)) => Some(Bytes3(i0, i1, i2, i3))
    case _ => None
  }

  /**
   * The last quantum, which may carry one or two padding characters. The
   * bits a padded quantum leaves unused must be zero (section 3.5 of
   * RFC 4648), which makes the decoder canonical.
   */
  function DecodeFinal(c0: byte, c1: byte, c2: byte, c3: byte): Option<GoString>
  {
    if c2 == Pad && c3 == Pad then
      match (SextetOf(c0), SextetOf(c1))
      case (Some(i0), Some(i1)) =>
        if i1 & 15 == 0 then Some(Bytes3(i0, i1, 0, 0)[..1]) else None
      case _ => None
    else if c3 == Pad then
      match (SextetOf(c0), SextetOf(c1), SextetOf(c2))
      case (Some(i0), Some(i1), Some(i2)) =>
        if i2 & 3 == 0 then Some(Bytes3(i0, i1, i2, 0)[..2]) else None
      case _ => None
    else DecodeQuad(c0, c1, c2, c3)
  }

  /** A full group decodes back to its three bytes. */
  lemma DecodeGroup(a: byte, b: byte, c: byte)
    ensures var g := EncodeGroup(a, b, c); DecodeQuad(g[0], g[1], g[2], g[3]) == Some([a, b, c])
  {
  }

  /** Regrouping four sextets into three bytes and back is the identity. */
  lemma RegroupSextets(i0: Sextet, i1: Sextet, i2: Sextet, i3: Sextet)
    ensures var b := Bytes3(i0, i1, i2, i3);
      b[0] >> 2 == i0 && ((b[0] & 3) << 4) | (b[1] >> 4) == i1
      && ((b[1] & 15) << 2) | (b[2] >> 6) == i2 && b[2] & 63 == i3
  {
  }

  /** Four characters with known values decode to the bytes those values carry. */
  lemma DecodeQuadOf(c0: byte, c1: byte, c2: byte, c3: byte, i0: Sextet, i1: Sextet, i2: Sextet, i3: Sextet)
    requires SextetOf(c0) == Some(i0) && SextetOf(c1) == Some(i1)
    requires SextetOf(c2) == Some(i2) && SextetOf(c3) == Some(i3)
    ensures DecodeQuad(c0, c1, c2, c3) == Some(Bytes3(i0, i1, i2, i3))
  {
  }

  /** The bytes four sextets carry encode back to those sextets' characters. */
  lemma EncodeRegrouped(i0: Sextet, i1: Sextet, i2: Sextet, i3: Sextet)
    ensures var b := Bytes3(i0, i1, i2, i3);
      EncodeGroup(b[0], b[1], b[2]) == [CharOf(i0), CharOf(i1), CharOf(i2), CharOf(i3)]
  {
    RegroupSextets(i0, i1, i2, i3);
  }

  /** Any accepted quad is the encoding of the bytes it decodes to. */
  lemma EncodeQuad(c0: byte, c1: byte, c2: byte, c3: byte)
    requires DecodeQuad(c0, c1, c2, c3).Some?
    ensures var s := DecodeQuad(c0, c1, c2, c3).value; |s| == 3 && EncodeGroup(s[0], s[1], s[2]) == [c0, c1, c2, c3]
  {
    var i0, i1, i2, i3 := SextetOf(c0).value, SextetOf(c1).value, SextetOf(c2).value, SextetOf(c3).value;
    DecodeQuadOf(c0, c1, c2, c3, i0, i1, i2, i3);
    SextetOfInverse(c0); SextetOfInverse(c1); SextetOfInverse(c2); SextetOfInverse(c3);
    EncodeRegrouped(i0, i1, i2, i3);
  }

  /** A quantum padded with `==` decodes to the one byte its sextets carry. */
  lemma DecodeFinalOne(i0: Sextet, i1: Sextet)
    requires i1 & 15 == 0
    ensures DecodeFinal(CharOf(i0), CharOf(i1), Pad, Pad) == Some(Bytes3(i0, i1, 0, 0)[..1])
  {
  }

  /** A quantum padded with `=` decodes to the two bytes its sextets carry. */
  lemma DecodeFinalTwo(i0: Sextet, i1: Sextet, i2: Sextet)
    requires i2 & 3 == 0
    ensures DecodeFinal(CharOf(i0), CharOf(i1), CharOf(i2), Pad) == Some(Bytes3(i0, i1, i2, 0)[..2])
  {
  }

  /** A lone final byte survives the `==`-padded quantum. */
  lemma DecodePaddedOne(x: byte)
    ensures Decode(Encode([x])) == Some([x])
  {
    var i0: Sextet, i1: Sextet := x >> 2, (x & 3) << 4;
    assert Encode([x]) == [CharOf(i0), CharOf(i1), Pad, Pad];
    DecodeFinalOne(i0, i1);
    assert (i0 << 2) | (i1 >> 4) == x;
    assert Bytes3(i0, i1, 0, 0)[..1] == [x];
  }

  /** Two bytes regrouped into three sextets and back are unchanged. */
  lemma RegroupTwo(x: byte, y: byte)
    ensures var i0, i1, i2 := x >> 2, ((x & 3) << 4) | (y >> 4), (y & 15) << 2;
      i0 < 64 && i1 < 64 && i2 < 64 && i2 & 3 == 0 && Bytes3(i0, i1, i2, 0)[..2] == [x, y]
  {
  }

  /** The characters of a two-byte final quantum. */
  lemma EncodeTwo(x: byte, y: byte, i0: Sextet, i1: Sextet, i2: Sextet)
    requires i0 == x >> 2 && i1 == ((x & 3) << 4) | (y >> 4) && i2 == (y & 15) << 2
    ensures Encode([x, y]) == [CharOf(i0), CharOf(i1), CharOf(i2), Pad]
  {
  }

  /** Two final bytes survive the `=`-padded quantum. */
  lemma DecodePaddedTwo(x: byte, y: byte)
    ensures Decode(Encode([x, y])) == Some([x, y])
  {
    RegroupTwo(x, y);
    var i0: bv8, i1: bv8, i2: bv8 := x >> 2, ((x & 3) << 4) | (y >> 4), (y & 15) << 2;
    EncodeTwo(x, y, i0, i1, i2);
    DecodeFinalTwo(i0, i1, i2);
  }

  /** Both padded final quanta decode back to their bytes. */
  lemma DecodePadded(s: GoString)
    requires 1 <= |s| <= 2
    ensures Decode(Encode(s)) == Some(s)
  {
    var x := s[0];
    if |s| == 1 {
      assert s == [x];
      DecodePaddedOne(x);
    } else {
      var y := s[1];
      assert s == [x, y];
      DecodePaddedTwo(x, y);
    }
  }

  /** One byte carried by two sextets (the low four bits zero) encodes back to them. */
  lemma EncodeFinalOne(i0: Sextet, i1: Sextet)
    requires i1 & 15 == 0
    ensures Encode(Bytes3(i0, i1, 0, 0)[..1]) == [CharOf(i0), CharOf(i1), Pad, Pad]
  {
    var x := (i0 << 2) | (i1 >> 4);
    assert x >> 2 == i0 && (x & 3) << 4 == i1;
    assert Bytes3(i0, i1, 0, 0)[..1] == [x];
    assert Encode([x]) == [CharOf(x >> 2), CharOf((x & 3) << 4), Pad, Pad];
  }

  /** Three sextets whose low two bits are zero regroup into two bytes and back. */
  lemma RegroupThree(i0: Sextet, i1: Sextet, i2: Sextet)
    requires i2 & 3 == 0
    ensures var x, y := (i0 << 2) | (i1 >> 4), ((i1 & 15) << 4) | (i2 >> 2);
      x >> 2 == i0 && ((x & 3) << 4) | (y >> 4) == i1 && (y & 15) << 2 == i2
  {
  }

  /** Two bytes carried by three sextets (the low two bits zero) encode back to them. */
  lemma EncodeFinalTwo(i0: Sextet, i1: Sextet, i2: Sextet)
    requires i2 & 3 == 0
    ensures Encode(Bytes3(i0, i1, i2, 0)[..2]) == [CharOf(i0), CharOf(i1), CharOf(i2), Pad]
  {
    var x, y := (i0 << 2) | (i1 >> 4), ((i1 & 15) << 4) | (i2 >> 2);
    RegroupThree(i0, i1, i2);
    assert Bytes3(i0, i1, i2, 0)[..2] == [x, y];
    EncodeTwo(x, y, i0, i1, i2);
  }

  /** What an accepted `==`-padded quantum decodes to. */
  lemma DecodedOne(c0: byte, c1: byte, c2: byte, c3: byte)
    requires c2 == Pad && c3 == Pad && DecodeFinal(c0, c1, c2, c3).Some?
    ensures SextetOf(c0).Some? && SextetOf(c1).Some? && SextetOf(c1).value & 15 == 0
    ensures DecodeFinal(c0, c1, c2, c3).value == Bytes3(SextetOf(c0).value, SextetOf(c1).value, 0, 0)[..1]
  {
  }

  /** What an accepted `=`-padded quantum decodes to. */
  lemma DecodedTwo(c0: byte, c1: byte, c2: byte, c3: byte)
    requires c2 != Pad && c3 == Pad && DecodeFinal(c0, c1, c2, c3).Some?
    ensures SextetOf(c0).Some? && SextetOf(c1).Some? && SextetOf(c2).Some? && SextetOf(c2).value & 3 == 0
    ensures DecodeFinal(c0, c1, c2, c3).value == Bytes3(SextetOf(c0).value, SextetOf(c1).value, SextetOf(c2).value, 0)[..2]
  {
  }

  /** Any accepted final quantum is the encoding of the bytes it decodes to. */
  lemma EncodeFinal(c0: byte, c1: byte, c2: byte, c3: byte)
    requires DecodeFinal(c0, c1, c2, c3).Some?
    ensures Encode(DecodeFinal(c0, c1, c2, c3).value) == [c0, c1, c2, c3]
  {
    if c2 == Pad && c3 == Pad {
      DecodedOne(c0, c1, c2, c3);
      SextetOfInverse(c0); SextetOfInverse(c1);
      EncodeFinalOne(SextetOf(c0).value, SextetOf(c1).value);
    } else if c3 == Pad {
      DecodedTwo(c0, c1, c2, c3);
      SextetOfInverse(c0); SextetOfInverse(c1); SextetOfInverse(c2);
      EncodeFinalTwo(SextetOf(c0).value, SextetOf(c1).value, SextetOf(c2).value);
    } else {
      var s := DecodeQuad(c0, c1, c2, c3).value;
      EncodeQuad(c0, c1, c2, c3);
      EncodeCons(s, []);
      assert s + [] == s;
    }
  }

  /** Strict decoding: None unless `t` is a well-formed padded encoding. */
  function Decode(t: GoString): Option<GoString>
    decreases |t|
  {
    if |t| == 0 then Some([])
    else if |t| < 4 then None
    else if |t| == 4 then DecodeFinal(t[0], t[1], t[2], t[3])
    else
      match DecodeQuad(t[0], t[1], t[2], t[3])
      case None => None
      case Some(q) =>
        match Decode(t[4..])
        case None => None
        case Some(rest) => Some(q + rest)
  }

  /** A final unpadded group decodes back to its three bytes. */
  lemma DecodeLastGroup(a: byte, b: byte, c: byte)
    ensures Decode(Encode([a, b, c])) == Some([a, b, c])
  {
    var g := EncodeGroup(a, b, c);
    assert [a, b, c][3..] == [];
    assert Encode([a, b, c]) == g + [] == g;
    DecodeGroup(a, b, c);
    assert g[3] != Pad;
  }

  /** A group in front of a longer encoding decodes in front of it. */
  lemma DecodeGroupInFront(a: byte, b: byte, c: byte, t: GoString)
    requires |t| >= 4 && Decode(t).Some?
    ensures Decode(EncodeGroup(a, b, c) + t) == Some([a, b, c] + Decode(t).value)
  {
    var g := EncodeGroup(a, b, c);
    DecodeGroup(a, b, c);
    assert (g + t)[4..] == t;
    assert (g + t)[..4] == g;
  }

  /** Decoding an encoding gives back exactly the original bytes. */
  lemma {:induction false} DecodeEncode(s: GoString)
    ensures Decode(Encode(s)) == Some(s)
    decreases |s|
  {
    if |s| == 0 {
    } else if |s| <= 2 {
      DecodePadded(s);
    } else if |s| == 3 {
      assert s == [s[0], s[1], s[2]];
      DecodeLastGroup(s[0], s[1], s[2]);
    } else {
      var t := Encode(s[3..]);
      assert Encode(s) == EncodeGroup(s[0], s[1], s[2]) + t;
      EncodeLength(s[3..]);
      DecodeEncode(s[3..]);
      DecodeGroupInFront(s[0], s[1], s[2], t);
      assert s == [s[0], s[1], s[2]] + s[3..];
    }
  }

  /** A full group in front encodes in front. */
  lemma EncodeCons(q: GoString, rest: GoString)
    requires |q| == 3
    ensures Encode(q + rest) == EncodeGroup(q[0], q[1], q[2]) + Encode(rest)
  {
    assert (q + rest)[3..] == rest;
  }

  /** How an accepted text longer than one quantum decodes. */
  lemma DecodeLonger(t: GoString)
    requires |t| > 4 && Decode(t).Some?
    ensures DecodeQuad(t[0], t[1], t[2], t[3]).Some? && Decode(t[4..]).Some?
    ensures Decode(t).value == DecodeQuad(t[0], t[1], t[2], t[3]).value + Decode(t[4..]).value
  {
  }

  /** An accepted final quantum is the encoding of what it decodes to. */
  lemma EncodeDecodeFinal(t: GoString, s: GoString)
    requires |t| == 4 && Decode(t) == Some(s)
    ensures Encode(s) == t
  {
    assert DecodeFinal(t[0], t[1], t[2], t[3]) == Some(s);
    EncodeFinal(t[0], t[1], t[2], t[3]);
    assert t == [t[0], t[1], t[2], t[3]];
  }

  /** The step case: a leading quad in front of an encoding that decodes back. */
  lemma EncodeDecodeStep(t: GoString, s: GoString, rest: GoString)
    requires |t| > 4 && Decode(t) == Some(s)
    requires Decode(t[4..]) == Some(rest) && Encode(rest) == t[4..]
    ensures Encode(s) == t
  {
    DecodeLonger(t);
    var q := DecodeQuad(t[0], t[1], t[2], t[3]).value;
    assert s == q + rest;
    EncodeQuad(t[0], t[1], t[2], t[3]);
    EncodeCons(q, rest);
    assert t == [t[0], t[1], t[2], t[3]] + t[4..];
  }

  /** Every string the decoder accepts is the encoding of what it decodes to. */
  lemma {:induction false} EncodeDecode(t: GoString, s: GoString)
    requires Decode(t) == Some(s)
    ensures Encode(s) == t
    decreases |t|
  {
    if |t| == 4 {
      EncodeDecodeFinal(t, s);
    } else if |t| > 4 {
      DecodeLonger(t);
      var rest := Decode(t[4..]).value;
      EncodeDecode(t[4..], rest);
      EncodeDecodeStep(t, s, rest);
    }
  }

  /** The encoding is a bijection onto the strings the decoder accepts. */
  lemma DecodeIsInverse(t: GoString, s: GoString)
    ensures Decode(t) == Some(s) <==> t == Encode(s)
  {
    if Decode(t) == Some(s) { EncodeDecode(t, s); }
    if t == Encode(s) { DecodeEncode(s); }
  }

  /**
   * The test vectors of section 10 of RFC 4648, as bytes: "f", "fo" and
   * "foo" encode to "Zg==", "Zm8=" and "Zm9v".
   */
  lemma StandardTestVectors()
    ensures Encode([0x66]) == [0x5A, 0x67, 0x3D, 0x3D]
    ensures Encode([0x66, 0x6F]) == [0x5A, 0x6D, 0x38, 0x3D]
    ensures Encode([0x66, 0x6F, 0x6F]) == [0x5A, 0x6D, 0x39, 0x76]
  {
    assert [0x66, 0x6F, 0x6F][3..] == [];
  }
}
