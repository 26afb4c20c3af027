/** UTF-8 (sections 3 and 4 of RFC 3629): the encoder, the strict decoder, and cutting a text to a byte budget. */
module Utf8 {
  import opened Common

  type Byte = b: int | 0 <= b < 256

  /** A Unicode scalar value. */
  type Scalar = c: int | 0 <= c < 0xD800 || 0xE000 <= c < 0x11_0000

  const BOM: Scalar := 0xFEFF

  // ---------------------------------------------------------------- encoding

  function Encode1(c: Scalar): (bytes: seq<Byte>)
    ensures 1 <= |bytes| <= 4
  {
    if c < 0x80 then [c]
    else if c < 0x800 then [0xC0 + c / 64, 0x80 + c % 64]
    else if c < 0x1_0000 then [0xE0 + c / 4096, 0x80 + c / 64 % 64, 0x80 + c % 64]
    else [0xF0 + c / 262144, 0x80 + c / 4096 % 64, 0x80 + c / 64 % 64, 0x80 + c % 64]
  }

  function Encode(text: seq<Scalar>): seq<Byte> {
    if text == [] then [] else Encode1(text[0]) + Encode(text[1..])
  }

  // ---------------------------------------------------------------- decoding

  predicate Tail(b: Byte) { 0x80 <= b <= 0xBF }

  function Join2(a: int, b: int): int { (a - 0xC0) * 64 + (b - 0x80) }

  function Join3(a: int, b: int, c: int): int { (a - 0xE0) * 4096 + (b - 0x80) * 64 + (c - 0x80) }

  function Join4(a: int, b: int, c: int, d: int): int {
    (a - 0xF0) * 262144 + (b - 0x80) * 4096 + (c - 0x80) * 64 + (d - 0x80)
  }

  /** The first scalar of `bytes` and its length, by the syntax table of section 4. */
  function Decode1(bytes: seq<Byte>): (r: Option<(Scalar, nat)>)
    ensures r.Some? ==> 0 < r.value.1 <= |bytes|
  {
    if |bytes| == 0 then None
    else if bytes[0] <= 0x7F then Some((bytes[0], 1))
    else if |bytes| == 1 then None
    else if 0xC2 <= bytes[0] <= 0xDF && Tail(bytes[1]) then Some((Join2(bytes[0], bytes[1]), 2))
    else if |bytes| == 2 then None
    else if Lead3(bytes[0], bytes[1]) && Tail(bytes[2]) then
      Some((Join3(bytes[0], bytes[1], bytes[2]), 3))
    else if |bytes| == 3 then None
    else if Lead4(bytes[0], bytes[1]) && Tail(bytes[2]) && Tail(bytes[3]) then
      Some((Join4(bytes[0], bytes[1], bytes[2], bytes[3]), 4))
    else None
  }

  /** The first two bytes of a three-byte sequence: no overlong form, no surrogate. */
  predicate Lead3(a: Byte, b: Byte) {
    || (a == 0xE0 && 0xA0 <= b <= 0xBF)
    || (0xE1 <= a <= 0xEC && Tail(b))
    || (a == 0xED && 0x80 <= b <= 0x9F)
    || (0xEE <= a <= 0xEF && Tail(b))
  }

  /** The first two bytes of a four-byte sequence: no overlong form, nothing above U+10FFFF. */
  predicate Lead4(a: Byte, b: Byte) {
    || (a == 0xF0 && 0x90 <= b <= 0xBF)
    || (0xF1 <= a <= 0xF3 && Tail(b))
    || (a == 0xF4 && 0x80 <= b <= 0x8F)
  }

  function Decode(bytes: seq<Byte>): Option<seq<Scalar>>
    decreases |bytes|
  {
    if bytes == [] then Some([])
    else
      match Decode1(bytes)
      case None => None
      case Some((c, n)) =>
        match Decode(bytes[n..])
        case None => None
        case Some(rest) => Some([c] + rest)
  }

  /** `new TextDecoder('utf-8', { fatal: true }).decode`: strict, but it swallows a leading byte order mark. */
  function DecodeFatal(bytes: seq<Byte>): Option<seq<Scalar>> {
    if |bytes| >= 3 && bytes[0] == 0xEF && bytes[1] == 0xBB && bytes[2] == 0xBF then Decode(bytes[3..])
    else Decode(bytes)
  }

  function WithoutBom(text: seq<Scalar>): seq<Scalar> {
    if text != [] && text[0] == BOM then text[1..] else text
  }

  // ---------------------------------------------------------------- the two are inverse

  lemma JoinsSplit(c: int)
    ensures Join2(0xC0 + c / 64, 0x80 + c % 64) == c
    ensures Join3(0xE0 + c / 4096, 0x80 + c / 64 % 64, 0x80 + c % 64) == c
    ensures Join4(0xF0 + c / 262144, 0x80 + c / 4096 % 64, 0x80 + c / 64 % 64, 0x80 + c % 64) == c
  {
    assert c / 4096 == c / 64 / 64 && c / 262144 == c / 4096 / 64;
  }

  lemma LeadsFit(c: Scalar)
    requires c >= 0x800
    ensures c < 0x1_0000 ==> Lead3(0xE0 + c / 4096, 0x80 + c / 64 % 64)
    ensures c >= 0x1_0000 ==> Lead4(0xF0 + c / 262144, 0x80 + c / 4096 % 64)
  {
    assert c / 4096 == c / 64 / 64 && c / 262144 == c / 4096 / 64;
  }

  lemma Decode1Encode1(c: Scalar, rest: seq<Byte>)
    ensures Decode1(Encode1(c) + rest) == Some((c, |Encode1(c)|))
  {
    JoinsSplit(c);
    if c >= 0x800 {
      LeadsFit(c);
      var bytes := Encode1(c) + rest;
      assert bytes[0] == Encode1(c)[0] && bytes[1] == Encode1(c)[1] && bytes[2] == Encode1(c)[2];
    }
  }

  lemma SplitsJoin2(a: Byte, b: Byte)
    requires Tail(b)
    ensures Join2(a, b) / 64 == a - 0xC0 && Join2(a, b) % 64 == b - 0x80
  {
  }

  lemma SplitsJoin3(a: Byte, b: Byte, c: Byte)
    requires Tail(b) && Tail(c)
    ensures var j := Join3(a, b, c);
            j / 4096 == a - 0xE0 && j / 64 % 64 == b - 0x80 && j % 64 == c - 0x80
  {
    assert Join3(a, b, c) / 64 == (a - 0xE0) * 64 + (b - 0x80);
  }

  lemma SplitsJoin4(a: Byte, b: Byte, c: Byte, d: Byte)
    requires Tail(b) && Tail(c) && Tail(d)
    ensures var j := Join4(a, b, c, d);
            j / 262144 == a - 0xF0 && j / 4096 % 64 == b - 0x80 && j / 64 % 64 == c - 0x80 && j % 64 == d - 0x80
  {
    var j := Join4(a, b, c, d);
    assert j / 64 == (a - 0xF0) * 4096 + (b - 0x80) * 64 + (c - 0x80);
    assert j / 4096 == j / 64 / 64 == (a - 0xF0) * 64 + (b - 0x80);
  }

  lemma EncodesTwo(a: Byte, b: Byte)
    requires 0xC2 <= a <= 0xDF && Tail(b)
    ensures Encode1(Join2(a, b)) == [a, b]
  {
    SplitsJoin2(a, b);
  }

  lemma ThreeBytes(scalar: Scalar, a: Byte, b: Byte, c: Byte)
    requires 0x800 <= scalar < 0x1_0000
    requires scalar / 4096 == a - 0xE0 && scalar / 64 % 64 == b - 0x80 && scalar % 64 == c - 0x80
    ensures Encode1(scalar) == [a, b, c]
  {
  }

  lemma FourBytes(scalar: Scalar, a: Byte, b: Byte, c: Byte, d: Byte)
    requires 0x1_0000 <= scalar && scalar / 262144 == a - 0xF0 && scalar / 4096 % 64 == b - 0x80
    requires scalar / 64 % 64 == c - 0x80 && scalar % 64 == d - 0x80
    ensures Encode1(scalar) == [a, b, c, d]
  {
  }

  lemma Join3Range(a: Byte, b: Byte, c: Byte)
    requires Lead3(a, b) && Tail(c)
    ensures 0x800 <= Join3(a, b, c) < 0xD800 || 0xE000 <= Join3(a, b, c) < 0x1_0000
  {
  }

  lemma Join4Range(a: Byte, b: Byte, c: Byte, d: Byte)
    requires Lead4(a, b) && Tail(c) && Tail(d)
    ensures 0x1_0000 <= Join4(a, b, c, d) < 0x11_0000
  {
  }

  lemma EncodesThree(a: Byte, b: Byte, c: Byte)
    requires Lead3(a, b) && Tail(c)
    ensures Encode1(Join3(a, b, c)) == [a, b, c]
  {
    Join3Range(a, b, c);
    SplitsJoin3(a, b, c);
    ThreeBytes(Join3(a, b, c), a, b, c);
  }

  lemma EncodesFour(a: Byte, b: Byte, c: Byte, d: Byte)
    requires Lead4(a, b) && Tail(c) && Tail(d)
    ensures Encode1(Join4(a, b, c, d)) == [a, b, c, d]
  {
    Join4Range(a, b, c, d);
    SplitsJoin4(a, b, c, d);
    FourBytes(Join4(a, b, c, d), a, b, c, d);
  }

  lemma Encode1Decode1(bytes: seq<Byte>)
    requires Decode1(bytes).Some?
    ensures bytes[..Decode1(bytes).value.1] == Encode1(Decode1(bytes).value.0)
  {
    var n := Decode1(bytes).value.1;
    if n == 2 {
      EncodesTwo(bytes[0], bytes[1]);
    } else if n == 3 {
      EncodesThree(bytes[0], bytes[1], bytes[2]);
    } else if n == 4 {
      EncodesFour(bytes[0], bytes[1], bytes[2], bytes[3]);
    }
  }

  lemma EncodeCons(c: Scalar, rest: seq<Scalar>)
    ensures Encode([c] + rest) == Encode1(c) + Encode(rest)
  {
    assert ([c] + rest)[1..] == rest;
  }

  lemma {:induction false} DecodeEncode(text: seq<Scalar>)
    ensures Decode(Encode(text)) == Some(text)
  {
    if text != [] {
      var head, rest := Encode1(text[0]), Encode(text[1..]);
      Decode1Encode1(text[0], rest);
      assert (head + rest)[|head|..] == rest;
      DecodeEncode(text[1..]);
      assert text == [text[0]] + text[1..];
    }
  }

  lemma DecodeTakesOne(bytes: seq<Byte>) returns (c: Scalar, n: nat)
    requires bytes != [] && Decode(bytes).Some?
    ensures 0 < n <= |bytes| && bytes == Encode1(c) + bytes[n..]
    ensures Decode(bytes[n..]).Some? && Decode(bytes).value == [c] + Decode(bytes[n..]).value
  {
    c, n := Decode1(bytes).value.0, Decode1(bytes).value.1;
    Encode1Decode1(bytes);
    assert bytes == bytes[..n] + bytes[n..];
  }

  lemma {:induction false} EncodeDecode(bytes: seq<Byte>)
    requires Decode(bytes).Some?
    ensures Encode(Decode(bytes).value) == bytes
    decreases |bytes|
  {
    if bytes != [] {
      var c, n := DecodeTakesOne(bytes);
      EncodeDecode(bytes[n..]);
      EncodeCons(c, Decode(bytes[n..]).value);
    }
  }

  /** The strict decoder accepts exactly the encodings, and gives back what was encoded. */
  lemma DecodesExactly(bytes: seq<Byte>, text: seq<Scalar>)
    ensures Decode(bytes) == Some(text) <==> bytes == Encode(text)
  {
    DecodeEncode(text);
    if Decode(bytes) == Some(text) {
      EncodeDecode(bytes);
    }
  }

  lemma ConcatAssociates(a: seq<Byte>, b: seq<Byte>, c: seq<Byte>)
    ensures a + (b + c) == (a + b) + c
  {
  }

  lemma {:induction false} EncodeConcat(a: seq<Scalar>, b: seq<Scalar>)
    ensures Encode(a + b) == Encode(a) + Encode(b)
  {
    if a == [] {
      assert a + b == b;
    } else {
      EncodeConcat(a[1..], b);
      EncodeCons(a[0], a[1..] + b);
      assert a + b == [a[0]] + (a[1..] + b);
      ConcatAssociates(Encode1(a[0]), Encode(a[1..]), Encode(b));
      EncodeCons(a[0], a[1..]);
      assert a == [a[0]] + a[1..];
    }
  }

  // ---------------------------------------------------------------- cutting between scalars

  /** How many scalars of `text` fit into `limit` bytes. */
  function Fit(text: seq<Scalar>, limit: nat): (k: nat)
    ensures k <= |text|
  {
    if text == [] || |Encode1(text[0])| > limit then 0
    else 1 + Fit(text[1..], limit - |Encode1(text[0])|)
  }

  /** `Fit` is the longest prefix within the limit, and leaves at most three bytes of a text that overflows unused. */
  lemma {:induction false} FitIsLongest(text: seq<Scalar>, limit: nat)
    ensures |Encode(text[..Fit(text, limit)])| <= limit
    ensures forall k: nat :: k <= |text| && |Encode(text[..k])| <= limit ==> k <= Fit(text, limit)
    ensures limit <= |Encode(text)| ==> limit - |Encode(text[..Fit(text, limit)])| <= 3
  {
    if text != [] {
      var size := |Encode1(text[0])|;
      forall k: nat | 0 < k <= |text|
        ensures |Encode(text[..k])| == size + |Encode(text[1..][..k - 1])|
      {
        assert text[..k][1..] == text[1..][..k - 1];
      }
      if size <= limit {
        FitIsLongest(text[1..], limit - size);
      }
    }
  }

  lemma {:induction false} EncodedPrefixIsPrefix(text: seq<Scalar>, cut: seq<Scalar>)
    requires Encode(cut) <= Encode(text)
    ensures cut <= text
  {
    if cut != [] {
      var rest := Encode(cut)[|Encode1(cut[0])|..];
      assert Encode(cut) == Encode1(cut[0]) + rest;
      Decode1Encode1(cut[0], Encode(text)[|Encode1(cut[0])|..]);
      assert Encode(text) == Encode1(cut[0]) + Encode(text)[|Encode1(cut[0])|..];
      assert text != [];
      Decode1Encode1(text[0], Encode(text[1..]));
      assert text[0] == cut[0];
      assert Encode(cut[1..]) <= Encode(text[1..]);
      EncodedPrefixIsPrefix(text[1..], cut[1..]);
    }
  }

  /** The first `end` bytes of a text decode exactly when they end between two scalars. */
  lemma CutDecodes(text: seq<Scalar>, end: nat)
    requires end <= |Encode(text)|
    ensures Decode(Encode(text)[..end])
         == if |Encode(text[..Fit(text, end)])| == end then Some(text[..Fit(text, end)]) else None
  {
    var k := Fit(text, end);
    FitIsLongest(text, end);
    EncodeConcat(text[..k], text[k..]);
    assert text == text[..k] + text[k..];
    if |Encode(text[..k])| == end {
      assert Encode(text)[..end] == Encode(text[..k]);
      DecodeEncode(text[..k]);
    } else if Decode(Encode(text)[..end]).Some? {
      OnlyCutsDecode(text, end);
    }
  }

  lemma OnlyCutsDecode(text: seq<Scalar>, end: nat)
    requires end <= |Encode(text)| && Decode(Encode(text)[..end]).Some?
    ensures |Encode(text[..Fit(text, end)])| == end
  {
    var cut := Decode(Encode(text)[..end]).value;
    EncodeDecode(Encode(text)[..end]);
    EncodedPrefixIsPrefix(text, cut);
    assert cut == text[..|cut|];
    FitIsLongest(text, end);
    var k := Fit(text, end);
    EncodeConcat(text[..|cut|], text[|cut|..k]);
    assert text[..k] == text[..|cut|] + text[|cut|..k];
  }

  /** The swallowed byte order mark is the only difference between the two decoders. */
  lemma FatalDropsBom(bytes: seq<Byte>)
    ensures DecodeFatal(bytes).Some? <==> Decode(bytes).Some?
    ensures DecodeFatal(bytes).Some? ==> DecodeFatal(bytes).value == WithoutBom(Decode(bytes).value)
  {
    if |bytes| >= 3 && bytes[0] == 0xEF && bytes[1] == 0xBB && bytes[2] == 0xBF {
      assert Decode1(bytes) == Some((BOM, 3));
    } else if Decode(bytes).Some? && bytes != [] {
      Encode1Decode1(bytes);
      assert Decode(bytes).value[0] == Decode1(bytes).value.0;
    }
  }
}
