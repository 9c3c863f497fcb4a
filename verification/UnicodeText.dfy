/** Valid text is a sequence of Unicode scalar values, each encoded as section 3 of RFC 3629 says. */
module UnicodeText {
  import opened Basics
  import opened Utf8
  import T = Text

  predicate Scalar(c: nat) {
    c < 0xD800 || 0xE000 <= c <= 0x10_FFFF
  }

  /** The UTF-8 bytes of one scalar value. */
  function Encode(c: nat): (r: seq<Byte>)
    requires Scalar(c)
    ensures 1 <= |r| <= 4
  {
    if c < 0x80 then [c]
    else if c < 0x800 then [0xC0 + c / 0x40, 0x80 + c % 0x40]
    else if c < 0x1_0000 then [0xE0 + c / 0x1000, 0x80 + c / 0x40 % 0x40, 0x80 + c % 0x40]
    else [0xF0 + c / 0x4_0000, 0x80 + c / 0x1000 % 0x40, 0x80 + c / 0x40 % 0x40, 0x80 + c % 0x40]
  }

  predicate Scalars(cs: seq<nat>) {
    forall i :: 0 <= i < |cs| ==> Scalar(cs[i])
  }

  function EncodeAll(cs: seq<nat>): seq<Byte>
    requires Scalars(cs)
  {
    if cs == [] then [] else Encode(cs[0]) + EncodeAll(cs[1..])
  }

  // ---- One scalar value ----

  lemma ThreeBytesOf(c: nat)
    requires Scalar(c) && 0x800 <= c < 0x1_0000
    ensures ThreeByteLead(Encode(c)[0], Encode(c)[1])
  {
    assert c / 0x1000 * 0x40 + c / 0x40 % 0x40 == c / 0x40;
  }

  lemma FourBytesOf(c: nat)
    requires Scalar(c) && 0x1_0000 <= c
    ensures FourByteLead(Encode(c)[0], Encode(c)[1])
  {
    assert c / 0x4_0000 * 0x40 + c / 0x1000 % 0x40 == c / 0x1000;
  }

  lemma EncodedIsFirst(c: nat, tail: seq<Byte>)
    requires Scalar(c)
    ensures FirstSequence(Encode(c) + tail) == |Encode(c)|
  {
    if c >= 0x1_0000 {
      FourBytesOf(c);
    } else if c >= 0x800 {
      ThreeBytesOf(c);
    }
  }

  /** The scalar value of a sequence: the bits of its lead byte, then six bits of each byte behind it. */
  function Value2(a: int, b: int): int {
    (a - 0xC0) * 0x40 + (b - 0x80)
  }

  function Value3(a: int, b: int, c: int): int {
    (a - 0xE0) * 0x1000 + (b - 0x80) * 0x40 + (c - 0x80)
  }

  function Value4(a: int, b: int, c: int, d: int): int {
    (a - 0xF0) * 0x4_0000 + (b - 0x80) * 0x1000 + (c - 0x80) * 0x40 + (d - 0x80)
  }

  lemma Digits2(a: nat, b: nat)
    requires b < 0x40
    ensures (a * 0x40 + b) / 0x40 == a && (a * 0x40 + b) % 0x40 == b
  {
  }

  lemma Digits3(a: nat, b: nat, c: nat)
    requires b < 0x40 && c < 0x40
    ensures var v := a * 0x1000 + b * 0x40 + c; v / 0x1000 == a && v / 0x40 % 0x40 == b && v % 0x40 == c
  {
    Digits2(a, b);
    Digits2(a * 0x40 + b, c);
  }

  lemma Digits4(a: nat, b: nat, c: nat, d: nat)
    requires b < 0x40 && c < 0x40 && d < 0x40
    ensures var v := a * 0x4_0000 + b * 0x1000 + c * 0x40 + d;
            v / 0x4_0000 == a && v / 0x1000 % 0x40 == b && v / 0x40 % 0x40 == c && v % 0x40 == d
  {
    Digits2(a, b);
    Digits3(a * 0x40 + b, c, d);
  }

  lemma TwoEncode(a: Byte, b: Byte)
    requires 0xC2 <= a <= 0xDF && Tail(b)
    ensures var v := Value2(a, b); v >= 0 && Scalar(v) && Encode(v) == [a, b]
  {
    Digits2(a - 0xC0, b - 0x80);
  }

  lemma ThreeEncode(a: Byte, b: Byte, c: Byte)
    requires ThreeByteLead(a, b) && Tail(c)
    ensures var v := Value3(a, b, c); v >= 0 && Scalar(v) && Encode(v) == [a, b, c]
  {
    Digits3(a - 0xE0, b - 0x80, c - 0x80);
  }

  lemma EncodeFour(v: nat, a: Byte, b: Byte, c: Byte, d: Byte)
    requires 0x1_0000 <= v <= 0x10_FFFF
    requires v / 0x4_0000 == a as int - 0xF0 && v / 0x1000 % 0x40 == b as int - 0x80
    requires v / 0x40 % 0x40 == c as int - 0x80 && v % 0x40 == d as int - 0x80
    ensures Encode(v) == [a, b, c, d]
  {
  }

  lemma FourEncode(a: Byte, b: Byte, c: Byte, d: Byte)
    requires FourByteLead(a, b) && Tail(c) && Tail(d)
    ensures var v := Value4(a, b, c, d); v >= 0 && Scalar(v) && Encode(v) == [a, b, c, d]
  {
    Digits4(a - 0xF0, b - 0x80, c - 0x80, d - 0x80);
    EncodeFour(Value4(a, b, c, d), a, b, c, d);
  }

  lemma FirstIsEncoded(s: seq<Byte>) returns (v: nat)
    requires FirstSequence(s) > 0
    ensures Scalar(v) && Encode(v) == s[..FirstSequence(s)]
  {
    match FirstSequence(s)
    case 1 =>
      v := s[0];
    case 2 =>
      TwoEncode(s[0], s[1]);
      v := Value2(s[0], s[1]);
    case 3 =>
      ThreeEncode(s[0], s[1], s[2]);
      v := Value3(s[0], s[1], s[2]);
    case _ =>
      FourEncode(s[0], s[1], s[2], s[3]);
      v := Value4(s[0], s[1], s[2], s[3]);
  }

  // ---- Whole texts ----

  lemma {:induction false} EncodingIsValid(cs: seq<nat>)
    requires Scalars(cs)
    ensures ValidUtf8(EncodeAll(cs))
  {
    if cs != [] {
      EncodedIsFirst(cs[0], EncodeAll(cs[1..]));
      EncodingIsValid(cs[1..]);
      assert EncodeAll(cs)[|Encode(cs[0])|..] == EncodeAll(cs[1..]);
    }
  }

  lemma {:induction false} ValidIsEncoding(s: seq<Byte>) returns (cs: seq<nat>)
    requires ValidUtf8(s)
    ensures Scalars(cs) && EncodeAll(cs) == s
  {
    if s == [] {
      cs := [];
    } else {
      var n := FirstSequence(s);
      var v := FirstIsEncoded(s);
      var rest := ValidIsEncoding(s[n..]);
      cs := [v] + rest;
      assert cs[1..] == rest && s == s[..n] + s[n..];
    }
  }

  /** A byte string is accepted as text exactly when it spells scalar values. */
  lemma ValidIffScalars(s: seq<Byte>)
    ensures ValidUtf8(s) <==> exists cs :: Scalars(cs) && EncodeAll(cs) == s
  {
    if ValidUtf8(s) {
      var cs := ValidIsEncoding(s);
    }
    if cs :| Scalars(cs) && EncodeAll(cs) == s {
      EncodingIsValid(cs);
    }
  }

  // ---- The length names are capped by ----

  function Codes(s: string): (cs: seq<nat>)
    ensures Scalars(cs)
  {
    seq(|s|, i requires 0 <= i < |s| => s[i] as nat)
  }

  lemma OneLength(c: char)
    ensures T.Utf8Length(c) == |Encode(c as nat)|
  {
  }

  /** The length a name is measured by is the length of its UTF-8 bytes. */
  lemma {:induction false} ByteLengthIsEncoded(s: string)
    ensures T.ByteLength(s) == |EncodeAll(Codes(s))|
  {
    if s != "" {
      OneLength(s[0]);
      ByteLengthIsEncoded(s[1..]);
      assert Codes(s)[1..] == Codes(s[1..]);
    }
  }
}
