/** UTF-8 validity and big-endian integers on byte sequences. */
module Utf8 {
  import opened Basics

  predicate Tail(b: Byte) {
    0x80 <= b <= 0xBF
  }

  /** Length of the well-formed sequence at the front of `s`, or 0 (the grammar of section 4 of RFC 3629). */
  function FirstSequence(s: seq<Byte>): (n: nat)
    ensures n <= |s|
  {
    if s == [] then 0
    else if s[0] <= 0x7F then 1
    else if |s| >= 2 && 0xC2 <= s[0] <= 0xDF && Tail(s[1]) then 2
    else if |s| >= 3 && Tail(s[2]) && ThreeByteLead(s[0], s[1]) then 3
    else if |s| >= 4 && Tail(s[2]) && Tail(s[3]) && FourByteLead(s[0], s[1]) then 4
    else 0
  }

  predicate ThreeByteLead(a: Byte, b: Byte) {
    || (a == 0xE0 && 0xA0 <= b <= 0xBF)
    || (0xE1 <= a <= 0xEC && Tail(b))
    || (a == 0xED && 0x80 <= b <= 0x9F)
    || (0xEE <= a <= 0xEF && Tail(b))
  }

  predicate FourByteLead(a: Byte, b: Byte) {
    || (a == 0xF0 && 0x90 <= b <= 0xBF)
    || (0xF1 <= a <= 0xF3 && Tail(b))
    || (a == 0xF4 && 0x80 <= b <= 0x8F)
  }

  predicate ValidUtf8(s: seq<Byte>) {
    s == [] || (FirstSequence(s) > 0 && ValidUtf8(s[FirstSequence(s)..]))
  }

  /** Text by its UTF-8 bytes. */
  type Text = s: seq<Byte> | ValidUtf8(s) witness []

  // ---- Big-endian integers ----

  function Be16(n: nat): (r: seq<Byte>)
    requires n < 0x1_0000
    ensures |r| == 2
  {
    [n / 0x100, n % 0x100]
  }

  function De16(s: seq<Byte>): nat
    requires |s| == 2
  {
    s[0] as int * 0x100 + s[1] as int
  }

  function Be32(n: nat): (r: seq<Byte>)
    requires n < 0x1_0000_0000
    ensures |r| == 4
  {
    Be16(n / 0x1_0000) + Be16(n % 0x1_0000)
  }

  function De32(s: seq<Byte>): nat
    requires |s| == 4
  {
    De16(s[..2]) * 0x1_0000 + De16(s[2..])
  }

  lemma RoundTrip16(n: nat)
    requires n < 0x1_0000
    ensures De16(Be16(n)) == n
  {
  }

  lemma RoundTrip32(n: nat)
    requires n < 0x1_0000_0000
    ensures De32(Be32(n)) == n
  {
    RoundTrip16(n / 0x1_0000);
    RoundTrip16(n % 0x1_0000);
    assert Be32(n)[..2] == Be16(n / 0x1_0000) && Be32(n)[2..] == Be16(n % 0x1_0000);
  }

  lemma RangeOf16(s: seq<Byte>)
    requires |s| == 2
    ensures De16(s) < 0x1_0000 && Be16(De16(s)) == s
  {
  }

  lemma RangeOf32(s: seq<Byte>)
    requires |s| == 4
    ensures De32(s) < 0x1_0000_0000 && Be32(De32(s)) == s
  {
    RangeOf16(s[..2]);
    RangeOf16(s[2..]);
    assert De32(s) / 0x1_0000 == De16(s[..2]) && De32(s) % 0x1_0000 == De16(s[2..]);
    assert s == s[..2] + s[2..];
  }
}
