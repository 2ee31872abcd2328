/**
 * Octets, 16-bit unsigned integers in network byte order, and the UTF-8
 * well-formedness rule that Rust's `String::from_utf8` enforces.
 */
module Bytes {

  type byte = x: int | 0 <= x < 0x100
  type u16 = x: int | 0 <= x < 0x1_0000

  /** Rust's `String` and `&str`, as the UTF-8 bytes they hold. */
  type Str = seq<byte>

  /** A 16-bit value as two octets, most significant first. */
  function U16Bytes(v: u16): (b: seq<byte>)
    ensures |b| == 2
  {
    [v / 0x100, v % 0x100]
  }

  /** The 16-bit value whose network-order octets are `hi`, `lo`. */
  function BigEndian(hi: byte, lo: byte): (v: u16)
  {
    hi * 0x100 + lo
  }

  lemma BigEndianOfU16Bytes(v: u16)
    ensures BigEndian(U16Bytes(v)[0], U16Bytes(v)[1]) == v
  {
  }

  lemma U16BytesOfBigEndian(hi: byte, lo: byte)
    ensures U16Bytes(BigEndian(hi, lo)) == [hi, lo]
  {
    var v := hi * 0x100 + lo;
    assert v / 0x100 == hi && v % 0x100 == lo;
  }

  /** `n as u16` in Rust: truncation to the low 16 bits. */
  function AsU16(n: nat): (v: u16)
    ensures n < 0x1_0000 ==> v == n
  {
    n % 0x1_0000
  }

  /** A continuation octet of UTF-8, 10xxxxxx. */
  predicate IsContinuation(b: byte) {
    0x80 <= b <= 0xBF
  }

  /**
   * The number of octets of the well-formed UTF-8 sequence that starts at
   * `s[0]` (Table 3-7 of the Unicode Standard, which Rust follows), or 0 when
   * no well-formed sequence starts there.
   */
  function Utf8Width(s: seq<byte>): (w: nat)
    requires |s| > 0
    ensures w <= 4 && w <= |s|
  {
    var b0 := s[0];
    if b0 <= 0x7F then 1
    else if 0xC2 <= b0 <= 0xDF then
      if |s| >= 2 && IsContinuation(s[1]) then 2 else 0
    else if 0xE0 <= b0 <= 0xEF then
      var lo := if b0 == 0xE0 then 0xA0 else 0x80;
      var hi := if b0 == 0xED then 0x9F else 0xBF;
      if |s| >= 3 && lo <= s[1] <= hi && IsContinuation(s[2]) then 3 else 0
    else if 0xF0 <= b0 <= 0xF4 then
      var lo := if b0 == 0xF0 then 0x90 else 0x80;
      var hi := if b0 == 0xF4 then 0x8F else 0xBF;
      if |s| >= 4 && lo <= s[1] <= hi && IsContinuation(s[2]) && IsContinuation(s[3]) then 4 else 0
    else 0
  }

  /** `String::from_utf8(s)` succeeds exactly when this holds. */
  predicate ValidUtf8(s: seq<byte>)
    decreases |s|
  {
    s == [] || (Utf8Width(s) > 0 && ValidUtf8(s[Utf8Width(s)..]))
  }

  /** Every octet below 0x80 is a one-octet UTF-8 sequence. */
  predicate IsAscii(s: seq<byte>) {
    forall i :: 0 <= i < |s| ==> s[i] < 0x80
  }

  lemma {:induction false} AsciiIsUtf8(s: seq<byte>)
    requires IsAscii(s)
    ensures ValidUtf8(s)
    decreases |s|
  {
    if s != [] {
      assert Utf8Width(s) == 1;
      AsciiIsUtf8(s[1..]);
    }
  }

  lemma {:induction false} Utf8Concat(a: seq<byte>, b: seq<byte>)
    requires ValidUtf8(a) && ValidUtf8(b)
    ensures ValidUtf8(a + b)
    decreases |a|
  {
    if a != [] {
      var w := Utf8Width(a);
      assert (a + b)[..w] == a[..w];
      assert Utf8Width(a + b) == w;
      assert (a + b)[w..] == a[w..] + b;
      Utf8Concat(a[w..], b);
    } else {
      assert a + b == b;
    }
  }

  /** The octets of a string literal made of ASCII characters only. */
  function Ascii(s: string): (b: Str)
    requires forall i :: 0 <= i < |s| ==> s[i] < 128 as char
    ensures |b| == |s| && IsAscii(b)
    ensures forall i :: 0 <= i < |s| ==> b[i] == s[i] as int
  {
    seq(|s|, i requires 0 <= i < |s| => s[i] as int)
  }

  lemma {:induction false} AsciiInjective(s: string, t: string)
    requires forall i :: 0 <= i < |s| ==> s[i] < 128 as char
    requires forall i :: 0 <= i < |t| ==> t[i] < 128 as char
    requires Ascii(s) == Ascii(t)
    ensures s == t
  {
    assert |s| == |t|;
    forall i | 0 <= i < |s| ensures s[i] == t[i] {
      assert Ascii(s)[i] == Ascii(t)[i];
    }
  }
}
