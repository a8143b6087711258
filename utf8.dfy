/** UTF-8 as RFC 3629 defines it: what `new TextEncoder().encode(s)` returns
    for a string of Unicode scalar values, and the strict decoder that undoes
    it. */
module Utf8 {
  import opened Wrappers
  import opened Bytes

  /** Section 3: the encoded form of one scalar value, in one to four octets. */
  function EncodeChar(c: char): (r: seq<byte>)
    ensures 1 <= |r| <= 4
  {
    var v := c as int;
    if v < 0x80 then [v as byte]
    else if v < 0x800 then [(0xC0 + v / 64) as byte, (0x80 + v % 64) as byte]
    else if v < 0x10000 then
      [(0xE0 + v / 4096) as byte, (0x80 + (v / 64) % 64) as byte, (0x80 + v % 64) as byte]
    else
      [(0xF0 + v / 262144) as byte, (0x80 + (v / 4096) % 64) as byte,
       (0x80 + (v / 64) % 64) as byte, (0x80 + v % 64) as byte]
  }

  function Encode(s: string): (r: seq<byte>)
    ensures |s| <= |r| <= 4 * |s|
    decreases |s|
  {
    if |s| == 0 then [] else EncodeChar(s[0]) + Encode(s[1..])
  }

  // ---------------------------------------------------------------------------
  // The decoder, the partner of the encoder

  predicate IsContinuation(b: byte) { 0x80 <= b < 0xC0 }

  /** A value that is a Unicode scalar value, and so a `char`. */
  predicate IsScalar(v: int) { 0 <= v < 0xD800 || 0xE000 <= v < 0x11_0000 }

  /** The length of the sequence a leading octet announces; 0 for an octet
      that cannot lead (a continuation octet, 0xC0, 0xC1, 0xF5 and above). */
  function SequenceLength(b: byte): nat {
    if b < 0x80 then 1
    else if b < 0xC2 then 0
    else if b < 0xE0 then 2
    else if b < 0xF0 then 3
    else if b < 0xF5 then 4
    else 0
  }

  /** The value a well-formed sequence of `n` octets carries. */
  function SequenceValue(s: seq<byte>, n: nat): int
    requires 1 <= n <= 4 && n <= |s|
  {
    if n == 1 then s[0] as int
    else if n == 2 then (s[0] as int - 0xC0) * 64 + (s[1] as int - 0x80)
    else if n == 3 then (s[0] as int - 0xE0) * 4096 + (s[1] as int - 0x80) * 64 + (s[2] as int - 0x80)
    else (s[0] as int - 0xF0) * 262144 + (s[1] as int - 0x80) * 4096 + (s[2] as int - 0x80) * 64 + (s[3] as int - 0x80)
  }

  /** The octets after the first of an `n`-octet sequence are continuation
      octets. */
  predicate Continued(s: seq<byte>, n: nat)
    requires n <= |s|
  {
    (n >= 2 ==> IsContinuation(s[1])) && (n >= 3 ==> IsContinuation(s[2])) && (n >= 4 ==> IsContinuation(s[3]))
  }

  /** The least value that needs `n` octets; a smaller one is overlong. */
  function MinValue(n: nat): int {
    if n == 1 then 0 else if n == 2 then 0x80 else if n == 3 then 0x800 else 0x10000
  }

  /** The first character of `s` and its length, if `s` starts with a
      well-formed sequence (Table 3-7 of Unicode: no overlong form, no
      surrogate, nothing above U+10FFFF). */
  function DecodeFirst(s: seq<byte>): (r: Option<(char, nat)>)
    requires |s| > 0
    ensures r.Some? ==> 1 <= r.value.1 <= 4 && r.value.1 <= |s|
  {
    var n := SequenceLength(s[0]);
    if n == 0 || |s| < n then None
    else if !Continued(s, n) then None
    else
      var v := SequenceValue(s, n);
      if v < MinValue(n) || !IsScalar(v) then None
      else Some((v as char, n))
  }

  function Decode(s: seq<byte>): (r: Option<string>)
    decreases |s|
  {
    if |s| == 0 then Some("")
    else
      var (c, n) :- DecodeFirst(s);
      var rest :- Decode(s[n..]);
      Some([c] + rest)
  }

  // Octet arithmetic for each length, in both directions

  lemma Split2(v: int)
    requires 0x80 <= v < 0x800
    ensures var b0 := 0xC0 + v / 64; var b1 := 0x80 + v % 64;
      0xC2 <= b0 < 0xE0 && 0x80 <= b1 < 0xC0 && (b0 - 0xC0) * 64 + (b1 - 0x80) == v
  {
  }

  lemma Split3(v: int)
    requires 0x800 <= v < 0x10000
    ensures var b0 := 0xE0 + v / 4096; var b1 := 0x80 + (v / 64) % 64; var b2 := 0x80 + v % 64;
      0xE0 <= b0 < 0xF0 && 0x80 <= b1 < 0xC0 && 0x80 <= b2 < 0xC0
      && (b0 - 0xE0) * 4096 + (b1 - 0x80) * 64 + (b2 - 0x80) == v
  {
    var q := v / 64;
    assert v == 64 * q + v % 64;
    assert q == 64 * (q / 64) + q % 64;
    assert q / 64 == v / 4096;
  }

  lemma Split4(v: int)
    requires 0x10000 <= v < 0x11_0000
    ensures var b0 := 0xF0 + v / 262144; var b1 := 0x80 + (v / 4096) % 64;
      var b2 := 0x80 + (v / 64) % 64; var b3 := 0x80 + v % 64;
      0xF0 <= b0 < 0xF5 && 0x80 <= b1 < 0xC0 && 0x80 <= b2 < 0xC0 && 0x80 <= b3 < 0xC0
      && (b0 - 0xF0) * 262144 + (b1 - 0x80) * 4096 + (b2 - 0x80) * 64 + (b3 - 0x80) == v
  {
    var q := v / 64;
    var r := q / 64;
    assert v == 64 * q + v % 64;
    assert q == 64 * r + q % 64;
    assert r == 64 * (r / 64) + r % 64;
    assert r == v / 4096 && r / 64 == v / 262144;
  }

  lemma Join2(b0: int, b1: int)
    requires 0xC0 <= b0 < 0xE0 && 0x80 <= b1 < 0xC0
    ensures var v := (b0 - 0xC0) * 64 + (b1 - 0x80); v / 64 == b0 - 0xC0 && v % 64 == b1 - 0x80
  {
  }

  lemma Join3(b0: int, b1: int, b2: int)
    requires 0xE0 <= b0 < 0xF0 && 0x80 <= b1 < 0xC0 && 0x80 <= b2 < 0xC0
    ensures var v := (b0 - 0xE0) * 4096 + (b1 - 0x80) * 64 + (b2 - 0x80);
      v / 4096 == b0 - 0xE0 && (v / 64) % 64 == b1 - 0x80 && v % 64 == b2 - 0x80
  {
    var v := (b0 - 0xE0) * 4096 + (b1 - 0x80) * 64 + (b2 - 0x80);
    var q := (b0 - 0xE0) * 64 + (b1 - 0x80);
    assert v == 64 * q + (b2 - 0x80);
    assert v / 64 == q;
  }

  lemma Join4(b0: int, b1: int, b2: int, b3: int)
    requires 0xF0 <= b0 < 0xF8 && 0x80 <= b1 < 0xC0 && 0x80 <= b2 < 0xC0 && 0x80 <= b3 < 0xC0
    ensures var v := (b0 - 0xF0) * 262144 + (b1 - 0x80) * 4096 + (b2 - 0x80) * 64 + (b3 - 0x80);
      v / 262144 == b0 - 0xF0 && (v / 4096) % 64 == b1 - 0x80 && (v / 64) % 64 == b2 - 0x80 && v % 64 == b3 - 0x80
  {
    var v := (b0 - 0xF0) * 262144 + (b1 - 0x80) * 4096 + (b2 - 0x80) * 64 + (b3 - 0x80);
    var r := (b0 - 0xF0) * 64 + (b1 - 0x80);
    var q := r * 64 + (b2 - 0x80);
    assert v == 64 * q + (b3 - 0x80);
    assert v / 64 == q;
    assert q / 64 == r;
    assert v / 4096 == r;
  }

  /** The encoded form of one character decodes back to it. */
  lemma DecodeEncodeChar(c: char, tail: seq<byte>)
    ensures DecodeFirst(EncodeChar(c) + tail) == Some((c, |EncodeChar(c)|))
  {
    var e := EncodeChar(c);
    var s := e + tail;
    var v := c as int;
    assert s[0] == e[0];
    if v < 0x80 {
    } else if v < 0x800 {
      Split2(v);
      assert s[1] == e[1];
    } else if v < 0x10000 {
      Split3(v);
      assert s[1] == e[1] && s[2] == e[2];
    } else {
      Split4(v);
      assert s[1] == e[1] && s[2] == e[2] && s[3] == e[3];
    }
  }

  /** Round trip: decoding the encoding gives the string back. */
  lemma {:induction false} DecodeEncode(s: string)
    ensures Decode(Encode(s)) == Some(s)
    decreases |s|
  {
    if |s| > 0 {
      var e := Encode(s);
      var rest := Encode(s[1..]);
      DecodeEncodeChar(s[0], rest);
      DecodeEncode(s[1..]);
      assert e[|EncodeChar(s[0])|..] == rest;
      assert s == [s[0]] + s[1..];
    }
  }

  /** A well-formed sequence is exactly the encoding of the character it
      carries: the decoder accepts no second spelling of a character. */
  lemma EncodeDecodeFirst(s: seq<byte>)
    requires |s| > 0 && DecodeFirst(s).Some?
    ensures EncodeChar(DecodeFirst(s).value.0) == s[..DecodeFirst(s).value.1]
  {
    var n := SequenceLength(s[0]);
    var c := DecodeFirst(s).value.0;
    var v := c as int;
    assert v == SequenceValue(s, n);
    if n == 1 {
      assert s[..1] == [s[0]];
    } else if n == 2 {
      Join2(s[0] as int, s[1] as int);
      assert s[..2] == [s[0], s[1]];
    } else if n == 3 {
      Join3(s[0] as int, s[1] as int, s[2] as int);
      assert s[..3] == [s[0], s[1], s[2]];
    } else {
      Join4(s[0] as int, s[1] as int, s[2] as int, s[3] as int);
      assert s[..4] == [s[0], s[1], s[2], s[3]];
    }
  }

  /** The other round trip: what the decoder accepts is the encoding of what
      it returns, so strings and well-formed octet sequences correspond one
      to one. */
  lemma {:induction false} EncodeDecode(s: seq<byte>)
    requires Decode(s).Some?
    ensures Encode(Decode(s).value) == s
    decreases |s|
  {
    if |s| > 0 {
      var (c, n) := DecodeFirst(s).value;
      EncodeDecodeFirst(s);
      EncodeDecode(s[n..]);
      var t := Decode(s).value;
      assert t == [c] + Decode(s[n..]).value;
      assert t[1..] == Decode(s[n..]).value;
      assert s == s[..n] + s[n..];
    }
  }

  /** Distinct strings have distinct encodings. */
  lemma EncodeInjective(a: string, b: string)
    requires Encode(a) == Encode(b)
    ensures a == b
  {
    DecodeEncode(a);
    DecodeEncode(b);
  }

  /** ASCII text is its own encoding, octet for octet. */
  lemma {:induction false} AsciiIsOneOctetEach(s: string)
    requires forall k :: 0 <= k < |s| ==> s[k] as int < 0x80
    ensures |Encode(s)| == |s|
    ensures forall k :: 0 <= k < |s| ==> Encode(s)[k] as int == s[k] as int
    decreases |s|
  {
    if |s| > 0 {
      AsciiIsOneOctetEach(s[1..]);
    }
  }
}
