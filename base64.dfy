/** Base 64 encoding with the standard alphabet and `=` padding, as described
    in section 4 of RFC 4648; this is what `Buffer.toString('base64')` produces
    for a binary request body. */
module Base64 {
  import opened Wrappers
  import opened Bytes

  /** A 6-bit group, the value one character carries. */
  type sextet = x: int | 0 <= x < 64

  /** The alphabet of Table 1: `A`-`Z`, `a`-`z`, `0`-`9`, `+`, `/`. */
  function CharOf(v: sextet): char {
    if v < 26 then 'A' + v as char
    else if v < 52 then 'a' + (v - 26) as char
    else if v < 62 then '0' + (v - 52) as char
    else if v == 62 then '+'
    else '/'
  }

  predicate IsBase64Char(c: char) {
    'A' <= c <= 'Z' || 'a' <= c <= 'z' || '0' <= c <= '9' || c == '+' || c == '/'
  }

  function ValueOf(c: char): (v: sextet)
    requires IsBase64Char(c)
    ensures CharOf(v) == c
  {
    if 'A' <= c <= 'Z' then (c - 'A') as int
    else if 'a' <= c <= 'z' then (c - 'a') as int + 26
    else if '0' <= c <= '9' then (c - '0') as int + 52
    else if c == '+' then 62
    else 63
  }

  lemma ValueOfCharOf(v: sextet)
    ensures IsBase64Char(CharOf(v)) && ValueOf(CharOf(v)) == v
  {
  }

  // ---------------------------------------------------------------------------
  // Encoding

  /** Three bytes, 24 bits, become four characters. */
  function EncodeGroup(b0: byte, b1: byte, b2: byte): string {
    [CharOf(b0 as int / 4), CharOf(16 * (b0 as int % 4) + b1 as int / 16),
     CharOf(4 * (b1 as int % 16) + b2 as int / 64), CharOf(b2 as int % 64)]
  }

  /** The final quantum of one byte: two characters and `==`. */
  function EncodeOne(b0: byte): string {
    [CharOf(b0 as int / 4), CharOf(16 * (b0 as int % 4)), '=', '=']
  }

  /** The final quantum of two bytes: three characters and `=`. */
  function EncodeTwo(b0: byte, b1: byte): string {
    [CharOf(b0 as int / 4), CharOf(16 * (b0 as int % 4) + b1 as int / 16), CharOf(4 * (b1 as int % 16)), '=']
  }

  function Encode(data: seq<byte>): (s: string)
    ensures |s| == 4 * ((|data| + 2) / 3)
    decreases |data|
  {
    if |data| == 0 then ""
    else if |data| == 1 then EncodeOne(data[0])
    else if |data| == 2 then EncodeTwo(data[0], data[1])
    else EncodeGroup(data[0], data[1], data[2]) + Encode(data[3..])
  }

  // ---------------------------------------------------------------------------
  // Decoding, the partner of encoding

  /** Four characters back to bytes; `None` unless they are what the encoder
      writes for some final or non-final quantum. */
  function DecodeQuantum(q: string, last: bool): Option<seq<byte>>
    requires |q| == 4
  {
    if !IsBase64Char(q[0]) || !IsBase64Char(q[1]) then None
    else
      var c0 := ValueOf(q[0]);
      var c1 := ValueOf(q[1]);
      if last && q[2] == '=' && q[3] == '=' then
        if c1 % 16 == 0 then Some([(4 * c0 + c1 / 16) as byte]) else None
      else if !IsBase64Char(q[2]) then None
      else
        var c2 := ValueOf(q[2]);
        if last && q[3] == '=' then
          if c2 % 4 == 0 then Some([(4 * c0 + c1 / 16) as byte, (16 * (c1 % 16) + c2 / 4) as byte]) else None
        else if !IsBase64Char(q[3]) then None
        else
          var c3 := ValueOf(q[3]);
          Some([(4 * c0 + c1 / 16) as byte, (16 * (c1 % 16) + c2 / 4) as byte, (64 * (c2 % 4) + c3) as byte])
  }

  function Decode(s: string): (r: Option<seq<byte>>)
    decreases |s|
  {
    if |s| == 0 then Some([])
    else if |s| < 4 then None
    else
      var head :- DecodeQuantum(s[..4], |s| == 4);
      var tail :- Decode(s[4..]);
      Some(head + tail)
  }

  /** The bit arithmetic of a full quantum: splitting three bytes into four
      sextets and regrouping them gives the bytes again. */
  lemma Ungroup(b0: int, b1: int, b2: int)
    requires 0 <= b0 < 256 && 0 <= b1 < 256 && 0 <= b2 < 256
    ensures var c0 := b0 / 4;
      var c1 := 16 * (b0 % 4) + b1 / 16;
      var c2 := 4 * (b1 % 16) + b2 / 64;
      var c3 := b2 % 64;
      0 <= c0 < 64 && 0 <= c1 < 64 && 0 <= c2 < 64 && 0 <= c3 < 64 &&
      4 * c0 + c1 / 16 == b0 && 16 * (c1 % 16) + c2 / 4 == b1 && 64 * (c2 % 4) + c3 == b2
  {
    var c1 := 16 * (b0 % 4) + b1 / 16;
    var c2 := 4 * (b1 % 16) + b2 / 64;
    assert c1 / 16 == b0 % 4 && c1 % 16 == b1 / 16;
    assert c2 / 4 == b1 % 16 && c2 % 4 == b2 / 64;
  }

  lemma DecodeGroup(b0: byte, b1: byte, b2: byte, last: bool)
    ensures DecodeQuantum(EncodeGroup(b0, b1, b2), last) == Some([b0, b1, b2])
  {
    var c0 := b0 as int / 4;
    var c1 := 16 * (b0 as int % 4) + b1 as int / 16;
    var c2 := 4 * (b1 as int % 16) + b2 as int / 64;
    var c3 := b2 as int % 64;
    Ungroup(b0 as int, b1 as int, b2 as int);
    var q := EncodeGroup(b0, b1, b2);
    assert q == [CharOf(c0), CharOf(c1), CharOf(c2), CharOf(c3)];
    ValueOfCharOf(c0);
    ValueOfCharOf(c1);
    ValueOfCharOf(c2);
    ValueOfCharOf(c3);
    assert ValueOf(q[0]) == c0 && ValueOf(q[1]) == c1 && ValueOf(q[2]) == c2 && ValueOf(q[3]) == c3;
  }

  lemma DecodeOne(b0: byte)
    ensures DecodeQuantum(EncodeOne(b0), true) == Some([b0])
  {
    ValueOfCharOf(b0 as int / 4);
    ValueOfCharOf(16 * (b0 as int % 4));
  }

  lemma DecodeTwo(b0: byte, b1: byte)
    ensures DecodeQuantum(EncodeTwo(b0, b1), true) == Some([b0, b1])
  {
    var c0 := b0 as int / 4;
    var c1 := 16 * (b0 as int % 4) + b1 as int / 16;
    var c2 := 4 * (b1 as int % 16);
    Ungroup(b0 as int, b1 as int, 0);
    assert c2 == 4 * (b1 as int % 16) + 0 / 64;
    var q := EncodeTwo(b0, b1);
    assert q == [CharOf(c0), CharOf(c1), CharOf(c2), '='];
    ValueOfCharOf(c0);
    ValueOfCharOf(c1);
    ValueOfCharOf(c2);
    assert ValueOf(q[0]) == c0 && ValueOf(q[1]) == c1 && ValueOf(q[2]) == c2;
    assert c2 % 4 == 0;
  }

  /** Decoding a quantum followed by more text decodes the quantum, then the rest. */
  lemma DecodeCons(q: string, rest: string, head: seq<byte>, tail: seq<byte>)
    requires |q| == 4
    requires DecodeQuantum(q, |rest| == 0) == Some(head)
    requires Decode(rest) == Some(tail)
    ensures Decode(q + rest) == Some(head + tail)
  {
    var s := q + rest;
    assert s[..4] == q && s[4..] == rest;
  }

  /** The final, padded quantum decodes back to its one or two bytes. */
  lemma DecodeEncodeShort(data: seq<byte>)
    requires 1 <= |data| <= 2
    ensures Decode(Encode(data)) == Some(data)
  {
    if |data| == 1 {
      assert Encode(data) == EncodeOne(data[0]);
      DecodeEncodeOne(data[0]);
      assert data == [data[0]];
    } else {
      assert Encode(data) == EncodeTwo(data[0], data[1]);
      DecodeEncodeTwo(data[0], data[1]);
      assert data == [data[0], data[1]];
    }
  }

  lemma DecodeEncodeOne(b0: byte)
    ensures Decode(EncodeOne(b0)) == Some([b0])
  {
    DecodeOne(b0);
    DecodeCons(EncodeOne(b0), "", [b0], []);
    assert EncodeOne(b0) + "" == EncodeOne(b0);
    assert [b0] + [] == [b0];
  }

  lemma DecodeEncodeTwo(b0: byte, b1: byte)
    ensures Decode(EncodeTwo(b0, b1)) == Some([b0, b1])
  {
    DecodeTwo(b0, b1);
    DecodeCons(EncodeTwo(b0, b1), "", [b0, b1], []);
    assert EncodeTwo(b0, b1) + "" == EncodeTwo(b0, b1);
    assert [b0, b1] + [] == [b0, b1];
  }

  /** Round trip: decoding what was encoded gives the bytes back. */
  lemma {:induction false} DecodeEncode(data: seq<byte>)
    ensures Decode(Encode(data)) == Some(data)
    decreases |data|
  {
    if |data| == 0 {
    } else if |data| <= 2 {
      DecodeEncodeShort(data);
    } else {
      DecodeEncode(data[3..]);
      DecodeEncodeGroup(data);
    }
  }

  /** A full first quantum decodes back to its three bytes, ahead of
      whatever the rest decodes to. */
  lemma DecodeEncodeGroup(data: seq<byte>)
    requires |data| >= 3 && Decode(Encode(data[3..])) == Some(data[3..])
    ensures Decode(Encode(data)) == Some(data)
  {
    var rest := Encode(data[3..]);
    DecodeGroup(data[0], data[1], data[2], |rest| == 0);
    DecodeCons(EncodeGroup(data[0], data[1], data[2]), rest, [data[0], data[1], data[2]], data[3..]);
    assert Encode(data) == EncodeGroup(data[0], data[1], data[2]) + rest;
    FirstThree(data);
  }

  lemma FirstThree(data: seq<byte>)
    requires |data| >= 3
    ensures data == [data[0], data[1], data[2]] + data[3..]
  {
  }

  /** Encoding is one-to-one, so different bodies never share a text. */
  lemma EncodeInjective(a: seq<byte>, b: seq<byte>)
    requires Encode(a) == Encode(b)
    ensures a == b
  {
    DecodeEncode(a);
    DecodeEncode(b);
  }

  /** The bit arithmetic of a full quantum undone: regrouping the 24 bits of
      four sextets as three bytes and back gives the sextets again. */
  lemma Regroup(c0: sextet, c1: sextet, c2: sextet, c3: sextet)
    ensures var b0 := 4 * c0 + c1 / 16;
      var b1 := 16 * (c1 % 16) + c2 / 4;
      var b2 := 64 * (c2 % 4) + c3;
      0 <= b0 < 256 && 0 <= b1 < 256 && 0 <= b2 < 256 &&
      b0 / 4 == c0 && 16 * (b0 % 4) + b1 / 16 == c1 &&
      4 * (b1 % 16) + b2 / 64 == c2 && b2 % 64 == c3
  {
    var b0 := 4 * c0 + c1 / 16;
    var b1 := 16 * (c1 % 16) + c2 / 4;
    var b2 := 64 * (c2 % 4) + c3;
    assert b0 / 4 == c0 && b0 % 4 == c1 / 16;
    assert b1 / 16 == c1 % 16 && b1 % 16 == c2 / 4;
    assert b2 / 64 == c2 % 4 && b2 % 64 == c3;
  }

  lemma QuantumOne(q: string)
    requires |q| == 4 && IsBase64Char(q[0]) && IsBase64Char(q[1]) && q[2] == '=' && q[3] == '='
    requires ValueOf(q[1]) % 16 == 0
    ensures q == EncodeOne((4 * ValueOf(q[0]) + ValueOf(q[1]) / 16) as byte)
  {
    Regroup(ValueOf(q[0]), ValueOf(q[1]), 0, 0);
  }

  lemma QuantumTwo(q: string)
    requires |q| == 4 && IsBase64Char(q[0]) && IsBase64Char(q[1]) && IsBase64Char(q[2]) && q[3] == '='
    requires ValueOf(q[2]) % 4 == 0
    ensures q == EncodeTwo((4 * ValueOf(q[0]) + ValueOf(q[1]) / 16) as byte,
                           (16 * (ValueOf(q[1]) % 16) + ValueOf(q[2]) / 4) as byte)
  {
    Regroup(ValueOf(q[0]), ValueOf(q[1]), ValueOf(q[2]), 0);
  }

  lemma QuantumThree(q: string)
    requires |q| == 4 && IsBase64Char(q[0]) && IsBase64Char(q[1]) && IsBase64Char(q[2]) && IsBase64Char(q[3])
    ensures q == EncodeGroup((4 * ValueOf(q[0]) + ValueOf(q[1]) / 16) as byte,
                             (16 * (ValueOf(q[1]) % 16) + ValueOf(q[2]) / 4) as byte,
                             (64 * (ValueOf(q[2]) % 4) + ValueOf(q[3])) as byte)
  {
    QuantumThreeOf(q, ValueOf(q[0]), ValueOf(q[1]), ValueOf(q[2]), ValueOf(q[3]));
  }

  lemma QuantumThreeOf(q: string, c0: sextet, c1: sextet, c2: sextet, c3: sextet)
    requires |q| == 4 && q[0] == CharOf(c0) && q[1] == CharOf(c1) && q[2] == CharOf(c2) && q[3] == CharOf(c3)
    ensures q == EncodeGroup((4 * c0 + c1 / 16) as byte, (16 * (c1 % 16) + c2 / 4) as byte, (64 * (c2 % 4) + c3) as byte)
  {
    RegroupEncodes(c0, c1, c2, c3);
    assert q == [CharOf(c0), CharOf(c1), CharOf(c2), CharOf(c3)];
  }

  /** The four characters of four sextets are the encoding of the three
      bytes they regroup into. */
  lemma RegroupEncodes(c0: sextet, c1: sextet, c2: sextet, c3: sextet)
    ensures 0 <= 4 * c0 + c1 / 16 < 256 && 0 <= 16 * (c1 % 16) + c2 / 4 < 256 && 0 <= 64 * (c2 % 4) + c3 < 256
    ensures [CharOf(c0), CharOf(c1), CharOf(c2), CharOf(c3)]
      == EncodeGroup((4 * c0 + c1 / 16) as byte, (16 * (c1 % 16) + c2 / 4) as byte, (64 * (c2 % 4) + c3) as byte)
  {
    Regroup(c0, c1, c2, c3);
    EncodeGroupOf(4 * c0 + c1 / 16, 16 * (c1 % 16) + c2 / 4, 64 * (c2 % 4) + c3, c0, c1, c2, c3);
  }

  /** `EncodeGroup` on bytes given as integers whose sextets are known. */
  lemma EncodeGroupOf(b0: int, b1: int, b2: int, c0: sextet, c1: sextet, c2: sextet, c3: sextet)
    requires 0 <= b0 < 256 && 0 <= b1 < 256 && 0 <= b2 < 256
    requires b0 / 4 == c0 && 16 * (b0 % 4) + b1 / 16 == c1 && 4 * (b1 % 16) + b2 / 64 == c2 && b2 % 64 == c3
    ensures EncodeGroup(b0 as byte, b1 as byte, b2 as byte) == [CharOf(c0), CharOf(c1), CharOf(c2), CharOf(c3)]
  {
  }

  /** Any quantum the decoder accepts is exactly what the encoder writes for
      the bytes it decodes to: no stray padding, no non-zero leftover bits. */
  lemma QuantumEncodes(q: string, last: bool)
    requires |q| == 4 && DecodeQuantum(q, last).Some?
    ensures var d := DecodeQuantum(q, last).value;
      1 <= |d| <= 3 && (|d| < 3 ==> last) &&
      q == (if |d| == 1 then EncodeOne(d[0]) else if |d| == 2 then EncodeTwo(d[0], d[1]) else EncodeGroup(d[0], d[1], d[2]))
  {
    var d := DecodeQuantum(q, last).value;
    var c0: int, c1: int := ValueOf(q[0]), ValueOf(q[1]);
    if last && q[2] == '=' && q[3] == '=' {
      assert d == [(4 * c0 + c1 / 16) as byte];
      QuantumOne(q);
    } else if last && q[3] == '=' {
      var c2: int := ValueOf(q[2]);
      assert d == [(4 * c0 + c1 / 16) as byte, (16 * (c1 % 16) + c2 / 4) as byte];
      QuantumTwo(q);
    } else {
      var c2: int, c3: int := ValueOf(q[2]), ValueOf(q[3]);
      assert d == [(4 * c0 + c1 / 16) as byte, (16 * (c1 % 16) + c2 / 4) as byte, (64 * (c2 % 4) + c3) as byte];
      QuantumThree(q);
    }
  }

  /** The other round trip: a text the decoder accepts is the encoding of
      what it decodes to, so accepted texts and byte strings correspond one
      to one. */
  lemma {:induction false} EncodeDecode(s: string)
    requires Decode(s).Some?
    ensures Encode(Decode(s).value) == s
    decreases |s|
  {
    if |s| > 0 {
      var q := s[..4];
      var head := DecodeQuantum(q, |s| == 4).value;
      var tail := Decode(s[4..]).value;
      QuantumEncodes(q, |s| == 4);
      EncodeDecode(s[4..]);
      assert Decode(s).value == head + tail;
      EncodeHead(head, tail, |s| == 4);
      assert s == q + s[4..];
    }
  }

  /** Encoding a decoded quantum followed by more bytes. */
  lemma EncodeHead(head: seq<byte>, tail: seq<byte>, last: bool)
    requires 1 <= |head| <= 3 && (|head| < 3 ==> last && tail == [])
    ensures Encode(head + tail) ==
      (if |head| == 1 then EncodeOne(head[0]) else if |head| == 2 then EncodeTwo(head[0], head[1])
       else EncodeGroup(head[0], head[1], head[2])) + Encode(tail)
  {
    var d := head + tail;
    if |head| == 3 {
      assert d[..3] == head && d[3..] == tail;
    } else {
      assert d == head;
    }
  }
}
