/**
 * UTF-8 (RFC 3629) over Unicode scalar values.
 *
 * `unescape(encodeURIComponent(s))` turns a string into its UTF-8 bytes, one
 * character per byte, and `decodeURIComponent(escape(b))` is the reverse, which
 * fails with a URIError on any byte sequence that is not well-formed UTF-8
 * (overlong forms, surrogates and values above U+10FFFF included).
 */
module Utf8 {
  import opened Basics

  /** A continuation byte `10xxxxxx`. */
  predicate IsCont(b: Byte) {
    0x80 <= b < 0xC0
  }

  /** The bytes of one character, shortest form. */
  function EncodeChar(c: char): (r: seq<Byte>)
    ensures 1 <= |r| <= 4
    ensures |r| == 1 <==> (c as int) < 0x80
    ensures forall i :: 1 <= i < |r| ==> IsCont(r[i])
  {
    var n := c as int;
    if n < 0x80 then [n]
    else if n < 0x800 then [0xC0 + n / 64, 0x80 + n % 64]
    else if n < 0x10000 then [0xE0 + n / 4096, 0x80 + (n / 64) % 64, 0x80 + n % 64]
    else [0xF0 + n / 262144, 0x80 + (n / 4096) % 64, 0x80 + (n / 64) % 64, 0x80 + n % 64]
  }

  function Encode(s: string): (r: seq<Byte>)
    ensures |r| >= |s|
  {
    if s == [] then [] else EncodeChar(s[0]) + Encode(s[1..])
  }

  /** The character at the start of `bs` and the number of bytes it takes, when they are well-formed. */
  function DecodeFirst(bs: seq<Byte>): (r: Option<(char, nat)>)
    requires bs != []
    ensures r.Some? ==> 1 <= r.value.1 <= |bs|
  {
    var b0 := bs[0] as int;
    if b0 < 0x80 then Some((b0 as char, 1))
    else if 0xC2 <= b0 < 0xE0 then
      if |bs| >= 2 && IsCont(bs[1]) then
        Some((((b0 - 0xC0) * 64 + (bs[1] as int - 0x80)) as char, 2))
      else None
    else if 0xE0 <= b0 < 0xF0 then
      if |bs| >= 3 && IsCont(bs[1]) && IsCont(bs[2]) then
        var n := (b0 - 0xE0) * 4096 + (bs[1] as int - 0x80) * 64 + (bs[2] as int - 0x80);
        if n < 0x800 || (0xD800 <= n < 0xE000) then None else Some((n as char, 3))
      else None
    else if 0xF0 <= b0 < 0xF5 then
      if |bs| >= 4 && IsCont(bs[1]) && IsCont(bs[2]) && IsCont(bs[3]) then
        var n := (b0 - 0xF0) * 262144 + (bs[1] as int - 0x80) * 4096 + (bs[2] as int - 0x80) * 64 + (bs[3] as int - 0x80);
        if n < 0x10000 || n > 0x10FFFF then None else Some((n as char, 4))
      else None
    else None
  }

  function Decode(bs: seq<Byte>): (r: Option<string>)
    ensures r.Some? ==> |r.value| <= |bs|
    decreases |bs|
  {
    if bs == [] then Some([])
    else match DecodeFirst(bs)
      case None => None
      case Some((c, k)) =>
        match Decode(bs[k..])
        case None => None
        case Some(t) => Some([c] + t)
  }

  // ---------------------------------------------------------------------------
  // Decode is the exact inverse of Encode
  // ---------------------------------------------------------------------------

  lemma EncodeCharFirst(c: char, rest: seq<Byte>)
    ensures DecodeFirst(EncodeChar(c) + rest) == Some((c, |EncodeChar(c)|))
  {
    var n := c as int;
    if n < 0x80 {
    } else if n < 0x800 {
      EncodeTwo(n, c, rest);
    } else if n < 0x10000 {
      EncodeThree(n, c, rest);
    } else {
      EncodeFour(n, c, rest);
    }
  }

  lemma EncodeTwo(n: int, c: char, rest: seq<Byte>)
    requires n == c as int && 0x80 <= n < 0x800
    ensures DecodeFirst(EncodeChar(c) + rest) == Some((c, 2))
  {
    var bs := EncodeChar(c) + rest;
    var hi, lo := n / 64, n % 64;
    assert bs[0] as int == 0xC0 + hi && bs[1] as int == 0x80 + lo;
    assert hi * 64 + lo == n;
  }

  lemma EncodeThree(n: int, c: char, rest: seq<Byte>)
    requires n == c as int && 0x800 <= n < 0x10000
    ensures DecodeFirst(EncodeChar(c) + rest) == Some((c, 3))
  {
    var bs := EncodeChar(c) + rest;
    var hi, mid, lo := n / 4096, (n / 64) % 64, n % 64;
    assert bs[0] as int == 0xE0 + hi && bs[1] as int == 0x80 + mid && bs[2] as int == 0x80 + lo;
    assert hi * 4096 + mid * 64 + lo == n;
  }

  lemma EncodeFour(n: int, c: char, rest: seq<Byte>)
    requires n == c as int && 0x10000 <= n
    ensures DecodeFirst(EncodeChar(c) + rest) == Some((c, 4))
  {
    var bs := EncodeChar(c) + rest;
    var top, hi, mid, lo := n / 262144, (n / 4096) % 64, (n / 64) % 64, n % 64;
    assert bs[0] as int == 0xF0 + top && bs[1] as int == 0x80 + hi;
    assert bs[2] as int == 0x80 + mid && bs[3] as int == 0x80 + lo;
    SixBitGroups(n);
  }

  /** A number is its four 6-bit groups put back together. */
  lemma SixBitGroups(n: nat)
    ensures (n / 262144) * 262144 + ((n / 4096) % 64) * 4096 + ((n / 64) % 64) * 64 + n % 64 == n
  {
    var q1 := n / 64;
    var q2 := q1 / 64;
    assert n / 4096 == q2;
    assert n / 262144 == q2 / 64;
    assert n == q1 * 64 + n % 64;
    assert q1 == q2 * 64 + q1 % 64;
    assert q2 == (q2 / 64) * 64 + q2 % 64;
  }

  lemma {:induction false} DecodeEncode(s: string)
    ensures Decode(Encode(s)) == Some(s)
  {
    if s != [] {
      var head := EncodeChar(s[0]);
      var tail := Encode(s[1..]);
      EncodeCharFirst(s[0], tail);
      assert (head + tail)[|head|..] == tail;
      DecodeEncode(s[1..]);
      assert [s[0]] + s[1..] == s;
    }
  }

  lemma DecodeFirstEncodes(bs: seq<Byte>)
    requires bs != [] && DecodeFirst(bs).Some?
    ensures EncodeChar(DecodeFirst(bs).value.0) == bs[..DecodeFirst(bs).value.1]
  {
    var b0 := bs[0] as int;
    if 0xC2 <= b0 < 0xE0 {
      DecodeTwo(bs);
    } else if 0xE0 <= b0 < 0xF0 {
      DecodeThree(bs);
    } else if 0xF0 <= b0 < 0xF5 {
      DecodeFour(bs);
    }
  }

  lemma DecodeTwo(bs: seq<Byte>)
    requires |bs| >= 2 && 0xC2 <= bs[0] < 0xE0 && IsCont(bs[1])
    ensures DecodeFirst(bs).Some? && EncodeChar(DecodeFirst(bs).value.0) == bs[..2]
  {
    var a, b := bs[0] as int - 0xC0, bs[1] as int - 0x80;
    var n := a * 64 + b;
    assert n / 64 == a && n % 64 == b;
  }

  lemma DecodeThree(bs: seq<Byte>)
    requires |bs| >= 3 && 0xE0 <= bs[0] < 0xF0 && DecodeFirst(bs).Some?
    ensures EncodeChar(DecodeFirst(bs).value.0) == bs[..3]
  {
    var a, b, d := bs[0] as int - 0xE0, bs[1] as int - 0x80, bs[2] as int - 0x80;
    var n := a * 4096 + b * 64 + d;
    assert n / 64 == a * 64 + b && n % 64 == d;
    assert n / 4096 == a;
    assert (n / 64) % 64 == b;
  }

  lemma DecodeFour(bs: seq<Byte>)
    requires |bs| >= 4 && 0xF0 <= bs[0] < 0xF5 && DecodeFirst(bs).Some?
    ensures EncodeChar(DecodeFirst(bs).value.0) == bs[..4]
  {
    var a, b, d, e := bs[0] as int - 0xF0, bs[1] as int - 0x80, bs[2] as int - 0x80, bs[3] as int - 0x80;
    var n := a * 262144 + b * 4096 + d * 64 + e;
    assert n / 64 == a * 4096 + b * 64 + d && n % 64 == e;
    assert n / 4096 == a * 64 + b;
    assert n / 262144 == a;
    assert (n / 4096) % 64 == b && (n / 64) % 64 == d;
  }

  /** Encoding a string one character at a time. */
  lemma EncodeCons(c: char, t: string)
    ensures Encode([c] + t) == EncodeChar(c) + Encode(t)
  {
    assert ([c] + t)[1..] == t;
  }

  /** One step of a successful decode. */
  lemma DecodeStep(bs: seq<Byte>)
    requires bs != [] && Decode(bs).Some?
    ensures DecodeFirst(bs).Some?
    ensures Decode(bs[DecodeFirst(bs).value.1..]).Some?
    ensures Decode(bs).value == [DecodeFirst(bs).value.0] + Decode(bs[DecodeFirst(bs).value.1..]).value
  {
  }

  /** Whatever decodes was the encoding of what it decodes to: no two byte sequences decode alike. */
  lemma {:induction false} EncodeDecode(bs: seq<Byte>)
    requires Decode(bs).Some?
    ensures Encode(Decode(bs).value) == bs
    decreases |bs|
  {
    if bs != [] {
      DecodeStep(bs);
      var first := DecodeFirst(bs).value;
      var tail := bs[first.1..];
      DecodeFirstEncodes(bs);
      EncodeDecode(tail);
      EncodeCons(first.0, Decode(tail).value);
      SplitAt(bs, first.1);
    }
  }
}
