/**
 * Base64 as the browser's `btoa` writes it (the alphabet and padding of
 * section 4 of RFC 4648) and as its `atob` reads it (the WHATWG "forgiving
 * base64 decode": ASCII white space is ignored, the padding is optional, and
 * the unused low bits of the last symbol are discarded).
 */
module Base64 {
  import opened Basics

  type Sextet = x: int | 0 <= x < 64

  /** The symbol for a 6-bit value. */
  function Symbol(v: Sextet): char {
    if v < 26 then ('A' as int + v) as char
    else if v < 52 then ('a' as int + (v - 26)) as char
    else if v < 62 then ('0' as int + (v - 52)) as char
    else if v == 62 then '+'
    else '/'
  }

  /** The 6-bit value of a symbol, `None` for characters outside the alphabet. */
  function SymbolValue(c: char): (r: Option<Sextet>)
    ensures r.Some? ==> Symbol(r.value) == c
  {
    if 'A' <= c <= 'Z' then Some(c as int - 'A' as int)
    else if 'a' <= c <= 'z' then Some(c as int - 'a' as int + 26)
    else if '0' <= c <= '9' then Some(c as int - '0' as int + 52)
    else if c == '+' then Some(62)
    else if c == '/' then Some(63)
    else None
  }

  lemma SymbolValueOfSymbol(v: Sextet)
    ensures SymbolValue(Symbol(v)) == Some(v)
  {
  }

  /** Three bytes as four 6-bit values, high bits first. */
  function Split(b0: Byte, b1: Byte, b2: Byte): (g: seq<Sextet>)
    ensures |g| == 4 && g[0] == b0 / 4
  {
    [b0 / 4, (b0 % 4) * 16 + b1 / 16, (b1 % 16) * 4 + b2 / 64, b2 % 64]
  }

  /**
   * Every three bytes become four symbols; a last group of one or two bytes is
   * filled with zero bits and becomes two or three.
   */
  function ToSextets(bs: seq<Byte>): (r: seq<Sextet>)
    ensures bs != [] ==> r != [] && r[0] == bs[0] / 4
    decreases |bs|
  {
    if |bs| == 0 then []
    else if |bs| == 1 then Split(bs[0], 0, 0)[..2]
    else if |bs| == 2 then Split(bs[0], bs[1], 0)[..3]
    else Split(bs[0], bs[1], bs[2]) + ToSextets(bs[3..])
  }

  function Symbols(xs: seq<Sextet>): (r: string)
    ensures |r| == |xs| && forall i :: 0 <= i < |xs| ==> r[i] == Symbol(xs[i])
  {
    if xs == [] then [] else [Symbol(xs[0])] + Symbols(xs[1..])
  }

  /** The `=` signs that fill the last group of four. */
  function Padding(n: nat): string {
    if n % 3 == 1 then "==" else if n % 3 == 2 then "=" else ""
  }

  /** `btoa` of a binary string, one byte per character. */
  function Encode(bs: seq<Byte>): (r: string)
    ensures bs != [] ==> r != [] && r[0] == Symbol(bs[0] / 4)
  {
    Symbols(ToSextets(bs)) + Padding(|bs|)
  }

  /** ASCII white space as the forgiving decoder strips it. */
  predicate IsAsciiWs(c: char) {
    c == '\t' || c == '\n' || c == '\U{000C}' || c == '\r' || c == ' '
  }

  function RemoveWs(s: string): (r: string)
    ensures |r| <= |s|
    ensures forall i :: 0 <= i < |r| ==> !IsAsciiWs(r[i])
    ensures (forall i :: 0 <= i < |s| ==> !IsAsciiWs(s[i])) ==> r == s
  {
    if s == [] then []
    else if IsAsciiWs(s[0]) then RemoveWs(s[1..])
    else [s[0]] + RemoveWs(s[1..])
  }

  /** One or two trailing `=` removed. */
  function StripPadding(d: string): (r: string)
    ensures |r| <= |d| && r == d[..|r|] && |d| - |r| <= 2
  {
    if |d| >= 2 && d[|d| - 1] == '=' && d[|d| - 2] == '=' then d[..|d| - 2]
    else if |d| >= 1 && d[|d| - 1] == '=' then d[..|d| - 1]
    else d
  }

  /** The values of all symbols, `None` when one character is not in the alphabet. */
  function SymbolValues(d: string): (r: Option<seq<Sextet>>)
    ensures r.Some? ==> |r.value| == |d| && forall i :: 0 <= i < |d| ==> SymbolValue(d[i]) == Some(r.value[i])
    ensures r.None? ==> exists i :: 0 <= i < |d| && SymbolValue(d[i]).None?
  {
    if d == [] then Some([])
    else match SymbolValue(d[0])
      case None => None
      case Some(v) =>
        match SymbolValues(d[1..])
        case None => None
        case Some(vs) => Some([v] + vs)
  }

  /** Four 6-bit values as three bytes. */
  function Join(x0: Sextet, x1: Sextet, x2: Sextet, x3: Sextet): (r: seq<Byte>)
    ensures |r| == 3
  {
    var b0: Byte := (x0 as int) * 4 + x1 / 16;
    var b1: Byte := (x1 as int % 16) * 16 + x2 / 4;
    var b2: Byte := (x2 as int % 4) * 64 + x3;
    [b0, b1, b2]
  }

  /**
   * Four symbols give three bytes; a last group of two or three symbols gives
   * one or two, and the bits left over are dropped.
   */
  function FromSextets(xs: seq<Sextet>): (r: seq<Byte>)
    decreases |xs|
  {
    if |xs| < 2 then []  // a lone last symbol: `Decode` rejects it before this
    else if |xs| == 2 then Join(xs[0], xs[1], 0, 0)[..1]
    else if |xs| == 3 then Join(xs[0], xs[1], xs[2], 0)[..2]
    else Join(xs[0], xs[1], xs[2], xs[3]) + FromSextets(xs[4..])
  }

  /** `atob`: `None` where the browser throws an `InvalidCharacterError`. */
  function Decode(s: string): Option<seq<Byte>> {
    var d := RemoveWs(s);
    var e := if |d| % 4 == 0 then StripPadding(d) else d;
    if |e| % 4 == 1 then None
    else match SymbolValues(e)
      case None => None
      case Some(xs) => Some(FromSextets(xs))
  }

  // ---------------------------------------------------------------------------
  // atob(btoa(b)) == b
  // ---------------------------------------------------------------------------

  lemma GroupArithmetic(b0: Byte, b1: Byte, b2: Byte)
    ensures (b0 / 4) * 4 + ((b0 % 4) * 16 + b1 / 16) / 16 == b0
    ensures (((b0 % 4) * 16 + b1 / 16) % 16) * 16 + ((b1 % 16) * 4 + b2 / 64) / 4 == b1
    ensures (((b1 % 16) * 4 + b2 / 64) % 4) * 64 + b2 % 64 == b2
  {
  }

  /** A group of three bytes comes back from its four sextets. */
  lemma GroupRoundTrip(b0: Byte, b1: Byte, b2: Byte)
    ensures var g := Split(b0, b1, b2); Join(g[0], g[1], g[2], g[3]) == [b0, b1, b2]
  {
    GroupArithmetic(b0, b1, b2);
    var g := Split(b0, b1, b2);
    var j := Join(g[0], g[1], g[2], g[3]);
    assert j[0] == b0 && j[1] == b1 && j[2] == b2;
    SameThree(j, [b0, b1, b2]);
  }

  /** One or two bytes left over make two or three sextets. */
  lemma {:induction false} SextetsLength(bs: seq<Byte>)
    ensures |bs| % 3 == 0 ==> |ToSextets(bs)| % 4 == 0
    ensures |bs| % 3 == 1 ==> |ToSextets(bs)| % 4 == 2
    ensures |bs| % 3 == 2 ==> |ToSextets(bs)| % 4 == 3
    decreases |bs|
  {
    if |bs| >= 3 {
      SextetsLength(bs[3..]);
      assert |ToSextets(bs)| == 4 + |ToSextets(bs[3..])|;
    }
  }

  /** Base64 text is a whole number of groups of four. */
  lemma EncodeLength(bs: seq<Byte>)
    ensures |Encode(bs)| % 4 == 0
    ensures |ToSextets(bs)| % 4 != 1
  {
    SextetsLength(bs);
  }

  lemma {:induction false} SextetsRoundTrip(bs: seq<Byte>)
    ensures FromSextets(ToSextets(bs)) == bs
    decreases |bs|
  {
    if |bs| >= 3 {
      FirstGroup(bs);
      SextetsRoundTrip(bs[3..]);
      SplitAt(bs, 3);
    } else if |bs| == 2 {
      GroupRoundTrip(bs[0], bs[1], 0);
    } else if |bs| == 1 {
      GroupRoundTrip(bs[0], 0, 0);
    }
  }

  /** The first three bytes come back from the first four sextets. */
  lemma FirstGroup(bs: seq<Byte>)
    requires |bs| >= 3
    ensures FromSextets(ToSextets(bs)) == bs[..3] + FromSextets(ToSextets(bs[3..]))
  {
    var g := Split(bs[0], bs[1], bs[2]);
    var xs := ToSextets(bs);
    assert xs[..4] == g && xs[4..] == ToSextets(bs[3..]);
    GroupRoundTrip(bs[0], bs[1], bs[2]);
    FirstThree(bs);
  }

  lemma {:induction false} SymbolValuesOfSymbols(xs: seq<Sextet>)
    ensures SymbolValues(Symbols(xs)) == Some(xs)
  {
    if xs != [] {
      SymbolValueOfSymbol(xs[0]);
      var t := Symbols(xs);
      assert t[1..] == Symbols(xs[1..]);
      SymbolValuesOfSymbols(xs[1..]);
      assert [xs[0]] + xs[1..] == xs;
    }
  }

  /** Every character `btoa` writes is a symbol or `=`. */
  predicate IsBase64Char(c: char) {
    SymbolValue(c).Some? || c == '='
  }

  lemma EncodeAlphabet(bs: seq<Byte>)
    ensures forall i :: 0 <= i < |Encode(bs)| ==> IsBase64Char(Encode(bs)[i])
  {
    var xs := ToSextets(bs);
    var r := Encode(bs);
    forall i | 0 <= i < |r| ensures IsBase64Char(r[i]) {
      if i < |xs| {
        SymbolValueOfSymbol(xs[i]);
      }
    }
  }

  /** `btoa`'s output has no white space for the decoder to strip. */
  lemma EncodeNoWs(bs: seq<Byte>)
    ensures RemoveWs(Encode(bs)) == Encode(bs)
  {
    EncodeAlphabet(bs);
    var r := Encode(bs);
    assert forall i :: 0 <= i < |r| ==> !IsAsciiWs(r[i]);
  }

  /** Removing the padding from `btoa`'s output leaves exactly the symbols. */
  lemma StripEncoding(bs: seq<Byte>)
    ensures StripPadding(Encode(bs)) == Symbols(ToSextets(bs))
  {
    var xs := ToSextets(bs);
    var sym := Symbols(xs);
    SextetsLength(bs);
    if xs != [] {
      SymbolValueOfSymbol(xs[|xs| - 1]);
    }
    StripAfter(sym, Padding(|bs|));
  }

  /** Symbols followed by their padding lose exactly the padding. */
  lemma StripAfter(sym: string, pad: string)
    requires pad == "" || (sym != [] && (pad == "=" || pad == "=="))
    requires sym == [] || sym[|sym| - 1] != '='
    ensures StripPadding(sym + pad) == sym
  {
    var d := sym + pad;
    if pad == "==" {
      assert d[..|d| - 2] == sym;
    } else if pad == "=" {
      assert d[|d| - 2] == sym[|sym| - 1];
      assert d[..|d| - 1] == sym;
    } else {
      assert d == sym;
    }
  }

  /** `atob(btoa(b))` gives back `b`. */
  lemma DecodeEncode(bs: seq<Byte>)
    ensures Decode(Encode(bs)) == Some(bs)
  {
    var xs := ToSextets(bs);
    EncodeNoWs(bs);
    EncodeLength(bs);
    StripEncoding(bs);
    SymbolValuesOfSymbols(xs);
    DecodeSymbols(Encode(bs), xs);
    SextetsRoundTrip(bs);
  }

  /** Text without white space, a whole number of groups, whose unpadded part is the symbols of `xs`. */
  lemma DecodeSymbols(r: string, xs: seq<Sextet>)
    requires RemoveWs(r) == r && |r| % 4 == 0 && StripPadding(r) == Symbols(xs)
    requires |xs| % 4 != 1 && SymbolValues(Symbols(xs)) == Some(xs)
    ensures Decode(r) == Some(FromSextets(xs))
  {
  }
}
