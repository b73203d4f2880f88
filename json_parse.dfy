/**
 * `JSON.parse`: a recursive-descent reader of JSON text (RFC 8259) into `Json.Value`,
 * and the facts that it inverts `Json.Stringify` and only yields well-formed values.
 */
module JsonParse {
  import opened Basics
  import opened Json

  /** JSON insignificant white space (section 2 of RFC 8259). */
  predicate IsWs(c: char) {
    c == ' ' || c == '\t' || c == '\n' || c == '\r'
  }

  predicate IsDigit(c: char) {
    '0' <= c <= '9'
  }

  function SkipWs(s: string): (r: string)
    ensures |r| <= |s|
    ensures r == [] || !IsWs(r[0])
  {
    if s != [] && IsWs(s[0]) then SkipWs(s[1..]) else s
  }

  /**
   * `JSON.parse(text)`: `None` where JavaScript throws a SyntaxError.
   * Every value it yields has distinct keys in every object.
   */
  function Parse(text: string): (r: Option<Value>)
    ensures r.Some? ==> WellFormed(r.value)
  {
    match ParseValue(SkipWs(text))
    case None => None
    case Some((v, rest)) => if SkipWs(rest) == [] then Some(v) else None
  }

  /** One value at the start of `s` (no leading white space), and the text after it. */
  function ParseValue(s: string): (r: Option<(Value, string)>)
    ensures r.Some? ==> |r.value.1| < |s| && WellFormed(r.value.0)
    decreases |s|, 0
  {
    if s == [] then None
    else if s[0] == 'n' then ParseWord(s, "null", JNull)
    else if s[0] == 't' then ParseWord(s, "true", JBool(true))
    else if s[0] == 'f' then ParseWord(s, "false", JBool(false))
    else if s[0] == '"' then
      match ParseStringBody(s[1..])
      case None => None
      case Some((str, rest)) => Some((JString(str), rest))
    else if s[0] == '-' || IsDigit(s[0]) then ParseNumber(s)
    else if s[0] == '[' then ParseArray(s[1..])
    else if s[0] == '{' then ParseObject(s[1..])
    else None
  }

  function ParseWord(s: string, word: string, v: Value): (r: Option<(Value, string)>)
    requires |word| > 0 && WellFormed(v)
    ensures r.Some? ==> |r.value.1| < |s| && WellFormed(r.value.0)
  {
    if |word| <= |s| && s[..|word|] == word then Some((v, s[|word|..])) else None
  }

  /** The rest of an array after its `[`. */
  function ParseArray(s: string): (r: Option<(Value, string)>)
    ensures r.Some? ==> |r.value.1| < |s| && WellFormed(r.value.0)
    decreases |s|, 2
  {
    var t := SkipWs(s);
    if t != [] && t[0] == ']' then Some((JArray([]), t[1..]))
    else ParseElements(t, [])
  }

  /** Elements `value (, value)* ]`, appended to the ones already read (`acc`). */
  function ParseElements(s: string, acc: seq<Value>): (r: Option<(Value, string)>)
    requires WellFormedItems(acc)
    ensures r.Some? ==> |r.value.1| < |s| && WellFormed(r.value.0)
    decreases |s|, 1
  {
    match ParseValue(SkipWs(s))
    case None => None
    case Some((v, rest)) =>
      var t := SkipWs(rest);
      if t == [] then None
      else if t[0] == ',' then ParseElements(t[1..], acc + [v])
      else if t[0] == ']' then Some((JArray(acc + [v]), t[1..]))
      else None
  }

  /** The rest of an object after its `{`. */
  function ParseObject(s: string): (r: Option<(Value, string)>)
    ensures r.Some? ==> |r.value.1| < |s| && WellFormed(r.value.0)
    decreases |s|, 2
  {
    var t := SkipWs(s);
    if t != [] && t[0] == '}' then Some((JObject([]), t[1..]))
    else ParseMembers(t, [])
  }

  /**
   * Members `"key": value (, "key": value)* }`. A repeated key overwrites the earlier
   * value in its original place, as `JSON.parse` does.
   */
  function ParseMembers(s: string, acc: seq<Member>): (r: Option<(Value, string)>)
    requires WellFormedMembers(acc)
    ensures r.Some? ==> |r.value.1| < |s| && WellFormed(r.value.0)
    decreases |s|, 1
  {
    if s == [] || s[0] != '"' then None
    else
      match ParseStringBody(s[1..])
      case None => None
      case Some((key, r1)) =>
        var t1 := SkipWs(r1);
        if t1 == [] || t1[0] != ':' then None
        else
          match ParseValue(SkipWs(t1[1..]))
          case None => None
          case Some((v, r2)) =>
            var members := Put(acc, key, v);
            var t2 := SkipWs(r2);
            if t2 == [] then None
            else if t2[0] == ',' then ParseMembers(SkipWs(t2[1..]), members)
            else if t2[0] == '}' then Some((JObject(members), t2[1..]))
            else None
  }

  // ---------------------------------------------------------------------------
  // Strings
  // ---------------------------------------------------------------------------

  function HexValue(c: char): Option<int> {
    if '0' <= c <= '9' then Some(c as int - '0' as int)
    else if 'a' <= c <= 'f' then Some(c as int - 'a' as int + 10)
    else if 'A' <= c <= 'F' then Some(c as int - 'A' as int + 10)
    else None
  }

  /** Four hexadecimal digits at the start of `s`: one UTF-16 code unit. */
  function Hex4(s: string): (r: Option<int>)
    ensures r.Some? ==> |s| >= 4 && 0 <= r.value < 0x10000
  {
    if |s| < 4 then None
    else match (HexValue(s[0]), HexValue(s[1]), HexValue(s[2]), HexValue(s[3]))
      case (Some(a), Some(b), Some(c), Some(d)) =>
        if 0 <= a < 16 && 0 <= b < 16 && 0 <= c < 16 && 0 <= d < 16
        then Some(a * 4096 + b * 256 + c * 16 + d) else None
      case _ => None
  }

  /** The character of an escape sequence after its backslash. */
  function ParseEscape(s: string): (r: Option<(char, string)>)
    ensures r.Some? ==> |r.value.1| < |s|
  {
    if s == [] then None
    else if s[0] == '"' then Some(('"', s[1..]))
    else if s[0] == '\\' then Some(('\\', s[1..]))
    else if s[0] == '/' then Some(('/', s[1..]))
    else if s[0] == 'b' then Some((0x08 as char, s[1..]))
    else if s[0] == 'f' then Some((0x0C as char, s[1..]))
    else if s[0] == 'n' then Some(('\n', s[1..]))
    else if s[0] == 'r' then Some(('\r', s[1..]))
    else if s[0] == 't' then Some(('\t', s[1..]))
    else if s[0] == 'u' then
      match Hex4(s[1..])
      case None => None
      case Some(u) =>
        if u < 0xD800 || 0xE000 <= u then Some((u as char, s[5..]))
        else if u < 0xDC00 && |s| >= 11 && s[5] == '\\' && s[6] == 'u' then
          match Hex4(s[7..])
          case None => None
          case Some(l) =>
            if 0xDC00 <= l < 0xE000
            then Some(((0x10000 + (u - 0xD800) * 0x400 + (l - 0xDC00)) as char, s[11..]))
            else None
        else None
    else None
  }

  /** The body of a string literal after its opening quote, up to and past the closing one. */
  function ParseStringBody(s: string): (r: Option<(string, string)>)
    ensures r.Some? ==> |r.value.1| < |s|
    decreases |s|
  {
    if s == [] then None
    else if s[0] == '"' then Some(([], s[1..]))
    else if s[0] == '\\' then
      match ParseEscape(s[1..])
      case None => None
      case Some((c, rest)) =>
        match ParseStringBody(rest)
        case None => None
        case Some((str, after)) => Some(([c] + str, after))
    else if s[0] as int < 0x20 then None
    else
      match ParseStringBody(s[1..])
      case None => None
      case Some((str, after)) => Some(([s[0]] + str, after))
  }

  // ---------------------------------------------------------------------------
  // Numbers
  // ---------------------------------------------------------------------------

  /** Length of the run of decimal digits at the start of `s`. */
  function DigitRun(s: string): (k: nat)
    ensures k <= |s|
    ensures forall i :: 0 <= i < k ==> IsDigit(s[i])
    ensures k < |s| ==> !IsDigit(s[k])
  {
    if s != [] && IsDigit(s[0]) then 1 + DigitRun(s[1..]) else 0
  }

  function DigitsValue(ds: string): nat
    requires forall i :: 0 <= i < |ds| ==> IsDigit(ds[i])
  {
    if ds == [] then 0
    else
      assert IsDigit(ds[|ds| - 1]);
      DigitsValue(ds[..|ds| - 1]) * 10 + (ds[|ds| - 1] as int - '0' as int)
  }

  /** `0` or a digit run without a leading zero. */
  function ParseNat(s: string): (r: Option<(nat, string)>)
    ensures r.Some? ==> |r.value.1| < |s|
  {
    if s == [] || !IsDigit(s[0]) then None
    else if s[0] == '0' then Some((0, s[1..]))
    else
      var k := DigitRun(s);
      Some((DigitsValue(s[..k]), s[k..]))
  }

  /** An integer: an optional minus sign and a natural number. */
  function ParseNumber(s: string): (r: Option<(Value, string)>)
    ensures r.Some? ==> |r.value.1| < |s| && r.value.0.JNumber?
  {
    if s != [] && s[0] == '-' then
      match ParseNat(s[1..])
      case None => None
      case Some((n, rest)) => Some((JNumber(-(n as int)), rest))
    else
      match ParseNat(s)
      case None => None
      case Some((n, rest)) => Some((JNumber(n), rest))
  }

  // ---------------------------------------------------------------------------
  // Round trip: JSON.parse(JSON.stringify(v)) gives back v
  // ---------------------------------------------------------------------------

  /** What may follow a value inside JSON text: the end, or a separator or closing bracket. */
  predicate Ends(rest: string) {
    rest == [] || rest[0] == ',' || rest[0] == ']' || rest[0] == '}'
  }

  /** The first character of a value's JSON text tells its kind; it is never white space. */
  predicate StartsValue(c: char) {
    c == 'n' || c == 't' || c == 'f' || c == '"' || c == '-' || IsDigit(c) || c == '[' || c == '{'
  }

  /** The last character of a value's JSON text. */
  predicate EndsValue(c: char) {
    c == 'l' || c == 'e' || c == '"' || IsDigit(c) || c == ']' || c == '}'
  }

  lemma StringifyBounds(v: Value)
    ensures |Stringify(v)| > 0
    ensures StartsValue(Stringify(v)[0]) && !IsWs(Stringify(v)[0])
    ensures EndsValue(Stringify(v)[|Stringify(v)| - 1])
  {
    match v
    case JNumber(n) => NumberBounds(n);
    case JArray(items) => ArrayBounds(items);
    case JObject(ms) => ObjectBounds(ms);
    case _ =>
  }

  lemma NumberBounds(n: int)
    ensures var t := Stringify(JNumber(n));
      |t| > 0 && StartsValue(t[0]) && !IsWs(t[0]) && EndsValue(t[|t| - 1])
  {
    if n < 0 { assert IntText(n) == "-" + NatText(-n); }
  }

  lemma ArrayBounds(items: seq<Value>)
    ensures var t := Stringify(JArray(items));
      |t| > 0 && t[0] == '[' && t[|t| - 1] == ']'
  {
  }

  lemma ObjectBounds(ms: seq<Member>)
    ensures var t := Stringify(JObject(ms));
      |t| > 0 && t[0] == '{' && t[|t| - 1] == '}'
  {
  }

  lemma HexRoundTrip(d: int)
    requires 0 <= d < 16
    ensures HexValue(HexChar(d)) == Some(d)
  {
  }

  lemma {:induction false} DigitRunOf(ds: string, rest: string)
    requires forall i :: 0 <= i < |ds| ==> IsDigit(ds[i])
    requires rest == [] || !IsDigit(rest[0])
    ensures DigitRun(ds + rest) == |ds|
  {
    if ds != [] {
      assert (ds + rest)[1..] == ds[1..] + rest;
      DigitRunOf(ds[1..], rest);
    }
  }

  lemma {:induction false} DigitsValueOfNatText(n: nat)
    ensures DigitsValue(NatText(n)) == n
  {
    if n >= 10 {
      var t := NatText(n / 10);
      var ds := t + [DigitChar(n % 10)];
      assert ds[..|ds| - 1] == t;
      DigitsValueOfNatText(n / 10);
    }
  }

  lemma NatRoundTrip(n: nat, rest: string)
    requires rest == [] || !IsDigit(rest[0])
    ensures ParseNat(NatText(n) + rest) == Some((n, rest))
  {
    var t := NatText(n);
    var s := t + rest;
    if n == 0 {
      assert s[1..] == rest;
    } else {
      DigitRunOf(t, rest);
      assert s[..|t|] == t;
      assert s[|t|..] == rest;
      DigitsValueOfNatText(n);
    }
  }

  lemma IntRoundTrip(n: int, rest: string)
    requires Ends(rest)
    ensures ParseNumber(IntText(n) + rest) == Some((JNumber(n), rest))
  {
    if n < 0 {
      NegativeRoundTrip(-n, rest);
    } else {
      NonNegativeRoundTrip(n, rest);
    }
  }

  lemma NegativeRoundTrip(n: nat, rest: string)
    requires n > 0 && (rest == [] || !IsDigit(rest[0]))
    ensures ParseNumber(IntText(-(n as int)) + rest) == Some((JNumber(-(n as int)), rest))
  {
    var s := "-" + (NatText(n) + rest);
    AssocSeq("-", NatText(n), rest);
    assert IntText(-(n as int)) + rest == s;
    assert s[1..] == NatText(n) + rest;
    NatRoundTrip(n, rest);
  }

  lemma NonNegativeRoundTrip(n: nat, rest: string)
    requires rest == [] || !IsDigit(rest[0])
    ensures ParseNumber(IntText(n) + rest) == Some((JNumber(n), rest))
  {
    var t := NatText(n);
    var s := t + rest;
    assert s[0] == t[0] && IsDigit(t[0]);
    NatRoundTrip(n, rest);
  }

  /** The text `JSON.stringify` writes for one character reads back as that character. */
  lemma EscapeCharRoundTrip(c: char, tail: string)
    ensures ParseStringBody(EscapeChar(c) + tail) ==
      match ParseStringBody(tail)
      case None => None
      case Some((str, after)) => Some(([c] + str, after))
  {
    var e := EscapeChar(c);
    var s := e + tail;
    var n := c as int;
    if c == '"' || c == '\\' || n == 0x08 || n == 0x09 || n == 0x0A || n == 0x0C || n == 0x0D {
      assert s[1..][1..] == tail;
    } else if n < 0x20 {
      HexRoundTrip(n / 16);
      HexRoundTrip(n % 16);
      var u := s[1..];
      assert u[1..] == ['0', '0', HexChar(n / 16), HexChar(n % 16)] + tail;
      assert Hex4(u[1..]) == Some(n);
      assert u[5..] == tail;
    } else {
      assert s[1..] == tail;
    }
  }

  lemma {:induction false} StringRoundTrip(str: string, rest: string)
    ensures ParseStringBody(Escape(str) + "\"" + rest) == Some((str, rest))
  {
    if str == [] {
      assert Escape(str) + "\"" + rest == "\"" + rest;
    } else {
      var tail := Escape(str[1..]) + "\"" + rest;
      assert Escape(str) + "\"" + rest == EscapeChar(str[0]) + tail;
      StringRoundTrip(str[1..], rest);
      EscapeCharRoundTrip(str[0], tail);
      assert [str[0]] + str[1..] == str;
    }
  }

  lemma SkipWsNoop(s: string)
    requires s != [] && !IsWs(s[0])
    ensures SkipWs(s) == s
  {
  }

  lemma {:induction false} ValueRoundTrip(v: Value, rest: string)
    requires WellFormed(v) && Ends(rest)
    ensures ParseValue(Stringify(v) + rest) == Some((v, rest))
    decreases v, 1
  {
    match v
    case JNull =>
      var s := Stringify(v) + rest;
      assert s[..4] == "null" && s[4..] == rest;
    case JBool(b) =>
      var s := Stringify(v) + rest;
      if b { assert s[..4] == "true" && s[4..] == rest; }
      else { assert s[..5] == "false" && s[5..] == rest; }
    case JNumber(n) =>
      StringifyBounds(v);
      IntRoundTrip(n, rest);
    case JString(str) =>
      var s := Stringify(v) + rest;
      assert s[1..] == Escape(str) + "\"" + rest;
      StringRoundTrip(str, rest);
    case JArray(items) =>
      ArrayRoundTrip(items, rest);
    case JObject(ms) =>
      ObjectRoundTrip(ms, rest);
  }

  lemma {:induction false} ArrayRoundTrip(items: seq<Value>, rest: string)
    requires WellFormedItems(items) && Ends(rest)
    ensures ParseValue(Stringify(JArray(items)) + rest) == Some((JArray(items), rest))
    decreases JArray(items), 0
  {
    if items == [] {
      EmptyArray(rest);
    } else {
      ArrayOpen(items, rest);
      ItemsRoundTrip(items, [], rest);
      assert [] + items == items;
    }
  }

  lemma EmptyArray(rest: string)
    ensures ParseValue(Stringify(JArray([])) + rest) == Some((JArray([]), rest))
  {
    var s := Stringify(JArray([])) + rest;
    assert s[0] == '[' && s[1..] == "]" + rest;
    SkipWsNoop(s[1..]);
    assert s[1..][1..] == rest;
  }

  /** A non-empty array: after `[` come the elements. */
  lemma ArrayOpen(items: seq<Value>, rest: string)
    requires items != []
    ensures ParseValue(Stringify(JArray(items)) + rest) == ParseElements(StringifyItems(items) + "]" + rest, [])
  {
    var s := Stringify(JArray(items)) + rest;
    var t := s[1..];
    assert s[0] == '[';
    assert ParseValue(s) == ParseArray(t);
    assert t == StringifyItems(items) + "]" + rest;
    ItemsStart(items);
    SkipWsNoop(t);
  }

  lemma {:induction false} ObjectRoundTrip(ms: seq<Member>, rest: string)
    requires WellFormedMembers(ms) && Ends(rest)
    ensures ParseValue(Stringify(JObject(ms)) + rest) == Some((JObject(ms), rest))
    decreases JObject(ms), 0
  {
    if ms == [] {
      EmptyObject(rest);
    } else {
      ObjectOpen(ms, rest);
      assert [] + ms == ms;
      MembersRoundTrip(ms, [], rest);
    }
  }

  lemma EmptyObject(rest: string)
    ensures ParseValue(Stringify(JObject([])) + rest) == Some((JObject([]), rest))
  {
    var s := Stringify(JObject([])) + rest;
    assert s[0] == '{' && s[1..] == "}" + rest;
    SkipWsNoop(s[1..]);
    assert s[1..][1..] == rest;
  }

  /** A non-empty object: after `{` come the members. */
  lemma ObjectOpen(ms: seq<Member>, rest: string)
    requires ms != []
    ensures ParseValue(Stringify(JObject(ms)) + rest) == ParseMembers(StringifyMembers(ms) + "}" + rest, [])
  {
    var s := Stringify(JObject(ms)) + rest;
    var t := s[1..];
    assert s[0] == '{';
    assert ParseValue(s) == ParseObject(t);
    assert t == StringifyMembers(ms) + "}" + rest;
    MembersStart(ms);
    SkipWsNoop(t);
  }

  lemma ItemsStart(items: seq<Value>)
    requires items != []
    ensures |StringifyItems(items)| > 0
    ensures StringifyItems(items)[0] == Stringify(items[0])[0]
    ensures StartsValue(StringifyItems(items)[0])
  {
    StringifyBounds(items[0]);
  }

  lemma MembersStart(ms: seq<Member>)
    requires ms != []
    ensures |StringifyMembers(ms)| > 0 && StringifyMembers(ms)[0] == '"'
  {
  }

  /** One step of reading array elements: the element is followed by `]`. */
  lemma ElementsLast(s: string, acc: seq<Value>, v: Value, rest: string)
    requires WellFormedItems(acc) && s != [] && !IsWs(s[0])
    requires ParseValue(s) == Some((v, "]" + rest))
    ensures ParseElements(s, acc) == Some((JArray(acc + [v]), rest))
  {
    SkipWsNoop(s);
    SkipWsNoop("]" + rest);
    assert ("]" + rest)[1..] == rest;
  }

  /** One step of reading array elements: the element is followed by `,`. */
  lemma ElementsNext(s: string, acc: seq<Value>, v: Value, next: string)
    requires WellFormedItems(acc) && s != [] && !IsWs(s[0])
    requires ParseValue(s) == Some((v, "," + next))
    ensures WellFormedItems(acc + [v])
    ensures ParseElements(s, acc) == ParseElements(next, acc + [v])
  {
    SkipWsNoop(s);
    SkipWsNoop("," + next);
    assert ("," + next)[1..] == next;
  }

  /** Moving the first of `xs` onto the end of `acc` keeps `acc + xs`. */
  lemma ShiftFirst<T>(acc: seq<T>, xs: seq<T>)
    requires xs != []
    ensures acc + [xs[0]] + xs[1..] == acc + xs
    ensures |xs| == 1 ==> acc + [xs[0]] == acc + xs
  {
    assert xs == [xs[0]] + xs[1..];
  }

  /** The text of a non-empty element list followed by `]` and more text. */
  lemma ItemsText(items: seq<Value>, rest: string)
    requires items != []
    ensures |items| == 1 ==>
      StringifyItems(items) + "]" + rest == Stringify(items[0]) + ("]" + rest)
    ensures |items| > 1 ==>
      StringifyItems(items) + "]" + rest ==
      Stringify(items[0]) + ("," + (StringifyItems(items[1..]) + "]" + rest))
  {
    if |items| > 1 {
      var head := Stringify(items[0]);
      var tail := StringifyItems(items[1..]);
      assert StringifyItems(items) == head + "," + tail;
      calc {
        StringifyItems(items) + "]" + rest;
        head + "," + tail + "]" + rest;
        { AssocSeq(head + "," + tail, "]", rest); }
        head + "," + tail + ("]" + rest);
        { AssocSeq(head + ",", tail, "]" + rest); }
        head + "," + (tail + ("]" + rest));
        { AssocSeq(head, ",", tail + ("]" + rest)); }
        head + ("," + (tail + ("]" + rest)));
        { AssocSeq(tail, "]", rest); }
        head + ("," + (tail + "]" + rest));
      }
    }
  }

  lemma {:induction false} ItemsRoundTrip(items: seq<Value>, acc: seq<Value>, rest: string)
    requires items != [] && WellFormedItems(items) && WellFormedItems(acc) && Ends(rest)
    ensures ParseElements(StringifyItems(items) + "]" + rest, acc) == Some((JArray(acc + items), rest))
    decreases items, 1
  {
    assert WellFormed(items[0]);
    if |items| == 1 {
      ValueRoundTrip(items[0], "]" + rest);
      ItemsLastStep(items, acc, rest);
    } else {
      var next := StringifyItems(items[1..]) + "]" + rest;
      ValueRoundTrip(items[0], "," + next);
      ItemsNextStep(items, acc, rest);
      ItemsRoundTrip(items[1..], acc + [items[0]], rest);
      ShiftFirst(acc, items);
    }
  }

  /** The last element: once it reads back, the list closes. */
  lemma ItemsLastStep(items: seq<Value>, acc: seq<Value>, rest: string)
    requires |items| == 1 && WellFormedItems(acc)
    requires ParseValue(Stringify(items[0]) + ("]" + rest)) == Some((items[0], "]" + rest))
    ensures ParseElements(StringifyItems(items) + "]" + rest, acc) == Some((JArray(acc + items), rest))
  {
    StringifyBounds(items[0]);
    ItemsText(items, rest);
    ElementsLast(Stringify(items[0]) + ("]" + rest), acc, items[0], rest);
    ShiftFirst(acc, items);
  }

  /** An element followed by more: once it reads back, reading goes on after the comma. */
  lemma ItemsNextStep(items: seq<Value>, acc: seq<Value>, rest: string)
    requires |items| > 1 && WellFormedItems(items) && WellFormedItems(acc)
    requires var next := StringifyItems(items[1..]) + "]" + rest;
      ParseValue(Stringify(items[0]) + ("," + next)) == Some((items[0], "," + next))
    ensures WellFormedItems(acc + [items[0]]) && WellFormedItems(items[1..])
    ensures ParseElements(StringifyItems(items) + "]" + rest, acc) ==
            ParseElements(StringifyItems(items[1..]) + "]" + rest, acc + [items[0]])
  {
    var next := StringifyItems(items[1..]) + "]" + rest;
    StringifyBounds(items[0]);
    ItemsText(items, rest);
    ElementsNext(Stringify(items[0]) + ("," + next), acc, items[0], next);
    assert WellFormedItems(items[1..]);
  }

  /** The text of one member, up to its value, read by `ParseMembers`. */
  lemma MemberHead(m: Member, acc: seq<Member>, after: string)
    requires WellFormedMembers(acc) && WellFormed(m.value) && Ends(after)
    requires KeyIndex(acc, m.key) == -1
    ensures var s := StringifyMember(m) + after;
      s != [] && s[0] == '"' &&
      ParseStringBody(s[1..]).Some? &&
      var (key, r1) := ParseStringBody(s[1..]).value;
      key == m.key && SkipWs(r1) != [] && SkipWs(r1)[0] == ':' &&
      ParseValue(SkipWs(SkipWs(r1)[1..])) == Some((m.value, after)) &&
      Put(acc, key, m.value) == acc + [m]
    decreases m, 0
  {
    var valueText := Stringify(m.value) + after;
    MemberKey(m, after);
    MemberColon(valueText);
    StringifyBounds(m.value);
    SkipWsNoop(valueText);
    ValueRoundTrip(m.value, after);
  }

  /** The quoted key of a member reads back, leaving the colon and the value's text. */
  lemma MemberKey(m: Member, after: string)
    ensures var s := StringifyMember(m) + after;
      s != [] && s[0] == '"' &&
      ParseStringBody(s[1..]) == Some((m.key, ":" + (Stringify(m.value) + after)))
  {
    var valueText := Stringify(m.value) + after;
    var s := StringifyMember(m) + after;
    assert s == "\"" + (Escape(m.key) + "\"" + (":" + valueText));
    assert s[1..] == Escape(m.key) + "\"" + (":" + valueText);
    StringRoundTrip(m.key, ":" + valueText);
  }

  lemma MemberColon(valueText: string)
    ensures SkipWs(":" + valueText) == ":" + valueText
    ensures (":" + valueText)[1..] == valueText
  {
    SkipWsNoop(":" + valueText);
  }

  lemma MembersLast(m: Member, acc: seq<Member>, rest: string)
    requires WellFormedMembers(acc) && WellFormed(m.value) && Ends(rest)
    requires KeyIndex(acc, m.key) == -1
    ensures ParseMembers(StringifyMember(m) + ("}" + rest), acc) == Some((JObject(acc + [m]), rest))
    decreases m, 1
  {
    MemberHead(m, acc, "}" + rest);
    SkipWsNoop("}" + rest);
    assert ("}" + rest)[1..] == rest;
  }

  lemma MembersNext(m: Member, acc: seq<Member>, next: string)
    requires WellFormedMembers(acc) && WellFormed(m.value)
    requires KeyIndex(acc, m.key) == -1
    requires next != [] && next[0] == '"'
    ensures ParseMembers(StringifyMember(m) + ("," + next), acc) == ParseMembers(next, acc + [m])
    decreases m, 1
  {
    MemberHead(m, acc, "," + next);
    SkipWsNoop("," + next);
    assert ("," + next)[1..] == next;
    SkipWsNoop(next);
  }

  /** The text of a non-empty member list followed by `}` and more text. */
  lemma MembersText(ms: seq<Member>, rest: string)
    requires ms != []
    ensures |ms| == 1 ==>
      StringifyMembers(ms) + "}" + rest == StringifyMember(ms[0]) + ("}" + rest)
    ensures |ms| > 1 ==>
      StringifyMembers(ms) + "}" + rest ==
      StringifyMember(ms[0]) + ("," + (StringifyMembers(ms[1..]) + "}" + rest))
  {
    if |ms| > 1 {
      var head := StringifyMember(ms[0]);
      var tail := StringifyMembers(ms[1..]);
      assert StringifyMembers(ms) == head + "," + tail;
      calc {
        StringifyMembers(ms) + "}" + rest;
        head + "," + tail + "}" + rest;
        { AssocSeq(head + "," + tail, "}", rest); }
        head + "," + tail + ("}" + rest);
        { AssocSeq(head + ",", tail, "}" + rest); }
        head + "," + (tail + ("}" + rest));
        { AssocSeq(head, ",", tail + ("}" + rest)); }
        head + ("," + (tail + ("}" + rest)));
        { AssocSeq(tail, "}", rest); }
        head + ("," + (tail + "}" + rest));
      }
    }
  }

  /** The key of the first of `ms` is not among the keys of `acc` when `acc + ms` has distinct keys. */
  lemma FreshKey(acc: seq<Member>, ms: seq<Member>)
    requires ms != [] && WellFormedMembers(acc + ms)
    ensures KeyIndex(acc, ms[0].key) == -1
    ensures WellFormed(ms[0].value)
    ensures WellFormedMembers(acc + [ms[0]])
    ensures acc + [ms[0]] + ms[1..] == acc + ms
  {
    var all := acc + ms;
    assert all[|acc|] == ms[0];
    forall j | 0 <= j < |acc| ensures acc[j].key != ms[0].key {
      assert acc[j] == all[j];
    }
    assert forall i :: 0 <= i <= |acc| ==> (acc + [ms[0]])[i] == all[i];
  }

  lemma {:induction false} MembersRoundTrip(ms: seq<Member>, acc: seq<Member>, rest: string)
    requires ms != [] && WellFormedMembers(acc) && WellFormedMembers(acc + ms) && Ends(rest)
    ensures ParseMembers(StringifyMembers(ms) + "}" + rest, acc) == Some((JObject(acc + ms), rest))
    decreases ms, 2
  {
    var m := ms[0];
    FreshKey(acc, ms);
    MembersText(ms, rest);
    if |ms| == 1 {
      MembersLast(m, acc, rest);
      assert acc + [m] == acc + ms;
    } else {
      var next := StringifyMembers(ms[1..]) + "}" + rest;
      MembersStart(ms[1..]);
      MembersNext(m, acc, next);
      MembersRoundTrip(ms[1..], acc + [m], rest);
    }
  }

  /** `JSON.parse(JSON.stringify(v))` is `v` for every well-formed value. */
  lemma RoundTrip(v: Value)
    requires WellFormed(v)
    ensures Parse(Stringify(v)) == Some(v)
  {
    StringifyBounds(v);
    assert Stringify(v) + [] == Stringify(v);
    ValueRoundTrip(v, []);
  }
}
