/**
 * JavaScript values as they travel through `JSON.stringify` / `JSON.parse`
 * (the JSON text format of RFC 8259), and `JSON.stringify` itself.
 */
module Json {
  import opened Basics

  /**
   * A JSON value. An object keeps its members in insertion order, the order in
   * which `JSON.stringify` writes them. Numbers are integers.
   */
  datatype Value =
    | JNull
    | JBool(b: bool)
    | JNumber(n: int)
    | JString(s: string)
    | JArray(items: seq<Value>)
    | JObject(members: seq<Member>)

  datatype Member = Member(key: string, value: Value)

  /** No two members of an object share a key (a property exists at most once). */
  predicate DistinctKeys(ms: seq<Member>) {
    forall i, j :: 0 <= i < j < |ms| ==> ms[i].key != ms[j].key
  }

  /** The values that a JavaScript object graph can be: every object has distinct keys. */
  predicate WellFormed(v: Value) {
    match v
    case JArray(items) => forall i :: 0 <= i < |items| ==> WellFormed(items[i])
    case JObject(ms) => DistinctKeys(ms) && forall i :: 0 <= i < |ms| ==> WellFormed(ms[i].value)
    case _ => true
  }

  predicate WellFormedItems(items: seq<Value>) {
    forall i :: 0 <= i < |items| ==> WellFormed(items[i])
  }

  predicate WellFormedMembers(ms: seq<Member>) {
    DistinctKeys(ms) && forall i :: 0 <= i < |ms| ==> WellFormed(ms[i].value)
  }

  // ---------------------------------------------------------------------------
  // Property access on objects
  // ---------------------------------------------------------------------------

  /** Position of the member named `key`, or -1 when the object has no such property. */
  function KeyIndex(ms: seq<Member>, key: string): (k: int)
    ensures -1 <= k < |ms|
    ensures k >= 0 ==> ms[k].key == key && forall j :: 0 <= j < k ==> ms[j].key != key
    ensures k == -1 ==> forall j :: 0 <= j < |ms| ==> ms[j].key != key
  {
    if ms == [] then -1
    else if ms[0].key == key then 0
    else
      var k := KeyIndex(ms[1..], key);
      if k == -1 then -1 else k + 1
  }

  /** `obj[key]` on an object's members; `None` stands for `undefined`. */
  function Get(ms: seq<Member>, key: string): (r: Option<Value>)
    ensures r.None? <==> forall j :: 0 <= j < |ms| ==> ms[j].key != key
    ensures r.Some? ==> Member(key, r.value) in ms
  {
    var k := KeyIndex(ms, key);
    if k == -1 then None else Some(ms[k].value)
  }

  /** `v.key` on a non-null value: a property of an object, `undefined` on anything else. */
  function Prop(v: Value, key: string): (r: Option<Value>)
    ensures !v.JObject? ==> r.None?
    ensures v.JObject? ==> r == Get(v.members, key)
  {
    if v.JObject? then Get(v.members, key) else None
  }

  /** `KeyIndex` is determined by the first-occurrence property. */
  lemma KeyIndexIs(ms: seq<Member>, key: string, k: int)
    requires -1 <= k < |ms|
    requires k >= 0 ==> ms[k].key == key && forall j :: 0 <= j < k ==> ms[j].key != key
    requires k == -1 ==> forall j :: 0 <= j < |ms| ==> ms[j].key != key
    ensures KeyIndex(ms, key) == k
  {
  }

  /** Rewriting members without changing any key keeps every key where it was. */
  lemma SameKeysSameIndex(ms: seq<Member>, ns: seq<Member>, key: string)
    requires |ms| == |ns| && forall i :: 0 <= i < |ms| ==> ms[i].key == ns[i].key
    ensures KeyIndex(ns, key) == KeyIndex(ms, key)
  {
    KeyIndexIs(ns, key, KeyIndex(ms, key));
  }

  /**
   * `obj[key] = value` for a defined value: an existing property keeps its place,
   * a new one goes to the end.
   */
  function Put(ms: seq<Member>, key: string, value: Value): (r: seq<Member>)
    ensures Get(r, key) == Some(value)
    ensures forall k :: k != key ==> Get(r, k) == Get(ms, k)
    ensures KeyIndex(ms, key) == -1 ==> r == ms + [Member(key, value)]
    ensures KeyIndex(ms, key) != -1 ==>
      |r| == |ms| && forall i :: 0 <= i < |ms| ==> r[i].key == ms[i].key
    ensures WellFormedMembers(ms) && WellFormed(value) ==> WellFormedMembers(r)
  {
    var k := KeyIndex(ms, key);
    if k == -1 then
      var r := ms + [Member(key, value)];
      KeyIndexIs(r, key, |ms|);
      forall k' | k' != key ensures Get(r, k') == Get(ms, k') {
        var i := KeyIndex(ms, k');
        if i == -1 { KeyIndexIs(r, k', -1); } else { KeyIndexIs(r, k', i); }
      }
      r
    else
      var r := ms[k := Member(key, value)];
      forall k' ensures KeyIndex(r, k') == KeyIndex(ms, k') {
        SameKeysSameIndex(ms, r, k');
      }
      r
  }

  /** The members without the property `key`, the others in their order. */
  function Remove(ms: seq<Member>, key: string): (r: seq<Member>)
    ensures |r| <= |ms|
  {
    if ms == [] then []
    else if ms[0].key == key then Remove(ms[1..], key)
    else [ms[0]] + Remove(ms[1..], key)
  }

  /** After removing `key` it is undefined, and every other property reads as before. */
  lemma {:induction false} RemoveGet(ms: seq<Member>, key: string, k: string)
    ensures Get(Remove(ms, key), k) == if k == key then None else Get(ms, k)
  {
    if ms != [] {
      RemoveGet(ms[1..], key, k);
      GetCons(ms, k);
      var rest := Remove(ms[1..], key);
      if ms[0].key != key {
        assert ([ms[0]] + rest)[1..] == rest;
        GetCons([ms[0]] + rest, k);
      }
    }
  }

  /** Removing a property keeps only members of the original object. */
  lemma {:induction false} RemoveSubset(ms: seq<Member>, key: string)
    ensures forall i :: 0 <= i < |Remove(ms, key)| ==> Remove(ms, key)[i] in ms
  {
    if ms != [] {
      RemoveSubset(ms[1..], key);
      var rest := Remove(ms[1..], key);
      forall i | 0 <= i < |rest| ensures rest[i] in ms {
        assert rest[i] in ms[1..];
      }
    }
  }

  /** Removing a property from a well-formed object leaves a well-formed object. */
  lemma {:induction false} RemoveWellFormed(ms: seq<Member>, key: string)
    ensures WellFormedMembers(ms) ==> WellFormedMembers(Remove(ms, key))
  {
    if ms != [] && WellFormedMembers(ms) {
      assert WellFormedMembers(ms[1..]);
      RemoveWellFormed(ms[1..], key);
      var rest := Remove(ms[1..], key);
      if ms[0].key != key {
        var r := [ms[0]] + rest;
        RemoveGet(ms[1..], key, ms[0].key);
        assert Get(ms[1..], ms[0].key) == None;
        assert forall j :: 0 <= j < |rest| ==> rest[j].key != ms[0].key;
        assert forall i :: 1 <= i < |r| ==> r[i] == rest[i - 1];
      }
    }
  }

  /** Removing a property the object does not have changes nothing. */
  lemma {:induction false} RemoveAbsent(ms: seq<Member>, key: string)
    requires KeyIndex(ms, key) == -1
    ensures Remove(ms, key) == ms
  {
    if ms != [] {
      RemoveAbsent(ms[1..], key);
    }
  }

  /** Looking a key up in a non-empty member list: the head, or the tail. */
  lemma GetCons(ms: seq<Member>, key: string)
    requires ms != []
    ensures Get(ms, key) == if ms[0].key == key then Some(ms[0].value) else Get(ms[1..], key)
  {
  }

  /**
   * An assignment `obj[key] = value` whose value may be `undefined`, as seen after a
   * trip through JSON: a property holding `undefined` is not written by `JSON.stringify`.
   */
  function Assign(ms: seq<Member>, key: string, value: Option<Value>): (r: seq<Member>)
    ensures Get(r, key) == value
    ensures forall k :: k != key ==> Get(r, k) == Get(ms, k)
    ensures WellFormedMembers(ms) && (value.Some? ==> WellFormed(value.value)) ==> WellFormedMembers(r)
  {
    match value
    case None =>
      forall k ensures Get(Remove(ms, key), k) == if k == key then None else Get(ms, k) {
        RemoveGet(ms, key, k);
      }
      RemoveWellFormed(ms, key);
      Remove(ms, key)
    case Some(x) => Put(ms, key, x)
  }

  /** A property of a well-formed object is well-formed. */
  lemma PropWellFormed(v: Value, key: string)
    requires WellFormed(v)
    ensures Prop(v, key).Some? ==> WellFormed(Prop(v, key).value)
  {
    if Prop(v, key).Some? {
      var m := Member(key, Prop(v, key).value);
      var i :| 0 <= i < |v.members| && v.members[i] == m;
    }
  }

  /** One property of an object literal, `key: value`, where the value may be `undefined`. */
  datatype Field = Field(key: string, value: Option<Value>)

  predicate DistinctFieldKeys(fs: seq<Field>) {
    forall i, j :: 0 <= i < j < |fs| ==> fs[i].key != fs[j].key
  }

  predicate WellFormedFields(fs: seq<Field>) {
    forall i :: 0 <= i < |fs| ==> fs[i].value.Some? ==> WellFormed(fs[i].value.value)
  }

  /**
   * The object literal `{...base, k1: v1, k2: v2, ...}` as it comes out of `JSON.stringify`:
   * the properties of `base`, then each field assigned in turn.
   */
  function With(base: seq<Member>, fs: seq<Field>): (r: seq<Member>)
    ensures WellFormedMembers(base) && WellFormedFields(fs) ==> WellFormedMembers(r)
    decreases |fs|
  {
    if fs == [] then base
    else
      assert WellFormedFields(fs) ==> WellFormedFields(fs[1..]) by {
        assert forall i :: 1 <= i < |fs| ==> fs[i] == fs[1..][i - 1];
      }
      With(Assign(base, fs[0].key, fs[0].value), fs[1..])
  }

  /** A key given in the literal has the value given there; any other key keeps its value in `base`. */
  lemma {:induction false} WithGet(base: seq<Member>, fs: seq<Field>, key: string)
    requires DistinctFieldKeys(fs)
    ensures (forall i :: 0 <= i < |fs| ==> fs[i].key != key) ==> Get(With(base, fs), key) == Get(base, key)
    ensures forall i :: 0 <= i < |fs| && fs[i].key == key ==> Get(With(base, fs), key) == fs[i].value
    decreases |fs|
  {
    if fs != [] {
      var next := Assign(base, fs[0].key, fs[0].value);
      var tail := fs[1..];
      assert forall i :: 1 <= i < |fs| ==> fs[i] == tail[i - 1];
      WithGet(next, tail, key);
      if fs[0].key == key {
        assert forall i :: 0 <= i < |tail| ==> tail[i].key != key;
      }
    }
  }

  /** The value of the `i`th field is what its key holds afterwards. */
  lemma WithGetAt(base: seq<Member>, fs: seq<Field>, i: nat)
    requires DistinctFieldKeys(fs) && i < |fs|
    ensures Get(With(base, fs), fs[i].key) == fs[i].value
  {
    WithGet(base, fs, fs[i].key);
  }

  /** JavaScript truthiness of a defined value. */
  predicate Truthy(v: Value) {
    match v
    case JNull => false
    case JBool(b) => b
    case JNumber(n) => n != 0
    case JString(s) => s != ""
    case _ => true
  }

  /** `x || fallback` where `x` may be `undefined`. */
  function OrElse(x: Option<Value>, fallback: Value): (r: Value)
    ensures x.Some? && Truthy(x.value) ==> r == x.value
    ensures !(x.Some? && Truthy(x.value)) ==> r == fallback
  {
    if x.Some? && Truthy(x.value) then x.value else fallback
  }

  // ---------------------------------------------------------------------------
  // JSON.stringify
  // ---------------------------------------------------------------------------

  /** Decimal digit character for `d`. */
  function DigitChar(d: int): (c: char)
    requires 0 <= d < 10
    ensures '0' <= c <= '9' && c as int - '0' as int == d
  {
    ('0' as int + d) as char
  }

  /** Lower-case hexadecimal digit character for `d`, as `JSON.stringify` writes it. */
  function HexChar(d: int): (c: char)
    requires 0 <= d < 16
  {
    if d < 10 then DigitChar(d) else ('a' as int + d - 10) as char
  }

  /** Decimal text of a natural number, without leading zeros. */
  function NatText(n: nat): (t: string)
    ensures |t| > 0 && forall i :: 0 <= i < |t| ==> '0' <= t[i] <= '9'
    ensures n > 0 ==> t[0] != '0'
    ensures n == 0 ==> t == "0"
  {
    if n < 10 then [DigitChar(n)] else NatText(n / 10) + [DigitChar(n % 10)]
  }

  /** Number-to-text conversion of an integer. */
  function IntText(n: int): string {
    if n < 0 then "-" + NatText(-n) else NatText(n)
  }

  /** How `JSON.stringify` writes one character inside a string literal. */
  function EscapeChar(c: char): string {
    var n := c as int;
    if c == '"' then "\\\""
    else if c == '\\' then "\\\\"
    else if n == 0x08 then "\\b"
    else if n == 0x09 then "\\t"
    else if n == 0x0A then "\\n"
    else if n == 0x0C then "\\f"
    else if n == 0x0D then "\\r"
    else if n < 0x20 then "\\u00" + [HexChar(n / 16), HexChar(n % 16)]
    else [c]
  }

  function Escape(s: string): string {
    if s == [] then "" else EscapeChar(s[0]) + Escape(s[1..])
  }

  /** A JSON string literal. */
  function Quote(s: string): string {
    "\"" + Escape(s) + "\""
  }

  /** `JSON.stringify(v)`: compact JSON text, no white space. */
  function Stringify(v: Value): string {
    match v
    case JNull => "null"
    case JBool(b) => if b then "true" else "false"
    case JNumber(n) => IntText(n)
    case JString(s) => Quote(s)
    case JArray(items) => "[" + StringifyItems(items) + "]"
    case JObject(ms) => "{" + StringifyMembers(ms) + "}"
  }

  /** Array elements separated by commas. */
  function StringifyItems(items: seq<Value>): string {
    if items == [] then ""
    else if |items| == 1 then Stringify(items[0])
    else Stringify(items[0]) + "," + StringifyItems(items[1..])
  }

  /** Object members `"key":value` separated by commas. */
  function StringifyMembers(ms: seq<Member>): string {
    if ms == [] then ""
    else if |ms| == 1 then StringifyMember(ms[0])
    else StringifyMember(ms[0]) + "," + StringifyMembers(ms[1..])
  }

  function StringifyMember(m: Member): string {
    Quote(m.key) + ":" + Stringify(m.value)
  }
}
