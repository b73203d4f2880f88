/**
 * The quiz export/import text: `btoa(unescape(encodeURIComponent(JSON.stringify(v))))`
 * on the way out, and on the way in raw JSON first, then Base64 of UTF-8 of JSON.
 */
module Codec {
  import opened Basics
  import opened Json
  import JsonParse
  import Utf8
  import Base64
  import JsString

  /** The export text of a value: Base64 of the UTF-8 bytes of its JSON text. */
  function ExportText(v: Value): (r: string)
    ensures r != []
  {
    JsonParse.StringifyBounds(v);
    Base64.Encode(Utf8.Encode(Stringify(v)))
  }

  /** Why `parseImportString` throws. */
  datatype ImportError =
    | NoInput       // the input is empty
    | Unparseable   // neither JSON nor Base64 of UTF-8 of JSON
    | UnknownShape  // parsed, but none of the accepted shapes
    | NullRecord    // a record to import is `null`, so reading its fields throws a TypeError

  /** `parseImportString`: the trimmed text as JSON, else as Base64 of UTF-8 of JSON. */
  function ParseImportString(str: string): (r: Result<Value, ImportError>)
    ensures r.Ok? ==> WellFormed(r.value)
    ensures r == Err(NoInput) <==> str == []
    ensures r.Err? ==> r.error == NoInput || r.error == Unparseable
  {
    if str == [] then Err(NoInput)
    else
      var s := JsString.Trim(str);
      match JsonParse.Parse(s)
      case Some(v) => Ok(v)
      case None =>
        match Base64.Decode(s)
        case None => Err(Unparseable)
        case Some(bytes) =>
          match Utf8.Decode(bytes)
          case None => Err(Unparseable)
          case Some(text) =>
            match JsonParse.Parse(text)
            case None => Err(Unparseable)
            case Some(v) => Ok(v)
  }

  // ---------------------------------------------------------------------------
  // Both accepted kinds of input give back the value they were made from
  // ---------------------------------------------------------------------------

  /** Raw JSON text is read as it stands. */
  lemma RawJsonImport(v: Value)
    requires WellFormed(v)
    ensures ParseImportString(Stringify(v)) == Ok(v)
  {
    var t := Stringify(v);
    JsonParse.StringifyBounds(v);
    JsString.TrimUntouched(t);
    JsonParse.RoundTrip(v);
    JsonImport(t, v);
  }

  /** Text whose trimmed form parses as JSON is read as that value. */
  lemma JsonImport(str: string, v: Value)
    requires str != [] && JsonParse.Parse(JsString.Trim(str)) == Some(v)
    ensures ParseImportString(str) == Ok(v)
  {
  }

  /** Text that starts with a character no JSON value starts with is not JSON. */
  lemma NotJson(s: string)
    requires s != [] && !JsonParse.IsWs(s[0]) && !JsonParse.StartsValue(s[0])
    ensures JsonParse.Parse(s) == None
  {
  }

  /** No character of the alphabet, nor `=`, is white space to `trim`. */
  lemma Base64NotTrimmable(t: string)
    requires forall i :: 0 <= i < |t| ==> Base64.IsBase64Char(t[i])
    ensures JsString.Trim(t) == t
  {
    if t != [] {
      assert Base64.IsBase64Char(t[0]) && Base64.IsBase64Char(t[|t| - 1]);
      JsString.TrimUntouched(t);
    }
  }

  /**
   * The first symbol of an export text. A JSON text starts with an ASCII
   * character, so its first symbol encodes that character's top six bits.
   */
  lemma ExportFirstSymbol(v: Value)
    ensures ExportText(v)[0] == Base64.Symbol((Stringify(v)[0] as int) / 4)
  {
    var t := Stringify(v);
    JsonParse.StringifyBounds(v);
    var bytes := Utf8.Encode(t);
    assert bytes == Utf8.EncodeChar(t[0]) + Utf8.Encode(t[1..]);
    assert (t[0] as int) < 0x80;
    assert bytes[0] == t[0] as int;
  }

  /**
   * The first symbol for a character a JSON value starts with is one of
   * b d Z I L M N O W e (for n t f " - 0-9 [ { in turn), and no JSON value starts with those.
   */
  lemma FirstSymbolNotJson(c: char)
    requires JsonParse.StartsValue(c)
    ensures !JsonParse.IsWs(Base64.Symbol((c as int) / 4))
    ensures !JsonParse.StartsValue(Base64.Symbol((c as int) / 4))
  {
  }

  /** No export text is itself JSON, so the raw attempt always fails on it. */
  lemma ExportNotJson(v: Value)
    ensures JsonParse.Parse(ExportText(v)) == None
  {
    JsonParse.StringifyBounds(v);
    ExportFirstSymbol(v);
    FirstSymbolNotJson(Stringify(v)[0]);
    NotJson(ExportText(v));
  }

  /** `parseImportString(exportQuizToString(v))` is `v`. */
  lemma ExportImport(v: Value)
    requires WellFormed(v)
    ensures ParseImportString(ExportText(v)) == Ok(v)
  {
    var t := ExportText(v);
    var bytes := Utf8.Encode(Stringify(v));
    Base64.EncodeAlphabet(bytes);
    Base64NotTrimmable(t);
    ExportNotJson(v);
    Base64.DecodeEncode(bytes);
    Utf8.DecodeEncode(Stringify(v));
    JsonParse.RoundTrip(v);
  }
}
