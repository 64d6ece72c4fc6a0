/**
 * The `file_metadata` field of a task record is stored as the text `json.dumps` makes of
 * the metadata dictionary and read back with `json.loads`
 * (backend/shared/redis_client.py:104-105, 139-143). This module gives that text form:
 * the writer's exact output (default separators, `ensure_ascii` escaping) and a reader
 * for it, and proves that reading what was written gives the dictionary back.
 */
module MetadataCodec {
  import opened Wrappers
  import opened Text

  /**
   * The dictionary `get_file_metadata` returns: `{}` or its four keys
   * (backend/file_service/storage.py:82-106).
   */
  datatype FileMetadata =
    | NoMetadata
    | Metadata(fileSize: nat, fileSizeFormatted: string, createdAt: string, filename: string)

  // ---------------------------------------------------------------- hex digits

  function HexDigit(d: nat): (c: char)
    requires d < 16
    ensures c < '\U{80}'
  {
    if d < 10 then (d + '0' as int) as char else (d - 10 + 'a' as int) as char
  }

  /** A hex digit's value; `json.loads` accepts both cases. */
  function HexValue(c: char): Option<nat> {
    if '0' <= c <= '9' then Some(c as int - '0' as int)
    else if 'a' <= c <= 'f' then Some(c as int - 'a' as int + 10)
    else if 'A' <= c <= 'F' then Some(c as int - 'A' as int + 10)
    else None
  }

  /** `'{0:04x}'.format(n)`. */
  function Hex4(n: nat): (s: string)
    requires n < 0x10000
    ensures |s| == 4 && IsAscii(s)
  {
    var n1 := n / 16;
    var n2 := n1 / 16;
    [HexDigit(n2 / 16), HexDigit(n2 % 16), HexDigit(n1 % 16), HexDigit(n % 16)]
  }

  function ParseHex4(s: string): (r: Option<nat>)
    requires |s| == 4
    ensures r.Some? ==> r.value < 0x10000
  {
    match (HexValue(s[0]), HexValue(s[1]), HexValue(s[2]), HexValue(s[3]))
    case (Some(a), Some(b), Some(c), Some(d)) =>
      if a < 16 && b < 16 && c < 16 && d < 16 then Some(((a * 16 + b) * 16 + c) * 16 + d) else None
    case _ => None
  }

  lemma HexDigitValue(d: nat)
    requires d < 16
    ensures HexValue(HexDigit(d)) == Some(d)
  {
  }

  lemma Hex4RoundTrip(n: nat)
    requires n < 0x10000
    ensures ParseHex4(Hex4(n)) == Some(n)
  {
    var n1 := n / 16;
    var n2 := n1 / 16;
    HexDigitValue(n2 / 16);
    HexDigitValue(n2 % 16);
    HexDigitValue(n1 % 16);
    HexDigitValue(n % 16);
    assert n2 == (n2 / 16) * 16 + n2 % 16;
    assert n1 == n2 * 16 + n1 % 16;
    assert n == n1 * 16 + n % 16;
  }

  // ---------------------------------------------------------------- strings

  /**
   * How `json.dumps` writes one character of a string: the two-character escapes, every
   * other character outside ' '..'~' as `\uXXXX`, above U+FFFF as a surrogate pair.
   */
  function EscapeChar(c: char): (e: string)
    ensures |e| > 0 && e[0] != '"'
  {
    if c == '"' then "\\\""
    else if c == '\\' then "\\\\"
    else if c == '\n' then "\\n"
    else if c == '\r' then "\\r"
    else if c == '\t' then "\\t"
    else if c == '\U{8}' then "\\b"
    else if c == '\U{c}' then "\\f"
    else if ' ' <= c <= '~' then [c]
    else if c as int < 0x10000 then "\\u" + Hex4(c as int)
    else
      var v := c as int - 0x10000;
      "\\u" + Hex4(0xD800 + v / 0x400) + "\\u" + Hex4(0xDC00 + v % 0x400)
  }

  function Escape(s: string): string {
    if |s| == 0 then "" else EscapeChar(s[0]) + Escape(s[1..])
  }

  /** The escaped text is printable ASCII, as `ensure_ascii` promises. */
  lemma {:induction false} EscapeIsAscii(s: string)
    ensures IsAscii(Escape(s))
  {
    if |s| > 0 {
      EscapeCharIsAscii(s[0]);
      EscapeIsAscii(s[1..]);
      AsciiAppend(EscapeChar(s[0]), Escape(s[1..]));
    }
  }

  lemma EscapeCharIsAscii(c: char)
    ensures IsAscii(EscapeChar(c))
  {
    var e := EscapeChar(c);
    if !(' ' <= c <= '~') && c as int < 0x10000 {
      AsciiAppend("\\u", Hex4(c as int));
    } else if !(' ' <= c <= '~') {
      var v := c as int - 0x10000;
      var a, b := Hex4(0xD800 + v / 0x400), Hex4(0xDC00 + v % 0x400);
      AsciiAppend("\\u", a);
      AsciiAppend("\\u" + a, "\\u");
      AsciiAppend("\\u" + a + "\\u", b);
    }
  }

  /** A code point that is a Unicode scalar value, hence a Dafny `char`. */
  predicate IsScalar(n: int) {
    0 <= n < 0xD800 || 0xE000 <= n < 0x110000
  }

  /**
   * One escape sequence after its backslash, as `json.loads` reads it: the character and
   * the text after the sequence. A lone surrogate has no `char`, so it is refused.
   */
  function DecodeEscape(s: string): (r: Option<(char, string)>)
    ensures r.Some? ==> |r.value.1| < |s|
  {
    if |s| == 0 then None
    else if s[0] == '"' || s[0] == '\\' || s[0] == '/' then Some((s[0], s[1..]))
    else if s[0] == 'b' then Some(('\U{8}', s[1..]))
    else if s[0] == 'f' then Some(('\U{c}', s[1..]))
    else if s[0] == 'n' then Some(('\n', s[1..]))
    else if s[0] == 'r' then Some(('\r', s[1..]))
    else if s[0] == 't' then Some(('\t', s[1..]))
    else if s[0] == 'u' && |s| >= 5 then
      match ParseHex4(s[1..5])
      case None => None
      case Some(hi) =>
        if 0xD800 <= hi < 0xDC00 then
          if |s| >= 11 && s[5..7] == "\\u" then
            match ParseHex4(s[7..11])
            case None => None
            case Some(lo) =>
              if 0xDC00 <= lo < 0xE000 then
                var code := 0x10000 + (hi - 0xD800) * 0x400 + (lo - 0xDC00);
                Some((code as char, s[11..]))
              else None
          else None
        else if IsScalar(hi) then Some((hi as char, s[5..]))
        else None
    else None
  }

  /** One character of a string body: a literal character or an escape sequence. */
  function DecodeChar(s: string): (r: Option<(char, string)>)
    ensures r.Some? ==> |r.value.1| < |s|
  {
    if |s| == 0 || s[0] == '"' || s[0] < ' ' then None
    else if s[0] == '\\' then DecodeEscape(s[1..])
    else Some((s[0], s[1..]))
  }

  /**
   * A string body after its opening quote: the characters up to the closing quote and
   * the text after it.
   */
  function DecodeString(s: string): (r: Option<(string, string)>)
    decreases |s|
  {
    if |s| > 0 && s[0] == '"' then Some(("", s[1..]))
    else
      match DecodeChar(s)
      case None => None
      case Some((c, rest)) =>
        match DecodeString(rest)
        case None => None
        case Some((t, after)) => Some(([c] + t, after))
  }

  /** The escapes `\"`, `\\`, `\n`, `\r`, `\t`, `\b` and `\f` read back as their character. */
  lemma DecodeShortEscape(c: char, tail: string)
    requires c == '"' || c == '\\' || c == '\n' || c == '\r' || c == '\t' || c == '\U{8}' || c == '\U{c}'
    ensures DecodeChar(EscapeChar(c) + tail) == Some((c, tail))
  {
    var s := EscapeChar(c) + tail;
    assert |EscapeChar(c)| == 2 && EscapeChar(c)[0] == '\\';
    assert s[0] == '\\';
    assert s[1..][1..] == tail;
  }

  /** A printable ASCII character other than a quote or backslash is written as itself. */
  lemma DecodeLiteral(c: char, tail: string)
    requires ' ' <= c <= '~' && c != '"' && c != '\\'
    ensures DecodeChar(EscapeChar(c) + tail) == Some((c, tail))
  {
    assert EscapeChar(c) == [c];
    var s := [c] + tail;
    assert s[0] == c && s[1..] == tail;
  }

  /** A `\uXXXX` escape of a character of the basic multilingual plane reads back. */
  lemma DecodeBmpEscape(c: char, tail: string)
    requires !(' ' <= c <= '~') && c as int < 0x10000
    requires c != '\n' && c != '\r' && c != '\t' && c != '\U{8}' && c != '\U{c}'
    ensures DecodeChar(EscapeChar(c) + tail) == Some((c, tail))
  {
    var h := Hex4(c as int);
    assert EscapeChar(c) == "\\u" + h;
    var s := EscapeChar(c) + tail;
    var t := s[1..];
    assert s[0] == '\\';
    assert t == ['u'] + h + tail;
    Hex4RoundTrip(c as int);
    assert t[1..5] == h;
    assert t[5..] == tail;
  }

  /** The code point a high and a low surrogate stand for. */
  function Combine(hi: int, lo: int): int {
    0x10000 + (hi - 0xD800) * 0x400 + (lo - 0xDC00)
  }

  lemma DecodeSurrogates(hi: nat, lo: nat, tail: string)
    requires 0xD800 <= hi < 0xDC00 && 0xDC00 <= lo < 0xE000
    ensures IsScalar(Combine(hi, lo))
    ensures DecodeEscape(['u'] + Hex4(hi) + "\\u" + Hex4(lo) + tail) == Some((Combine(hi, lo) as char, tail))
  {
    var t := ['u'] + Hex4(hi) + "\\u" + Hex4(lo) + tail;
    Hex4RoundTrip(hi);
    Hex4RoundTrip(lo);
    assert t[1..5] == Hex4(hi);
    assert t[5..7] == "\\u";
    assert t[7..11] == Hex4(lo);
    assert t[11..] == tail;
  }

  /** A surrogate pair `\uD8xx\uDCxx` of a character above U+FFFF reads back. */
  lemma DecodePairEscape(c: char, tail: string)
    requires c as int >= 0x10000
    ensures DecodeChar(EscapeChar(c) + tail) == Some((c, tail))
  {
    var v := c as int - 0x10000;
    var hi, lo := 0xD800 + v / 0x400, 0xDC00 + v % 0x400;
    SurrogateHalves(v, hi, lo);
    DecodePairText(EscapeChar(c) + tail, hi, lo, tail);
  }

  /** The two halves of the surrogate pair for code point `0x10000 + v`. */
  lemma SurrogateHalves(v: int, hi: int, lo: int)
    requires 0 <= v < 0x100000 && hi == 0xD800 + v / 0x400 && lo == 0xDC00 + v % 0x400
    ensures 0xD800 <= hi < 0xDC00 && 0xDC00 <= lo < 0xE000
    ensures Combine(hi, lo) == 0x10000 + v
  {
  }

  lemma DecodePairText(s: string, hi: nat, lo: nat, tail: string)
    requires 0xD800 <= hi < 0xDC00 && 0xDC00 <= lo < 0xE000
    requires s == "\\u" + Hex4(hi) + "\\u" + Hex4(lo) + tail
    ensures DecodeChar(s) == Some((Combine(hi, lo) as char, tail))
  {
    var t := ['u'] + Hex4(hi) + "\\u" + Hex4(lo) + tail;
    assert s == ['\\'] + t;
    DecodeBackslash(t);
    DecodeSurrogates(hi, lo, tail);
  }

  lemma DecodeBackslash(u: string)
    ensures DecodeChar(['\\'] + u) == DecodeEscape(u)
  {
    assert (['\\'] + u)[1..] == u;
  }

  lemma DecodeEscapedChar(c: char, tail: string)
    ensures DecodeChar(EscapeChar(c) + tail) == Some((c, tail))
  {
    if c == '"' || c == '\\' || c == '\n' || c == '\r' || c == '\t' || c == '\U{8}' || c == '\U{c}' {
      DecodeShortEscape(c, tail);
    } else if ' ' <= c <= '~' {
      DecodeLiteral(c, tail);
    } else if c as int < 0x10000 {
      DecodeBmpEscape(c, tail);
    } else {
      DecodePairEscape(c, tail);
    }
  }

  /** Reading back an escaped string stops exactly at its closing quote. */
  lemma {:induction false} StringRoundTrip(s: string, rest: string)
    ensures DecodeString(Escape(s) + "\"" + rest) == Some((s, rest))
  {
    if |s| == 0 {
      assert Escape(s) + "\"" + rest == "\"" + rest;
    } else {
      var head, body := EscapeChar(s[0]), Escape(s[1..]);
      var tail := body + "\"" + rest;
      AppendAssoc(head, body, "\"");
      AppendAssoc(head, body + "\"", rest);
      StringRoundTrip(s[1..], rest);
      DecodeStringStep(s[0], tail, s[1..], rest);
      assert [s[0]] + s[1..] == s;
    }
  }

  /** One escaped character in front of an escaped string is read back in front of it. */
  lemma DecodeStringStep(c: char, tail: string, t: string, after: string)
    requires DecodeString(tail) == Some((t, after))
    ensures DecodeString(EscapeChar(c) + tail) == Some(([c] + t, after))
  {
    DecodeEscapedChar(c, tail);
    assert (EscapeChar(c) + tail)[0] == EscapeChar(c)[0];
  }

  // ---------------------------------------------------------------- numbers

  /** The longest run of decimal digits at the start of `s`, and what follows it. */
  function SplitDigits(s: string): (r: (string, string))
    ensures r.0 + r.1 == s && AllDigits(r.0)
    ensures |r.1| > 0 ==> !IsDigit(r.1[0])
  {
    if |s| > 0 && IsDigit(s[0]) then
      var (d, rest) := SplitDigits(s[1..]);
      ([s[0]] + d, rest)
    else ("", s)
  }

  lemma {:induction false} SplitDigitsOf(d: string, rest: string)
    requires AllDigits(d) && (|rest| > 0 ==> !IsDigit(rest[0]))
    ensures SplitDigits(d + rest) == (d, rest)
  {
    if |d| > 0 {
      var s := d + rest;
      assert s[0] == d[0] && IsDigit(d[0]);
      assert s[1..] == d[1..] + rest;
      SplitDigitsOf(d[1..], rest);
      assert SplitDigits(s) == ([s[0]] + SplitDigits(s[1..]).0, SplitDigits(s[1..]).1);
      assert [d[0]] + d[1..] == d;
    } else {
      assert d + rest == rest;
    }
  }

  /** `str(n)` has no leading zero, as a JSON number must not. */
  lemma {:induction false} NatToTextLeadingDigit(n: nat)
    ensures n > 0 ==> NatToText(n)[0] != '0'
    decreases n
  {
    if n >= 10 {
      NatToTextLeadingDigit(n / 10);
    }
  }

  /** A JSON non-negative integer literal: digits without a redundant leading zero. */
  function DecodeNat(s: string): Option<(nat, string)> {
    var (d, rest) := SplitDigits(s);
    if |d| == 0 || (|d| > 1 && d[0] == '0') then None else Some((DigitsValue(d), rest))
  }

  lemma NatRoundTrip(n: nat, rest: string)
    requires |rest| > 0 ==> !IsDigit(rest[0])
    ensures DecodeNat(NatToText(n) + rest) == Some((n, rest))
  {
    SplitDigitsOf(NatToText(n), rest);
    NatToTextLeadingDigit(n);
    DigitsValueOfNatToText(n);
  }

  // ---------------------------------------------------------------- documents

  const SizeKey := "{\"file_size\": "
  const FormattedKey := ", \"file_size_formatted\": \""
  const CreatedKey := ", \"created_at\": \""
  const NameKey := ", \"filename\": \""

  /** `json.dumps(metadata)` with the keys in the order `get_file_metadata` inserts them. */
  function EncodeMetadata(m: FileMetadata): string {
    match m
    case NoMetadata => "{}"
    case Metadata(size, formatted, created, name) =>
      SizeKey + (NatToText(size)
        + StringField(FormattedKey, formatted,
            StringField(CreatedKey, created,
              StringField(NameKey, name, "}"))))
  }

  /** `key`, then `value` as a JSON string, then the rest of the document. */
  function StringField(key: string, value: string, rest: string): string {
    key + Escape(value) + "\"" + rest
  }

  /** Removes an expected literal from the front of `s`. */
  function Expect(lit: string, s: string): Option<string> {
    if lit <= s then Some(s[|lit|..]) else None
  }

  /** A key written by `json.dumps` followed by its string value. */
  function DecodeStringField(key: string, s: string): Option<(string, string)> {
    match Expect(key, s)
    case None => None
    case Some(t) => DecodeString(t)
  }

  /**
   * `json.loads` on the documents `EncodeMetadata` writes; None where the text is not one
   * of them.
   */
  function DecodeMetadata(text: string): Option<FileMetadata> {
    if text == "{}" then Some(NoMetadata)
    else
      match Expect(SizeKey, text)
      case None => None
      case Some(t) => DecodeFields(t)
  }

  /** The document after `{"file_size": `. */
  function DecodeFields(t1: string): Option<FileMetadata> {
    match DecodeNat(t1)
    case None => None
    case Some((size, t2)) =>
      match DecodeStringField(FormattedKey, t2)
      case None => None
      case Some((formatted, t3)) =>
        match DecodeStringField(CreatedKey, t3)
        case None => None
        case Some((created, t4)) =>
          match DecodeStringField(NameKey, t4)
          case None => None
          case Some((name, t5)) =>
            if t5 == "}" then Some(Metadata(size, formatted, created, name)) else None
  }

  lemma ExpectPrefix(lit: string, rest: string)
    ensures Expect(lit, lit + rest) == Some(rest)
  {
    assert (lit + rest)[..|lit|] == lit;
    assert (lit + rest)[|lit|..] == rest;
  }

  lemma StringFieldRoundTrip(key: string, s: string, rest: string)
    ensures DecodeStringField(key, StringField(key, s, rest)) == Some((s, rest))
  {
    var t := Escape(s) + "\"" + rest;
    assert StringField(key, s, rest) == key + t;
    ExpectPrefix(key, t);
    StringRoundTrip(s, rest);
  }

  lemma FieldsRoundTrip(size: nat, formatted: string, created: string, name: string)
    ensures
      DecodeFields(NatToText(size)
        + StringField(FormattedKey, formatted, StringField(CreatedKey, created, StringField(NameKey, name, "}"))))
      == Some(Metadata(size, formatted, created, name))
  {
    var t4 := StringField(NameKey, name, "}");
    var t3 := StringField(CreatedKey, created, t4);
    var t2 := StringField(FormattedKey, formatted, t3);
    assert t2[0] == ',';
    NatRoundTrip(size, t2);
    StringFieldRoundTrip(FormattedKey, formatted, t3);
    StringFieldRoundTrip(CreatedKey, created, t4);
    StringFieldRoundTrip(NameKey, name, "}");
  }

  /** `json.loads(json.dumps(m)) == m` for every metadata dictionary. */
  lemma MetadataRoundTrip(m: FileMetadata)
    ensures DecodeMetadata(EncodeMetadata(m)) == Some(m)
  {
    match m
    case NoMetadata =>
    case Metadata(size, formatted, created, name) =>
      var t1 := NatToText(size)
        + StringField(FormattedKey, formatted, StringField(CreatedKey, created, StringField(NameKey, name, "}")));
      assert EncodeMetadata(m) == SizeKey + t1;
      assert EncodeMetadata(m) != "{}" by { assert EncodeMetadata(m)[1] != '}'; }
      ExpectPrefix(SizeKey, t1);
      FieldsRoundTrip(size, formatted, created, name);
  }

  /**
   * What `get_task` makes of the stored text: the decoded dictionary, or `{}` where
   * `json.loads` raises JSONDecodeError.
   */
  function ReadMetadata(text: string): (m: FileMetadata)
    ensures DecodeMetadata(text).None? ==> m == NoMetadata
  {
    DecodeMetadata(text).GetOr(NoMetadata)
  }

  lemma ReadWrittenMetadata(m: FileMetadata)
    ensures ReadMetadata(EncodeMetadata(m)) == m
  {
    MetadataRoundTrip(m);
  }

  /**
   * The characters a text `json.loads` accepts can start with: JSON whitespace and the first
   * characters of an object, array, string, number, `true`, `false`, `null`, `NaN` or `Infinity`.
   */
  predicate MayStartJson(c: char) {
    c in "{[\"-0123456789tfnNI \t\n\r"
  }

  /** Text on which `json.loads` raises because of its first character, the empty text included, reads as `{}`. */
  lemma UnparseableMetadataReadsEmpty(text: string)
    requires |text| == 0 || !MayStartJson(text[0])
    ensures ReadMetadata(text) == NoMetadata
  {
    assert !(SizeKey <= text) by {
      if |text| > 0 {
        assert SizeKey[0] == '{';
      }
    }
  }
}
