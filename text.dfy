/**
 * String operations of the Python standard library that the pipeline relies on:
 * substring search (`in`, `find`), `str.replace`, `str.strip`, `int()` and `float()`
 * on decimal text, `str(int)`, and the `os.path` helpers on '/'-separated paths.
 */
module Text {
  import opened Wrappers

  /** Concatenation is associative. */
  lemma AppendAssoc<T>(a: seq<T>, b: seq<T>, c: seq<T>)
    ensures a + (b + c) == (a + b) + c
  {
  }

  // ---------------------------------------------------------------- searching

  predicate OccursAt(s: string, sub: string, i: nat) {
    i + |sub| <= |s| && s[i..i + |sub|] == sub
  }

  /** `s.find(sub)`: the first index at which `sub` occurs, or None for -1. */
  function IndexOf(s: string, sub: string): (r: Option<nat>)
    ensures r.Some? ==> OccursAt(s, sub, r.value)
    ensures r.Some? ==> forall j: nat :: j < r.value ==> !OccursAt(s, sub, j)
    ensures r.None? ==> forall j: nat :: !OccursAt(s, sub, j)
    decreases |s|
  {
    if |s| < |sub| then None
    else if s[..|sub|] == sub then Some(0)
    else
      OccursShift(s, sub);
      match IndexOf(s[1..], sub)
      case None => None
      case Some(k) => Some(k + 1)
  }

  lemma OccursShift(s: string, sub: string)
    requires |s| > 0
    ensures forall j: nat :: j >= 1 ==> (OccursAt(s, sub, j) <==> OccursAt(s[1..], sub, j - 1))
  {
    forall j: nat | j >= 1
      ensures OccursAt(s, sub, j) <==> OccursAt(s[1..], sub, j - 1)
    {
      if j + |sub| <= |s| {
        var a, b := s[j..j + |sub|], s[1..][j - 1..j - 1 + |sub|];
        assert forall k :: 0 <= k < |sub| ==> a[k] == b[k];
        assert a == b;
      }
    }
  }

  /** A character that does not occur is not found. */
  lemma IndexOfAbsent(s: string, c: char)
    requires c !in s
    ensures IndexOf(s, [c]).None?
  {
    forall j: nat
      ensures !OccursAt(s, [c], j)
    {
      if j + 1 <= |s| {
        assert s[j..j + 1][0] == s[j];
      }
    }
  }

  /** Python's `sub in s`. */
  predicate Contains(s: string, sub: string) {
    IndexOf(s, sub).Some?
  }

  lemma ContainsWhenOccurs(s: string, sub: string, i: nat)
    requires OccursAt(s, sub, i)
    ensures Contains(s, sub)
  {
  }

  lemma ContainsPrefix(s: string, sub: string, rest: string)
    ensures Contains(sub + rest, sub)
  {
    assert OccursAt(sub + rest, sub, 0);
  }

  /** Python's `s.startswith(prefix)`. */
  predicate StartsWith(s: string, prefix: string) {
    |prefix| <= |s| && s[..|prefix|] == prefix
  }

  lemma StartsWithAppend(a: string, b: string, c: string)
    ensures StartsWith(a + b, a) && StartsWith(a + b + c, a)
  {
    assert (a + b)[..|a|] == a;
    assert (a + b + c)[..|a|] == a;
  }

  predicate EndsWith(s: string, suffix: string) {
    |suffix| <= |s| && s[|s| - |suffix|..] == suffix
  }

  /** `s.rfind(c)`: the last index of `c`, or None for -1. */
  function LastIndexOf(s: string, c: char): (r: Option<nat>)
    ensures r.Some? ==> r.value < |s| && s[r.value] == c
    ensures r.Some? ==> forall j :: r.value < j < |s| ==> s[j] != c
    ensures r.None? ==> c !in s
  {
    if |s| == 0 then None
    else if s[|s| - 1] == c then Some(|s| - 1)
    else LastIndexOf(s[..|s| - 1], c)
  }

  // ---------------------------------------------------------------- rewriting

  /** `s.replace(pat, rep)`: non-overlapping occurrences, left to right. */
  function Replace(s: string, pat: string, rep: string): string
    requires |pat| > 0
    decreases |s|
  {
    if |s| < |pat| then s
    else if s[..|pat|] == pat then rep + Replace(s[|pat|..], pat, rep)
    else [s[0]] + Replace(s[1..], pat, rep)
  }

  /** Replacing never introduces a character that is in neither the input nor the replacement. */
  lemma {:induction false} ReplaceKeepsOut(s: string, pat: string, rep: string, c: char)
    requires |pat| > 0 && c !in s && c !in rep
    ensures c !in Replace(s, pat, rep)
    decreases |s|
  {
    if |s| < |pat| {
    } else if s[..|pat|] == pat {
      ReplaceKeepsOut(s[|pat|..], pat, rep, c);
    } else {
      ReplaceKeepsOut(s[1..], pat, rep, c);
    }
  }

  /** Replacing a one-character pattern by text without it removes every occurrence. */
  lemma {:induction false} ReplaceRemovesChar(s: string, c: char, rep: string)
    requires c !in rep
    ensures c !in Replace(s, [c], rep)
    decreases |s|
  {
    if |s| < 1 {
    } else if s[..1] == [c] {
      ReplaceRemovesChar(s[1..], c, rep);
    } else {
      assert s[0] != c;
      ReplaceRemovesChar(s[1..], c, rep);
    }
  }

  predicate IsAscii(s: string) {
    forall i :: 0 <= i < |s| ==> s[i] < '\U{80}'
  }

  lemma AsciiAppend(a: string, b: string)
    requires IsAscii(a) && IsAscii(b)
    ensures IsAscii(a + b)
  {
    forall i | 0 <= i < |a + b|
      ensures (a + b)[i] < '\U{80}'
    {
      if i >= |a| {
        assert (a + b)[i] == b[i - |a|];
      }
    }
  }

  /** Replacing with ASCII text keeps ASCII text ASCII. */
  lemma {:induction false} ReplaceKeepsAscii(s: string, pat: string, rep: string)
    requires |pat| > 0 && IsAscii(s) && IsAscii(rep)
    ensures IsAscii(Replace(s, pat, rep))
    decreases |s|
  {
    if |s| < |pat| {
    } else if s[..|pat|] == pat {
      ReplaceKeepsAscii(s[|pat|..], pat, rep);
    } else {
      ReplaceKeepsAscii(s[1..], pat, rep);
    }
  }

  /** A replacement by non-empty text never empties a non-empty string. */
  lemma {:induction false} ReplaceKeepsNonEmpty(s: string, pat: string, rep: string)
    requires |pat| > 0 && |rep| > 0 && |s| > 0
    ensures |Replace(s, pat, rep)| > 0
  {
  }

  function LowerChar(c: char): char {
    if 'A' <= c <= 'Z' then (c as int + 32) as char else c
  }

  /** `s.lower()` on ASCII letters; every other character is kept. */
  function LowerAscii(s: string): (r: string)
    ensures |r| == |s| && forall i :: 0 <= i < |s| ==> r[i] == LowerChar(s[i])
  {
    if |s| == 0 then [] else [LowerChar(s[0])] + LowerAscii(s[1..])
  }

  /** The characters Python's `str.isspace()` accepts. */
  predicate IsSpace(c: char) {
    c == ' ' || '\t' <= c <= '\r' || '\U{1c}' <= c <= '\U{1f}' || c == '\U{85}' || c == '\U{a0}'
    || c == '\U{1680}' || '\U{2000}' <= c <= '\U{200a}' || c == '\U{2028}' || c == '\U{2029}'
    || c == '\U{202f}' || c == '\U{205f}' || c == '\U{3000}'
  }

  function StripLeft(s: string): (r: string)
    ensures |r| <= |s| && (|r| > 0 ==> !IsSpace(r[0]))
    ensures r == s[|s| - |r|..]
    ensures forall i :: 0 <= i < |s| - |r| ==> IsSpace(s[i])
  {
    if |s| > 0 && IsSpace(s[0]) then StripLeft(s[1..]) else s
  }

  function StripRight(s: string): (r: string)
    ensures |r| <= |s| && (|r| > 0 ==> !IsSpace(r[|r| - 1]))
    ensures r == s[..|r|]
    ensures forall i :: |r| <= i < |s| ==> IsSpace(s[i])
  {
    if |s| > 0 && IsSpace(s[|s| - 1]) then StripRight(s[..|s| - 1]) else s
  }

  /** How many whitespace characters `s.strip()` removes on the left. */
  function LeadingSpaces(s: string): (n: nat)
    ensures n <= |s|
  {
    |s| - |StripLeft(s)|
  }

  /** `s.strip()`: whitespace removed from both ends. */
  function Strip(s: string): (r: string)
    ensures |r| > 0 ==> !IsSpace(r[0]) && !IsSpace(r[|r| - 1])
  {
    StripRight(StripLeft(s))
  }

  /** `s.strip()` removes whitespace only: it is a slice of `s` with only whitespace around it. */
  lemma StripParts(s: string)
    ensures var a, r := LeadingSpaces(s), Strip(s);
      a + |r| <= |s| && r == s[a..a + |r|]
      && (forall i :: 0 <= i < a ==> IsSpace(s[i]))
      && (forall i :: a + |r| <= i < |s| ==> IsSpace(s[i]))
  {
  }

  /** `s.strip(c)`: every leading and trailing `c` removed. */
  function StripChar(s: string, c: char): (r: string)
    ensures |r| > 0 ==> r[0] != c && r[|r| - 1] != c
    ensures |r| <= |s|
    decreases |s|
  {
    if |s| > 0 && s[0] == c then StripChar(s[1..], c)
    else if |s| > 0 && s[|s| - 1] == c then StripChar(s[..|s| - 1], c)
    else s
  }

  // ---------------------------------------------------------------- splitting

  /** The first index of `c` in `s`. */
  function CharIndex(s: string, c: char): (k: nat)
    requires c in s
    ensures k < |s| && s[k] == c && c !in s[..k]
  {
    if s[0] == c then 0
    else
      var k := 1 + CharIndex(s[1..], c);
      assert s[..k] == [s[0]] + s[1..][..k - 1];
      k
  }

  lemma CharIndexIs(s: string, c: char, k: nat)
    requires k < |s| && s[k] == c && c !in s[..k]
    ensures CharIndex(s, c) == k
  {
  }

  /** `s.split(c)` for a one-character separator: the pieces between separators, at least one. */
  function Split(s: string, c: char): (parts: seq<string>)
    ensures |parts| >= 1
    ensures forall i :: 0 <= i < |parts| ==> c !in parts[i]
    decreases |s|
  {
    if c !in s then [s]
    else
      var k := CharIndex(s, c);
      [s[..k]] + Split(s[k + 1..], c)
  }

  /** `c.join(parts)`. */
  function JoinWith(parts: seq<string>, c: char): string
    requires |parts| >= 1
  {
    if |parts| == 1 then parts[0] else parts[0] + [c] + JoinWith(parts[1..], c)
  }

  /** A split at the first separator: the piece before it, then the split of the rest. */
  lemma SplitAt(head: string, tail: string, c: char)
    requires c !in head
    ensures Split(head + [c] + tail, c) == [head] + Split(tail, c)
  {
    var s := head + [c] + tail;
    assert s[|head|] == c;
    assert s[..|head|] == head;
    CharIndexIs(s, c, |head|);
    assert s[|head| + 1..] == tail;
  }

  /** Joining a piece in front of joined pieces puts one separator between them. */
  lemma JoinCons(head: string, rest: seq<string>, c: char, t: string)
    requires |rest| >= 1 && JoinWith(rest, c) == t
    ensures JoinWith([head] + rest, c) == head + [c] + t
  {
    assert ([head] + rest)[1..] == rest;
  }

  /** Joining the pieces of a split gives the text back. */
  lemma {:induction false} JoinSplit(s: string, c: char)
    ensures JoinWith(Split(s, c), c) == s
    decreases |s|
  {
    if c in s {
      var k := CharIndex(s, c);
      var head, tail := s[..k], s[k + 1..];
      assert s == head + [c] + tail;
      SplitAt(head, tail, c);
      JoinSplit(tail, c);
      JoinCons(head, Split(tail, c), c, tail);
    }
  }

  /** Splitting pieces joined by a separator none of them holds gives the pieces back. */
  lemma {:induction false} SplitJoin(parts: seq<string>, c: char)
    requires |parts| >= 1 && forall i :: 0 <= i < |parts| ==> c !in parts[i]
    ensures Split(JoinWith(parts, c), c) == parts
    decreases |parts|
  {
    if |parts| > 1 {
      var rest := parts[1..];
      JoinCons(parts[0], rest, c, JoinWith(rest, c));
      assert parts == [parts[0]] + rest;
      SplitAt(parts[0], JoinWith(rest, c), c);
      SplitJoin(rest, c);
    }
  }

  /** The first index of a whitespace character, or the length when there is none. */
  function SpaceIndex(s: string): (k: nat)
    ensures k <= |s| && (k < |s| ==> IsSpace(s[k]))
    ensures forall j :: 0 <= j < k ==> !IsSpace(s[j])
  {
    if |s| == 0 || IsSpace(s[0]) then 0 else 1 + SpaceIndex(s[1..])
  }

  /** `s.split()[0]`: the first run of non-whitespace characters; None where Python raises IndexError. */
  function FirstToken(s: string): (r: Option<string>)
    ensures r.Some? ==> |r.value| > 0 && forall j :: 0 <= j < |r.value| ==> !IsSpace(r.value[j])
  {
    var t := StripLeft(s);
    if |t| == 0 then None else Some(t[..SpaceIndex(t)])
  }

  /** A token followed by whitespace, or by nothing, is the first token. */
  lemma FirstTokenOf(tok: string, rest: string)
    requires |tok| > 0 && forall j :: 0 <= j < |tok| ==> !IsSpace(tok[j])
    requires |rest| > 0 ==> IsSpace(rest[0])
    ensures FirstToken(tok + rest) == Some(tok)
  {
    var s := tok + rest;
    assert StripLeft(s) == s;
    var k := SpaceIndex(s);
    assert forall j :: 0 <= j < |tok| ==> s[j] == tok[j];
    if |rest| > 0 {
      assert IsSpace(s[|tok|]);
    }
    assert k == |tok|;
    assert s[..|tok|] == tok;
  }

  // ---------------------------------------------------------------- numbers

  predicate IsDigit(c: char) {
    '0' <= c <= '9'
  }

  predicate AllDigits(s: string) {
    forall i :: 0 <= i < |s| ==> IsDigit(s[i])
  }

  function DigitChar(d: nat): (c: char)
    requires d < 10
    ensures IsDigit(c) && c as int - '0' as int == d
  {
    (d + '0' as int) as char
  }

  /** `str(n)` for a natural number. */
  function NatToText(n: nat): (s: string)
    ensures |s| > 0 && AllDigits(s)
    decreases n
  {
    if n < 10 then [DigitChar(n)] else NatToText(n / 10) + [DigitChar(n % 10)]
  }

  /** The value of a string of decimal digits. */
  function DigitsValue(s: string): nat
    requires AllDigits(s)
  {
    if |s| == 0 then 0
    else DigitsValue(s[..|s| - 1]) * 10 + (s[|s| - 1] as int - '0' as int)
  }

  lemma {:induction false} DigitsValueOfNatToText(n: nat)
    ensures DigitsValue(NatToText(n)) == n
    decreases n
  {
    if n >= 10 {
      var s := NatToText(n);
      assert s[..|s| - 1] == NatToText(n / 10);
      DigitsValueOfNatToText(n / 10);
    }
  }

  /** `str(i)` for an integer. */
  function IntToText(i: int): (s: string)
    ensures |s| > 0
  {
    if i < 0 then "-" + NatToText(-i) else NatToText(i)
  }

  /** Sign prefix of a numeric literal: (is negative, text after the sign). */
  function SplitSign(t: string): (string, bool) {
    if |t| > 0 && t[0] == '-' then (t[1..], true)
    else if |t| > 0 && t[0] == '+' then (t[1..], false)
    else (t, false)
  }

  /**
   * Python's `int(s)` on text: surrounding whitespace, an optional sign and one or
   * more ASCII decimal digits; None where Python raises ValueError. Python also reads
   * '_' between digits and non-ASCII decimal digits, which this function rejects.
   */
  function ParseInt(s: string): (r: Option<int>)
    ensures r.Some? ==> |Strip(s)| > 0
    ensures r.Some? && r.value < 0 ==> Strip(s)[0] == '-'
  {
    var (body, negative) := SplitSign(Strip(s));
    if |body| > 0 && AllDigits(body) then
      Some(if negative then -(DigitsValue(body) as int) else DigitsValue(body))
    else None
  }

  /**
   * `int(s)` raises unless `s` holds a digit and nothing but digits, signs and whitespace:
   * text without a digit, or with any other character, never parses.
   */
  lemma ParseIntChars(s: string)
    ensures ParseInt(s).Some? ==> exists i :: 0 <= i < |s| && IsDigit(s[i])
    ensures ParseInt(s).Some? ==>
      forall i :: 0 <= i < |s| ==> IsDigit(s[i]) || IsSpace(s[i]) || s[i] == '-' || s[i] == '+'
  {
    if ParseInt(s).Some? {
      SignedDigitsChars(s);
    }
  }

  /** Text that strips to an optionally signed run of digits holds a digit, and nothing but digits, signs and whitespace. */
  lemma SignedDigitsChars(s: string)
    requires |SplitSign(Strip(s)).0| > 0 && AllDigits(SplitSign(Strip(s)).0)
    ensures exists i :: 0 <= i < |s| && IsDigit(s[i])
    ensures forall i :: 0 <= i < |s| ==> IsDigit(s[i]) || IsSpace(s[i]) || s[i] == '-' || s[i] == '+'
  {
    var t := Strip(s);
    var a := LeadingSpaces(s);
    StripParts(s);
    SignedDigitsOnly(t);
    forall i | 0 <= i < |s|
      ensures IsDigit(s[i]) || IsSpace(s[i]) || s[i] == '-' || s[i] == '+'
    {
      if a <= i < a + |t| {
        assert s[i] == t[i - a];
      }
    }
    assert s[a + |t| - 1] == t[|t| - 1];
  }

  /** An optionally signed run of digits is digits and a sign only, and ends in a digit. */
  lemma SignedDigitsOnly(t: string)
    requires |SplitSign(t).0| > 0 && AllDigits(SplitSign(t).0)
    ensures forall k :: 0 <= k < |t| ==> IsDigit(t[k]) || t[k] == '-' || t[k] == '+'
    ensures IsDigit(t[|t| - 1])
  {
    var body := SplitSign(t).0;
    if t[0] == '-' || t[0] == '+' {
      assert body == t[1..];
      assert forall k :: 1 <= k < |t| ==> t[k] == body[k - 1];
    } else {
      assert body == t;
    }
  }

  lemma StripNoSpace(s: string)
    requires |s| > 0 && !IsSpace(s[0]) && !IsSpace(s[|s| - 1])
    ensures Strip(s) == s
  {
    assert StripLeft(s) == s;
    assert StripRight(s) == s;
  }

  /** `int` on plain digits is their value, leading zeros and all. */
  lemma ParseDigits(t: string)
    requires |t| > 0 && AllDigits(t)
    ensures ParseInt(t) == Some(DigitsValue(t))
  {
    assert IsDigit(t[0]) && IsDigit(t[|t| - 1]);
    StripNoSpace(t);
  }

  /** `int(str(i)) == i`. */
  lemma IntTextRoundTrip(i: int)
    ensures ParseInt(IntToText(i)) == Some(i)
  {
    var s := IntToText(i);
    var digits := NatToText(if i < 0 then -i else i);
    assert IsDigit(digits[0]) && IsDigit(digits[|digits| - 1]);
    StripNoSpace(s);
    DigitsValueOfNatToText(if i < 0 then -i else i);
    if i < 0 {
      assert s[1..] == digits;
      assert SplitSign(s) == (digits, true);
    } else {
      assert SplitSign(s) == (digits, false);
    }
  }

  function Pow10(n: nat): (p: nat)
    ensures p >= 1
  {
    if n == 0 then 1 else 10 * Pow10(n - 1)
  }

  /** The value of the digits `whole`, a '.', and the digits `frac`. */
  function DecimalValue(whole: string, frac: string): (v: real)
    requires AllDigits(whole) && AllDigits(frac)
    ensures v >= 0.0
  {
    DigitsValue(whole) as real + DigitsValue(frac) as real / Pow10(|frac|) as real
  }

  /** Unsigned decimal text: digits with at most one '.', at least one digit in all. */
  function ParseUnsignedReal(body: string): (r: Option<real>)
  {
    match IndexOf(body, ".")
    case None =>
      if |body| > 0 && AllDigits(body) then Some(DigitsValue(body) as real) else None
    case Some(dot) =>
      var whole := body[..dot];
      var frac := body[dot + 1..];
      if |whole| + |frac| > 0 && AllDigits(whole) && AllDigits(frac) then
        Some(DecimalValue(whole, frac))
      else None
  }

  /**
   * Python's `float(s)` on decimal text: surrounding whitespace, an optional sign, and
   * an unsigned decimal.
   */
  function ParseReal(s: string): (r: Option<real>)
  {
    var signed := SplitSign(Strip(s));
    match ParseUnsignedReal(signed.0)
    case None => None
    case Some(m) => Some(if signed.1 then -m else m)
  }

  /** Text that starts with neither a sign nor a digit and holds no '.' is not a number. */
  lemma NotANumber(s: string)
    requires |s| > 0 && !IsSpace(s[0]) && !IsSpace(s[|s| - 1])
    requires s[0] != '-' && s[0] != '+' && !IsDigit(s[0]) && '.' !in s
    ensures ParseReal(s) == None
  {
    StripNoSpace(s);
    assert SplitSign(Strip(s)) == (s, false);
    IndexOfAbsent(s, '.');
  }

  /** The integer nearest to `x`, ties going to the even one, as Python's formatting rounds. */
  function RoundHalfEven(x: real): (n: nat)
    requires x >= 0.0
    ensures -1.0 / 2.0 <= n as real - x <= 1.0 / 2.0
  {
    var f := x.Floor;
    var frac := x - f as real;
    if frac > 1.0 / 2.0 then f + 1
    else if frac < 1.0 / 2.0 then f
    else if f % 2 == 0 then f else f + 1
  }

  /** `t` padded on the left with '0' to at least `width` characters. */
  function ZeroPad(t: string, width: nat): (r: string)
    ensures |r| == if |t| < width then width else |t|
    ensures AllDigits(t) ==> AllDigits(r)
    decreases width - |t|
  {
    if |t| < width then ZeroPad("0" + t, width) else t
  }

  lemma {:induction false} ZeroPadValue(t: string, width: nat)
    requires AllDigits(t)
    ensures DigitsValue(ZeroPad(t, width)) == DigitsValue(t)
    decreases width - |t|
  {
    if |t| < width {
      LeadingZeroValue(t);
      ZeroPadValue("0" + t, width);
    }
  }

  lemma {:induction false} LeadingZeroValue(t: string)
    requires AllDigits(t)
    ensures DigitsValue("0" + t) == DigitsValue(t)
    decreases |t|
  {
    if |t| > 0 {
      var u := "0" + t;
      assert u[..|u| - 1] == "0" + t[..|t| - 1];
      LeadingZeroValue(t[..|t| - 1]);
    }
  }

  lemma {:induction false} NatToTextShort(n: nat, d: nat)
    requires n < Pow10(d)
    ensures |NatToText(n)| <= if d == 0 then 1 else d
    decreases n
  {
    if n >= 10 {
      assert d >= 2;
      assert n / 10 < Pow10(d - 1);
      NatToTextShort(n / 10, d - 1);
    }
  }

  /**
   * The text of `n / 10^places` with exactly `places` decimals: the whole part, a '.',
   * and the remainder padded with '0' on the left.
   */
  function FixedText(n: nat, places: nat): (s: string)
  {
    var p := Pow10(places);
    DivModBounds(n, p);
    NatToText(n / p) + "." + ZeroPad(NatToText(n % p), places)
  }

  /** `x` in units of the last of `places` decimals. */
  function Scaled(x: real, places: nat): real {
    x * Pow10(places) as real
  }

  /** `x` in units of the last of `places` decimals, rounded half to even. */
  function ScaledRound(x: real, places: nat): (n: nat)
    requires x >= 0.0
    ensures -1.0 / 2.0 <= n as real - Scaled(x, places) <= 1.0 / 2.0
  {
    assert Scaled(x, places) >= 0.0 by { assert Pow10(places) as real >= 1.0; }
    RoundHalfEven(Scaled(x, places))
  }

  /** The '.' of a fixed-point text is the first one, right after the whole part. */
  lemma FixedTextDot(whole: string, frac: string)
    requires AllDigits(whole)
    ensures IndexOf(whole + "." + frac, ".") == Some(|whole|)
  {
    var s := whole + "." + frac;
    assert OccursAt(s, ".", |whole|);
    forall j: nat | j < |whole|
      ensures !OccursAt(s, ".", j)
    {
      assert s[j] == whole[j];
    }
  }

  lemma DivModBounds(n: nat, p: nat)
    requires p >= 1
    ensures n / p >= 0 && 0 <= n % p < p && n == (n / p) * p + n % p
  {
  }

  /** Whole part plus remainder over the scale is the quotient. */
  lemma QuotientValue(n: nat, p: nat, q: nat, r: nat)
    requires p >= 1 && n == q * p + r
    ensures q as real + r as real / p as real == n as real / p as real
  {
  }

  /** `float` on digits, a '.', and digits. */
  lemma ParseDecimal(whole: string, frac: string)
    requires |whole| > 0 && |frac| > 0 && AllDigits(whole) && AllDigits(frac)
    ensures ParseUnsignedReal(whole + "." + frac) == Some(DecimalValue(whole, frac))
  {
    var s := whole + "." + frac;
    FixedTextDot(whole, frac);
    assert s[..|whole|] == whole;
    assert s[|whole| + 1..] == frac;
  }

  /** The value of `n` units of the last of `places` decimals. */
  function Unscaled(n: nat, places: nat): real {
    n as real / Pow10(places) as real
  }

  /**
   * A fixed-point text begins and ends with a digit, and reads back as the exact
   * quotient it was made from.
   */
  lemma FixedTextRoundTrip(n: nat, places: nat)
    requires places > 0
    ensures var t := FixedText(n, places);
      |t| > 0 && IsDigit(t[0]) && IsDigit(t[|t| - 1])
      && ParseUnsignedReal(t) == Some(Unscaled(n, places))
  {
    var p := Pow10(places);
    DivModBounds(n, p);
    var q: nat, r: nat := n / p, n % p;
    var whole := NatToText(q);
    NatToTextShort(r, places);
    var frac := ZeroPad(NatToText(r), places);
    assert |frac| == places;
    var t := whole + "." + frac;
    assert FixedText(n, places) == t;
    assert t[0] == whole[0] && t[|t| - 1] == frac[|frac| - 1];
    ParseDecimal(whole, frac);
    DigitsValueOfNatToText(q);
    DigitsValueOfNatToText(r);
    ZeroPadValue(NatToText(r), places);
    QuotientValue(n, p, q, r);
    assert DecimalValue(whole, frac) == Unscaled(n, places);
  }

  /** `f"{x:.{places}f}"`: a '-' for a negative value, then the rounded magnitude. */
  function FormatFixed(x: real, places: nat): (s: string)
    requires places > 0
  {
    var t := FixedText(ScaledRound(Magnitude(x), places), places);
    if x < 0.0 then "-" + t else t
  }

  /** The absolute value of `x`. */
  function Magnitude(x: real): (m: real)
    ensures m >= 0.0 && (m == x || m == -x)
  {
    if x < 0.0 then -x else x
  }

  /** The value `f"{x:.{places}f}"` stands for: `x` rounded to `places` decimals. */
  function Rounded(x: real, places: nat): (v: real)
  {
    var r := Unscaled(ScaledRound(Magnitude(x), places), places);
    if x < 0.0 then -r else r
  }

  /** Reading the formatted text back with `float` gives the rounded value. */
  lemma FormatFixedRoundTrip(x: real, places: nat)
    requires places > 0
    ensures ParseReal(FormatFixed(x, places)) == Some(Rounded(x, places))
  {
    var n := ScaledRound(Magnitude(x), places);
    FixedTextRoundTrip(n, places);
    SignedParse(FormatFixed(x, places), FixedText(n, places), x < 0.0,
                Rounded(x, places), Unscaled(n, places));
  }

  /**
   * Unsigned text `t` between digits reads back as its value `v`, and behind a '-' as
   * the negation of `v`.
   */
  lemma SignedParse(s: string, t: string, negative: bool, w: real, v: real)
    requires |t| > 0 && IsDigit(t[0]) && IsDigit(t[|t| - 1])
    requires ParseUnsignedReal(t) == Some(v)
    requires s == if negative then "-" + t else t
    requires w == if negative then -v else v
    ensures ParseReal(s) == Some(w)
  {
    if negative {
      NegatedParse(t, v);
    } else {
      UnsignedParse(t, v);
    }
  }

  lemma UnsignedParse(t: string, v: real)
    requires |t| > 0 && IsDigit(t[0]) && IsDigit(t[|t| - 1])
    requires ParseUnsignedReal(t) == Some(v)
    ensures ParseReal(t) == Some(v)
  {
    StripNoSpace(t);
    assert SplitSign(Strip(t)) == (t, false);
  }

  lemma NegatedParse(t: string, v: real)
    requires |t| > 0 && IsDigit(t[0]) && IsDigit(t[|t| - 1])
    requires ParseUnsignedReal(t) == Some(v)
    ensures ParseReal("-" + t) == Some(-v)
  {
    var s := "-" + t;
    StripNoSpace(s);
    assert s[1..] == t;
    assert SplitSign(Strip(s)) == (t, true);
  }

  // ---------------------------------------------------------------- paths

  /** `os.path.basename(p)`: the text after the last '/'. */
  function Basename(p: string): (b: string)
    ensures '/' !in b
    ensures EndsWith(p, b)
  {
    match LastIndexOf(p, '/')
    case None => p
    case Some(k) => p[k + 1..]
  }

  /** `os.path.join(dir, name)` for two components. */
  function Join(dir: string, name: string): string {
    if |name| > 0 && name[0] == '/' then name
    else if dir == "" || dir[|dir| - 1] == '/' then dir + name
    else dir + "/" + name
  }

  /**
   * `os.path.splitext(name)[0]` for a name without '/': the text before the last '.',
   * unless only dots precede it, in which case the whole name.
   */
  function StemOf(name: string): (r: string)
    ensures |r| <= |name| && r == name[..|r|]
  {
    match LastIndexOf(name, '.')
    case None => name
    case Some(k) =>
      if forall j :: 0 <= j < k ==> name[j] == '.' then name else name[..k]
  }

  /** A name with a stem that is not all dots and an extension without dots loses just the extension. */
  lemma StemOfNamed(stem: string, ext: string, i: nat)
    requires '.' !in ext && i < |stem| && stem[i] != '.'
    ensures StemOf(stem + "." + ext) == stem
  {
    var name := stem + "." + ext;
    assert name[|stem|] == '.';
    assert forall j :: |stem| < j < |name| ==> name[j] == ext[j - |stem| - 1];
    assert LastIndexOf(name, '.') == Some(|stem|);
    assert name[i] == stem[i];
  }

  lemma BasenameOfJoin(dir: string, name: string)
    requires '/' !in name && |dir| > 0 && dir[|dir| - 1] != '/'
    ensures Basename(Join(dir, name)) == name
  {
    var p := dir + "/" + name;
    assert p[|dir|] == '/';
    assert forall j :: |dir| < j < |p| ==> p[j] == name[j - |dir| - 1];
    assert p[|dir| + 1..] == name;
  }
}
