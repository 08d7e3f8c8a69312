/** The mentor `skills` column holds a JSON array of strings. Profile updates
    write it with Python's `json.dumps` (default settings: ", " between items,
    `ensure_ascii`), and the profile and directory endpoints read it back with
    `json.loads`. This module renders a list of strings exactly as `json.dumps`
    does and parses that shape back. */
module SkillsJson {
  import opened Common

  const HexDigits: string := "0123456789abcdef"

  predicate IsHexDigit(c: char) {
    '0' <= c <= '9' || 'a' <= c <= 'f' || 'A' <= c <= 'F'
  }

  predicate AllHex(s: string) {
    forall i | 0 <= i < |s| :: IsHexDigit(s[i])
  }

  function HexValue(c: char): (v: nat)
    requires IsHexDigit(c)
    ensures v < 16
  {
    if '0' <= c <= '9' then c as int - '0' as int
    else if 'a' <= c <= 'f' then c as int - 'a' as int + 10
    else c as int - 'A' as int + 10
  }

  lemma HexDigitRoundTrip(d: nat)
    requires d < 16
    ensures IsHexDigit(HexDigits[d]) && HexValue(HexDigits[d]) == d
  {
  }

  /** Four lower-case hex digits, as Python's `'{0:04x}'.format(n)`. */
  function Hex4(n: nat): (s: string)
    requires n < 0x10000
    ensures |s| == 4 && AllHex(s)
  {
    var q1 := n / 16;
    var q2 := q1 / 16;
    var q3 := q2 / 16;
    HexDigitRoundTrip(q3);
    HexDigitRoundTrip(q2 % 16);
    HexDigitRoundTrip(q1 % 16);
    HexDigitRoundTrip(n % 16);
    [HexDigits[q3], HexDigits[q2 % 16], HexDigits[q1 % 16], HexDigits[n % 16]]
  }

  function Hex4Value(s: string): (v: nat)
    requires |s| == 4 && AllHex(s)
    ensures v < 0x10000
  {
    HexValue(s[0]) * 0x1000 + HexValue(s[1]) * 0x100 + HexValue(s[2]) * 0x10 + HexValue(s[3])
  }

  lemma Hex4RoundTrip(n: nat)
    requires n < 0x10000
    ensures Hex4Value(Hex4(n)) == n
  {
    var q1 := n / 16;
    var q2 := q1 / 16;
    var q3 := q2 / 16;
    HexDigitRoundTrip(q3);
    HexDigitRoundTrip(q2 % 16);
    HexDigitRoundTrip(q1 % 16);
    HexDigitRoundTrip(n % 16);
    assert n == ((q3 * 16 + q2 % 16) * 16 + q1 % 16) * 16 + n % 16;
  }

  /** True of the characters `json.dumps` writes unescaped: printable ASCII other
      than the quote and the backslash. */
  predicate Plain(c: char) {
    ' ' <= c <= '~' && c != '"' && c != '\\'
  }

  /** The escape `json.dumps` writes for one character. */
  function EscapeChar(c: char): (e: string)
    ensures 1 <= |e| <= 12
  {
    if c as int >= 0x10000 then PairEscape(c as int)
    else if c == '"' then "\\\""
    else if c == '\\' then "\\\\"
    else if c == '\n' then "\\n"
    else if c == '\r' then "\\r"
    else if c == '\t' then "\\t"
    else if c == '\U{8}' then "\\b"
    else if c == '\U{C}' then "\\f"
    else if ' ' <= c <= '~' then [c]
    else UnitEscape(c as int)
  }

  /** `\uXXXX` for a code point of the Basic Multilingual Plane. */
  function UnitEscape(n: nat): (e: string)
    requires n < 0x10000
    ensures |e| == 6
  {
    "\\u" + Hex4(n)
  }

  /** The two `\uXXXX` escapes of a surrogate pair. */
  function PairEscape(n: int): (e: string)
    requires 0x10000 <= n < 0x110000
    ensures |e| == 12
  {
    "\\u" + Hex4(HighSurrogate(n)) + "\\u" + Hex4(LowSurrogate(n))
  }

  /** The UTF-16 surrogate pair of a code point above the Basic Multilingual
      Plane, as `json.dumps` splits it. */
  function HighSurrogate(n: int): (h: nat)
    requires 0x10000 <= n < 0x110000
    ensures 0xD800 <= h < 0xDC00
  {
    0xD800 + (n - 0x10000) / 0x400
  }

  function LowSurrogate(n: int): (l: nat)
    requires 0x10000 <= n < 0x110000
    ensures 0xDC00 <= l < 0xE000
  {
    0xDC00 + (n - 0x10000) % 0x400
  }

  /** The body of a JSON string literal for `x`, without the surrounding quotes. */
  function Escape(x: string): string {
    if |x| == 0 then "" else EscapeChar(x[0]) + Escape(x[1..])
  }

  function Quote(x: string): string {
    "\"" + Escape(x) + "\""
  }

  function JoinItems(xs: seq<string>): string {
    if |xs| == 0 then ""
    else if |xs| == 1 then Quote(xs[0])
    else Quote(xs[0]) + ", " + JoinItems(xs[1..])
  }

  /** `json.dumps(xs)` for a list of strings. */
  function Encode(xs: seq<string>): string {
    "[" + JoinItems(xs) + "]"
  }

  /** One character of a string literal body: the character and the number of
      text characters it took (an escape sequence or the character itself). */
  function ParseChar(t: string): (r: Option<(char, nat)>)
    requires |t| > 0
    ensures r.Some? ==> 1 <= r.value.1 <= |t|
  {
    if t[0] == '\\' then
      if |t| < 2 then None
      else if t[1] == '"' || t[1] == '\\' || t[1] == '/' then Some((t[1], 2))
      else if t[1] == 'b' then Some(('\U{8}', 2))
      else if t[1] == 'f' then Some(('\U{C}', 2))
      else if t[1] == 'n' then Some(('\n', 2))
      else if t[1] == 'r' then Some(('\r', 2))
      else if t[1] == 't' then Some(('\t', 2))
      else if t[1] == 'u' then ParseUnicodeEscape(t)
      else None
    else if t[0] < ' ' then None
    else Some((t[0], 1))
  }

  /** A `\uXXXX` escape, combining a high and a low surrogate into one character. */
  function ParseUnicodeEscape(t: string): (r: Option<(char, nat)>)
    requires |t| >= 2
    ensures r.Some? ==> 1 <= r.value.1 <= |t|
  {
    if |t| < 6 || !AllHex(t[2..6]) then None
    else
      var u := Hex4Value(t[2..6]);
      if 0xD800 <= u < 0xDC00 then
        if |t| >= 12 && t[6] == '\\' && t[7] == 'u' && AllHex(t[8..12]) then
          var v := Hex4Value(t[8..12]);
          if 0xDC00 <= v < 0xE000 then
            Some(((0x10000 + (u - 0xD800) * 0x400 + (v - 0xDC00)) as char, 12))
          else None
        else None
      else if 0xDC00 <= u < 0xE000 then None
      else Some((u as char, 6))
  }

  /** The body of a string literal up to its closing quote: the decoded string
      and the text after the quote. */
  function ParseBody(t: string): (r: Option<(string, string)>)
    ensures r.Some? ==> |r.value.1| < |t|
    decreases |t|
  {
    if |t| == 0 then None
    else if t[0] == '"' then Some(("", t[1..]))
    else
      match ParseChar(t)
      case None => None
      case Some((c, k)) =>
        match ParseBody(t[k..])
        case None => None
        case Some((x, rest)) => Some(([c] + x, rest))
  }

  /** The items of a non-empty array after its `[`, up to and including the `]`
      that must end the text. */
  function ParseItems(t: string): Option<seq<string>>
    decreases |t|
  {
    if |t| > 0 && t[0] == '"' then
      match ParseBody(t[1..])
      case None => None
      case Some((x, rest)) =>
        if rest == "]" then Some([x])
        else if |rest| >= 2 && rest[0] == ',' && rest[1] == ' ' then
          match ParseItems(rest[2..])
          case None => None
          case Some(xs) => Some([x] + xs)
        else None
    else None
  }

  /** `json.loads(text)` for the array shape `json.dumps` writes; None stands for
      the exception `json.loads` raises (or for a shape not modelled here). */
  function Decode(text: string): Option<seq<string>> {
    if |text| >= 2 && text[0] == '[' then
      if |text| == 2 && text[1] == ']' then Some([]) else ParseItems(text[1..])
    else None
  }

  lemma EscapeCharParses(c: char, t: string)
    ensures (EscapeChar(c) + t)[0] != '"'
    ensures ParseChar(EscapeChar(c) + t) == Some((c, |EscapeChar(c)|))
  {
    if c == '"' || c == '\\' || c == '\n' || c == '\r' || c == '\t' || c == '\U{8}' || c == '\U{C}' {
      ShortEscapeParses(c, t);
    } else if ' ' <= c <= '~' {
      assert (EscapeChar(c) + t)[0] == c;
    } else if c as int < 0x10000 {
      BmpEscapeParses(c, t);
    } else {
      PairEscapeParses(c, t);
    }
  }

  lemma ShortEscapeParses(c: char, t: string)
    requires c == '"' || c == '\\' || c == '\n' || c == '\r' || c == '\t' || c == '\U{8}' || c == '\U{C}'
    ensures (EscapeChar(c) + t)[0] != '"'
    ensures ParseChar(EscapeChar(c) + t) == Some((c, |EscapeChar(c)|))
  {
    var e := EscapeChar(c);
    var s := e + t;
    assert |e| == 2 && e[0] == '\\';
    assert s[0] == '\\' && s[1] == e[1];
  }

  lemma BmpEscapeParses(c: char, t: string)
    requires !(' ' <= c <= '~') && c != '\n' && c != '\r' && c != '\t' && c != '\U{8}' && c != '\U{C}'
    requires c as int < 0x10000
    ensures (EscapeChar(c) + t)[0] != '"'
    ensures ParseChar(EscapeChar(c) + t) == Some((c, |EscapeChar(c)|))
  {
    var h := Hex4(c as int);
    assert EscapeChar(c) == "\\u" + h;
    Hex4RoundTrip(c as int);
    UnitEscapeParses(h, t, c);
  }

  /** `\uXXXX` for a character outside the surrogate range reads back as it. */
  lemma UnitEscapeParses(h: string, t: string, c: char)
    requires |h| == 4 && AllHex(h) && Hex4Value(h) == c as int
    ensures ("\\u" + h + t)[0] != '"'
    ensures ParseChar("\\u" + h + t) == Some((c, 6))
  {
    var s := "\\u" + h + t;
    assert s[0] == '\\' && s[1] == 'u';
    assert s[2..6] == h;
  }

  lemma PairEscapeParses(c: char, t: string)
    requires c as int >= 0x10000
    ensures (EscapeChar(c) + t)[0] != '"'
    ensures ParseChar(EscapeChar(c) + t) == Some((c, |EscapeChar(c)|))
  {
    var hi := HighSurrogate(c as int);
    var lo := LowSurrogate(c as int);
    SurrogateSplit(c as int);
    Hex4RoundTrip(hi);
    Hex4RoundTrip(lo);
    PairDecodes(Hex4(hi), Hex4(lo), t, c);
  }

  /** The pair recombines into the code point. */
  lemma SurrogateSplit(n: int)
    requires 0x10000 <= n < 0x110000
    ensures 0x10000 + (HighSurrogate(n) - 0xD800) * 0x400 + (LowSurrogate(n) - 0xDC00) == n
  {
  }

  /** A high and a low surrogate escape read back as the character they encode. */
  lemma PairDecodes(h1: string, h2: string, t: string, c: char)
    requires |h1| == 4 && AllHex(h1) && |h2| == 4 && AllHex(h2)
    requires 0xD800 <= Hex4Value(h1) < 0xDC00 && 0xDC00 <= Hex4Value(h2) < 0xE000
    requires 0x10000 + (Hex4Value(h1) - 0xD800) * 0x400 + (Hex4Value(h2) - 0xDC00) == c as int
    ensures ("\\u" + h1 + "\\u" + h2 + t)[0] != '"'
    ensures ParseChar("\\u" + h1 + "\\u" + h2 + t) == Some((c, 12))
  {
    var s := "\\u" + h1 + "\\u" + h2 + t;
    assert s[0] == '\\' && s[1] == 'u';
    assert s[2..6] == h1;
    assert s[6] == '\\' && s[7] == 'u';
    assert s[8..12] == h2;
    assert ParseUnicodeEscape(s) == Some((c, 12));
  }

  /** The string-literal parser reads back exactly what `Escape` wrote and stops
      at the closing quote. */
  lemma {:induction false} EscapeParses(x: string, rest: string)
    ensures ParseBody(Escape(x) + "\"" + rest) == Some((x, rest))
    decreases |x|
  {
    if |x| == 0 {
      ClosingQuoteParses(Escape(x), rest);
    } else {
      var tail := Escape(x[1..]) + "\"" + rest;
      EscapeParses(x[1..], rest);
      BodyStep(x[0], tail, x[1..], rest);
      Regroup(EscapeChar(x[0]), Escape(x[1..]), "\"", rest);
      assert [x[0]] + x[1..] == x;
    }
  }

  lemma ClosingQuoteParses(e: string, rest: string)
    requires e == ""
    ensures ParseBody(e + "\"" + rest) == Some(("", rest))
  {
    var t := e + "\"" + rest;
    assert t[0] == '"';
    assert t[1..] == rest;
  }

  lemma Regroup(a: string, b: string, c: string, d: string)
    ensures a + b + c + d == a + (b + c + d)
  {
  }

  /** One escaped character in front of a parsable body is read first. */
  lemma BodyStep(c: char, tail: string, x: string, rest: string)
    requires ParseBody(tail) == Some((x, rest))
    ensures ParseBody(EscapeChar(c) + tail) == Some(([c] + x, rest))
  {
    var t := EscapeChar(c) + tail;
    EscapeCharParses(c, tail);
    assert t[|EscapeChar(c)|..] == tail;
  }

  lemma {:induction false} ItemsParse(xs: seq<string>)
    requires |xs| > 0
    ensures ParseItems(JoinItems(xs) + "]") == Some(xs)
    decreases |xs|
  {
    if |xs| == 1 {
      assert JoinItems(xs) + "]" == Quote(xs[0]) + "]";
      FirstItemParses(xs[0], "]");
      assert xs == [xs[0]];
    } else {
      var more := JoinItems(xs[1..]) + "]";
      ItemsParse(xs[1..]);
      assert JoinItems(xs) + "]" == Quote(xs[0]) + ", " + more;
      ConsItemParses(xs[0], xs[1..], more);
      assert [xs[0]] + xs[1..] == xs;
    }
  }

  /** A quoted item followed by `, ` and a parsable tail parses as that item
      in front of the tail's items. */
  lemma ConsItemParses(x: string, ys: seq<string>, more: string)
    requires ParseItems(more) == Some(ys)
    ensures ParseItems(Quote(x) + ", " + more) == Some([x] + ys)
  {
    var t := Quote(x) + ", " + more;
    assert t == Quote(x) + (", " + more);
    FirstItemParses(x, ", " + more);
    ItemsStep(t, x, ", ", more);
  }

  lemma FirstItemParses(x: string, rest: string)
    ensures (Quote(x) + rest)[0] == '"'
    ensures ParseBody((Quote(x) + rest)[1..]) == Some((x, rest))
    ensures rest == "]" ==> ParseItems(Quote(x) + rest) == Some([x])
  {
    var t := Quote(x) + rest;
    assert t == "\"" + (Escape(x) + "\"" + rest);
    assert t[1..] == Escape(x) + "\"" + rest;
    EscapeParses(x, rest);
  }

  lemma ItemsStep(t: string, x: string, sep: string, more: string)
    requires |t| > 0 && t[0] == '"'
    requires sep == ", "
    requires ParseBody(t[1..]) == Some((x, sep + more))
    ensures ParseItems(t) == match ParseItems(more) case None => None case Some(xs) => Some([x] + xs)
  {
    var rest := sep + more;
    assert rest[0] == ',' && rest[1] == ' ' && rest != "]";
    assert rest[2..] == more;
  }

  /** `json.loads(json.dumps(xs)) == xs` for every list of strings. */
  lemma DecodeEncode(xs: seq<string>)
    ensures Decode(Encode(xs)) == Some(xs)
  {
    if |xs| == 0 {
      assert Encode(xs) == "[]";
    } else {
      JoinNonEmpty(xs);
      DecodeBracketed(JoinItems(xs));
      ItemsParse(xs);
    }
  }

  /** A non-empty array body is read item by item. */
  lemma DecodeBracketed(j: string)
    requires |j| > 0
    ensures Decode("[" + j + "]") == ParseItems(j + "]")
  {
    var text := "[" + j + "]";
    assert text[0] == '[' && |text| > 2;
    assert text[1..] == j + "]";
  }

  lemma JoinNonEmpty(xs: seq<string>)
    requires |xs| > 0
    ensures |JoinItems(xs)| > 0
  {
  }

  /** The encoding is ASCII only: every non-ASCII character is written as a
      `\uXXXX` escape. */
  lemma EncodeIsAscii(xs: seq<string>)
    ensures Ascii(Encode(xs))
  {
    JoinIsAscii(xs);
    AsciiConcat("[", JoinItems(xs));
    AsciiConcat("[" + JoinItems(xs), "]");
  }

  predicate Ascii(s: string) {
    forall i | 0 <= i < |s| :: ' ' <= s[i] <= '~'
  }

  lemma AsciiConcat(a: string, b: string)
    requires Ascii(a) && Ascii(b)
    ensures Ascii(a + b)
  {
  }

  lemma Hex4IsAscii(n: nat)
    requires n < 0x10000
    ensures Ascii(Hex4(n))
  {
    var h := Hex4(n);
    forall i | 0 <= i < 4
      ensures ' ' <= h[i] <= '~'
    {
      assert IsHexDigit(h[i]);
    }
  }

  lemma EscapeCharIsAscii(c: char)
    ensures Ascii(EscapeChar(c))
  {
    if ' ' <= c <= '~' || c == '\n' || c == '\r' || c == '\t' || c == '\U{8}' || c == '\U{C}' {
    } else if c as int < 0x10000 {
      BmpEscapeIsAscii(c);
    } else {
      PairEscapeIsAscii(c);
    }
  }

  lemma BmpEscapeIsAscii(c: char)
    requires !(' ' <= c <= '~') && c != '\n' && c != '\r' && c != '\t' && c != '\U{8}' && c != '\U{C}'
    requires c as int < 0x10000
    ensures Ascii(EscapeChar(c))
  {
    var h := Hex4(c as int);
    Hex4IsAscii(c as int);
    assert EscapeChar(c) == "\\u" + h;
    AsciiConcat("\\u", h);
  }

  lemma PairEscapeIsAscii(c: char)
    requires c as int >= 0x10000
    ensures Ascii(EscapeChar(c))
  {
    HexPairIsAscii(HighSurrogate(c as int), LowSurrogate(c as int));
  }

  lemma HexPairIsAscii(hi: nat, lo: nat)
    requires hi < 0x10000 && lo < 0x10000
    ensures Ascii("\\u" + Hex4(hi) + "\\u" + Hex4(lo))
  {
    Hex4IsAscii(hi);
    Hex4IsAscii(lo);
    AsciiJoin4("\\u", Hex4(hi), "\\u", Hex4(lo));
  }

  lemma AsciiJoin4(a: string, b: string, c: string, d: string)
    requires Ascii(a) && Ascii(b) && Ascii(c) && Ascii(d)
    ensures Ascii(a + b + c + d)
  {
    AsciiConcat(a, b);
    AsciiConcat(a + b, c);
    AsciiConcat(a + b + c, d);
  }

  lemma {:induction false} EscapeIsAscii(x: string)
    ensures Ascii(Escape(x))
    decreases |x|
  {
    if |x| > 0 {
      EscapeCharIsAscii(x[0]);
      EscapeIsAscii(x[1..]);
      AsciiConcat(EscapeChar(x[0]), Escape(x[1..]));
    }
  }

  lemma {:induction false} JoinIsAscii(xs: seq<string>)
    ensures Ascii(JoinItems(xs))
    decreases |xs|
  {
    if |xs| > 0 {
      EscapeIsAscii(xs[0]);
      AsciiConcat("\"", Escape(xs[0]));
      AsciiConcat("\"" + Escape(xs[0]), "\"");
      if |xs| > 1 {
        JoinIsAscii(xs[1..]);
        AsciiConcat(Quote(xs[0]), ", ");
        AsciiConcat(Quote(xs[0]) + ", ", JoinItems(xs[1..]));
      }
    }
  }

  /** A string of plain characters is written unchanged. */
  lemma {:induction false} EscapePlain(x: string)
    requires forall i | 0 <= i < |x| :: Plain(x[i])
    ensures Escape(x) == x
    decreases |x|
  {
    if |x| > 0 {
      EscapePlain(x[1..]);
      assert [x[0]] + x[1..] == x;
    }
  }

  lemma OccursInConcat(a: string, t: string, b: string, q: string, k: nat)
    requires OccursAt(t, q, k)
    ensures OccursAt(a + t + b, q, |a| + k)
  {
    assert (a + t + b)[|a| + k..|a| + k + |q|] == t[k..k + |q|];
  }

  /** The quoted literal of every listed skill occurs in the encoding. */
  lemma QuotedItemOccurs(xs: seq<string>, k: nat) returns (pos: nat)
    requires k < |xs|
    ensures OccursAt(Encode(xs), Quote(xs[k]), pos)
  {
    var p := QuotedItemInJoin(xs, k);
    OccursInConcat("[", JoinItems(xs), "]", Quote(xs[k]), p);
    pos := p + 1;
  }

  lemma QuotedItemInJoin(xs: seq<string>, k: nat) returns (pos: nat)
    requires k < |xs|
    ensures OccursAt(JoinItems(xs), Quote(xs[k]), pos)
  {
    JoinItemsQuoted(xs);
    pos := ItemInJoin(Quotes(xs), k);
  }

  /** The quoted literals of a list, one per item. */
  function Quotes(xs: seq<string>): (qs: seq<string>)
    ensures |qs| == |xs|
    ensures forall i | 0 <= i < |xs| :: qs[i] == Quote(xs[i])
  {
    if |xs| == 0 then [] else [Quote(xs[0])] + Quotes(xs[1..])
  }

  /** Texts joined with ", ", the layout of `JoinItems` for arbitrary pieces. */
  function Joined(qs: seq<string>): string {
    if |qs| == 0 then ""
    else if |qs| == 1 then qs[0]
    else qs[0] + ", " + Joined(qs[1..])
  }

  lemma {:induction false} JoinItemsQuoted(xs: seq<string>)
    ensures JoinItems(xs) == Joined(Quotes(xs))
    decreases |xs|
  {
    if |xs| > 1 {
      JoinItemsQuoted(xs[1..]);
      assert Quotes(xs)[1..] == Quotes(xs[1..]);
    }
  }

  lemma {:induction false} ItemInJoin(qs: seq<string>, k: nat) returns (pos: nat)
    requires k < |qs|
    ensures OccursAt(Joined(qs), qs[k], pos)
    decreases |qs|
  {
    if k == 0 {
      if |qs| == 1 {
        WholeOccurs(qs[0]);
      } else {
        PrefixOccurs(qs[0], ", ", Joined(qs[1..]));
      }
      pos := 0;
    } else {
      var p := ItemInJoin(qs[1..], k - 1);
      assert qs[1..][k - 1] == qs[k];
      OccursAfter(qs[0] + ", ", Joined(qs[1..]), qs[k], p);
      pos := |qs[0]| + 2 + p;
    }
  }

  lemma WholeOccurs(q: string)
    ensures OccursAt(q, q, 0)
  {
    assert q[0..|q|] == q;
  }

  lemma PrefixOccurs(q: string, m: string, b: string)
    ensures OccursAt(q + m + b, q, 0)
  {
    assert (q + m + b)[0..|q|] == q;
  }

  lemma OccursAfter(a: string, t: string, q: string, k: nat)
    requires OccursAt(t, q, k)
    ensures OccursAt(a + t, q, |a| + k)
  {
    assert (a + t)[|a| + k..|a| + k + |q|] == t[k..k + |q|];
  }
}
