/**
 * The value envelope `{ value }` that the contract stores under a key, its
 * serialisation with `JSON.stringify` and its parsing with `JSON.parse`.
 * Bytes are modelled as the characters of the JSON text (UTF-8 is not
 * modelled).
 */
module Envelope {
  import opened Wrappers

  /** The stored object `{ value }`; the contract only ever passes strings. */
  datatype Asset = Asset(value: string)

  const Quote: char := '"'
  const Backslash: char := '\\'

  /** Lower-case hexadecimal digit, as `JSON.stringify` writes it. */
  function HexDigit(n: nat): (c: char)
    requires n < 16
  {
    if n < 10 then ('0' as int + n) as char else ('a' as int + n - 10) as char
  }

  /** The value of one hexadecimal digit of either case. */
  function HexValue(c: char): (r: Option<nat>)
    ensures r.Some? ==> r.value < 16
  {
    if '0' <= c <= '9' then Some(c as int - '0' as int)
    else if 'a' <= c <= 'f' then Some(c as int - 'a' as int + 10)
    else if 'A' <= c <= 'F' then Some(c as int - 'A' as int + 10)
    else None
  }

  /** A character that `JSON.stringify` copies unchanged into a string literal. */
  predicate IsPlain(c: char)
  {
    c >= ' ' && c != Quote && c != Backslash
  }

  /** The letter of the two-character escape `JSON.stringify` writes for `c`, if it has one. */
  function ShortEscape(c: char): (r: Option<char>)
    ensures r.Some? ==> !IsPlain(c)
  {
    if c == Quote then Some(Quote)
    else if c == Backslash then Some(Backslash)
    else if c == '\U{8}' then Some('b')
    else if c == '\t' then Some('t')
    else if c == '\n' then Some('n')
    else if c == '\U{C}' then Some('f')
    else if c == '\r' then Some('r')
    else None
  }

  /** The character a two-character escape `\x` stands for (section 7 of RFC 8259). */
  function ShortUnescape(x: char): (r: Option<char>)
  {
    if x == Quote then Some(Quote)
    else if x == Backslash then Some(Backslash)
    else if x == '/' then Some('/')
    else if x == 'b' then Some('\U{8}')
    else if x == 'f' then Some('\U{C}')
    else if x == 'n' then Some('\n')
    else if x == 'r' then Some('\r')
    else if x == 't' then Some('\t')
    else None
  }

  /** The escape `JSON.stringify` writes for one character of a string. */
  function EscapeChar(c: char): (r: string)
    ensures IsPlain(c) <==> r == [c]
    ensures !IsPlain(c) ==> |r| >= 2 && r[0] == Backslash
  {
    if IsPlain(c) then [c]
    else if ShortEscape(c).Some? then [Backslash, ShortEscape(c).value]
    else "\\u00" + [HexDigit(c as int / 16), HexDigit(c as int % 16)]
  }

  /** The body of the JSON string literal for `s`, without the quotes. */
  function Escape(s: string): (r: string)
  {
    if s == [] then [] else EscapeChar(s[0]) + Escape(s[1..])
  }

  /** `JSON.stringify({ value })`. */
  function Encode(a: Asset): (r: string)
  {
    "{" + "\"value\"" + ":" + [Quote] + Escape(a.value) + [Quote] + "}"
  }

  /** Insignificant whitespace between JSON tokens (section 2 of RFC 8259). */
  predicate IsWhitespace(c: char)
  {
    c == ' ' || c == '\t' || c == '\n' || c == '\r'
  }

  function SkipWhitespace(s: string): (r: string)
    ensures |r| <= |s|
    ensures r == [] || !IsWhitespace(r[0])
  {
    if s != [] && IsWhitespace(s[0]) then SkipWhitespace(s[1..]) else s
  }

  /** After optional whitespace, `s` starts with `lit`; gives what follows it. */
  function Token(s: string, lit: string): (r: Option<string>)
  {
    var t := SkipWhitespace(s);
    if |lit| <= |t| && t[..|lit|] == lit then Some(t[|lit|..]) else None
  }

  /** The code unit written as four hexadecimal digits after `\u`. */
  function Hex4(s: string): (r: Option<nat>)
    requires |s| == 4
    ensures r.Some? ==> r.value < 0x1_0000
  {
    match (HexValue(s[0]), HexValue(s[1]), HexValue(s[2]), HexValue(s[3]))
    case (Some(a), Some(b), Some(c), Some(d)) => Some(4096 * a + 256 * b + 16 * c + d)
    case _ => None
  }

  /**
   * One escape sequence of a JSON string (section 7 of RFC 8259); `s` is
   * what follows the backslash. Gives the character and what follows it.
   */
  function ParseEscape(s: string): (r: Option<(char, string)>)
    ensures r.Some? ==> |r.value.1| < |s|
  {
    if s == [] then None
    else if s[0] == 'u' then
      if |s| < 5 then None
      else
        match Hex4(s[1..5])
        case Some(n) =>
          // a surrogate code unit is not a character of this model
          if n < 0xD800 || 0xE000 <= n then Some((n as char, s[5..])) else None
        case None => None
    else
      match ShortUnescape(s[0])
      case Some(c) => Some((c, s[1..]))
      case None => None
  }

  /**
   * The characters of a JSON string literal after its opening quote, up to
   * the closing quote; gives the decoded string and what follows the quote.
   */
  function ParseStringBody(s: string): (r: Option<(string, string)>)
    ensures r.Some? ==> |r.value.1| < |s|
    decreases |s|
  {
    if s == [] then None
    else if s[0] == Quote then Some(([], s[1..]))
    else if s[0] == Backslash then
      match ParseEscape(s[1..])
      case None => None
      case Some((c, rest)) =>
        match ParseStringBody(rest)
        case None => None
        case Some((t, after)) => Some(([c] + t, after))
    else if s[0] < ' ' then None
    else
      match ParseStringBody(s[1..])
      case None => None
      case Some((t, after)) => Some(([s[0]] + t, after))
  }

  /**
   * `JSON.parse` of stored bytes, for texts of the envelope's shape: an
   * object whose one member is `"value"` with a string. Anything else is a
   * syntax error (`None`).
   */
  function Decode(b: string): (r: Option<Asset>)
  {
    match Token(b, "{")
    case None => None
    case Some(s1) =>
      match Token(s1, "\"value\"")
      case None => None
      case Some(s2) =>
        match Token(s2, ":")
        case None => None
        case Some(s3) => DecodeMemberValue(s3)
  }

  /** The string value of the member and the end of the object, after the colon. */
  function DecodeMemberValue(s: string): (r: Option<Asset>)
  {
    match Token(s, [Quote])
    case None => None
    case Some(s1) =>
      match ParseStringBody(s1)
      case None => None
      case Some((v, s2)) =>
        match Token(s2, "}")
        case None => None
        case Some(s3) => if SkipWhitespace(s3) == [] then Some(Asset(v)) else None
  }

  lemma TokenAtStart(lit: string, rest: string)
    requires lit != [] && !IsWhitespace(lit[0])
    ensures Token(lit + rest, lit) == Some(rest)
  {
    assert (lit + rest)[0] == lit[0];
    assert (lit + rest)[..|lit|] == lit;
    assert (lit + rest)[|lit|..] == rest;
  }

  /** Each two-character escape that `JSON.stringify` writes stands for its character. */
  lemma ShortEscapeInverse(c: char)
    requires ShortEscape(c).Some?
    ensures ShortUnescape(ShortEscape(c).value) == Some(c)
  {
  }

  /** A `\u00XX` escape of a control character parses back to it. */
  lemma ParseUnicodeEscape(c: char, tail: string)
    requires c < ' '
    ensures ParseEscape(['u', '0', '0', HexDigit(c as int / 16), HexDigit(c as int % 16)] + tail)
         == Some((c, tail))
  {
    var hi, lo := c as int / 16, c as int % 16;
    var u := ['u', '0', '0', HexDigit(hi), HexDigit(lo)] + tail;
    assert u[1..5] == ['0', '0', HexDigit(hi), HexDigit(lo)];
    assert HexValue(HexDigit(hi)) == Some(hi);
    assert HexValue(HexDigit(lo)) == Some(lo);
    assert Hex4(u[1..5]) == Some(c as int);
    assert u[5..] == tail;
  }

  /** The escape of `c` followed by `tail`: what follows the backslash parses as `c`. */
  lemma ParseEscapeOf(c: char, tail: string)
    requires !IsPlain(c)
    ensures ParseEscape((EscapeChar(c) + tail)[1..]) == Some((c, tail))
  {
    var e := EscapeChar(c);
    assert (e + tail)[1..] == e[1..] + tail;
    if ShortEscape(c).Some? {
      ShortEscapeInverse(c);
      assert e[1..] + tail == [ShortEscape(c).value] + tail;
    } else {
      assert e[1..] == ['u', '0', '0', HexDigit(c as int / 16), HexDigit(c as int % 16)];
      ParseUnicodeEscape(c, tail);
    }
  }

  /** Parsing one escaped character and then a string body. */
  lemma ParseEscapedChar(c: char, tail: string)
    requires ParseStringBody(tail).Some?
    ensures ParseStringBody(EscapeChar(c) + tail)
         == Some(([c] + ParseStringBody(tail).value.0, ParseStringBody(tail).value.1))
  {
    var u := EscapeChar(c) + tail;
    if IsPlain(c) {
      assert u[0] == c && u[1..] == tail;
    } else {
      assert u[0] == Backslash;
      ParseEscapeOf(c, tail);
    }
  }

  /** The string body `Escape(s)` followed by a closing quote parses back to `s`. */
  lemma {:induction false} ParseEscaped(s: string, rest: string)
    ensures ParseStringBody(Escape(s) + [Quote] + rest) == Some((s, rest))
  {
    if s == [] {
      assert Escape(s) + [Quote] + rest == [Quote] + rest;
    } else {
      var tail := Escape(s[1..]) + [Quote] + rest;
      assert Escape(s) + [Quote] + rest == EscapeChar(s[0]) + tail;
      ParseEscaped(s[1..], rest);
      ParseEscapedChar(s[0], tail);
      assert [s[0]] + s[1..] == s;
    }
  }

  /** The member value as `JSON.stringify` writes it parses back, ending the object. */
  lemma DecodeMemberValueOf(v: string)
    ensures DecodeMemberValue([Quote] + Escape(v) + [Quote] + "}") == Some(Asset(v))
  {
    var s1 := Escape(v) + [Quote] + "}";
    assert [Quote] + Escape(v) + [Quote] + "}" == [Quote] + s1;
    TokenAtStart([Quote], s1);
    ParseEscaped(v, "}");
    TokenAtStart("}", []);
    assert "}" + [] == "}";
  }

  /** `JSON.parse(JSON.stringify({ value }))` is deep-equal to `{ value }`. */
  lemma RoundTrip(a: Asset)
    ensures Decode(Encode(a)) == Some(a)
  {
    var s3 := [Quote] + Escape(a.value) + [Quote] + "}";
    var s2 := ":" + s3;
    var s1 := "\"value\"" + s2;
    assert Encode(a) == "{" + s1;
    TokenAtStart("{", s1);
    TokenAtStart("\"value\"", s2);
    TokenAtStart(":", s3);
    DecodeMemberValueOf(a.value);
  }

  /** Distinct envelopes are stored as distinct bytes. */
  lemma EncodeInjective(a: Asset, b: Asset)
    requires Encode(a) == Encode(b)
    ensures a == b
  {
    RoundTrip(a);
    RoundTrip(b);
  }

  /** A string without quotes, backslashes or control characters is written as is. */
  lemma {:induction false} EscapePlain(s: string)
    requires forall c | c in s :: IsPlain(c)
    ensures Escape(s) == s
  {
    if s != [] {
      assert s[0] in s;
      assert forall c | c in s[1..] :: c in s;
      EscapePlain(s[1..]);
      assert [s[0]] + s[1..] == s;
    }
  }

  /** A plain value is stored between the quotes of `{"value":"…"}` as it is. */
  lemma EncodePlain(v: string)
    requires forall c | c in v :: IsPlain(c)
    ensures Encode(Asset(v)) == "{\"value\":\"" + v + "\"}"
  {
    EscapePlain(v);
  }

  /** The value the contract's own test stores for asset `id`. */
  function TestValue(id: string): string
  {
    "securitized asset " + id + " value"
  }

  /**
   * For an identifier such as 1001 or 1003, the test's value is stored as
   * `{"value":"securitized asset <id> value"}`.
   */
  lemma EncodeTestValue(id: string)
    requires forall c | c in id :: IsPlain(c)
    ensures Encode(Asset(TestValue(id))) == "{\"value\":\"securitized asset " + id + " value\"}"
  {
    var v := TestValue(id);
    forall c | c in v ensures IsPlain(c) {
      assert c in "securitized asset " || c in id || c in " value";
    }
    EncodePlain(v);
  }

  /** Bytes that hold no JSON text (such as an empty value) do not parse. */
  lemma EmptyDoesNotDecode()
    ensures Decode([]) == None
  {
  }
}
