/**
 * `JSON.stringify({ text })` as the chat stream writes it
 * (Backend/src/index.ts, line 121), following the string serialisation of
 * ECMA-262 (QuoteJSONString, section 25.5.2.3), and a decoder for exactly that
 * object shape.
 */
module JsonText {
  import opened Common
  import opened JsValues

  const Backspace: char := 8 as char
  const Tab: char := 9 as char
  const LineFeed: char := 10 as char
  const FormFeed: char := 12 as char
  const CarriageReturn: char := 13 as char

  function HexDigit(n: nat): (c: char)
    requires n < 16
  {
    "0123456789abcdef"[n]
  }

  /** A capital hexadecimal letter in lower case; every other character unchanged. */
  function LowerHex(c: char): char
  {
    if 'A' <= c <= 'F' then (c as int - 'A' as int + 'a' as int) as char else c
  }

  /** Value of a hexadecimal digit of either case, -1 for any other character. */
  function HexValue(c: char): (v: int)
    ensures -1 <= v < 16
    ensures v == -1 <==> !('0' <= c <= '9' || 'a' <= c <= 'f' || 'A' <= c <= 'F')
    ensures v >= 0 ==> HexDigit(v) == c || HexDigit(v) == LowerHex(c)
  {
    if '0' <= c <= '9' then c as int - '0' as int
    else if 'a' <= c <= 'f' then c as int - 'a' as int + 10
    else if 'A' <= c <= 'F' then c as int - 'A' as int + 10
    else -1
  }

  /** Reading a digit back gives its value. */
  lemma HexValueOfDigit(n: nat)
    requires n < 16
    ensures HexValue(HexDigit(n)) == n
  {
  }

  /** The serialisation of one character inside a JSON string literal. */
  function EscapeChar(c: char): (e: string)
    ensures |e| >= 1
    ensures forall i :: 0 <= i < |e| ==> e[i] as int >= 0x20
    ensures e[0] != '"'
  {
    if c == Backspace then "\\b"
    else if c == Tab then "\\t"
    else if c == LineFeed then "\\n"
    else if c == FormFeed then "\\f"
    else if c == CarriageReturn then "\\r"
    else if c == '"' then "\\\""
    else if c == '\\' then "\\\\"
    else if (c as int) < 0x20 then "\\u00" + [HexDigit(c as int / 16), HexDigit(c as int % 16)]
    else [c]
  }

  /** The characters between the quotes of `JSON.stringify(t)` for a string `t`. */
  function Escape(t: string): (e: string)
    ensures forall i :: 0 <= i < |e| ==> e[i] as int >= 0x20
  {
    if t == [] then [] else EscapeChar(t[0]) + Escape(t[1..])
  }

  /** `JSON.stringify(t)` for a string `t`. */
  function Quote(t: string): string
  {
    "\"" + Escape(t) + "\""
  }

  const TextPrefix: string := "{\"text\":"

  /** `JSON.stringify({ text: t })`. */
  function EncodeTextPayload(t: string): (s: string)
    ensures LineFeed !in s && CarriageReturn !in s
    ensures |s| > 0 && s[0] == '{'
  {
    var s := TextPrefix + Quote(t) + "}";
    assert forall i :: 0 <= i < |s| ==> s[i] != LineFeed && s[i] != CarriageReturn by {
      var e := Escape(t);
      forall i | 0 <= i < |s| ensures s[i] != LineFeed && s[i] != CarriageReturn {
        if |TextPrefix| + 1 <= i < |TextPrefix| + 1 + |e| {
          assert s[i] == e[i - |TextPrefix| - 1];
        }
      }
    }
    s
  }

  function Prepend(c: char, r: Option<string>): Option<string>
  {
    if r.Some? then Some([c] + r.value) else None
  }

  /**
   * Decodes the characters between the quotes of a JSON string literal: a raw
   * quote or control character is malformed, escapes are those of JSON, and a
   * `\u` escape naming a surrogate code unit is not decoded.
   */
  function Unescape(s: string): Option<string>
    decreases |s|
  {
    if s == [] then Some([])
    else if s[0] == '"' || (s[0] as int) < 0x20 then None
    else if s[0] != '\\' then Prepend(s[0], Unescape(s[1..]))
    else if |s| < 2 then None
    else
      var e := s[1];
      if e == '"' || e == '\\' || e == '/' then Prepend(e, Unescape(s[2..]))
      else if e == 'b' then Prepend(Backspace, Unescape(s[2..]))
      else if e == 't' then Prepend(Tab, Unescape(s[2..]))
      else if e == 'n' then Prepend(LineFeed, Unescape(s[2..]))
      else if e == 'f' then Prepend(FormFeed, Unescape(s[2..]))
      else if e == 'r' then Prepend(CarriageReturn, Unescape(s[2..]))
      else if e == 'u' && |s| >= 6 && HexValue(s[2]) >= 0 && HexValue(s[3]) >= 0 && HexValue(s[4]) >= 0 && HexValue(s[5]) >= 0 then
        var v := ((HexValue(s[2]) * 16 + HexValue(s[3])) * 16 + HexValue(s[4])) * 16 + HexValue(s[5]);
        if 0xD800 <= v < 0xE000 then None else Prepend(v as char, Unescape(s[6..]))
      else None
  }

  /**
   * `JSON.parse` restricted to the payloads the chat stream sends: the object
   * `{"text":"..."}` written without spaces. Anything else is `None`.
   */
  function DecodeTextPayload(s: string): Option<JsValue>
  {
    var n := |TextPrefix| + 1;
    if |s| >= n + 2 && s[..n] == TextPrefix + "\"" && s[|s| - 2..] == "\"}" then
      match Unescape(s[n..|s| - 2])
      case Some(t) => Some(TextObject(t))
      case None => None
    else None
  }

  /** A control character without a short escape comes back from its `\u00XX` form. */
  lemma UnescapeControl(c: char, rest: string)
    requires (c as int) < 0x20 && c != Backspace && c != Tab && c != LineFeed && c != FormFeed && c != CarriageReturn
    ensures Unescape(EscapeChar(c) + rest) == Prepend(c, Unescape(rest))
  {
    var s := EscapeChar(c) + rest;
    var hi, lo := c as int / 16, c as int % 16;
    assert s[0] == '\\' && s[1] == 'u' && s[2] == '0' && s[3] == '0';
    assert s[4] == HexDigit(hi) && s[5] == HexDigit(lo);
    HexValueOfDigit(hi);
    HexValueOfDigit(lo);
    assert s[6..] == rest;
  }

  lemma {:induction false} UnescapeEscapeChar(c: char, rest: string)
    ensures Unescape(EscapeChar(c) + rest) == Prepend(c, Unescape(rest))
  {
    var s := EscapeChar(c) + rest;
    if (c as int) < 0x20 && c != Backspace && c != Tab && c != LineFeed && c != FormFeed && c != CarriageReturn {
      UnescapeControl(c, rest);
    } else if |EscapeChar(c)| == 2 {
      assert s[2..] == rest;
    } else {
      assert s[1..] == rest;
    }
  }

  lemma {:induction false} UnescapeEscape(t: string)
    ensures Unescape(Escape(t)) == Some(t)
  {
    if t != [] {
      calc {
        Unescape(Escape(t));
        Unescape(EscapeChar(t[0]) + Escape(t[1..]));
        { UnescapeEscapeChar(t[0], Escape(t[1..])); }
        Prepend(t[0], Unescape(Escape(t[1..])));
        { UnescapeEscape(t[1..]); }
        Some([t[0]] + t[1..]);
        { assert [t[0]] + t[1..] == t; }
        Some(t);
      }
    }
  }

  /** Round trip: the decoder reads back every payload the stream writes. */
  lemma DecodeEncodeTextPayload(t: string)
    ensures DecodeTextPayload(EncodeTextPayload(t)) == Some(TextObject(t))
  {
    var e := Escape(t);
    assert EncodeTextPayload(t) == TextPrefix + "\"" + e + "\"}";
    QuotedParts(e);
    UnescapeEscape(t);
  }

  /** Where the decoder finds the prefix, the escaped text and the closing quote and brace. */
  lemma QuotedParts(e: string)
    ensures var s, n := TextPrefix + "\"" + e + "\"}", |TextPrefix| + 1;
      |s| >= n + 2 && s[..n] == TextPrefix + "\"" && s[|s| - 2..] == "\"}" && s[n..|s| - 2] == e
  {
  }
}
