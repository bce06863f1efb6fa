/**
 * JSON string literals as `JSON.stringify` writes them, and a decoder
 * following the JSON grammar, which the encoder round-trips through.
 */
module JsonString {
  import opened Wrappers

  /** A lower-case hexadecimal digit, as `JSON.stringify` writes in `\u00XX`. */
  function HexDigit(d: nat): (c: char)
    requires d < 16
    ensures HexValue(c) == Some(d)
  {
    if d < 10 then ('0' as int + d) as char else ('a' as int + d - 10) as char
  }

  /** The value of one hexadecimal digit of either case. */
  function HexValue(c: char): (v: Option<nat>)
    ensures v.Some? ==> v.value < 16
  {
    if '0' <= c <= '9' then Some(c as int - '0' as int)
    else if 'a' <= c <= 'f' then Some(c as int - 'a' as int + 10)
    else if 'A' <= c <= 'F' then Some(c as int - 'A' as int + 10)
    else None
  }

  /** The value of the four hexadecimal digits of a `\uXXXX` escape. */
  function Hex4(h: string): (v: Option<nat>)
    requires |h| == 4
    ensures v.Some? ==> v.value < 0x1_0000
  {
    match (HexValue(h[0]), HexValue(h[1]), HexValue(h[2]), HexValue(h[3]))
    case (Some(a), Some(b), Some(c), Some(d)) => Some(((a * 16 + b) * 16 + c) * 16 + d)
    case _ => None
  }

  /** How `JSON.stringify` writes one character inside a string literal. */
  function EscapeChar(c: char): (e: string)
    ensures e != [] && forall i :: 0 <= i < |e| ==> e[i] >= ' '
  {
    if c == '"' then "\\\""
    else if c == '\\' then "\\\\"
    else if c == '\U{8}' then "\\b"
    else if c == '\t' then "\\t"
    else if c == '\n' then "\\n"
    else if c == '\U{C}' then "\\f"
    else if c == '\r' then "\\r"
    else if c < ' ' then "\\u00" + [HexDigit(c as int / 16), HexDigit(c as int % 16)]
    else [c]
  }

  /** The body of the string literal `JSON.stringify(s)`, without its quotes. */
  function Escape(s: string): (r: string)
    ensures forall i :: 0 <= i < |r| ==> r[i] >= ' '
    ensures |r| >= |s|
  {
    if s == [] then [] else EscapeChar(s[0]) + Escape(s[1..])
  }

  /** `JSON.stringify(s)` for a string `s`. */
  function Quote(s: string): string
  {
    "\"" + Escape(s) + "\""
  }

  function Cons(c: char, o: Option<string>): Option<string>
  {
    match o
    case None => None
    case Some(s) => Some([c] + s)
  }

  /** The character a two-character escape `\c` stands for. */
  function ShortEscape(c: char): Option<char>
  {
    if c == '"' then Some('"')
    else if c == '\\' then Some('\\')
    else if c == '/' then Some('/')
    else if c == 'b' then Some('\U{8}')
    else if c == 'f' then Some('\U{C}')
    else if c == 'n' then Some('\n')
    else if c == 'r' then Some('\r')
    else if c == 't' then Some('\t')
    else None
  }

  /**
   * The characters a JSON string-literal body stands for, or None when it
   * is not a valid body (a bare quote or control character, an unknown
   * escape). Surrogate escapes are refused: a `string` holds scalar values.
   */
  function Unescape(t: string): Option<string>
    decreases |t|
  {
    if t == [] then Some([])
    else if t[0] == '\\' then
      if |t| < 2 then None
      else if t[1] == 'u' then
        if |t| < 6 then None
        else
          match Hex4(t[2..6])
          case None => None
          case Some(v) =>
            if 0xD800 <= v <= 0xDFFF then None else Cons(v as char, Unescape(t[6..]))
      else
        match ShortEscape(t[1])
        case None => None
        case Some(d) => Cons(d, Unescape(t[2..]))
    else if t[0] == '"' || t[0] < ' ' then None
    else Cons(t[0], Unescape(t[1..]))
  }

  lemma EscapeCharThenRest(c: char, rest: string)
    ensures Unescape(EscapeChar(c) + rest) == Cons(c, Unescape(rest))
  {
    var t := EscapeChar(c) + rest;
    if c < ' ' && c != '\U{8}' && c != '\t' && c != '\n' && c != '\U{C}' && c != '\r' {
      var hi, lo := c as int / 16, c as int % 16;
      assert t[2..6] == ['0', '0', HexDigit(hi), HexDigit(lo)];
      assert Hex4(t[2..6]) == Some(hi * 16 + lo);
      assert t[6..] == rest;
    } else if c == '"' || c == '\\' || c == '\U{8}' || c == '\t' || c == '\n' || c == '\U{C}' || c == '\r' {
      assert t[2..] == rest;
    } else {
      assert t[1..] == rest;
    }
  }

  /** Decoding what `JSON.stringify` wrote gives back the original string. */
  lemma {:induction false} UnescapeEscape(s: string)
    ensures Unescape(Escape(s)) == Some(s)
  {
    if s != [] {
      UnescapeEscape(s[1..]);
      EscapeCharThenRest(s[0], Escape(s[1..]));
      assert [s[0]] + s[1..] == s;
    }
  }

  /** So two strings are written the same way only if they are equal. */
  lemma EscapeInjective(s1: string, s2: string)
    requires Escape(s1) == Escape(s2)
    ensures s1 == s2
  {
    UnescapeEscape(s1);
    UnescapeEscape(s2);
  }
}
