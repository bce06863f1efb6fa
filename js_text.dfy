/**
 * The few JavaScript string primitives the handlers lean on, over `string`
 * (a sequence of Unicode scalar values).
 */
module JsText {

  predicate IsDigit(c: char)
  {
    '0' <= c <= '9'
  }

  predicate AllDigits(s: string)
  {
    forall i :: 0 <= i < |s| ==> IsDigit(s[i])
  }

  /**
   * The characters that the regular-expression class `\s` matches and that
   * `String.prototype.trim` removes: ECMAScript WhiteSpace and LineTerminator.
   */
  predicate IsSpace(c: char)
  {
    c == '\t' || c == '\n' || c == '\U{B}' || c == '\U{C}' || c == '\r' || c == ' '
    || c == '\U{A0}' || c == '\U{1680}' || '\U{2000}' <= c <= '\U{200A}'
    || c == '\U{2028}' || c == '\U{2029}' || c == '\U{202F}' || c == '\U{205F}'
    || c == '\U{3000}' || c == '\U{FEFF}'
  }

  /** The characters that `.` in a regular expression without the `s` flag refuses. */
  predicate IsLineTerminator(c: char)
  {
    c == '\n' || c == '\r' || c == '\U{2028}' || c == '\U{2029}'
  }

  /** Lower-casing of one character, for the ASCII letters only. */
  function LowerChar(c: char): (d: char)
    ensures 'A' <= c <= 'Z' ==> 'a' <= d <= 'z' && d as int - c as int == 32
    ensures !('A' <= c <= 'Z') ==> d == c
  {
    if 'A' <= c <= 'Z' then (c as int + 32) as char else c
  }

  /** `toLowerCase()` restricted to ASCII letters. */
  function ToLower(s: string): string
  {
    seq(|s|, i requires 0 <= i < |s| => LowerChar(s[i]))
  }

  /** `s.slice(0, n)` and `s.substring(0, n)` for a non-negative `n`. */
  function Take(s: string, n: nat): (r: string)
    ensures |r| <= n && |r| <= |s|
    ensures r == s[..|r|]
    ensures |s| <= n ==> r == s
    ensures |s| > n ==> |r| == n
  {
    if |s| <= n then s else s[..n]
  }

  /** Cutting to a larger length first changes nothing. */
  lemma TakeOfTake(s: string, small: nat, large: nat)
    requires small <= large
    ensures Take(Take(s, large), small) == Take(s, small)
  {
    if |s| > large {
      assert s[..large][..small] == s[..small];
    }
  }

  /** How many whitespace characters `s` starts with. */
  function LeadingSpaces(s: string): (n: nat)
    ensures n <= |s|
    ensures forall i :: 0 <= i < n ==> IsSpace(s[i])
    ensures n < |s| ==> !IsSpace(s[n])
  {
    if s != [] && IsSpace(s[0]) then 1 + LeadingSpaces(s[1..]) else 0
  }

  /** How many whitespace characters `s` ends with. */
  function TrailingSpaces(s: string): (n: nat)
    ensures n <= |s|
    ensures forall i :: |s| - n <= i < |s| ==> IsSpace(s[i])
    ensures n < |s| ==> !IsSpace(s[|s| - 1 - n])
  {
    if s != [] && IsSpace(s[|s| - 1]) then 1 + TrailingSpaces(s[..|s| - 1]) else 0
  }

  /**
   * `String.prototype.trim`: the slice of `s` left once the leading and the
   * trailing whitespace are dropped; it neither starts nor ends with whitespace.
   */
  function Trim(s: string): (r: string)
    ensures var a := LeadingSpaces(s);
            a + |r| <= |s| && r == s[a..a + |r|]
            && forall i :: a + |r| <= i < |s| ==> IsSpace(s[i])
    ensures r != [] ==> !IsSpace(r[0]) && !IsSpace(r[|r| - 1])
  {
    var a := LeadingSpaces(s);
    var b := TrailingSpaces(s[a..]);
    var r := s[a..|s| - b];
    forall i | a + |r| <= i < |s|
      ensures IsSpace(s[i])
    {
      assert s[i] == s[a..][i - a];
    }
    assert r != [] ==> r[0] == s[a] && r[|r| - 1] == s[a..][|s| - a - 1 - b];
    r
  }

  /** A decimal digit for `0 <= d < 10`. */
  function DigitChar(d: nat): (c: char)
    requires d < 10
    ensures IsDigit(c) && c as int - '0' as int == d
  {
    ('0' as int + d) as char
  }

  /** The value of a string of decimal digits. */
  function DigitsValue(s: string): nat
    requires AllDigits(s)
  {
    if s == [] then 0 else DigitsValue(s[..|s| - 1]) * 10 + (s[|s| - 1] as int - '0' as int)
  }

  /** `String(n)` for a non-negative integer: its shortest decimal spelling. */
  function NatToString(n: nat): (r: string)
    ensures r != [] && AllDigits(r)
    ensures DigitsValue(r) == n
    ensures |r| > 1 ==> r[0] != '0'
  {
    if n < 10 then [DigitChar(n)]
    else
      var p := NatToString(n / 10);
      var r := p + [DigitChar(n % 10)];
      assert r[..|r| - 1] == p;
      r
  }

  predicate IsPrefix(p: string, s: string)
  {
    |p| <= |s| && s[..|p|] == p
  }

  /** `s.includes(t)`. */
  predicate Contains(s: string, t: string)
  {
    IsPrefix(t, s) || (s != [] && Contains(s[1..], t))
  }

  /** A string contains each of its slices. */
  lemma {:induction false} SliceContained(s: string, a: nat, b: nat)
    requires a <= b <= |s|
    ensures Contains(s, s[a..b])
    decreases a
  {
    if a == 0 {
      assert s[..|s[a..b]|] == s[a..b];
    } else {
      var rest := s[1..];
      SliceContained(rest, a - 1, b - 1);
      assert rest[a - 1..b - 1] == s[a..b] by {
        forall i | 0 <= i < b - a ensures rest[a - 1..b - 1][i] == s[a..b][i] {
          assert rest[a - 1 + i] == s[a + i];
        }
      }
    }
  }

  /** A slice of a piece a string contains is contained in the string too. */
  lemma {:induction false} ContainedSlice(s: string, t: string, a: nat, b: nat)
    requires Contains(s, t) && a <= b <= |t|
    ensures Contains(s, t[a..b])
  {
    if IsPrefix(t, s) {
      SliceContained(s, a, b);
      assert t[a..b] == s[a..b];
    } else {
      ContainedSlice(s[1..], t, a, b);
    }
  }

  /** A string that contains a piece contains that piece trimmed. */
  lemma TrimContained(s: string, t: string)
    requires Contains(s, t)
    ensures Contains(s, Trim(t))
  {
    ContainedSlice(s, t, LeadingSpaces(t), LeadingSpaces(t) + |Trim(t)|);
  }

  /** A string contains whatever it is built around. */
  lemma {:induction false} ContainsMiddle(a: string, t: string, b: string)
    ensures Contains(a + t + b, t)
  {
    if a == [] {
      assert a + t + b == t + b;
      assert (t + b)[..|t|] == t;
    } else {
      ContainsMiddle(a[1..], t, b);
      assert (a + t + b)[1..] == a[1..] + t + b;
    }
  }
}
