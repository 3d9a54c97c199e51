/** The parts of JavaScript the token build script leans on: `parseInt` with
    radix 16 (section 19.2.5 of ECMAScript, "parseInt ( string, radix )"),
    `String.prototype.substring`, `String.prototype.replace` with a string
    pattern, and the text of a number in a template literal. */
module ParseInt {
  import opened Strings

  // ---------------------------------------------------------------------------
  // Strings
  // ---------------------------------------------------------------------------

  /** `s.replace(c, "")` with a one-character string pattern: only the first occurrence goes. */
  function RemoveFirst(s: string, c: char): (r: string)
    ensures c !in s ==> r == s
    ensures c in s ==> |r| == |s| - 1
  {
    if |s| == 0 then s
    else if s[0] == c then s[1..]
    else [s[0]] + RemoveFirst(s[1..], c)
  }

  /** It is the first `c` that goes, and the other characters keep their order. */
  lemma {:induction false} RemoveFirstRemovesFirst(s: string, c: char)
    ensures c in s ==> exists i :: RemovedAt(s, c, i, RemoveFirst(s, c))
  {
    if |s| > 0 {
      if s[0] == c {
        assert RemovedAt(s, c, 0, RemoveFirst(s, c));
      } else {
        RemoveFirstRemovesFirst(s[1..], c);
        FirstOccurrenceShifts(s, c, RemoveFirst(s[1..], c));
      }
    }
  }

  /** `s[i]` is the first `c` in `s`, and `r` is `s` without it. */
  predicate RemovedAt(s: string, c: char, i: int, r: string) {
    0 <= i < |s| && s[i] == c && c !in s[..i] && r == s[..i] + s[i + 1..]
  }

  /** Removing the first `c` from the tail removes the first `c` from the whole
      text when the head is not `c`. */
  lemma FirstOccurrenceShifts(s: string, c: char, rest: string)
    requires |s| > 0 && s[0] != c
    requires c in s[1..] ==> exists j :: RemovedAt(s[1..], c, j, rest)
    ensures c in s ==> exists i :: RemovedAt(s, c, i, [s[0]] + rest)
  {
    if c in s {
      assert s == [s[0]] + s[1..];
      var j :| RemovedAt(s[1..], c, j, rest);
      assert s[..j + 1] == [s[0]] + s[1..][..j];
      assert s[j + 2..] == s[1..][j + 1..];
      assert RemovedAt(s, c, j + 1, [s[0]] + rest);
    }
  }

  /** `s.substring(start, end)` for `start <= end`: both ends clamped to the length. */
  function Substring(s: string, start: nat, end: nat): (r: string)
    requires start <= end
    ensures |r| <= end - start
  {
    var a := if start < |s| then start else |s|;
    var b := if end < |s| then end else |s|;
    s[a..b]
  }

  // ---------------------------------------------------------------------------
  // parseInt(s, 16)
  // ---------------------------------------------------------------------------

  /** A JavaScript number as `parseInt` can produce it: `NaN` or an integer.
      `-0` is kept as `Int(0)`, which prints the same. */
  datatype Num = NaN | Int(v: int)

  /** WhiteSpace and LineTerminator code points (sections 12.2 and 12.3 of ECMAScript). */
  predicate IsWhite(ch: char) {
    || ch == '\t' || ch == '\n' || ch == '\U{000B}' || ch == '\U{000C}' || ch == '\r'
    || ch == ' ' || ch == '\U{00A0}' || ch == '\U{1680}'
    || ('\U{2000}' <= ch <= '\U{200A}')
    || ch == '\U{2028}' || ch == '\U{2029}' || ch == '\U{202F}' || ch == '\U{205F}'
    || ch == '\U{3000}' || ch == '\U{FEFF}'
  }

  predicate IsHexDigit(ch: char) {
    ('0' <= ch <= '9') || ('a' <= ch <= 'f') || ('A' <= ch <= 'F')
  }

  function HexValue(ch: char): (d: nat)
    requires IsHexDigit(ch)
    ensures d < 16
  {
    if '0' <= ch <= '9' then ch as int - '0' as int
    else if 'a' <= ch <= 'f' then ch as int - 'a' as int + 10
    else ch as int - 'A' as int + 10
  }

  predicate AllHex(s: string) {
    forall i :: 0 <= i < |s| ==> IsHexDigit(s[i])
  }

  /** The value of a string of hex digits, most significant first. */
  function HexNumeral(s: string): nat
    requires AllHex(s)
  {
    if |s| == 0 then 0 else HexNumeral(s[..|s| - 1]) * 16 + HexValue(s[|s| - 1])
  }

  /** Drops leading white space. */
  function TrimStart(s: string): (r: string)
    ensures |r| <= |s|
    ensures |r| > 0 ==> !IsWhite(r[0])
  {
    if |s| > 0 && IsWhite(s[0]) then TrimStart(s[1..]) else s
  }

  /** Length of the longest prefix made of hex digits. */
  function HexPrefixLength(s: string): (n: nat)
    ensures n <= |s|
    ensures AllHex(s[..n])
    ensures n < |s| ==> !IsHexDigit(s[n])
  {
    if |s| == 0 || !IsHexDigit(s[0]) then 0
    else
      var n := 1 + HexPrefixLength(s[1..]);
      assert s[..n] == [s[0]] + s[1..][..n - 1];
      n
  }

  /** `parseInt(input, 16)`: skip white space, take one sign, drop a `0x`/`0X`
      prefix, read the longest run of hex digits; no digits is `NaN`. */
  function ParseIntHex(input: string): (r: Num)
    ensures |input| == 0 ==> r == NaN
    ensures |input| > 0 && AllHex(input) ==> r == Int(HexNumeral(input))
    ensures |input| > 0 && !IsWhite(input[0]) && !IsHexDigit(input[0]) && input[0] != '+' && input[0] != '-'
      ==> r == NaN
  {
    var s := TrimStart(input);
    var digits := StripHexPrefix(StripSign(s));
    var z := digits[..HexPrefixLength(digits)];
    HexPrefixOfNumeral(input);
    NumeralNeedsNoStripping(input);
    if |z| == 0 then NaN else Int(SignOf(s) * HexNumeral(z))
  }

  /** A run of hex digits has no white space, sign or `0x` to strip. */
  lemma NumeralNeedsNoStripping(s: string)
    ensures |s| > 0 && AllHex(s) ==> StripHexPrefix(StripSign(TrimStart(s))) == s && s[..|s|] == s
  {
    if |s| > 0 && AllHex(s) {
      assert IsHexDigit(s[0]);
      assert TrimStart(s) == s;
      if |s| >= 2 {
        assert IsHexDigit(s[1]);
      }
    }
  }

  /** A run of hex digits is read whole. */
  lemma {:induction false} HexPrefixOfNumeral(s: string)
    ensures AllHex(s) ==> HexPrefixLength(s) == |s|
  {
    if |s| > 0 {
      HexPrefixOfNumeral(s[1..]);
    }
  }

  /** -1 after a leading minus sign, 1 otherwise. */
  function SignOf(s: string): int {
    if |s| > 0 && s[0] == '-' then -1 else 1
  }

  /** Drops one leading `+` or `-`. */
  function StripSign(s: string): (r: string)
    ensures |r| <= |s|
    ensures SignOf(s) == -1 ==> |r| == |s| - 1
  {
    if |s| > 0 && (s[0] == '+' || s[0] == '-') then s[1..] else s
  }

  /** Drops a leading `0x` or `0X`. */
  function StripHexPrefix(s: string): (r: string)
    ensures |r| <= |s|
  {
    if |s| >= 2 && s[0] == '0' && (s[1] == 'x' || s[1] == 'X') then s[2..] else s
  }

  /** A number in a template literal. */
  function NumText(n: Num): (r: string)
    ensures |r| >= 1 && ' ' !in r && '\n' !in r
  {
    match n
    case NaN => "NaN"
    case Int(v) => IntToDecimal(v)
  }

  // ---------------------------------------------------------------------------
  // Properties of parseInt
  // ---------------------------------------------------------------------------

  lemma {:induction false} HexNumeralBound(s: string)
    requires AllHex(s)
    ensures |s| == 0 ==> HexNumeral(s) == 0
    ensures |s| == 1 ==> HexNumeral(s) < 16
    ensures |s| == 2 ==> HexNumeral(s) < 256
  {
    if |s| > 0 {
      HexNumeralBound(s[..|s| - 1]);
    }
  }

  /** Two hex digits read as `16 * high + low`. */
  lemma TwoHexDigits(x: string)
    requires |x| == 2 && IsHexDigit(x[0]) && IsHexDigit(x[1])
    ensures ParseIntHex(x) == Int(16 * HexValue(x[0]) + HexValue(x[1]))
  {
    assert !IsWhite(x[0]);
    assert TrimStart(x) == x;
    assert x[1] != 'x' && x[1] != 'X';
    assert HexPrefixLength(x[1..][1..]) == 0;
    assert HexPrefixLength(x[1..]) == 1;
    assert HexPrefixLength(x) == 2;
    assert x[..2] == x;
    assert x[..1][..0] == "";
    assert HexNumeral(x[..1]) == HexValue(x[0]);
    assert HexNumeral(x) == HexNumeral(x[..1]) * 16 + HexValue(x[1]);
  }

  /** Whatever two characters `parseInt` reads, an integer result lies in -15..255. */
  lemma ShortParseBounds(s: string)
    requires |s| <= 2
    ensures ParseIntHex(s).Int? ==> -15 <= ParseIntHex(s).v <= 255
  {
    var digits := StripHexPrefix(StripSign(TrimStart(s)));
    HexNumeralBound(digits[..HexPrefixLength(digits)]);
  }

  // ---------------------------------------------------------------------------
  // Case does not matter to parseInt
  // ---------------------------------------------------------------------------

  lemma LowerSlice(s: string, a: nat, b: nat)
    requires a <= b <= |s|
    ensures Lower(s)[a..b] == Lower(s[a..b])
  {
  }

  lemma {:induction false} TrimStartLower(s: string)
    ensures TrimStart(Lower(s)) == Lower(TrimStart(s))
  {
    if |s| > 0 {
      assert Lower(s)[0] == LowerChar(s[0]);
      assert IsWhite(LowerChar(s[0])) == IsWhite(s[0]);
      LowerSlice(s, 1, |s|);
      if IsWhite(s[0]) {
        TrimStartLower(s[1..]);
        assert s[1..|s|] == s[1..] && Lower(s)[1..|s|] == Lower(s)[1..];
        assert TrimStart(Lower(s)) == TrimStart(Lower(s)[1..]);
        assert TrimStart(s) == TrimStart(s[1..]);
      } else {
        assert TrimStart(Lower(s)) == Lower(s);
      }
    }
  }

  lemma HexDigitLower(ch: char)
    ensures IsHexDigit(LowerChar(ch)) == IsHexDigit(ch)
    ensures IsHexDigit(ch) ==> HexValue(LowerChar(ch)) == HexValue(ch)
  {
  }

  lemma {:induction false} HexPrefixLengthLower(s: string)
    ensures HexPrefixLength(Lower(s)) == HexPrefixLength(s)
  {
    if |s| > 0 {
      var l := Lower(s);
      assert l[0] == LowerChar(s[0]);
      HexDigitLower(s[0]);
      LowerSlice(s, 1, |s|);
      assert s[1..|s|] == s[1..] && l[1..|s|] == l[1..];
      HexPrefixLengthLower(s[1..]);
    }
  }

  lemma {:induction false} HexNumeralLower(s: string)
    requires AllHex(s)
    ensures AllHex(Lower(s)) && HexNumeral(Lower(s)) == HexNumeral(s)
  {
    if |s| > 0 {
      LowerSlice(s, 0, |s| - 1);
      assert s[0..|s| - 1] == s[..|s| - 1];
      HexDigitLower(s[|s| - 1]);
      HexNumeralLower(s[..|s| - 1]);
    }
  }

  lemma StripSignLower(s: string)
    ensures StripSign(Lower(s)) == Lower(StripSign(s)) && SignOf(Lower(s)) == SignOf(s)
  {
    if |s| > 0 {
      LowerSlice(s, 1, |s|);
      assert s[1..|s|] == s[1..] && Lower(s)[1..|s|] == Lower(s)[1..];
    }
  }

  lemma StripHexPrefixLower(s: string)
    ensures StripHexPrefix(Lower(s)) == Lower(StripHexPrefix(s))
  {
    if |s| >= 2 {
      LowerSlice(s, 2, |s|);
      assert s[2..|s|] == s[2..] && Lower(s)[2..|s|] == Lower(s)[2..];
    }
  }

  /** `parseInt(s, 16)` does not see the case of ASCII letters. */
  lemma ParseIntIgnoresCase(s: string)
    ensures ParseIntHex(Lower(s)) == ParseIntHex(s)
  {
    var t := TrimStart(s);
    TrimStartLower(s);
    StripSignLower(t);
    StripHexPrefixLower(StripSign(t));
    var digits := StripHexPrefix(StripSign(t));
    HexPrefixLengthLower(digits);
    var n := HexPrefixLength(digits);
    LowerSlice(digits, 0, n);
    assert digits[0..n] == digits[..n] && Lower(digits)[0..n] == Lower(digits)[..n];
    HexNumeralLower(digits[..n]);
  }
}
