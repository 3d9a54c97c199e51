/** The token build script's own logic: `hexToRGBChannels`, which turns a
    hex colour into space-separated decimal channels, and the
    `css/variables-rgb` format, one custom-property line per token. */
module BuildTokens {
  import opened Wrappers
  import opened Strings
  import opened ParseInt

  // ---------------------------------------------------------------------------
  // hexToRGBChannels
  // ---------------------------------------------------------------------------

  /** The three `parseInt` results of one colour. */
  datatype Channels = Channels(r: Num, g: Num, b: Num)

  /** The `#`-less colour text: only the first `#` is removed. */
  function CleanHex(hex: string): string {
    RemoveFirst(hex, '#')
  }

  /** Characters 0-1, 2-3 and 4-5 of the clean text, each read as base 16. */
  function ReadChannels(hex: string): Channels {
    var clean := CleanHex(hex);
    Channels(
      ParseIntHex(Substring(clean, 0, 2)),
      ParseIntHex(Substring(clean, 2, 4)),
      ParseIntHex(Substring(clean, 4, 6)))
  }

  /** `hexToRGBChannels`: the three channels in a template literal, one space apart. */
  function HexToRGBChannels(hex: string): (rgb: string)
    ensures '\n' !in rgb
  {
    var c := ReadChannels(hex);
    NumText(c.r) + " " + NumText(c.g) + " " + NumText(c.b)
  }

  /** The value of the two hex digits at `i` and `i + 1`. */
  function Pair(s: string, i: nat): nat
    requires i + 1 < |s| && IsHexDigit(s[i]) && IsHexDigit(s[i + 1])
  {
    16 * HexValue(s[i]) + HexValue(s[i + 1])
  }

  /** The clean text starts with six hex digits. */
  predicate SixHexDigits(hex: string) {
    var clean := CleanHex(hex);
    |clean| >= 6 && forall i :: 0 <= i < 6 ==> IsHexDigit(clean[i])
  }

  // ---------------------------------------------------------------------------
  // Reading the channels back
  // ---------------------------------------------------------------------------

  /** Lower-case hex digit of `d < 16`. */
  function HexDigitChar(d: nat): (ch: char)
    requires d < 16
    ensures IsHexDigit(ch) && HexValue(ch) == d && !IsAsciiUpper(ch)
  {
    if d < 10 then ('0' as int + d) as char else ('a' as int + d - 10) as char
  }

  /** Two lower-case hex digits for a byte. */
  function Hex2(v: nat): (s: string)
    requires v < 256
    ensures |s| == 2
  {
    [HexDigitChar(v / 16), HexDigitChar(v % 16)]
  }

  predicate IsByteNumeral(s: string) {
    Canonical(s) && DecimalValue(s) < 256
  }

  /** The inverse reading: three space-separated canonical numerals below 256
      become six lower-case hex digits; anything else is rejected. */
  function DecodeChannels(rgb: string): (hex: Option<string>)
    ensures hex.Some? ==> |hex.value| == 6 && AllHex(hex.value)
  {
    var parts := Split(rgb, ' ');
    if |parts| == 3 && IsByteNumeral(parts[0]) && IsByteNumeral(parts[1]) && IsByteNumeral(parts[2]) then
      var h := Hex2(DecimalValue(parts[0])) + Hex2(DecimalValue(parts[1])) + Hex2(DecimalValue(parts[2]));
      assert forall i :: 0 <= i < 6 ==> h[i] == (if i < 2 then Hex2(DecimalValue(parts[0]))[i]
        else if i < 4 then Hex2(DecimalValue(parts[1]))[i - 2] else Hex2(DecimalValue(parts[2]))[i - 4]);
      Some(h)
    else None
  }

  // ---------------------------------------------------------------------------
  // Properties of hexToRGBChannels
  // ---------------------------------------------------------------------------

  lemma JoinThree(a: string, b: string, c: string, sep: char)
    ensures a + [sep] + b + [sep] + c == Join([a, b, c], sep)
  {
    assert [a, b, c][1..] == [b, c];
    assert [b, c][1..] == [c];
    assert Join([b, c], sep) == b + [sep] + c;
    assert Join([a, b, c], sep) == a + [sep] + (b + [sep] + c);
  }

  /** Whatever the input, the result is the three channel texts separated by
      exactly two spaces. */
  lemma ChannelsSeparated(hex: string)
    ensures var c := ReadChannels(hex);
      Split(HexToRGBChannels(hex), ' ') == [NumText(c.r), NumText(c.g), NumText(c.b)]
    ensures Count(HexToRGBChannels(hex), ' ') == 2
  {
    var c := ReadChannels(hex);
    SplitThree(NumText(c.r), NumText(c.g), NumText(c.b));
  }

  /** Whatever the input, each channel is `NaN` or an integer in -15..255:
      at most two characters are read, one of which may be a minus sign. */
  lemma ChannelBounds(hex: string)
    ensures var c := ReadChannels(hex);
      && (c.r.Int? ==> -15 <= c.r.v <= 255)
      && (c.g.Int? ==> -15 <= c.g.v <= 255)
      && (c.b.Int? ==> -15 <= c.b.v <= 255)
  {
    var clean := CleanHex(hex);
    ShortParseBounds(Substring(clean, 0, 2));
    ShortParseBounds(Substring(clean, 2, 4));
    ShortParseBounds(Substring(clean, 4, 6));
  }

  /** A colour that starts with six hex digits (after an optional `#`) gives
      the three byte values as decimal numerals. */
  lemma ValidHex(hex: string)
    requires SixHexDigits(hex)
    ensures var clean := CleanHex(hex);
      && Pair(clean, 0) < 256 && Pair(clean, 2) < 256 && Pair(clean, 4) < 256
      && ReadChannels(hex) == Channels(Int(Pair(clean, 0)), Int(Pair(clean, 2)), Int(Pair(clean, 4)))
      && HexToRGBChannels(hex)
         == NatToDecimal(Pair(clean, 0)) + " " + NatToDecimal(Pair(clean, 2)) + " " + NatToDecimal(Pair(clean, 4))
  {
    var clean := CleanHex(hex);
    ChannelAt(clean, 0);
    ChannelAt(clean, 2);
    ChannelAt(clean, 4);
    var c := ReadChannels(hex);
    assert c == Channels(Int(Pair(clean, 0)), Int(Pair(clean, 2)), Int(Pair(clean, 4)));
    assert NumText(c.r) == NatToDecimal(Pair(clean, 0));
    assert NumText(c.g) == NatToDecimal(Pair(clean, 2));
    assert NumText(c.b) == NatToDecimal(Pair(clean, 4));
  }

  lemma ChannelAt(clean: string, i: nat)
    requires i + 1 < |clean| && IsHexDigit(clean[i]) && IsHexDigit(clean[i + 1])
    ensures ParseIntHex(Substring(clean, i, i + 2)) == Int(Pair(clean, i))
  {
    assert Substring(clean, i, i + 2) == clean[i..i + 2];
    TwoHexDigits(clean[i..i + 2]);
  }

  lemma Hex2OfPair(s: string, i: nat)
    requires i + 1 < |s| && IsHexDigit(s[i]) && IsHexDigit(s[i + 1])
    ensures Pair(s, i) < 256 && Hex2(Pair(s, i)) == Lower(s[i..i + 2])
  {
    var v := Pair(s, i);
    assert v / 16 == HexValue(s[i]) && v % 16 == HexValue(s[i + 1]);
    HexDigitOfValue(s[i]);
    HexDigitOfValue(s[i + 1]);
  }

  lemma HexDigitOfValue(ch: char)
    requires IsHexDigit(ch)
    ensures HexDigitChar(HexValue(ch)) == LowerChar(ch)
  {
  }

  /** Round trip: reading the channels of a six-digit colour back gives its
      first six digits, lower-cased. */
  lemma RoundTrip(hex: string)
    requires SixHexDigits(hex)
    ensures DecodeChannels(HexToRGBChannels(hex)) == Some(Lower(CleanHex(hex)[..6]))
  {
    ValidHex(hex);
    DecodeSix(CleanHex(hex));
  }

  /** The channel numerals of six hex digits decode to the digits lower-cased. */
  lemma DecodeSix(clean: string)
    requires |clean| >= 6 && forall i :: 0 <= i < 6 ==> IsHexDigit(clean[i])
    ensures DecodeChannels(NatToDecimal(Pair(clean, 0)) + " " + NatToDecimal(Pair(clean, 2)) + " "
      + NatToDecimal(Pair(clean, 4))) == Some(Lower(clean[..6]))
  {
    var a, b, c := NatToDecimal(Pair(clean, 0)), NatToDecimal(Pair(clean, 2)), NatToDecimal(Pair(clean, 4));
    DecodeByte(clean, 0);
    DecodeByte(clean, 2);
    DecodeByte(clean, 4);
    DecodeThree(a, b, c);
    LowerSix(clean);
  }

  /** Three byte numerals, space-separated, decode to their hex pairs. */
  lemma DecodeThree(a: string, b: string, c: string)
    requires IsByteNumeral(a) && IsByteNumeral(b) && IsByteNumeral(c)
    ensures DecodeChannels(a + " " + b + " " + c)
      == Some(Hex2(DecimalValue(a)) + Hex2(DecimalValue(b)) + Hex2(DecimalValue(c)))
  {
    NumeralHasNoSpace(a);
    NumeralHasNoSpace(b);
    NumeralHasNoSpace(c);
    SplitThree(a, b, c);
    var parts := Split(a + " " + b + " " + c, ' ');
    assert parts[0] == a && parts[1] == b && parts[2] == c;
  }

  lemma NumeralHasNoSpace(s: string)
    requires AllDigits(s)
    ensures ' ' !in s
  {
  }

  /** Three space-free texts joined by single spaces split back into the three. */
  lemma SplitThree(a: string, b: string, c: string)
    requires ' ' !in a && ' ' !in b && ' ' !in c
    ensures Split(a + " " + b + " " + c, ' ') == [a, b, c]
  {
    JoinThree(a, b, c, ' ');
    SplitJoin([a, b, c], ' ');
  }

  lemma LowerSix(s: string)
    requires |s| >= 6
    ensures Lower(s[..6]) == Lower(s[0..2]) + Lower(s[2..4]) + Lower(s[4..6])
  {
  }

  /** One channel read back: its numeral is a byte numeral whose two hex digits are the pair lower-cased. */
  lemma DecodeByte(clean: string, i: nat)
    requires i + 1 < |clean| && IsHexDigit(clean[i]) && IsHexDigit(clean[i + 1])
    ensures var d := NatToDecimal(Pair(clean, i));
      IsByteNumeral(d) && Hex2(DecimalValue(d)) == Lower(clean[i..i + 2])
  {
    DecimalRoundTrip(Pair(clean, i));
    Hex2OfPair(clean, i);
  }

  /** Both upper- and lower-case digits are accepted and mean the same. */
  lemma IgnoresCase(hex: string)
    ensures HexToRGBChannels(Lower(hex)) == HexToRGBChannels(hex)
  {
    var clean := CleanHex(hex);
    RemoveFirstLower(hex);
    SubstringLower(clean, 0, 2);
    SubstringLower(clean, 2, 4);
    SubstringLower(clean, 4, 6);
    ParseIntIgnoresCase(Substring(clean, 0, 2));
    ParseIntIgnoresCase(Substring(clean, 2, 4));
    ParseIntIgnoresCase(Substring(clean, 4, 6));
  }

  lemma {:induction false} RemoveFirstLower(s: string)
    ensures RemoveFirst(Lower(s), '#') == Lower(RemoveFirst(s, '#'))
  {
    if |s| > 0 {
      assert Lower(s)[0] == LowerChar(s[0]);
      LowerSlice(s, 1, |s|);
      assert s[1..|s|] == s[1..] && Lower(s)[1..|s|] == Lower(s)[1..];
      RemoveFirstLower(s[1..]);
      if s[0] != '#' {
        assert Lower([s[0]] + RemoveFirst(s[1..], '#'))
          == [LowerChar(s[0])] + Lower(RemoveFirst(s[1..], '#'));
      }
    }
  }

  lemma SubstringLower(s: string, a: nat, b: nat)
    requires a <= b
    ensures Substring(Lower(s), a, b) == Lower(Substring(s, a, b))
  {
    var x := if a < |s| then a else |s|;
    var y := if b < |s| then b else |s|;
    LowerSlice(s, x, y);
  }

  /** The leading `#` is optional. */
  lemma HashOptional(hex: string)
    requires '#' !in hex
    ensures HexToRGBChannels("#" + hex) == HexToRGBChannels(hex)
  {
    assert ("#" + hex)[1..] == hex;
  }

  /** Only the first `#` goes: a second one stays in front of the digits and
      the red channel reads as `NaN`. */
  lemma SecondHashKept(hex: string)
    ensures CleanHex("##" + hex) == "#" + hex
    ensures ReadChannels("##" + hex).r == NaN
  {
    assert ("##" + hex)[1..] == "#" + hex;
    var first := Substring("#" + hex, 0, 2);
    assert |first| >= 1 && first[0] == '#';
    assert TrimStart(first) == first;
    assert StripHexPrefix(StripSign(first)) == first;
    assert HexPrefixLength(first) == 0;
  }

  lemma {:induction false} RemoveFirstAppend(s: string, t: string, c: char)
    ensures RemoveFirst(s + t, c) == if c in s then RemoveFirst(s, c) + t else s + RemoveFirst(t, c)
  {
    if |s| > 0 {
      assert (s + t)[0] == s[0] && (s + t)[1..] == s[1..] + t;
      RemoveFirstAppend(s[1..], t, c);
      assert c in s <==> s[0] == c || c in s[1..];
    } else {
      assert s + t == t;
    }
  }

  /** Only the first six characters after the `#` are read: anything after
      them, such as an alpha pair, is ignored. */
  lemma OnlySixRead(hex: string, rest: string)
    requires |CleanHex(hex)| >= 6
    ensures HexToRGBChannels(hex + rest) == HexToRGBChannels(hex)
  {
    var clean := CleanHex(hex);
    var clean2 := CleanHex(hex + rest);
    RemoveFirstAppend(hex, rest, '#');
    assert clean2[..6] == clean[..6];
    assert Substring(clean2, 0, 2) == Substring(clean, 0, 2);
    assert Substring(clean2, 2, 4) == Substring(clean, 2, 4);
    assert Substring(clean2, 4, 6) == Substring(clean, 4, 6);
  }

  /** A three-digit shorthand colour is not expanded: `#fff` reads as the
      pairs `ff`, `f` and nothing. */
  lemma ShorthandNotExpanded()
    ensures ReadChannels("#fff") == Channels(Int(255), Int(15), NaN)
    ensures HexToRGBChannels("#fff") == "255 15 NaN"
  {
    var clean := CleanHex("#fff");
    assert clean == "fff";
    assert Substring(clean, 0, 2) == "ff";
    assert Substring(clean, 2, 4) == "f";
    assert Substring(clean, 4, 6) == "";
    TwoHexDigits("ff");
    OneHexDigitF();
    assert NatToDecimal(255) == "255" by {
      assert NatToDecimal(25) == "25";
    }
    assert NatToDecimal(15) == "15";
  }

  lemma OneHexDigitF()
    ensures ParseIntHex("f") == Int(15) && ParseIntHex("") == NaN
  {
    assert TrimStart("f") == "f";
    assert HexPrefixLength("f"[1..]) == 0;
    assert "f"[..1] == "f" && "f"[..0] == "";
  }

  // ---------------------------------------------------------------------------
  // The css/variables-rgb format
  // ---------------------------------------------------------------------------

  /** A token as the format sees it, after name and value transforms. */
  datatype CssToken = CssToken(name: string, tokenType: string, value: string, description: Option<string>)

  const Header: string := "/**\n * Do not edit directly, this file was auto-generated.\n */\n\n:root {\n"

  /** `  --<name>: <payload>;` */
  function Declaration(name: string, payload: string): (d: string)
    ensures |d| > 4 && d[..4] == "  --" && d[|d| - 1] == ';'
    ensures '\n' !in name && '\n' !in payload ==> '\n' !in d
  {
    "  --" + name + ": " + payload + ";"
  }

  /** ` /* <text> */` */
  function Comment(text: string): (c: string)
    ensures |c| >= 6 && c[|c| - 3..] == " */"
    ensures '\n' !in text ==> '\n' !in c
  {
    " /* " + text + " */"
  }

  /** One custom property. A colour declares its channels and always carries
      a comment, empty when there is no description; any other token declares
      its value as it is and carries a comment only for a non-empty
      description. */
  function CssLine(t: CssToken): (line: string)
    ensures |line| > 4 && line[..4] == "  --"
  {
    if t.tokenType == "color" then
      Declaration(t.name, HexToRGBChannels(t.value)) + Comment(OrElse(t.description, ""))
    else
      Declaration(t.name, t.value) + (if Truthy(t.description) then Comment(t.description.value) else "")
  }

  function CssLines(ts: seq<CssToken>): (lines: seq<string>)
    ensures |lines| == |ts|
    ensures forall i :: 0 <= i < |ts| ==> lines[i] == CssLine(ts[i])
  {
    seq(|ts|, i requires 0 <= i < |ts| => CssLine(ts[i]))
  }

  /** The generated stylesheet: banner, `:root {`, one line per token, `}`. */
  function CssFile(ts: seq<CssToken>): (css: string)
    ensures |css| >= |Header| + 2
    ensures css[..|Header|] == Header && css[|css| - 2..] == "\n}"
  {
    Header + Join(CssLines(ts), '\n') + "\n}"
  }

  predicate EndsWith(s: string, suffix: string) {
    |s| >= |suffix| && s[|s| - |suffix|..] == suffix
  }

  /** A line ends in a comment exactly when the token is a colour or has a
      non-empty description. */
  lemma CommentIffColorOrDescribed(t: CssToken)
    ensures EndsWith(CssLine(t), " */") <==> t.tokenType == "color" || Truthy(t.description)
  {
    var line := CssLine(t);
    if t.tokenType == "color" {
      var c := Comment(OrElse(t.description, ""));
      assert line[|line| - 3..] == c[|c| - 3..];
    } else if Truthy(t.description) {
      var c := Comment(t.description.value);
      assert line[|line| - 3..] == c[|c| - 3..];
    } else {
      assert line[|line| - 1] == ';';
    }
  }

  /** A colour line declares the channels of the value, whose reading back
      gives the colour's six digits lower-cased. */
  lemma ColorLineChannels(t: CssToken)
    requires t.tokenType == "color" && SixHexDigits(t.value)
    ensures var rgb := HexToRGBChannels(t.value);
      && CssLine(t) == "  --" + t.name + ": " + rgb + "; /* " + OrElse(t.description, "") + " */"
      && DecodeChannels(rgb) == Some(Lower(CleanHex(t.value)[..6]))
  {
    ColorLineShape(t);
    RoundTrip(t.value);
  }

  lemma ColorLineShape(t: CssToken)
    requires t.tokenType == "color"
    ensures CssLine(t)
      == "  --" + t.name + ": " + HexToRGBChannels(t.value) + "; /* " + OrElse(t.description, "") + " */"
  {
    DeclarationWithComment(t.name, HexToRGBChannels(t.value), OrElse(t.description, ""));
  }

  /** Any other token declares its value as it is, with a comment only for a
      non-empty description. */
  lemma NonColorLineShape(t: CssToken)
    requires t.tokenType != "color"
    ensures CssLine(t)
      == "  --" + t.name + ": " + t.value + ";"
         + (if Truthy(t.description) then " /* " + t.description.value + " */" else "")
  {
  }

  lemma DeclarationWithComment(name: string, payload: string, text: string)
    ensures Declaration(name, payload) + Comment(text) == "  --" + name + ": " + payload + "; /* " + text + " */"
  {
    assert ";" + " /* " == "; /* ";
  }

  /** A token's line has no line break when its name, value and description have none. */
  predicate SingleLine(t: CssToken) {
    && '\n' !in t.name
    && '\n' !in t.value
    && (t.description.Some? ==> '\n' !in t.description.value)
  }

  lemma LineHasNoBreak(t: CssToken)
    requires SingleLine(t)
    ensures '\n' !in CssLine(t)
  {
  }

  /** Tokens whose text has no line breaks come out one per line, in order:
      splitting the body between `:root {` and `}` at line breaks gives back
      exactly the lines of the tokens. */
  lemma OneLinePerToken(ts: seq<CssToken>)
    requires |ts| >= 1
    requires forall i :: 0 <= i < |ts| ==> SingleLine(ts[i])
    ensures var css := CssFile(ts);
      Split(css[|Header|..|css| - 2], '\n') == CssLines(ts)
  {
    var lines := CssLines(ts);
    forall i | 0 <= i < |lines| ensures '\n' !in lines[i] {
      LineHasNoBreak(ts[i]);
    }
    var css := CssFile(ts);
    assert css[|Header|..|css| - 2] == Join(lines, '\n');
    SplitJoin(lines, '\n');
  }

  /** With no tokens the body is empty. */
  lemma NoTokens()
    ensures CssFile([]) == Header + "\n}"
  {
  }
}
