/** String helpers shared by the components: JavaScript's `split` and `join`
    on a one-character separator, ASCII case mapping, decimal rendering of
    integers and the truthiness of an optional string. */
module Strings {
  import opened Wrappers

  // ---------------------------------------------------------------------------
  // Split and join on a single character
  // ---------------------------------------------------------------------------

  /** Number of occurrences of `c` in `s`. */
  function Count(s: string, c: char): nat {
    if |s| == 0 then 0
    else (if s[0] == c then 1 else 0) + Count(s[1..], c)
  }

  /** `s.split(c)`: the maximal separator-free pieces, empty pieces kept. */
  function Split(s: string, c: char): (r: seq<string>)
    ensures |r| == Count(s, c) + 1
    ensures forall i :: 0 <= i < |r| ==> c !in r[i]
  {
    if |s| == 0 then [""]
    else
      var rest := Split(s[1..], c);
      if s[0] == c then [""] + rest
      else [[s[0]] + rest[0]] + rest[1..]
  }

  /** `ws.join(c)`: the pieces with one separator between neighbours. */
  function Join(ws: seq<string>, c: char): string {
    if |ws| == 0 then ""
    else if |ws| == 1 then ws[0]
    else ws[0] + [c] + Join(ws[1..], c)
  }

  /** `ws.join('')`: plain concatenation. */
  function Concat(ws: seq<string>): string {
    if |ws| == 0 then "" else ws[0] + Concat(ws[1..])
  }

  /** Joining the pieces of a split gives back the original string. */
  lemma {:induction false} JoinSplit(s: string, c: char)
    ensures Join(Split(s, c), c) == s
  {
    if |s| > 0 {
      var rest := Split(s[1..], c);
      JoinSplit(s[1..], c);
      if s[0] == c {
        assert Split(s, c) == [""] + rest;
        assert ([""] + rest)[1..] == rest;
      } else {
        var r := Split(s, c);
        assert r == [[s[0]] + rest[0]] + rest[1..];
        if |rest| == 1 {
          assert Join(rest, c) == rest[0];
        } else {
          assert r[1..] == rest[1..];
          assert Join(rest, c) == rest[0] + [c] + Join(rest[1..], c);
        }
      }
    }
  }

  /** Splitting a separator-free prefix glued onto `t` extends the first piece of `t`. */
  lemma {:induction false} SplitConcat(w: string, t: string, c: char)
    requires c !in w
    ensures Split(w + t, c) == [w + Split(t, c)[0]] + Split(t, c)[1..]
  {
    if |w| == 0 {
      assert w + t == t;
      assert w + Split(t, c)[0] == Split(t, c)[0];
      assert [Split(t, c)[0]] + Split(t, c)[1..] == Split(t, c);
    } else {
      var s := w + t;
      assert s[1..] == w[1..] + t;
      SplitConcat(w[1..], t, c);
      assert [w[0]] + (w[1..] + Split(t, c)[0]) == w + Split(t, c)[0];
    }
  }

  /** Splitting a join of separator-free pieces gives back the pieces. */
  lemma {:induction false} SplitJoin(ws: seq<string>, c: char)
    requires |ws| >= 1
    requires forall i :: 0 <= i < |ws| ==> c !in ws[i]
    ensures Split(Join(ws, c), c) == ws
  {
    if |ws| == 1 {
      SplitConcat(ws[0], "", c);
      assert ws[0] + "" == ws[0];
    } else {
      var t := Join(ws[1..], c);
      SplitJoin(ws[1..], c);
      assert Join(ws, c) == ws[0] + ([c] + t);
      SplitConcat(ws[0], [c] + t, c);
      assert ([c] + t)[1..] == t;
      assert Split([c] + t, c) == [""] + Split(t, c);
      assert ws[0] + "" == ws[0];
      assert ws == [ws[0]] + ws[1..];
    }
  }

  /** Joining two non-empty runs of pieces puts one separator at the seam. */
  lemma {:induction false} JoinAppend(a: seq<string>, b: seq<string>, c: char)
    requires |a| >= 1 && |b| >= 1
    ensures Join(a + b, c) == Join(a, c) + [c] + Join(b, c)
  {
    if |a| == 1 {
      assert (a + b)[1..] == b;
    } else {
      assert (a + b)[1..] == a[1..] + b;
      JoinAppend(a[1..], b, c);
    }
  }

  lemma {:induction false} CountAppend(a: string, b: string, c: char)
    ensures Count(a + b, c) == Count(a, c) + Count(b, c)
  {
    if |a| > 0 {
      assert (a + b)[1..] == a[1..] + b;
      CountAppend(a[1..], b, c);
    } else {
      assert a + b == b;
    }
  }

  lemma {:induction false} CountAbsent(s: string, c: char)
    ensures c !in s <==> Count(s, c) == 0
  {
    if |s| > 0 {
      CountAbsent(s[1..], c);
      assert s == [s[0]] + s[1..];
    }
  }

  // ---------------------------------------------------------------------------
  // ASCII case mapping (JavaScript's toUpperCase/toLowerCase on ASCII text)
  // ---------------------------------------------------------------------------

  predicate IsAsciiUpper(ch: char) { 'A' <= ch <= 'Z' }
  predicate IsAsciiLower(ch: char) { 'a' <= ch <= 'z' }

  function UpperChar(ch: char): (r: char)
    ensures !IsAsciiLower(r)
    ensures !IsAsciiLower(ch) ==> r == ch
  {
    if IsAsciiLower(ch) then (ch as int - 'a' as int + 'A' as int) as char else ch
  }

  function LowerChar(ch: char): (r: char)
    ensures !IsAsciiUpper(r)
    ensures !IsAsciiUpper(ch) ==> r == ch
  {
    if IsAsciiUpper(ch) then (ch as int - 'A' as int + 'a' as int) as char else ch
  }

  function Upper(s: string): (r: string)
    ensures |r| == |s|
    ensures forall i :: 0 <= i < |s| ==> r[i] == UpperChar(s[i])
  {
    seq(|s|, i requires 0 <= i < |s| => UpperChar(s[i]))
  }

  function Lower(s: string): (r: string)
    ensures |r| == |s|
    ensures forall i :: 0 <= i < |s| ==> r[i] == LowerChar(s[i])
  {
    seq(|s|, i requires 0 <= i < |s| => LowerChar(s[i]))
  }

  // ---------------------------------------------------------------------------
  // Decimal rendering (JavaScript's Number-to-String on integers)
  // ---------------------------------------------------------------------------

  predicate IsDigit(ch: char) { '0' <= ch <= '9' }

  function DigitValue(ch: char): (d: nat)
    requires IsDigit(ch)
    ensures d < 10
  {
    ch as int - '0' as int
  }

  function DigitChar(d: nat): (ch: char)
    requires d < 10
    ensures IsDigit(ch) && DigitValue(ch) == d
  {
    ('0' as int + d) as char
  }

  predicate AllDigits(s: string) {
    forall i :: 0 <= i < |s| ==> IsDigit(s[i])
  }

  /** A canonical decimal numeral: non-empty, digits only, no leading zero unless it is "0". */
  predicate Canonical(s: string) {
    |s| >= 1 && AllDigits(s) && (s[0] == '0' ==> |s| == 1)
  }

  /** The decimal numeral of `n`, most significant digit first. */
  function NatToDecimal(n: nat): (r: string)
    ensures Canonical(r)
  {
    if n < 10 then [DigitChar(n)]
    else NatToDecimal(n / 10) + [DigitChar(n % 10)]
  }

  /** The value of a decimal numeral. */
  function DecimalValue(s: string): nat
    requires AllDigits(s)
  {
    if |s| == 0 then 0
    else DecimalValue(s[..|s| - 1]) * 10 + DigitValue(s[|s| - 1])
  }

  /** Reading back a rendered numeral gives the number. */
  lemma {:induction false} DecimalRoundTrip(n: nat)
    ensures DecimalValue(NatToDecimal(n)) == n
  {
    if n >= 10 {
      var r := NatToDecimal(n);
      DecimalRoundTrip(n / 10);
      assert r[..|r| - 1] == NatToDecimal(n / 10);
    }
  }

  /** The JavaScript text of an integer-valued number; `-0` renders as "0". */
  function IntToDecimal(v: int): (r: string)
    ensures |r| >= 1
    ensures ' ' !in r
    ensures v >= 0 <==> r[0] != '-'
  {
    if v < 0 then "-" + NatToDecimal(-v) else NatToDecimal(v)
  }

  // ---------------------------------------------------------------------------
  // JavaScript truthiness of an optional string
  // ---------------------------------------------------------------------------

  /** `o` as a JavaScript condition: present and non-empty. */
  predicate Truthy(o: Option<string>) {
    o.Some? && o.value != ""
  }

  /** `o || d` on an optional string. */
  function OrElse(o: Option<string>, d: string): (r: string)
    ensures Truthy(o) ==> r == o.value
    ensures !Truthy(o) ==> r == d
  {
    if Truthy(o) then o.value else d
  }
}
