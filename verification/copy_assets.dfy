/** The font-path fix applied to the built stylesheet: every occurrence of
    `../assets/fonts/` becomes `./fonts/`, as a global regular-expression
    replacement does it, scanning left to right and resuming after each
    match. */
module CopyAssets {

  const Pattern: string := "../assets/fonts/"
  const Replacement: string := "./fonts/"

  predicate StartsWith(s: string, p: string) {
    |p| <= |s| && s[..|p|] == p
  }

  /** The pattern starts at index `i` of `s`. */
  predicate OccursAt(s: string, i: nat) {
    i + |Pattern| <= |s| && s[i..i + |Pattern|] == Pattern
  }

  predicate ContainsPattern(s: string) {
    exists i :: 0 <= i < |s| && OccursAt(s, i)
  }

  /** Number of matches the scan finds. */
  function MatchCount(s: string): nat {
    if |s| == 0 then 0
    else if StartsWith(s, Pattern) then 1 + MatchCount(s[|Pattern|..])
    else MatchCount(s[1..])
  }

  /** `css.replace(/\.\.\/assets\/fonts\//g, './fonts/')`. Every
      occurrence of the old path shortens the text by the eight characters
      the two paths differ in. */
  function FixFontPaths(css: string): (fixed: string)
    ensures |fixed| == |css| - (|Pattern| - |Replacement|) * |Occurrences(css)|
  {
    MatchesAreOccurrences(css);
    if |css| == 0 then ""
    else if StartsWith(css, Pattern) then
      MatchesAreOccurrences(css[|Pattern|..]);
      Replacement + FixFontPaths(css[|Pattern|..])
    else
      MatchesAreOccurrences(css[1..]);
      [css[0]] + FixFontPaths(css[1..])
  }

  // ---------------------------------------------------------------------------
  // Occurrences
  // ---------------------------------------------------------------------------

  lemma OccursAtShift(s: string, i: nat)
    requires |s| > 0
    ensures OccursAt(s[1..], i) <==> OccursAt(s, i + 1)
  {
    if i + 1 + |Pattern| <= |s| {
      assert s[1..][i..i + |Pattern|] == s[i + 1..i + 1 + |Pattern|];
    }
  }

  lemma ContainsTail(s: string)
    requires |s| > 0
    ensures ContainsPattern(s) <==> StartsWith(s, Pattern) || ContainsPattern(s[1..])
  {
    if ContainsPattern(s) {
      var i: nat :| OccursAt(s, i);
      if i > 0 {
        OccursAtShift(s, i - 1);
      } else {
        assert s[..|Pattern|] == s[0..|Pattern|];
      }
    }
    if ContainsPattern(s[1..]) {
      var i: nat :| OccursAt(s[1..], i);
      OccursAtShift(s, i);
    }
    if StartsWith(s, Pattern) {
      assert s[0..|Pattern|] == s[..|Pattern|];
      assert OccursAt(s, 0);
    }
  }

  /** The scan finds no match exactly when the text holds no occurrence. */
  lemma {:induction false} NoMatchIffAbsent(s: string)
    ensures MatchCount(s) == 0 <==> !ContainsPattern(s)
    decreases |s|
  {
    if |s| == 0 {
      assert forall i: nat :: !OccursAt(s, i);
    } else {
      ContainsTail(s);
      if !StartsWith(s, Pattern) {
        NoMatchIffAbsent(s[1..]);
      }
    }
  }

  // ---------------------------------------------------------------------------
  // What the replacement leaves behind
  // ---------------------------------------------------------------------------

  /** The replacement text cannot begin any non-empty tail of the pattern:
      it has no second `.` where the pattern's own head needs one, and no
      later position of the pattern holds a `.`. */
  lemma ReplacementClashes(k: nat)
    requires k < |Pattern|
    ensures !StartsWith(Replacement, Pattern[k..]) && !StartsWith(Pattern[k..], Replacement)
  {
    if k == 0 {
      assert Replacement[1] != Pattern[1];
    } else if k == 1 {
      assert Replacement[2] != Pattern[3];
    } else {
      assert Replacement[0] != Pattern[k];
    }
  }

  /** If the fixed text starts with a tail of the pattern, the original did:
      the fix never assembles pattern text that was not there. */
  lemma {:induction false} StartsWithTailPreserved(s: string, k: nat)
    requires k <= |Pattern|
    ensures StartsWith(FixFontPaths(s), Pattern[k..]) ==> StartsWith(s, Pattern[k..])
    decreases |s|
  {
    var t := FixFontPaths(s);
    if k < |Pattern| && StartsWith(t, Pattern[k..]) {
      assert |s| > 0;
      if StartsWith(s, Pattern) {
        ReplacementClashes(k);
      } else {
        var rest := FixFontPaths(s[1..]);
        assert t == [s[0]] + rest;
        StartsWithTailPreserved(s[1..], k + 1);
        assert Pattern[k..][1..] == Pattern[k + 1..];
        assert t[1..][..|Pattern[k + 1..]|] == t[..|Pattern[k..]|][1..];
        assert s[..|Pattern[k..]|] == [s[0]] + s[1..][..|Pattern[k + 1..]|];
      }
    } else if k == |Pattern| {
      assert Pattern[k..] == "";
    }
  }

  /** The fixed text never starts with the pattern. */
  lemma FixedDoesNotStartWithPattern(s: string)
    ensures !StartsWith(FixFontPaths(s), Pattern)
  {
    StartsWithTailPreserved(s, 0);
    assert Pattern[0..] == Pattern;
    if StartsWith(s, Pattern) {
      ReplacementClashes(0);
      var t := FixFontPaths(s);
      assert t == Replacement + FixFontPaths(s[|Pattern|..]);
      assert t[1] == Replacement[1];
    }
  }

  /** No occurrence of the old path survives the fix, and none is created. */
  lemma {:induction false} NoPatternLeft(s: string)
    ensures !ContainsPattern(FixFontPaths(s))
    decreases |s|
  {
    var t := FixFontPaths(s);
    if |s| == 0 {
      assert forall i: nat :: !OccursAt(t, i);
    } else if StartsWith(s, Pattern) {
      var rest := FixFontPaths(s[|Pattern|..]);
      NoPatternLeft(s[|Pattern|..]);
      assert t == Replacement + rest;
      forall i: nat | i < |t| ensures !OccursAt(t, i) {
        if i < |Replacement| {
          ReplacementHead(rest, i);
        } else {
          OccursAfterPrefix(Replacement, rest, i);
        }
      }
    } else {
      var rest := FixFontPaths(s[1..]);
      NoPatternLeft(s[1..]);
      assert t == [s[0]] + rest;
      assert t[1..] == rest;
      FixedDoesNotStartWithPattern(s);
      ContainsTail(t);
    }
  }

  /** No occurrence starts inside the replacement text, whatever follows it. */
  lemma ReplacementHead(rest: string, i: nat)
    requires i < |Replacement|
    ensures !OccursAt(Replacement + rest, i)
  {
    var t := Replacement + rest;
    if i + |Pattern| <= |t| {
      assert t[i..i + |Pattern|][0] == t[i] == Replacement[i];
      assert t[i..i + |Pattern|][1] == t[i + 1];
      if i == 0 {
        assert t[1] == Replacement[1] != Pattern[1];
      } else {
        assert Replacement[i] != Pattern[0];
      }
    }
  }

  lemma OccursAfterPrefix(p: string, rest: string, i: nat)
    requires i >= |p|
    ensures OccursAt(p + rest, i) <==> OccursAt(rest, i - |p|)
  {
    var t := p + rest;
    if i + |Pattern| <= |t| {
      assert t[i..i + |Pattern|] == rest[i - |p|..i - |p| + |Pattern|];
    }
  }

  /** Text without the old path passes through unchanged. */
  lemma {:induction false} UnchangedWithoutPattern(s: string)
    requires !ContainsPattern(s)
    ensures FixFontPaths(s) == s
    decreases |s|
  {
    if |s| > 0 {
      ContainsTail(s);
      UnchangedWithoutPattern(s[1..]);
    }
  }

  /** Running the fix twice gives the same stylesheet as running it once. */
  lemma Idempotent(s: string)
    ensures FixFontPaths(FixFontPaths(s)) == FixFontPaths(s)
  {
    NoPatternLeft(s);
    UnchangedWithoutPattern(FixFontPaths(s));
  }

  /** `pieces[0] + sep + pieces[1] + ... + sep + pieces[n - 1]`. */
  function JoinWith(pieces: seq<string>, sep: string): string
    requires |pieces| >= 1
  {
    if |pieces| == 1 then pieces[0] else pieces[0] + sep + JoinWith(pieces[1..], sep)
  }

  /** Every font URL of a stylesheet is rewritten and the text between them
      kept: occurrence-free pieces joined by the old path come out joined by
      the new one. */
  lemma {:induction false} FontUrls(pieces: seq<string>)
    requires |pieces| >= 1
    requires forall k :: 0 <= k < |pieces| ==> !ContainsPattern(pieces[k])
    ensures FixFontPaths(JoinWith(pieces, Pattern)) == JoinWith(pieces, Replacement)
    decreases |pieces|
  {
    if |pieces| == 1 {
      UnchangedWithoutPattern(pieces[0]);
    } else {
      var x := JoinWith(pieces[1..], Pattern);
      var tail := Pattern + x;
      assert JoinWith(pieces, Pattern) == pieces[0] + tail;
      assert tail[..|Pattern|] == Pattern && tail[|Pattern|..] == x;
      PassThrough(pieces[0], tail);
      FontUrls(pieces[1..]);
      assert FixFontPaths(tail) == Replacement + JoinWith(pieces[1..], Replacement);
    }
  }

  /** Text free of the old path, followed by an occurrence, is copied as is:
      no occurrence can start in it and run into the one that follows. */
  lemma {:induction false} PassThrough(before: string, rest: string)
    requires !ContainsPattern(before) && StartsWith(rest, Pattern)
    ensures FixFontPaths(before + rest) == before + FixFontPaths(rest)
    decreases |before|
  {
    if |before| > 0 {
      var s := before + rest;
      ContainsTail(before);
      ClashAcross(before, rest);
      assert s[1..] == before[1..] + rest;
      PassThrough(before[1..], rest);
    } else {
      assert before + rest == rest;
    }
  }

  /** An occurrence at the head of `before + rest`, with `rest` starting with
      the pattern, must lie inside `before`: one overlapping the boundary would
      need a `/` where `rest` has its second `.`. */
  lemma ClashAcross(before: string, rest: string)
    requires |before| > 0 && StartsWith(rest, Pattern)
    requires !StartsWith(before, Pattern)
    ensures !StartsWith(before + rest, Pattern)
  {
    var s := before + rest;
    var n := |before|;
    if n >= |Pattern| {
      assert s[..|Pattern|] == before[..|Pattern|];
    } else if n == 1 {
      assert s[2] == rest[1] == Pattern[1] != Pattern[2];
    } else {
      assert s[n] == rest[0] == '.';
      assert forall j :: 2 <= j < |Pattern| ==> Pattern[j] != '.';
    }
  }

  // ---------------------------------------------------------------------------
  // Matches are occurrences
  // ---------------------------------------------------------------------------

  /** The positions where the old path occurs. */
  function Occurrences(s: string): set<int> {
    set i | 0 <= i < |s| && OccursAt(s, i)
  }

  function Shift(a: set<int>, k: int): set<int> {
    set i | i in a :: i + k
  }

  lemma ShiftShift(a: set<int>, j: int, k: int)
    ensures Shift(Shift(a, j), k) == Shift(a, j + k)
  {
    forall i | i in Shift(Shift(a, j), k) ensures i in Shift(a, j + k) {
      var m :| m in Shift(a, j) && i == m + k;
      var n :| n in a && m == n + j;
    }
    forall i | i in Shift(a, j + k) ensures i in Shift(Shift(a, j), k) {
      var n :| n in a && i == n + j + k;
      assert n + j in Shift(a, j);
    }
  }

  lemma ShiftZero(a: set<int>)
    ensures Shift(a, 0) == a
  {
    forall i | i in a ensures i in Shift(a, 0) {
      assert i == i + 0;
    }
  }

  lemma ShiftOne(a: set<int>, x: int, k: int)
    ensures Shift({x} + a, k) == {x + k} + Shift(a, k)
  {
    forall i | i in Shift({x} + a, k) ensures i in {x + k} + Shift(a, k) {
      var n :| n in {x} + a && i == n + k;
    }
  }

  /** The occurrences, moved by any offset, are as many as the scan's matches. */
  lemma {:induction false} ShiftedCount(s: string, k: int)
    ensures |Shift(Occurrences(s), k)| == MatchCount(s)
    decreases |s|
  {
    var n := |Pattern|;
    if |s| == 0 {
      assert Occurrences(s) == {};
      assert Shift(Occurrences(s), k) == {};
    } else if StartsWith(s, Pattern) {
      var rest := Occurrences(s[n..]);
      OccurrencesAfterMatch(s);
      ShiftOne(Shift(rest, n), 0, k);
      ShiftShift(rest, n, k);
      ShiftedCount(s[n..], n + k);
      assert k !in Shift(rest, n + k);
    } else {
      OccurrencesAfterMiss(s);
      ShiftShift(Occurrences(s[1..]), 1, k);
      ShiftedCount(s[1..], 1 + k);
    }
  }

  /** The path cannot overlap itself: after an occurrence at 0 the next can
      start no earlier than its end. */
  lemma NoOverlap(s: string, k: int)
    requires OccursAt(s, 0) && 0 < k < |Pattern|
    ensures !OccursAt(s, k)
  {
    if k + |Pattern| <= |s| {
      assert s[k] == s[0..|Pattern|][k] == Pattern[k];
      assert s[k..k + |Pattern|][0] == s[k];
      if k == 1 {
        assert s[2] == Pattern[2] == '/';
        assert s[k..k + |Pattern|][1] == s[2];
      }
    }
  }

  lemma OccurrencesAfterMatch(s: string)
    requires StartsWith(s, Pattern)
    ensures Occurrences(s) == {0} + Shift(Occurrences(s[|Pattern|..]), |Pattern|)
  {
    var n := |Pattern|;
    assert s[0..n] == s[..n];
    assert s == s[..n] + s[n..];
    forall i | i in Occurrences(s)
      ensures i in {0} + Shift(Occurrences(s[n..]), n)
    {
      if 0 < i < n {
        NoOverlap(s, i);
      } else if i >= n {
        OccursAfterPrefix(s[..n], s[n..], i);
        assert i - n in Occurrences(s[n..]);
      }
    }
    forall i | i in {0} + Shift(Occurrences(s[n..]), n)
      ensures i in Occurrences(s)
    {
      if i != 0 {
        var j :| j in Occurrences(s[n..]) && i == j + n;
        OccursAfterPrefix(s[..n], s[n..], i);
      }
    }
  }

  lemma OccurrencesAfterMiss(s: string)
    requires |s| > 0 && !StartsWith(s, Pattern)
    ensures Occurrences(s) == Shift(Occurrences(s[1..]), 1)
  {
    if |Pattern| <= |s| {
      assert s[0..|Pattern|] == s[..|Pattern|];
    }
    assert !OccursAt(s, 0);
    forall i | i in Occurrences(s)
      ensures i in Shift(Occurrences(s[1..]), 1)
    {
      OccursAtShift(s, i - 1);
      assert i - 1 in Occurrences(s[1..]);
    }
    forall i | i in Shift(Occurrences(s[1..]), 1)
      ensures i in Occurrences(s)
    {
      var j :| j in Occurrences(s[1..]) && i == j + 1;
      OccursAtShift(s, j);
    }
  }

  /** The scan counts every occurrence of the old path: since the path
      cannot overlap itself, none is skipped. */
  lemma MatchesAreOccurrences(s: string)
    ensures MatchCount(s) == |Occurrences(s)|
  {
    ShiftedCount(s, 0);
    ShiftZero(Occurrences(s));
  }
}
