/** The FeatureCard title splitter: a title becomes display lines, split at
    line breaks when there are any and otherwise at the middle word; only the
    first two lines are shown, each only when it is non-empty. */
module FeatureCard {
  import opened Strings

  /** `ceil(n / 2)` for a word count. */
  function Middle(n: nat): nat {
    (n + 1) / 2
  }

  /** The `splitTitle` memo. */
  function SplitTitle(title: string): (lines: seq<string>)
    ensures |lines| >= 2
    ensures '\n' !in title ==> |lines| == 2
  {
    if '\n' in title then
      CountAbsent(title, '\n');
      Split(title, '\n')
    else
      var words := Split(title, ' ');
      if |words| <= 2 then
        (if |words| == 1 then [words[0], ""] else words)
      else
        var m := Middle(|words|);
        [Join(words[..m], ' '), Join(words[m..], ' ')]
  }

  /** The title lines that are rendered: the first and the second, each only when non-empty. */
  function RenderedLines(lines: seq<string>): (shown: seq<string>)
    requires |lines| >= 2
    ensures |shown| <= 2
    ensures forall i :: 0 <= i < |shown| ==> shown[i] != ""
    ensures lines[0] != "" && lines[1] != "" ==> shown == lines[..2]
    ensures lines[0] == "" ==> shown == (if lines[1] == "" then [] else [lines[1]])
    ensures lines[1] == "" ==> shown == (if lines[0] == "" then [] else [lines[0]])
  {
    (if lines[0] != "" then [lines[0]] else []) + (if lines[1] != "" then [lines[1]] else [])
  }

  /** A title with line breaks becomes its lines, split at every break;
      spaces play no part, and joining the lines back gives the title. */
  lemma NewlineSplit(title: string)
    requires '\n' in title
    ensures SplitTitle(title) == Split(title, '\n')
    ensures Join(SplitTitle(title), '\n') == title
    ensures forall i :: 0 <= i < |SplitTitle(title)| ==> '\n' !in SplitTitle(title)[i]
  {
    JoinSplit(title, '\n');
  }

  /** A one-word title gives the word and an empty second line, so at most one line is shown. */
  lemma OneWord(title: string)
    requires '\n' !in title && ' ' !in title
    ensures SplitTitle(title) == [title, ""]
    ensures |RenderedLines(SplitTitle(title))| <= 1
  {
    JoinSplit(title, ' ');
    CountAbsent(title, ' ');
  }

  /** A two-word title gives its two words as the two lines. */
  lemma TwoWords(a: string, b: string)
    requires '\n' !in a && '\n' !in b && ' ' !in a && ' ' !in b
    ensures SplitTitle(a + " " + b) == [a, b]
  {
    var title := a + " " + b;
    assert '\n' !in title by {
      assert forall i :: 0 <= i < |title| ==> title[i] == (if i < |a| then a[i] else if i == |a| then ' ' else b[i - |a| - 1]);
    }
    SplitJoin([a, b], ' ');
  }

  /** Without a line break and with at least two words, the lines rejoin to
      the title with one space, and the first line holds `ceil(n/2)` of the
      `n` words, the second the rest. */
  lemma {:induction false} WordsRoundTrip(title: string)
    requires '\n' !in title && ' ' in title
    ensures var lines := SplitTitle(title);
      var words := Split(title, ' ');
      && lines[0] + " " + lines[1] == title
      && Split(lines[0], ' ') == words[..Middle(|words|)]
      && Split(lines[1], ' ') == words[Middle(|words|)..]
  {
    var words := Split(title, ' ');
    var m := Middle(|words|);
    JoinSplit(title, ' ');
    CountAbsent(title, ' ');
    assert |words| >= 2;
    assert words == words[..m] + words[m..];
    JoinAppend(words[..m], words[m..], ' ');
    SplitJoin(words[..m], ' ');
    SplitJoin(words[m..], ' ');
    if |words| == 2 {
      assert words[..m] == [words[0]] && words[m..] == [words[1]];
    }
  }

  /** The first line never has fewer words than the second, and at most one more. */
  lemma BalancedLines(title: string)
    requires '\n' !in title && ' ' in title
    ensures var lines := SplitTitle(title);
      var n1 := |Split(lines[0], ' ')|;
      var n2 := |Split(lines[1], ' ')|;
      n2 <= n1 <= n2 + 1
  {
    WordsRoundTrip(title);
  }
}
