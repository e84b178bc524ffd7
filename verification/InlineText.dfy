/** Inline content as the characters a reader sees, each with its marks. */
module InlineText {
  import opened Blocks
  import opened Ranges

  datatype Styled = Styled(c: char, marks: seq<Mark>)

  /** Absent and empty mark lists mean the same. */
  function MarksOf(node: InlineNode): seq<Mark> {
    if node.marks.Some? then node.marks.value else []
  }

  function Paint(text: string, marks: seq<Mark>): (r: seq<Styled>)
    ensures |r| == |text|
  {
    seq(|text|, i requires 0 <= i < |text| => Styled(text[i], marks))
  }

  function NodeChars(node: InlineNode): seq<Styled> {
    Paint(node.text, MarksOf(node))
  }

  /** The characters, and the text, of the first `n` runs. */
  function CharsTo(content: InlineContent, n: nat): seq<Styled>
    requires n <= |content|
  {
    if n == 0 then [] else CharsTo(content, n - 1) + NodeChars(content[n - 1])
  }

  function TextTo(content: InlineContent, n: nat): string
    requires n <= |content|
  {
    if n == 0 then "" else TextTo(content, n - 1) + content[n - 1].text
  }

  function Chars(content: InlineContent): seq<Styled> {
    CharsTo(content, |content|)
  }

  function Text(content: InlineContent): string {
    TextTo(content, |content|)
  }

  /** Where run `n` starts in the plain text. */
  function Start(content: InlineContent, n: nat): nat
    requires n <= |content|
  {
    if n == 0 then 0 else Start(content, n - 1) + |content[n - 1].text|
  }

  // ---------- Characters and text ----------

  lemma {:induction false} CharsSpellText(content: InlineContent, n: nat)
    requires n <= |content|
    ensures |CharsTo(content, n)| == |TextTo(content, n)| == Start(content, n)
    ensures forall i :: 0 <= i < |TextTo(content, n)| ==> CharsTo(content, n)[i].c == TextTo(content, n)[i]
  {
    if n > 0 {
      CharsSpellText(content, n - 1);
    }
  }

  lemma {:induction false} CharsCount(content: InlineContent, n: nat)
    requires n <= |content|
    ensures |CharsTo(content, n)| == Start(content, n)
  {
    if n > 0 {
      CharsCount(content, n - 1);
    }
  }

  lemma {:induction false} StartEnds(content: InlineContent)
    ensures Start(content, |content|) == |Text(content)| == |Chars(content)|
  {
    CharsSpellText(content, |content|);
  }

  lemma {:induction false} CharsOfFirst(a: InlineContent, b: InlineContent, n: nat)
    requires n <= |a|
    ensures CharsTo(a + b, n) == CharsTo(a, n) && TextTo(a + b, n) == TextTo(a, n)
  {
    if n > 0 {
      CharsOfFirst(a, b, n - 1);
    }
  }

  lemma {:induction false} CharsOfBoth(a: InlineContent, b: InlineContent, n: nat)
    requires n <= |b|
    ensures CharsTo(a + b, |a| + n) == Chars(a) + CharsTo(b, n)
    ensures TextTo(a + b, |a| + n) == Text(a) + TextTo(b, n)
  {
    if n == 0 {
      CharsOfFirst(a, b, |a|);
      NothingAdded(Chars(a));
      NothingAdded(Text(a));
    } else {
      CharsOfBoth(a, b, n - 1);
      assert (a + b)[|a| + n - 1] == b[n - 1];
      Assoc(Chars(a), CharsTo(b, n - 1), NodeChars(b[n - 1]));
      Assoc(Text(a), TextTo(b, n - 1), b[n - 1].text);
    }
  }

  lemma {:induction false} CharsAppend(a: InlineContent, b: InlineContent)
    ensures Chars(a + b) == Chars(a) + Chars(b)
    ensures Text(a + b) == Text(a) + Text(b)
  {
    CharsOfBoth(a, b, |b|);
  }

  lemma {:induction false} CharsOne(node: InlineNode)
    ensures Chars([node]) == NodeChars(node) && Text([node]) == node.text
  {
    assert CharsTo([node], 1) == CharsTo([node], 0) + NodeChars(node);
    assert TextTo([node], 1) == TextTo([node], 0) + node.text;
    NothingAdded(NodeChars(node));
    NothingAdded(node.text);
  }

  lemma {:induction false} TextFirst(content: InlineContent)
    requires content != []
    ensures Text(content) == content[0].text + Text(content[1..])
  {
    assert content == [content[0]] + content[1..];
    CharsAppend([content[0]], content[1..]);
    CharsOne(content[0]);
  }

  lemma {:induction false} CharsFirst(content: InlineContent)
    requires content != []
    ensures Chars(content) == NodeChars(content[0]) + Chars(content[1..])
  {
    assert content == [content[0]] + content[1..];
    CharsAppend([content[0]], content[1..]);
    CharsOne(content[0]);
  }

  lemma {:induction false} StartsOrdered(content: InlineContent, i: nat, j: nat)
    requires i <= j <= |content|
    ensures Start(content, i) <= Start(content, j)
    decreases j
  {
    if i < j {
      StartsOrdered(content, i, j - 1);
    }
  }

  lemma {:induction false} StartWithin(content: InlineContent, i: nat)
    requires i <= |content|
    ensures Start(content, i) <= |Text(content)| == |Chars(content)|
  {
    StartsOrdered(content, i, |content|);
    StartEnds(content);
  }

  lemma {:induction false} LastStretch<T>(before: seq<T>, last: seq<T>)
    ensures Range(before + last, |before|, |before| + |last|) == last
  {
    RangeOfSecond(before, last, |last|);
    WholeRange(last);
  }

  lemma {:induction false} NodeStretchTo(content: InlineContent, i: nat, n: nat)
    requires i < n <= |content|
    ensures Start(content, i) <= Start(content, i + 1) <= |CharsTo(content, n)|
    ensures Range(CharsTo(content, n), Start(content, i), Start(content, i + 1)) == NodeChars(content[i])
    decreases n
  {
    StartsOrdered(content, i + 1, n);
    CharsCount(content, n);
    CharsCount(content, n - 1);
    var before, last := CharsTo(content, n - 1), NodeChars(content[n - 1]);
    if i == n - 1 {
      LastStretch(before, last);
    } else {
      NodeStretchTo(content, i, n - 1);
      RangeOfFirst(before, last, Start(content, i), Start(content, i + 1));
    }
  }

  /** A run is a stretch of the character sequence, all with one mark list. */
  lemma {:induction false} NodeStretch(content: InlineContent, i: nat)
    requires i < |content|
    ensures Start(content, i) <= Start(content, i + 1) <= |Chars(content)|
    ensures Range(Chars(content), Start(content, i), Start(content, i + 1)) == NodeChars(content[i])
  {
    NodeStretchTo(content, i, |content|);
  }

  // ---------- Runs ----------

  /** How many stretches of equal marks the first `n` characters have. */
  function RunsTo(s: seq<Styled>, n: nat): nat
    requires n <= |s|
  {
    if n <= 1 then n else RunsTo(s, n - 1) + (if s[n - 2].marks == s[n - 1].marks then 0 else 1)
  }

  function Runs(s: seq<Styled>): nat {
    RunsTo(s, |s|)
  }

  function Seam(a: seq<Styled>, b: seq<Styled>): nat {
    if a != [] && b != [] && a[|a| - 1].marks == b[0].marks then 1 else 0
  }

  lemma {:induction false} RunsOfFirst(a: seq<Styled>, b: seq<Styled>, n: nat)
    requires n <= |a|
    ensures RunsTo(a + b, n) == RunsTo(a, n)
  {
    if n > 1 {
      RunsOfFirst(a, b, n - 1);
    }
  }

  lemma {:induction false} RunsOfBoth(a: seq<Styled>, b: seq<Styled>, n: nat)
    requires 0 < n <= |b|
    ensures RunsTo(a + b, |a| + n) == Runs(a) + RunsTo(b, n) - Seam(a, b)
  {
    if n == 1 {
      RunsOfFirst(a, b, |a|);
    } else {
      RunsOfBoth(a, b, n - 1);
    }
  }

  lemma {:induction false} RunsAppend(a: seq<Styled>, b: seq<Styled>)
    ensures Runs(a + b) == Runs(a) + Runs(b) - Seam(a, b)
  {
    if b == [] {
      RunsOfFirst(a, b, |a|);
    } else {
      RunsOfBoth(a, b, |b|);
    }
  }

  lemma {:induction false} UniformRuns(s: seq<Styled>, m: seq<Mark>, n: nat)
    requires n <= |s| && forall k :: 0 <= k < |s| ==> s[k].marks == m
    ensures RunsTo(s, n) == if n == 0 then 0 else 1
  {
    if n > 1 {
      UniformRuns(s, m, n - 1);
    }
  }

  lemma {:induction false} RunsOfPaint(text: string, marks: seq<Mark>)
    ensures Runs(Paint(text, marks)) == if text == "" then 0 else 1
  {
    UniformRuns(Paint(text, marks), marks, |text|);
  }

  lemma {:induction false} RunsPositive(s: seq<Styled>, n: nat)
    requires 0 < n <= |s|
    ensures RunsTo(s, n) > 0
  {
    if n > 1 {
      RunsPositive(s, n - 1);
    }
  }

  lemma {:induction false} RunsBound(a: seq<Styled>, b: seq<Styled>)
    ensures Runs(a) <= Runs(a + b) && Runs(b) <= Runs(a + b)
    ensures Runs(a + b) <= Runs(a) + Runs(b)
  {
    RunsAppend(a, b);
    if a != [] {
      RunsPositive(a, |a|);
    }
    if b != [] {
      RunsPositive(b, |b|);
    }
  }

  /** Runs `n` to `m` hold at most `m - n` stretches. */
  lemma {:induction false} RunsAtMostNodes(content: InlineContent, n: nat, m: nat)
    requires n <= m <= |content|
    ensures Start(content, n) <= Start(content, m) <= |Chars(content)|
    ensures Runs(Range(Chars(content), Start(content, n), Start(content, m))) <= m - n
    decreases m
  {
    StartsOrdered(content, n, m);
    StartWithin(content, m);
    if n < m {
      RunsAtMostNodes(content, n, m - 1);
      NodeStretch(content, m - 1);
      RunsOfPaint(content[m - 1].text, MarksOf(content[m - 1]));
      RangeSplits(Chars(content), Start(content, n), Start(content, m - 1), Start(content, m));
      RunsBound(Range(Chars(content), Start(content, n), Start(content, m - 1)), NodeChars(content[m - 1]));
    }
  }

  /** No empty run, and no two neighbours that could be one. */
  ghost predicate Canonical(content: InlineContent) {
    && (forall i :: 0 <= i < |content| ==> content[i].text != "")
    && (forall i :: 0 <= i < |content| - 1 ==> MarksOf(content[i]) != MarksOf(content[i + 1]))
  }

  lemma {:induction false} CanonicalRuns(content: InlineContent, n: nat)
    requires Canonical(content) && n <= |content|
    ensures Runs(CharsTo(content, n)) == n
    ensures n > 0 ==> CharsTo(content, n) != [] && CharsTo(content, n)[|CharsTo(content, n)| - 1].marks == MarksOf(content[n - 1])
  {
    if n > 0 {
      var rest, last := CharsTo(content, n - 1), NodeChars(content[n - 1]);
      CanonicalRuns(content, n - 1);
      RunsOfPaint(content[n - 1].text, MarksOf(content[n - 1]));
      RunsAppend(rest, last);
      assert n > 1 ==> MarksOf(content[n - 2]) != MarksOf(content[n - 2 + 1]);
    }
  }

  /** Canonical content has no run to spare. */
  lemma {:induction false} CanonicalIsMinimal(content: InlineContent)
    requires Canonical(content)
    ensures |content| == Runs(Chars(content))
  {
    CanonicalRuns(content, |content|);
  }
}
