/** A plain-text edit of content that already carries marks: a splice, not a rewrite. */
module Editing {
  import opened Prelude
  import opened Blocks
  import opened InlineText
  import opened Ranges

  // ---------- What was changed ----------

  ghost predicate LongestPrefix(before: string, after: string, p: nat) {
    && p <= |before| && p <= |after| && Range(before, 0, p) == Range(after, 0, p)
    && (p < |before| && p < |after| ==> before[p] != after[p])
  }

  /** The longest common end that does not reach into the prefix. */
  ghost predicate LongestSuffix(before: string, after: string, p: nat, s: nat) {
    && p + s <= |before| && p + s <= |after|
    && From(before, |before| - s) == From(after, |after| - s)
    && (p + s < |before| && p + s < |after| ==> before[|before| - 1 - s] != after[|after| - 1 - s])
  }

  method CommonPrefix(before: string, after: string) returns (p: nat)
    ensures LongestPrefix(before, after, p)
  {
    var limit := if |before| <= |after| then |before| else |after|;
    p := 0;
    while p < limit && before[p] == after[p]
      invariant p <= limit && Range(before, 0, p) == Range(after, 0, p)
    {
      p := p + 1;
    }
  }

  method CommonSuffix(before: string, after: string, prefix: nat) returns (s: nat)
    requires prefix <= |before| && prefix <= |after|
    ensures LongestSuffix(before, after, prefix, s)
  {
    var limit := (if |before| <= |after| then |before| else |after|) - prefix;
    s := 0;
    while s < limit && before[|before| - 1 - s] == after[|after| - 1 - s]
      invariant s <= limit
      invariant From(before, |before| - s) == From(after, |after| - s)
    {
      OneMoreFrom(before, |before| - 1 - s);
      OneMoreFrom(after, |after| - 1 - s);
      s := s + 1;
    }
  }

  lemma {:induction false} OneMoreFrom<T>(s: seq<T>, a: nat)
    requires a < |s|
    ensures From(s, a) == [s[a]] + From(s, a + 1)
  {
    RangeSplits(s, a, a + 1, |s|);
    assert Range(s, a, a + 1) == [s[a]];
  }

  // ---------- Cutting ----------

  method InlineToText(content: InlineContent) returns (text: string)
    ensures text == Text(content)
  {
    text := "";
    for n := 0 to |content|
      invariant text == TextTo(content, n)
    {
      text := text + content[n].text;
    }
  }

  /** `at`, or `offset` where that comes first. */
  function Clamp(at: nat, offset: nat): nat {
    if at <= offset then at else offset
  }

  /** The part of a range that lies before `offset`, and the part between two offsets. */
  function Before<T>(s: seq<T>, from: nat, to: nat, offset: nat): seq<T>
    requires from <= to && offset <= |s|
  {
    Range(s, Clamp(from, offset), Clamp(to, offset))
  }

  function Within<T>(s: seq<T>, from: nat, to: nat, start: nat, end: nat): seq<T>
    requires start <= end <= |s|
  {
    var cutFrom := if from >= start then from else start;
    var cutTo := if to <= end then to else end;
    if cutFrom >= cutTo then [] else Range(s, cutFrom, cutTo)
  }

  lemma {:induction false} RangeGrows<T>(s: seq<T>, start: nat, end: nat, from: nat, to: nat)
    requires start <= end <= |s| && from <= to
    ensures Before(s, from, to, end) == Before(s, from, to, start) + Within(s, from, to, start, end)
  {
    if to <= start || end <= from || start == end {
      NothingAdded(Before(s, from, to, start));
    } else {
      RangeSplits(s, Clamp(from, start), Clamp(to, start), Clamp(to, end));
    }
  }

  /** What a run that starts at `start` contributes to a range: nothing, or the part inside it. */
  function Cut(node: InlineNode, start: nat, from: nat, to: nat): InlineContent {
    var end := start + |node.text|;
    var cutFrom := if from >= start then from else start;
    var cutTo := if to <= end then to else end;
    if cutFrom >= cutTo then [] else [InlineNode(Range(node.text, cutFrom - start, cutTo - start), node.marks)]
  }

  /** What the first `n` runs contribute. */
  function Cuts(content: InlineContent, n: nat, from: nat, to: nat): InlineContent
    requires n <= |content|
  {
    if n == 0 then [] else Cuts(content, n - 1, from, to) + Cut(content[n - 1], Start(content, n - 1), from, to)
  }

  lemma {:induction false} PaintRange(text: string, marks: seq<Mark>, a: nat, b: nat)
    requires a <= b <= |text|
    ensures Paint(Range(text, a, b), marks) == Range(Paint(text, marks), a, b)
    decreases b
  {
    if a < b {
      PaintRange(text, marks, a, b - 1);
      PaintAppend(Range(text, a, b - 1), [text[b - 1]], marks);
    }
  }

  lemma {:induction false} CutOne(node: InlineNode, s: seq<Styled>, start: nat, end: nat, a: nat, b: nat)
    requires start <= a <= b <= end <= |s| && end == start + |node.text| && Range(s, start, end) == NodeChars(node)
    ensures NodeChars(InlineNode(Range(node.text, a - start, b - start), node.marks)) == Range(s, a, b)
  {
    RangeOfRange(s, start, end, a, b);
    PaintRange(node.text, MarksOf(node), a - start, b - start);
  }

  lemma {:induction false} CutWithin(node: InlineNode, s: seq<Styled>, start: nat, end: nat, from: nat, to: nat)
    requires start <= end <= |s| && end == start + |node.text| && Range(s, start, end) == NodeChars(node)
    ensures Chars(Cut(node, start, from, to)) == Within(s, from, to, start, end)
  {
    var cutFrom := if from >= start then from else start;
    var cutTo := if to <= end then to else end;
    if cutFrom < cutTo {
      CutOne(node, s, start, end, cutFrom, cutTo);
      CharsOne(InlineNode(Range(node.text, cutFrom - start, cutTo - start), node.marks));
    }
  }

  lemma {:induction false} CutChars(content: InlineContent, n: nat, from: nat, to: nat)
    requires n < |content| && from <= to
    ensures Start(content, n + 1) <= |Chars(content)|
    ensures Chars(Cut(content[n], Start(content, n), from, to))
            == Within(Chars(content), from, to, Start(content, n), Start(content, n + 1))
  {
    NodeStretch(content, n);
    CutWithin(content[n], Chars(content), Start(content, n), Start(content, n + 1), from, to);
  }

  lemma {:induction false} CutsCover(content: InlineContent, n: nat, from: nat, to: nat)
    requires n <= |content| && from <= to
    ensures Start(content, n) <= |Chars(content)|
    ensures Chars(Cuts(content, n, from, to)) == Before(Chars(content), from, to, Start(content, n))
    decreases n
  {
    if n > 0 {
      CutsCover(content, n - 1, from, to);
      CutChars(content, n - 1, from, to);
      RangeGrows(Chars(content), Start(content, n - 1), Start(content, n), from, to);
      CharsAppend(Cuts(content, n - 1, from, to), Cut(content[n - 1], Start(content, n - 1), from, to));
    }
  }

  /** The runs covering a range, split at its edges: exactly those characters, marks included. */
  method Slice(content: InlineContent, from: nat, to: nat) returns (out: InlineContent)
    requires from <= to <= |Text(content)|
    ensures |Chars(content)| == |Text(content)| && Chars(out) == Range(Chars(content), from, to)
  {
    out := [];
    var offset := 0;
    for n := 0 to |content|
      invariant offset == Start(content, n) && out == Cuts(content, n, from, to)
    {
      var start := offset;
      offset := start + |content[n].text|;
      out := out + Cut(content[n], start, from, to);
    }
    StartEnds(content);
    CutsCover(content, |content|, from, to);
  }

  /** The run an offset falls in. */
  ghost predicate IsAt(content: InlineContent, i: nat, offset: nat) {
    i < |content| && Start(content, i) <= offset < Start(content, i + 1)
  }

  method NodeAt(content: InlineContent, offset: nat) returns (index: Option<nat>)
    ensures FoundAt(content, index, offset)
  {
    var start := 0;
    for n := 0 to |content|
      invariant start == Start(content, n) && start <= offset
    {
      var end := start + |content[n].text|;
      if offset >= start && offset < end {
        return Some(n);
      }
      start := end;
    }
    StartEnds(content);
    return None;
  }

  lemma {:induction false} AtIsUnique(content: InlineContent, i: nat, j: nat, offset: nat)
    requires IsAt(content, i, offset) && IsAt(content, j, offset)
    ensures i == j
  {
    if i < j {
      StartsOrdered(content, i + 1, j);
    } else if j < i {
      StartsOrdered(content, j + 1, i);
    }
  }

  // ---------- What the new text inherits ----------

  /** The one run that contains the whole change; for an insertion, the run before it. */
  ghost predicate Holds(content: InlineContent, i: nat, from: nat, to: nat) {
    if from < to then i < |content| && Start(content, i) <= from && to <= Start(content, i + 1)
    else IsAt(content, i, if from > 0 then from - 1 else 0)
  }

  /** The marks of that run, or none when the change spans runs. */
  ghost predicate Inherited(content: InlineContent, from: nat, to: nat, marks: seq<Mark>) {
    && (forall i: nat :: Holds(content, i, from, to) ==> marks == MarksOf(content[i]))
    && ((forall i: nat :: !Holds(content, i, from, to)) ==> marks == [])
  }

  method InheritedMarks(content: InlineContent, from: nat, to: nat) returns (marks: Option<seq<Mark>>)
    requires from <= to <= |Text(content)|
    ensures Inherited(content, from, to, if marks.Some? then marks.value else [])
  {
    var anchor := NodeAt(content, if from == to then (if from > 0 then from - 1 else 0) else from);
    var last := NodeAt(content, if to > 0 then to - 1 else 0);
    OnlyTheAnchor(content, from, to, anchor, last);
    if anchor.Some? && last == anchor {
      assert Holds(content, anchor.value, from, to);
      marks := content[anchor.value].marks;
    } else {
      marks := None;
    }
  }

  lemma {:induction false} OnlyTheAnchor(content: InlineContent, from: nat, to: nat, anchor: Option<nat>, last: Option<nat>)
    requires FoundAt(content, anchor, if from == to then (if from > 0 then from - 1 else 0) else from)
    requires FoundAt(content, last, if to > 0 then to - 1 else 0)
    requires from <= to
    ensures forall i: nat :: Holds(content, i, from, to) ==> anchor == Some(i) && last == Some(i)
  {
    forall i: nat | Holds(content, i, from, to)
      ensures anchor == Some(i) && last == Some(i)
    {
      HeldAtBothEnds(content, i, from, to);
      FoundIs(content, anchor, if from == to then (if from > 0 then from - 1 else 0) else from, i);
      FoundIs(content, last, if to > 0 then to - 1 else 0, i);
    }
  }

  ghost predicate FoundAt(content: InlineContent, index: Option<nat>, offset: nat) {
    if index.Some? then IsAt(content, index.value, offset) else offset >= |Text(content)|
  }

  lemma {:induction false} FoundIs(content: InlineContent, index: Option<nat>, offset: nat, i: nat)
    requires FoundAt(content, index, offset) && IsAt(content, i, offset)
    ensures index == Some(i)
  {
    StartWithin(content, i + 1);
    if index.Some? {
      AtIsUnique(content, i, index.value, offset);
    }
  }

  lemma {:induction false} HeldAtBothEnds(content: InlineContent, i: nat, from: nat, to: nat)
    requires Holds(content, i, from, to) && from <= to
    ensures IsAt(content, i, if from == to then (if from > 0 then from - 1 else 0) else from)
    ensures IsAt(content, i, if to > 0 then to - 1 else 0)
  {
  }

  // ---------- Joining runs ----------

  lemma {:induction false} PaintAppend(a: string, b: string, marks: seq<Mark>)
    ensures Paint(a + b, marks) == Paint(a, marks) + Paint(b, marks)
  {
  }

  lemma {:induction false} JoinedChars(rest: InlineContent, last: InlineNode, node: InlineNode)
    requires MarksOf(last) == MarksOf(node)
    ensures Chars(rest + [InlineNode(last.text + node.text, last.marks)]) == Chars(rest + [last]) + NodeChars(node)
  {
    var joined := InlineNode(last.text + node.text, last.marks);
    CharsAppend(rest, [last]);
    CharsAppend(rest, [joined]);
    CharsOne(last);
    CharsOne(joined);
    PaintAppend(last.text, node.text, MarksOf(last));
    Assoc(Chars(rest), NodeChars(last), NodeChars(node));
  }

  lemma {:induction false} JoinedCanonical(rest: InlineContent, last: InlineNode, node: InlineNode)
    requires Canonical(rest + [last]) && last.text != ""
    ensures Canonical(rest + [InlineNode(last.text + node.text, last.marks)])
  {
    var was, now := rest + [last], rest + [InlineNode(last.text + node.text, last.marks)];
    forall i | 0 <= i < |now|
      ensures now[i].text != "" && MarksOf(now[i]) == MarksOf(was[i])
    {
      assert i < |rest| ==> now[i] == was[i];
    }
  }

  lemma {:induction false} AppendedCanonical(out: InlineContent, node: InlineNode)
    requires Canonical(out) && node.text != ""
    requires out != [] ==> MarksOf(out[|out| - 1]) != MarksOf(node)
    ensures Canonical(out + [node]) && Chars(out + [node]) == Chars(out) + NodeChars(node)
  {
    CharsAppend(out, [node]);
    CharsOne(node);
  }

  method Merge(nodes: InlineContent) returns (out: InlineContent)
    ensures Chars(out) == Chars(nodes) && Canonical(out)
  {
    out := [];
    for n := 0 to |nodes|
      invariant Chars(out) == CharsTo(nodes, n)
      invariant Canonical(out)
    {
      out := Push(out, nodes[n]);
    }
  }

  /** One round of the merge: dropped when empty, joined to the last run when their marks agree. */
  method Push(out: InlineContent, node: InlineNode) returns (more: InlineContent)
    requires Canonical(out)
    ensures Canonical(more) && Chars(more) == Chars(out) + NodeChars(node)
  {
    if node.text == "" {
      return out;
    }
    if |out| > 0 && MarksOf(out[|out| - 1]) == MarksOf(node) {
      var rest, last := out[..|out| - 1], out[|out| - 1];
      assert out == rest + [last];
      JoinedChars(rest, last, node);
      JoinedCanonical(rest, last, node);
      return rest + [InlineNode(last.text + node.text, last.marks)];
    }
    AppendedCanonical(out, node);
    return out + [node];
  }

  // ---------- The edit ----------

  /**
   * The characters of `content`, with those of `[p, |before| - s)` replaced by the new ones in
   * one mark list.
   */
  ghost predicate Spliced(content: InlineContent, next: string, result: InlineContent, p: nat, s: nat, marks: seq<Mark>) {
    var n := |Text(content)|;
    && LongestPrefix(Text(content), next, p) && LongestSuffix(Text(content), next, p, s)
    && |Chars(content)| == n
    && Chars(result) == Replaced(Chars(content), p, n - s, Paint(Range(next, p, |next| - s), marks))
    && Inherited(content, p, n - s, marks)
  }

  /** `result` is `content` with the least possible replaced. */
  ghost predicate IsEdit(content: InlineContent, next: string, result: InlineContent) {
    exists p: nat, s: nat, marks :: Spliced(content, next, result, p, s, marks)
  }

  /** `s` with the elements from `from` up to `to` replaced by `u`. */
  function Replaced<T>(s: seq<T>, from: nat, to: nat, u: seq<T>): seq<T>
    requires from <= to <= |s|
  {
    Range(s, 0, from) + u + From(s, to)
  }

  method ReplaceInlineText(content: InlineContent, next: string) returns (result: InlineContent)
    ensures Text(result) == next
    ensures Text(content) == next ==> result == content
    ensures IsEdit(content, next, result)
    ensures Text(content) != next ==> Canonical(result) && |result| <= |content| + 1
  {
    var before := InlineToText(content);
    if before == next {
      result := content;
      UnchangedIsSpliced(content);
      return;
    }
    if next == "" {
      result := [];
      ClearedIsSpliced(content);
      return;
    }
    if |content| == 0 {
      result := [InlineNode(next, None)];
      NewIsSpliced(next);
      return;
    }
    var prefix := CommonPrefix(before, next);
    var suffix := CommonSuffix(before, next, prefix);
    var removedTo := |before| - suffix;
    var inserted := Range(next, prefix, |next| - suffix);
    var head := Slice(content, 0, prefix);
    var tail := Slice(content, removedTo, |before|);
    var middle: InlineContent := [];
    var marks := InheritedMarks(content, prefix, removedTo);
    if inserted != "" {
      middle := [InlineNode(inserted, marks)];
    }
    result := Merge(head + middle + tail);
    ghost var m := if marks.Some? then marks.value else [];
    MiddleChars(inserted, marks, middle);
    ThreeChars(head, middle, tail);
    EditMeaning(content, next, result, prefix, suffix, m);
  }

  lemma {:induction false} EditMeaning(content: InlineContent, next: string, result: InlineContent, p: nat, s: nat, m: seq<Mark>)
    requires content != [] && |Chars(content)| == |Text(content)| && Canonical(result)
    requires LongestPrefix(Text(content), next, p) && LongestSuffix(Text(content), next, p, s)
    requires Inherited(content, p, |Text(content)| - s, m)
    requires Chars(result) == Replaced(Chars(content), p, |Text(content)| - s, Paint(Range(next, p, |next| - s), m))
    ensures Text(result) == next && |result| <= |content| + 1
    ensures IsEdit(content, next, result)
  {
    assert Spliced(content, next, result, p, s, m);
    SplicedText(content, next, result, p, s, m);
    SpliceAddsOneRun(content, next, result, p, s, m);
  }

  lemma {:induction false} SpliceAddsOneRun(content: InlineContent, next: string, result: InlineContent, p: nat, s: nat, m: seq<Mark>)
    requires content != [] && Canonical(result) && Spliced(content, next, result, p, s, m)
    ensures |result| <= |content| + 1
  {
    CanonicalIsMinimal(result);
    RunsAfterSplice(content, p, |Text(content)| - s, Range(next, p, |next| - s), m);
  }

  lemma {:induction false} ThreeChars(head: InlineContent, middle: InlineContent, tail: InlineContent)
    ensures Chars(head + middle + tail) == Chars(head) + Chars(middle) + Chars(tail)
  {
    CharsAppend(head + middle, tail);
    CharsAppend(head, middle);
  }

  lemma {:induction false} MiddleChars(inserted: string, marks: Option<seq<Mark>>, middle: InlineContent)
    requires middle == if inserted != "" then [InlineNode(inserted, marks)] else []
    ensures Chars(middle) == Paint(inserted, if marks.Some? then marks.value else [])
  {
    if inserted != "" {
      CharsOne(middle[0]);
    }
  }

  function SpellTo(s: seq<Styled>, n: nat): string
    requires n <= |s|
  {
    if n == 0 then "" else SpellTo(s, n - 1) + [s[n - 1].c]
  }

  function Spell(s: seq<Styled>): string {
    SpellTo(s, |s|)
  }

  lemma {:induction false} SpellOfFirst(a: seq<Styled>, b: seq<Styled>, n: nat)
    requires n <= |a|
    ensures SpellTo(a + b, n) == SpellTo(a, n)
  {
    if n > 0 {
      SpellOfFirst(a, b, n - 1);
    }
  }

  lemma {:induction false} SpellOfBoth(a: seq<Styled>, b: seq<Styled>, n: nat)
    requires n <= |b|
    ensures SpellTo(a + b, |a| + n) == Spell(a) + SpellTo(b, n)
  {
    if n == 0 {
      SpellOfFirst(a, b, |a|);
      NothingAdded(Spell(a));
    } else {
      SpellOfBoth(a, b, n - 1);
      assert (a + b)[|a| + n - 1] == b[n - 1];
      Assoc(Spell(a), SpellTo(b, n - 1), [b[n - 1].c]);
    }
  }

  lemma {:induction false} SpellAppend(a: seq<Styled>, b: seq<Styled>)
    ensures Spell(a + b) == Spell(a) + Spell(b)
  {
    SpellOfBoth(a, b, |b|);
  }

  lemma {:induction false} SpellIs(s: seq<Styled>, text: string, n: nat)
    requires n <= |s| == |text| && forall i :: 0 <= i < |s| ==> s[i].c == text[i]
    ensures SpellTo(s, n) == Range(text, 0, n)
  {
    if n > 0 {
      SpellIs(s, text, n - 1);
    }
  }

  lemma {:induction false} SpellPaint(text: string, marks: seq<Mark>)
    ensures Spell(Paint(text, marks)) == text
  {
    SpellIs(Paint(text, marks), text, |text|);
    WholeRange(text);
  }

  lemma {:induction false} SpellChars(content: InlineContent)
    ensures Spell(Chars(content)) == Text(content)
  {
    CharsSpellText(content, |content|);
    SpellIs(Chars(content), Text(content), |Text(content)|);
    WholeRange(Text(content));
  }

  lemma {:induction false} SpellRange(content: InlineContent, a: nat, b: nat)
    requires a <= b <= |Text(content)| == |Chars(content)|
    ensures Spell(Range(Chars(content), a, b)) == Range(Text(content), a, b)
  {
    var s, t := Range(Chars(content), a, b), Range(Text(content), a, b);
    forall i | 0 <= i < |s|
      ensures s[i].c == t[i]
    {
      CharsSpellText(content, |content|);
      RangeAt(Chars(content), a, b, a + i);
      RangeAt(Text(content), a, b, a + i);
    }
    SpellIs(s, t, |s|);
    WholeRange(t);
  }

  lemma {:induction false} SplicedText(content: InlineContent, next: string, result: InlineContent, p: nat, s: nat, marks: seq<Mark>)
    requires LongestPrefix(Text(content), next, p) && LongestSuffix(Text(content), next, p, s)
    requires |Chars(content)| == |Text(content)|
    requires Chars(result) == Replaced(Chars(content), p, |Text(content)| - s, Paint(Range(next, p, |next| - s), marks))
    ensures Text(result) == next
  {
    var was, n, inserted := Chars(content), |Text(content)|, Range(next, p, |next| - s);
    var head, tail, u := Range(was, 0, p), From(was, n - s), Paint(inserted, marks);
    calc {
      Text(result);
    == { SpellChars(result); }
      Spell(head + u + tail);
    == { SpellAppend(head + u, tail); SpellAppend(head, u); SpellPaint(inserted, marks); }
      Spell(head) + inserted + Spell(tail);
    == { SpellRange(content, 0, p); SpellRange(content, n - s, n); }
      Range(Text(content), 0, p) + inserted + From(Text(content), n - s);
    ==
      Range(next, 0, p) + inserted + From(next, |next| - s);
    == { RangeSplits(next, 0, p, |next| - s); RangeSplits(next, 0, |next| - s, |next|); WholeRange(next); }
      next;
    }
  }

  lemma {:induction false} UnchangedIsSpliced(content: InlineContent)
    ensures IsEdit(content, Text(content), content)
  {
    CharsSpellText(content, |content|);
    var n := |Text(content)|;
    var marks := InheritedExists(content, n, n);
    WholeRange(Chars(content));
    NothingAdded(Chars(content));
    assert Chars(content) == Replaced(Chars(content), n, n, Paint(Range(Text(content), n, n), marks));
    assert Spliced(content, Text(content), content, n, 0, marks);
  }

  lemma {:induction false} InheritedExists(content: InlineContent, from: nat, to: nat) returns (marks: seq<Mark>)
    requires from <= to <= |Text(content)|
    ensures Inherited(content, from, to, marks)
  {
    if i: nat :| Holds(content, i, from, to) {
      marks := MarksOf(content[i]);
      forall j: nat | Holds(content, j, from, to)
        ensures j == i
      {
        HeldAtBothEnds(content, i, from, to);
        HeldAtBothEnds(content, j, from, to);
        AtIsUnique(content, i, j, if to > 0 then to - 1 else 0);
      }
    } else {
      marks := [];
    }
  }

  lemma {:induction false} ClearedIsSpliced(content: InlineContent)
    ensures IsEdit(content, "", [])
  {
    CharsSpellText(content, |content|);
    var n := |Text(content)|;
    var marks := InheritedExists(content, 0, n);
    assert Chars([]) == Replaced(Chars(content), 0, n, Paint(Range("", 0, 0), marks));
    assert Spliced(content, "", [], 0, 0, marks);
  }

  lemma {:induction false} NewIsSpliced(next: string)
    ensures var result := [InlineNode(next, None)];
            && Text(result) == next
            && IsEdit([], next, result)
  {
    var result := [InlineNode(next, None)];
    CharsOne(result[0]);
    WholeRange(next);
    NothingAdded(Paint(next, []));
    assert Chars(result) == Replaced([], 0, 0, Paint(next, []));
    assert Spliced([], next, result, 0, 0, []);
  }

  // ---------- How many runs an edit leaves ----------

  lemma {:induction false} RunsOfPart(s: seq<Styled>, k: nat)
    requires k <= |s|
    ensures Runs(Range(s, 0, k)) <= Runs(s) && Runs(From(s, k)) <= Runs(s)
  {
    RangeSplits(s, 0, k, |s|);
    WholeRange(s);
    RunsBound(Range(s, 0, k), From(s, k));
  }

  /** What lies up to the end of run `i` has at most `i + 1` stretches. */
  lemma {:induction false} RunsUpTo(content: InlineContent, i: nat, from: nat)
    requires i < |content| && from <= Start(content, i + 1)
    ensures from <= |Chars(content)| && Runs(Range(Chars(content), 0, from)) <= i + 1
  {
    RunsAtMostNodes(content, 0, i + 1);
    var end := Start(content, i + 1);
    RangeOfRange(Chars(content), 0, end, 0, from);
    RunsOfPart(Range(Chars(content), 0, end), from);
  }

  lemma {:induction false} RunsFrom(content: InlineContent, j: nat, to: nat)
    requires j < |content| && Start(content, j) <= to <= |Chars(content)|
    ensures Runs(From(Chars(content), to)) <= |content| - j
  {
    RunsAtMostNodes(content, j, |content|);
    StartEnds(content);
    var start := Start(content, j);
    RangeOfRange(Chars(content), start, |Chars(content)|, to, |Chars(content)|);
    RunsOfPart(From(Chars(content), start), to - start);
  }

  /** Some run holds each offset inside the text. */
  lemma {:induction false} AtExists(content: InlineContent, offset: nat) returns (i: nat)
    requires offset < |Text(content)|
    ensures IsAt(content, i, offset)
  {
    i := 0;
    StartEnds(content);
    while Start(content, i + 1) <= offset
      invariant i < |content| && Start(content, i) <= offset
      decreases |content| - i
    {
      i := i + 1;
    }
  }

  lemma {:induction false} AllMarked(content: InlineContent, i: nat, k: nat)
    requires IsAt(content, i, k)
    ensures k < |Chars(content)| && Chars(content)[k].marks == MarksOf(content[i])
  {
    NodeStretch(content, i);
    RangeAt(Chars(content), Start(content, i), Start(content, i + 1), k);
  }

  /** Painting over a stretch of marks `m`, or beside one, starts no new run. */
  lemma {:induction false} PaintingInsideRun(a: seq<Styled>, d: seq<Styled>, b: seq<Styled>, u: seq<Styled>, m: seq<Mark>)
    requires forall k :: 0 <= k < |d| ==> d[k].marks == m
    requires forall k :: 0 <= k < |u| ==> u[k].marks == m
    requires Runs(u) == (if u == [] then 0 else 1) && Runs(d) == (if d == [] then 0 else 1)
    requires d == [] ==> (a != [] && a[|a| - 1].marks == m) || (a == [] && b != [] && b[0].marks == m)
    ensures Runs(a + u + b) <= Runs(a + d + b)
  {
    assert a + u + b == a + (u + b) && a + d + b == a + (d + b);
    RunsAppend(a, u + b);
    RunsAppend(u, b);
    RunsAppend(a, d + b);
    RunsAppend(d, b);
    assert u != [] ==> (u + b)[0].marks == m;
    assert d != [] ==> (d + b)[0].marks == m;
  }

  /** An edit adds at most one run. */
  lemma {:induction false} RunsAfterSplice(content: InlineContent, from: nat, to: nat, inserted: string, m: seq<Mark>)
    requires content != [] && from <= to <= |Text(content)| && Inherited(content, from, to, m)
    ensures |Chars(content)| == |Text(content)|
    ensures Runs(Replaced(Chars(content), from, to, Paint(inserted, m))) <= |content| + 1
  {
    StartEnds(content);
    var s, u := Chars(content), Paint(inserted, m);
    RunsOfPaint(inserted, m);
    if i: nat :| Holds(content, i, from, to) {
      RunsInsideRun(content, i, from, to, u, m);
    } else {
      RunsBound(Range(s, 0, from), u);
      RunsBound(Range(s, 0, from) + u, From(s, to));
      if from < to {
        RunsAcrossRuns(content, from, to);
      } else {
        RunsAtNowhere(content, from);
      }
    }
  }

  /** An insertion that no run holds is one into no text at all. */
  lemma {:induction false} RunsAtNowhere(content: InlineContent, at: nat)
    requires content != [] && at <= |Text(content)| == |Chars(content)|
    requires forall i: nat :: !Holds(content, i, at, at)
    ensures Runs(Range(Chars(content), 0, at)) + Runs(From(Chars(content), at)) <= |content|
  {
    if |Text(content)| > 0 {
      var i := AtExists(content, if at > 0 then at - 1 else 0);
      assert Holds(content, i, at, at);
      assert false;
    }
  }

  lemma {:induction false} RemovedIsUniform(content: InlineContent, i: nat, from: nat, to: nat)
    requires from <= to <= |Chars(content)| && Holds(content, i, from, to)
    ensures Runs(Range(Chars(content), from, to)) == if from == to then 0 else 1
    ensures forall k :: 0 <= k < to - from ==> Range(Chars(content), from, to)[k].marks == MarksOf(content[i])
  {
    forall k | from <= k < to
      ensures Chars(content)[k].marks == MarksOf(content[i])
    {
      AllMarked(content, i, k);
    }
    forall k | 0 <= k < to - from
      ensures Range(Chars(content), from, to)[k].marks == MarksOf(content[i])
    {
      RangeAt(Chars(content), from, to, from + k);
    }
    UniformRuns(Range(Chars(content), from, to), MarksOf(content[i]), to - from);
  }

  lemma {:induction false} EndsOfRange(s: seq<Styled>, from: nat, to: nat)
    requires from <= to <= |s|
    ensures from > 0 ==> Range(s, 0, from)[from - 1] == s[from - 1]
    ensures to < |s| ==> From(s, to)[0] == s[to]
  {
    if from > 0 {
      RangeAt(s, 0, from, from - 1);
    }
    if to < |s| {
      RangeAt(s, to, |s|, to);
    }
  }

  lemma {:induction false} RunsInsideRun(content: InlineContent, i: nat, from: nat, to: nat, u: seq<Styled>, m: seq<Mark>)
    requires from <= to <= |Chars(content)| && Holds(content, i, from, to) && m == MarksOf(content[i])
    requires (forall k :: 0 <= k < |u| ==> u[k].marks == m) && Runs(u) == if u == [] then 0 else 1
    ensures Runs(Replaced(Chars(content), from, to, u)) <= |content|
  {
    var s := Chars(content);
    RemovedIsUniform(content, i, from, to);
    if from == to {
      AllMarked(content, i, if from > 0 then from - 1 else 0);
    }
    EndsOfRange(s, from, to);
    PaintingInsideRun(Range(s, 0, from), Range(s, from, to), From(s, to), u, m);
    RangeSplits(s, 0, from, to);
    RangeSplits(s, 0, to, |s|);
    WholeRange(s);
    RunsAtMostNodes(content, 0, |content|);
    StartEnds(content);
  }

  lemma {:induction false} RunsAcrossRuns(content: InlineContent, from: nat, to: nat)
    requires from < to <= |Text(content)| == |Chars(content)|
    requires forall i: nat :: !Holds(content, i, from, to)
    ensures Runs(Range(Chars(content), 0, from)) + Runs(From(Chars(content), to)) <= |content|
  {
    var i := AtExists(content, from);
    var j := AtExists(content, to - 1);
    assert !Holds(content, i, from, to);
    if j <= i {
      StartsOrdered(content, j + 1, i + 1);
      assert false;
    }
    RunsUpTo(content, i, from);
    RunsFrom(content, j, to);
  }
}
