/**
 * A reader of HTML, written without the renderer in mind: it knows tags, quoted attributes and
 * the five escapes, and calls everything else a mistake.
 */
module HtmlTokens {
  import opened Prelude

  datatype Attr = Attr(name: string, value: string)

  datatype Token =
    | Open(name: string, attrs: seq<Attr>)
    | Close(name: string)
    | Void(name: string, attrs: seq<Attr>)
    | Char(c: char)
    | Mistake

  // ---------- Reading ----------

  predicate IsNameChar(c: char) {
    'a' <= c <= 'z' || '0' <= c <= '9'
  }

  function NameLength(s: string): (n: nat)
    ensures n <= |s|
  {
    if s == "" || !IsNameChar(s[0]) then 0 else 1 + NameLength(s[1..])
  }

  /** The character an escape stands for, and the rest after it. */
  function ReadEscape(s: string): (r: Option<(char, string)>)
    ensures r.Some? ==> |r.value.1| < |s|
  {
    if |s| >= 5 && s[..5] == "&amp;" then Some(('&', s[5..]))
    else if |s| >= 4 && s[..4] == "&lt;" then Some(('<', s[4..]))
    else if |s| >= 4 && s[..4] == "&gt;" then Some(('>', s[4..]))
    else if |s| >= 6 && s[..6] == "&quot;" then Some(('"', s[6..]))
    else if |s| >= 5 && s[..5] == "&#39;" then Some(('\'', s[5..]))
    else None
  }

  predicate IsSpecial(c: char) {
    c == '&' || c == '<' || c == '>' || c == '"' || c == '\''
  }

  /** A plain character or an escape. */
  function ReadChar(s: string): (r: Option<(char, string)>)
    ensures r.Some? ==> |r.value.1| < |s|
  {
    if s == "" then None
    else if IsSpecial(s[0]) then ReadEscape(s)
    else Some((s[0], s[1..]))
  }

  /** An attribute's value, up to its closing quote. */
  function ReadValue(s: string): (r: Option<(string, string)>)
    ensures r.Some? ==> |r.value.1| < |s|
    decreases |s|
  {
    if s != "" && s[0] == '"' then Some(("", s[1..]))
    else
      var c := ReadChar(s);
      if c.None? then None
      else
        var more := ReadValue(c.value.1);
        if more.None? then None else Some(([c.value.0] + more.value.0, more.value.1))
  }

  datatype Tail = Tail(attrs: seq<Attr>, isVoid: bool, rest: string)

  /** What follows a tag's name: attributes, then `>` or ` />`. */
  function ReadTail(s: string): (r: Option<Tail>)
    ensures r.Some? ==> |r.value.rest| < |s|
    decreases |s|
  {
    if s != "" && s[0] == '>' then Some(Tail([], false, s[1..]))
    else if |s| >= 3 && s[..3] == " />" then Some(Tail([], true, s[3..]))
    else if s == "" || s[0] != ' ' then None
    else
      var n := NameLength(s[1..]);
      if n == 0 || |s| < n + 3 || s[n + 1] != '=' || s[n + 2] != '"' then None
      else
        var v := ReadValue(s[n + 3..]);
        if v.None? then None
        else
          var more := ReadTail(v.value.1);
          if more.None? then None
          else Some(more.value.(attrs := [Attr(s[1..n + 1], v.value.0)] + more.value.attrs))
  }

  function ReadTag(s: string): (r: Option<(Token, string)>)
    ensures r.Some? ==> |r.value.1| < |s|
  {
    if s != "" && s[0] == '/' then
      var n := NameLength(s[1..]);
      if n == 0 || |s| < n + 2 || s[n + 1] != '>' then None else Some((Close(s[1..n + 1]), s[n + 2..]))
    else
      var n := NameLength(s);
      if n == 0 then None
      else
        var t := ReadTail(s[n..]);
        if t.None? then None
        else Some((if t.value.isVoid then Void(s[..n], t.value.attrs) else Open(s[..n], t.value.attrs), t.value.rest))
  }

  function Lex(s: string): seq<Token>
    decreases |s|
  {
    if s == "" then []
    else if s[0] == '<' then
      var t := ReadTag(s[1..]);
      if t.None? then [Mistake] else [t.value.0] + Lex(t.value.1)
    else
      var c := ReadChar(s);
      if c.None? then [Mistake] else [Char(c.value.0)] + Lex(c.value.1)
  }

  // ---------- Judging ----------

  /** The tags still open after reading `tokens`, or nothing when one closes out of turn. */
  function StillOpen(tokens: seq<Token>, open: seq<string>): Option<seq<string>> {
    if tokens == [] then Some(open)
    else
      match tokens[0]
      case Open(name, _) => StillOpen(tokens[1..], [name] + open)
      case Close(name) => if open != [] && open[0] == name then StillOpen(tokens[1..], open[1..]) else None
      case Mistake => None
      case _ => StillOpen(tokens[1..], open)
  }

  /** Tags close in the reverse order they were opened in, and all of them do. */
  predicate Balanced(tokens: seq<Token>) {
    StillOpen(tokens, []) == Some([])
  }

  /** What is left when the tags are removed and the escapes undone. */
  function TextOf(tokens: seq<Token>): string {
    if tokens == [] then ""
    else if tokens[0].Char? then [tokens[0].c] + TextOf(tokens[1..])
    else TextOf(tokens[1..])
  }

  lemma {:induction false} TextOfConcat(a: seq<Token>, b: seq<Token>)
    ensures TextOf(a + b) == TextOf(a) + TextOf(b)
  {
    if a == [] {
      assert a + b == b;
    } else {
      assert (a + b)[1..] == a[1..] + b;
      TextOfConcat(a[1..], b);
    }
  }

  /** A character, or an element without content, and the tags it stands under, outermost first. */
  datatype Seen = Seen(what: Token, under: seq<Token>)

  function See(tokens: seq<Token>, open: seq<Token>): seq<Seen> {
    if tokens == [] then []
    else
      match tokens[0]
      case Open(_, _) => See(tokens[1..], open + [tokens[0]])
      case Close(_) => See(tokens[1..], if open == [] then [] else open[..|open| - 1])
      case Mistake => See(tokens[1..], open)
      case _ => [Seen(tokens[0], open)] + See(tokens[1..], open)
  }

  function Under(open: seq<Token>, seen: seq<Seen>): (r: seq<Seen>)
    ensures |r| == |seen|
  {
    seq(|seen|, i requires 0 <= i < |seen| => Seen(seen[i].what, open + seen[i].under))
  }

  lemma {:induction false} UnderNothing(seen: seq<Seen>)
    ensures Under([], seen) == seen
  {
    forall i | 0 <= i < |seen|
      ensures Under([], seen)[i] == seen[i]
    {
      assert [] + seen[i].under == seen[i].under;
    }
  }

  lemma {:induction false} UnderBoth(open: seq<Token>, a: seq<Seen>, b: seq<Seen>)
    ensures Under(open, a + b) == Under(open, a) + Under(open, b)
  {
  }

  lemma {:induction false} UnderUnder(open: seq<Token>, inner: seq<Token>, seen: seq<Seen>)
    ensures Under(open + inner, seen) == Under(open, Under(inner, seen))
  {
    forall i | 0 <= i < |seen|
      ensures Under(open + inner, seen)[i] == Under(open, Under(inner, seen))[i]
    {
      assert open + inner + seen[i].under == open + (inner + seen[i].under);
    }
  }

  // ---------- Reading what was escaped ----------

  function Escaped(c: char): string {
    if c == '&' then "&amp;"
    else if c == '<' then "&lt;"
    else if c == '>' then "&gt;"
    else if c == '"' then "&quot;"
    else if c == '\'' then "&#39;"
    else [c]
  }

  /** The same for a text node and for an attribute's value. */
  function EscapeHtml(value: string): string {
    if value == "" then "" else Escaped(value[0]) + EscapeHtml(value[1..])
  }

  lemma {:induction false} ReadsEscaped(c: char, rest: string)
    ensures ReadChar(Escaped(c) + rest) == Some((c, rest))
    ensures (Escaped(c) + rest)[0] != '<' && (Escaped(c) + rest)[0] != '"'
  {
    var s := Escaped(c) + rest;
    assert s[|Escaped(c)|..] == rest;
    if c == '&' {
      assert s[..5] == "&amp;";
    } else if c == '<' {
      assert s[..4] == "&lt;";
      assert |s| >= 5 ==> s[..5][1] == 'l';
    } else if c == '>' {
      assert s[..4] == "&gt;" && s[..4][1] == 'g';
      assert |s| >= 5 ==> s[..5][1] == 'g';
    } else if c == '"' {
      assert s[..6] == "&quot;" && s[..5][1] == 'q' && s[..4][1] == 'q';
    } else if c == '\'' {
      assert s[..5] == "&#39;" && s[..4][1] == '#';
      assert |s| >= 6 ==> s[..6][1] == '#';
    }
  }

  lemma {:induction false} ReadsValue(value: string, rest: string)
    ensures ReadValue(EscapeHtml(value) + "\"" + rest) == Some((value, rest))
    decreases |value|
  {
    if value == "" {
      assert EscapeHtml(value) + "\"" + rest == "\"" + rest;
    } else {
      var more := EscapeHtml(value[1..]) + "\"" + rest;
      assert EscapeHtml(value) + "\"" + rest == Escaped(value[0]) + more;
      ReadsEscaped(value[0], more);
      ReadsValue(value[1..], rest);
      assert [value[0]] + value[1..] == value;
    }
  }

  predicate IsName(s: string) {
    s != "" && forall i :: 0 <= i < |s| ==> IsNameChar(s[i])
  }

  lemma {:induction false} ReadsName(name: string, rest: string)
    requires forall i :: 0 <= i < |name| ==> IsNameChar(name[i])
    requires rest != "" && !IsNameChar(rest[0])
    ensures NameLength(name + rest) == |name|
  {
    if name == "" {
      assert name + rest == rest;
    } else {
      assert (name + rest)[1..] == name[1..] + rest;
      ReadsName(name[1..], rest);
    }
  }

  function PrintAttrs(attrs: seq<Attr>): string {
    if attrs == [] then ""
    else " " + attrs[0].name + "=\"" + EscapeHtml(attrs[0].value) + "\"" + PrintAttrs(attrs[1..])
  }

  ghost predicate AttrNames(attrs: seq<Attr>) {
    forall i :: 0 <= i < |attrs| ==> IsName(attrs[i].name)
  }

  lemma {:induction false} PrintedFirst(attrs: seq<Attr>, end: string)
    requires attrs != []
    ensures PrintAttrs(attrs) + end
            == " " + (attrs[0].name + ("=\"" + (EscapeHtml(attrs[0].value) + "\"" + (PrintAttrs(attrs[1..]) + end))))
  {
    var a, v, more := attrs[0].name, EscapeHtml(attrs[0].value), PrintAttrs(attrs[1..]);
    assert PrintAttrs(attrs) == " " + a + "=\"" + v + "\"" + more;
    Reassociate(" ", a, "=\"", v, "\"", more, end);
  }

  lemma {:induction false} Reassociate(a: string, b: string, c: string, d: string, e: string, f: string, g: string)
    ensures a + b + c + d + e + f + g == a + (b + (c + (d + e + (f + g))))
  {
  }

  lemma {:induction false} ReadsEnd(end: string, rest: string)
    requires end == ">" || end == " />"
    ensures ReadTail(end + rest) == Some(Tail([], end == " />", rest))
  {
    var s := end + rest;
    assert s[|end|..] == rest && s[..|end|] == end;
  }

  lemma {:induction false} NoAttrs(s: string)
    ensures PrintAttrs([]) + s == s
  {
  }

  lemma {:induction false} FirstAndRest(attrs: seq<Attr>)
    requires attrs != []
    ensures [attrs[0]] + attrs[1..] == attrs
  {
  }

  lemma {:induction false} ReadsTail(attrs: seq<Attr>, end: string, rest: string)
    requires AttrNames(attrs) && (end == ">" || end == " />")
    ensures ReadTail(PrintAttrs(attrs) + (end + rest)) == Some(Tail(attrs, end == " />", rest))
    decreases |attrs|
  {
    if attrs == [] {
      NoAttrs(end + rest);
      ReadsEnd(end, rest);
    } else {
      ReadsTail(attrs[1..], end, rest);
      ReadsFirst(attrs, end + rest, Tail(attrs[1..], end == " />", rest));
      FirstAndRest(attrs);
    }
  }

  lemma {:induction false} ReadsFirst(attrs: seq<Attr>, end: string, tail: Tail)
    requires attrs != [] && IsName(attrs[0].name)
    requires ReadTail(PrintAttrs(attrs[1..]) + end) == Some(tail)
    ensures ReadTail(PrintAttrs(attrs) + end) == Some(tail.(attrs := [attrs[0]] + tail.attrs))
  {
    var more := PrintAttrs(attrs[1..]) + end;
    ReadsValue(attrs[0].value, more);
    PrintedFirst(attrs, end);
    ReadsOneAttr(attrs[0], EscapeHtml(attrs[0].value) + "\"" + more, more);
  }

  /** The parts of one printed attribute, by position. */
  lemma {:induction false} AttrParts(name: string, value: string)
    requires name != ""
    ensures var s, n := " " + (name + ("=\"" + value)), |name|;
            && |s| >= n + 3 && s[0] == ' ' && s[1..] == name + ("=\"" + value) && s[1..n + 1] == name
            && s[n + 1] == '=' && s[n + 2] == '"' && s[n + 3..] == value
            && s[1] == name[0]
  {
  }

  lemma {:induction false} ReadsOneAttr(a: Attr, value: string, more: string)
    requires IsName(a.name) && ReadValue(value) == Some((a.value, more)) && ReadTail(more).Some?
    ensures ReadTail(" " + (a.name + ("=\"" + value)))
            == Some(ReadTail(more).value.(attrs := [a] + ReadTail(more).value.attrs))
  {
    var s := " " + (a.name + ("=\"" + value));
    AttrParts(a.name, value);
    ReadsName(a.name, "=\"" + value);
    assert s[..3][1] == a.name[0];
  }

  /** `<name attrs>` or `<name attrs />`. */
  function PrintTag(name: string, attrs: seq<Attr>, end: string): string {
    "<" + (name + (PrintAttrs(attrs) + end))
  }

  lemma {:induction false} LexesTag(t: string)
    requires ReadTag(t).Some?
    ensures Lex("<" + t) == [ReadTag(t).value.0] + Lex(ReadTag(t).value.1)
  {
    assert ("<" + t)[1..] == t;
  }

  lemma {:induction false} ReadsNamedTag(name: string, tail: string)
    requires IsName(name) && tail != "" && !IsNameChar(tail[0]) && ReadTail(tail).Some?
    ensures var r := ReadTail(tail).value;
            ReadTag(name + tail) == Some((if r.isVoid then Void(name, r.attrs) else Open(name, r.attrs), r.rest))
  {
    var t := name + tail;
    assert t[0] == name[0];
    ReadsName(name, tail);
    assert t[|name|..] == tail && t[..|name|] == name;
  }

  lemma {:induction false} ReadsTag(name: string, attrs: seq<Attr>, end: string, rest: string)
    requires IsName(name) && AttrNames(attrs) && (end == ">" || end == " />")
    ensures Lex(PrintTag(name, attrs, end) + rest)
            == [if end == " />" then Void(name, attrs) else Open(name, attrs)] + Lex(rest)
  {
    var tail := PrintAttrs(attrs) + (end + rest);
    ReadsTail(attrs, end, rest);
    TailStarts(attrs, end, rest);
    ReadsNamedTag(name, tail);
    LexesTag(name + tail);
    TagThenRest(name, PrintAttrs(attrs), end, rest);
  }

  lemma {:induction false} TagThenRest(name: string, attrs: string, end: string, rest: string)
    ensures "<" + (name + (attrs + end)) + rest == "<" + (name + (attrs + (end + rest)))
  {
  }

  lemma {:induction false} TailStarts(attrs: seq<Attr>, end: string, rest: string)
    requires end == ">" || end == " />"
    ensures var tail := PrintAttrs(attrs) + (end + rest);
            tail != "" && !IsNameChar(tail[0])
  {
    if attrs != [] {
      PrintedFirst(attrs, end + rest);
    } else {
      assert PrintAttrs(attrs) + (end + rest) == end + rest;
    }
  }

  lemma {:induction false} ReadsClose(name: string, rest: string)
    requires IsName(name)
    ensures Lex("</" + name + ">" + rest) == [Close(name)] + Lex(rest)
  {
    var s := "</" + name + ">" + rest;
    var t := s[1..];
    assert t[0] == '/' && t[1..] == name + (">" + rest);
    ReadsName(name, ">" + rest);
    assert t[1..|name| + 1] == name && t[|name| + 1] == '>' && t[|name| + 2..] == rest;
  }
}
