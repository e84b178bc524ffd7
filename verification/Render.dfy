/** The whitelist renderer and the plain-text extractor. */
module Render {
  import opened Prelude
  import opened Blocks
  import opened HtmlTokens
  import InlineText

  datatype ResolvedMedia = ResolvedMedia(src: string, alt: string, width: Option<nat>, height: Option<nat>)

  /** `safe` decides which link targets are kept; `media` finds an image, or does not. */
  datatype Options = Options(safe: string -> bool, media: Id -> Option<ResolvedMedia>)

  function Decimal(n: nat): string {
    if n < 10 then [('0' as int + n) as char] else Decimal(n / 10) + [('0' as int + n % 10) as char]
  }

  predicate IsLanguage(s: string) {
    && 1 <= |s| <= 30 && IsNameChar(s[0])
    && (forall i :: 1 <= i < |s| ==> IsNameChar(s[i]) || s[i] in "+#._-")
  }

  // ---------- What is printed ----------

  function Element(name: string, attrs: seq<Attr>, html: string): string {
    PrintTag(name, attrs, ">") + html + ("</" + name + ">")
  }

  function LinkAttrs(href: string, newTab: bool): seq<Attr> {
    if newTab then [Attr("href", href), Attr("target", "_blank"), Attr("rel", "noopener noreferrer")]
    else [Attr("href", href)]
  }

  /** An unsafe link loses its mark and keeps its words. */
  function WrapMark(mark: Mark, html: string, options: Options): string {
    match mark
    case Bold => Element("strong", [], html)
    case Italic => Element("em", [], html)
    case Strike => Element("s", [], html)
    case CodeMark => Element("code", [], html)
    case Link(href, newTab) =>
      if options.safe(href) then Element("a", LinkAttrs(href, newTab == Some(true)), html) else html
  }

  /** The first mark is the outermost tag. */
  function WrapMarks(marks: seq<Mark>, html: string, options: Options): string {
    if marks == [] then html else WrapMark(marks[0], WrapMarks(marks[1..], html, options), options)
  }

  function InlineHtml(content: InlineContent, options: Options): string {
    if content == [] then ""
    else
      WrapMarks(InlineText.MarksOf(content[0]), EscapeHtml(content[0].text), options) + InlineHtml(content[1..], options)
  }

  function ItemsHtml(items: seq<InlineContent>, options: Options): string {
    if items == [] then "" else Element("li", [], InlineHtml(items[0], options)) + ItemsHtml(items[1..], options)
  }

  /** Zero and absent sizes are both left out. */
  function SizeAttrs(media: ResolvedMedia): seq<Attr> {
    if media.width.Some? && media.height.Some? && media.width.value > 0 && media.height.value > 0
    then [Attr("width", Decimal(media.width.value)), Attr("height", Decimal(media.height.value))]
    else []
  }

  function ImageAttrs(media: ResolvedMedia): seq<Attr> {
    [Attr("src", media.src), Attr("alt", media.alt)] + SizeAttrs(media) + [Attr("loading", "lazy"), Attr("decoding", "async")]
  }

  function ImageTag(media: ResolvedMedia): string {
    PrintTag("img", ImageAttrs(media), " />")
  }

  predicate HasText(s: Option<string>) {
    s.Some? && s.value != ""
  }

  function Quotation(content: InlineContent, options: Options): string {
    Element("blockquote", [], Element("p", [], InlineHtml(content, options)))
  }

  /** A highlighter hint of any other shape is dropped. */
  function CodeAttrs(language: Option<string>): seq<Attr> {
    if language.Some? && IsLanguage(language.value) then [Attr("class", "language-" + language.value)] else []
  }

  function FigureHtml(media: ResolvedMedia, caption: Option<InlineContent>, options: Options): string {
    if caption.None? then Element("figure", [], ImageTag(media))
    else Element("figure", [], ImageTag(media) + Element("figcaption", [], InlineHtml(caption.value, options)))
  }

  function BlockHtml(block: Block, options: Options): string {
    match block
    case Paragraph(_, content) => Element("p", [], InlineHtml(content, options))
    case Heading(_, level, content) => Element("h" + Decimal(level), [], InlineHtml(content, options))
    case Quote(_, content, attribution) =>
      if !HasText(attribution) then Quotation(content, options)
      else Element("figure", [], Quotation(content, options) + Element("figcaption", [], EscapeHtml(attribution.value)))
    case List(_, ordered, items) => Element(if ordered then "ol" else "ul", [], ItemsHtml(items, options))
    case Code(_, language, code) =>
      Element("pre", [], Element("code", CodeAttrs(language), EscapeHtml(code)))
    case Image(_, mediaId, caption) =>
      var media := options.media(mediaId);
      if media.None? then "" else FigureHtml(media.value, caption, options)
    case Divider(_) => PrintTag("hr", [], " />")
  }

  function BlocksHtml(blocks: seq<Block>, options: Options): string {
    if blocks == [] then "" else BlockHtml(blocks[0], options) + BlocksHtml(blocks[1..], options)
  }

  lemma {:induction false} InlineHtmlAppend(a: InlineContent, node: InlineNode, options: Options)
    ensures InlineHtml(a + [node], options)
            == InlineHtml(a, options) + WrapMarks(InlineText.MarksOf(node), EscapeHtml(node.text), options)
  {
    if a == [] {
      assert a + [node] == [node] && [node][1..] == [];
    } else {
      assert (a + [node])[1..] == a[1..] + [node];
      InlineHtmlAppend(a[1..], node, options);
    }
  }

  method RenderInline(content: InlineContent, options: Options) returns (out: string)
    ensures out == InlineHtml(content, options)
  {
    out := "";
    for n := 0 to |content|
      invariant out == InlineHtml(content[..n], options)
    {
      var marks := InlineText.MarksOf(content[n]);
      var html := EscapeHtml(content[n].text);
      for m := |marks| downto 0
        invariant html == WrapMarks(marks[m..], EscapeHtml(content[n].text), options)
      {
        html := WrapMark(marks[m], html, options);
        assert marks[m..][1..] == marks[m + 1..];
      }
      assert marks[0..] == marks;
      assert content[..n + 1] == content[..n] + [content[n]];
      InlineHtmlAppend(content[..n], content[n], options);
      out := out + html;
    }
    assert content[..|content|] == content;
  }

  // ---------- What may be printed ----------

  predicate IsHeadingName(name: string) {
    |name| >= 2 && name[0] == 'h' && forall i :: 1 <= i < |name| ==> '0' <= name[i] <= '9'
  }

  predicate IsPlainName(name: string) {
    name in {"strong", "em", "s", "p", "blockquote", "figure", "figcaption", "ol", "ul", "li", "pre"}
  }

  /** The whole vocabulary: these tags, with these attributes, and no link that is not safe. */
  predicate IsAllowed(token: Token, safe: string -> bool) {
    match token
    case Char(_) => true
    case Close(_) => true
    case Mistake => false
    case Void(name, attrs) =>
      || (name == "hr" && attrs == [])
      || (name == "img" && forall i :: 0 <= i < |attrs| ==>
            attrs[i].name in {"src", "alt", "width", "height", "loading", "decoding"})
    case Open(name, attrs) =>
      if name == "a" then attrs != [] && safe(attrs[0].value) && (attrs == LinkAttrs(attrs[0].value, true) || attrs == LinkAttrs(attrs[0].value, false))
      else if name == "code" then
        attrs == [] || (|attrs| == 1 && attrs[0].name == "class" && |attrs[0].value| > 9
                        && attrs[0].value[..9] == "language-" && IsLanguage(attrs[0].value[9..]))
      else
        && attrs == []
        && (IsHeadingName(name)
            || IsPlainName(name))
  }

  ghost predicate AllAllowed(tokens: seq<Token>, safe: string -> bool) {
    forall i :: 0 <= i < |tokens| ==> IsAllowed(tokens[i], safe)
  }

  /** `html` reads as `tokens`, wherever it stands. */
  ghost predicate ReadsAs(html: string, tokens: seq<Token>) {
    forall rest :: Lex(html + rest) == tokens + Lex(rest)
  }

  /** `tokens` open and close their own tags only, wherever they stand. */
  ghost predicate Nests(tokens: seq<Token>) {
    forall more, open :: StillOpen(tokens + more, open) == StillOpen(more, open)
  }

  /** `tokens` show `seen`, under whatever tags they stand. */
  ghost predicate Sees(tokens: seq<Token>, seen: seq<Seen>) {
    forall more, open :: See(tokens + more, open) == Under(open, seen) + See(more, open)
  }

  ghost predicate Fine(html: string, tokens: seq<Token>, safe: string -> bool) {
    ReadsAs(html, tokens) && Nests(tokens) && AllAllowed(tokens, safe)
  }

  /** `html` is well-formed, within the vocabulary, its text is `text`, and it shows `seen`. */
  ghost predicate Shows(html: string, text: string, seen: seq<Seen>, safe: string -> bool) {
    exists tokens :: Fine(html, tokens, safe) && TextOf(tokens) == text && Sees(tokens, seen)
  }

  lemma {:induction false} ShowsNothing(safe: string -> bool)
    ensures Shows("", "", [], safe)
  {
    var none: seq<Token> := [];
    forall rest
      ensures Lex("" + rest) == none + Lex(rest)
    {
      assert "" + rest == rest;
    }
    forall more: seq<Token>, open
      ensures StillOpen(none + more, open) == StillOpen(more, open)
    {
      assert none + more == more;
    }
    forall more: seq<Token>, open
      ensures See(none + more, open) == Under(open, []) + See(more, open)
    {
      assert none + more == more;
    }
    assert Fine("", none, safe) && Sees(none, []);
  }

  lemma {:induction false} ReadsAt(html: string, tokens: seq<Token>, rest: string)
    requires ReadsAs(html, tokens)
    ensures Lex(html + rest) == tokens + Lex(rest)
  {
  }

  lemma {:induction false} Assoc<T>(a: seq<T>, b: seq<T>, c: seq<T>)
    ensures a + b + c == a + (b + c)
  {
  }

  lemma {:induction false} ReadsBoth(a: string, b: string, x: seq<Token>, y: seq<Token>)
    requires ReadsAs(a, x) && ReadsAs(b, y)
    ensures ReadsAs(a + b, x + y)
  {
    forall rest
      ensures Lex(a + b + rest) == x + y + Lex(rest)
    {
      ReadsBothAt(a, b, x, y, rest);
    }
  }

  lemma {:induction false} ReadsBothAt(a: string, b: string, x: seq<Token>, y: seq<Token>, rest: string)
    requires ReadsAs(a, x) && ReadsAs(b, y)
    ensures Lex(a + b + rest) == x + y + Lex(rest)
  {
    calc {
      Lex(a + b + rest);
    == { Assoc(a, b, rest); }
      Lex(a + (b + rest));
    == { ReadsAt(a, x, b + rest); }
      x + Lex(b + rest);
    == { ReadsAt(b, y, rest); }
      x + (y + Lex(rest));
    == { Assoc(x, y, Lex(rest)); }
      x + y + Lex(rest);
    }
  }

  lemma {:induction false} NestsBoth(x: seq<Token>, y: seq<Token>)
    requires Nests(x) && Nests(y)
    ensures Nests(x + y)
  {
    forall more, open
      ensures StillOpen(x + y + more, open) == StillOpen(more, open)
    {
      assert x + y + more == x + (y + more);
      assert StillOpen(x + (y + more), open) == StillOpen(y + more, open);
    }
  }

  lemma {:induction false} SeesAt(x: seq<Token>, seen: seq<Seen>, more: seq<Token>, open: seq<Token>)
    requires Sees(x, seen)
    ensures See(x + more, open) == Under(open, seen) + See(more, open)
  {
  }

  lemma {:induction false} SeesBoth(x: seq<Token>, y: seq<Token>, s: seq<Seen>, t: seq<Seen>)
    requires Sees(x, s) && Sees(y, t)
    ensures Sees(x + y, s + t)
  {
    forall more, open
      ensures See(x + y + more, open) == Under(open, s + t) + See(more, open)
    {
      calc {
        See(x + y + more, open);
      == { Assoc(x, y, more); }
        See(x + (y + more), open);
      == { SeesAt(x, s, y + more, open); }
        Under(open, s) + See(y + more, open);
      == { SeesAt(y, t, more, open); }
        Under(open, s) + (Under(open, t) + See(more, open));
      == { Assoc(Under(open, s), Under(open, t), See(more, open)); UnderBoth(open, s, t); }
        Under(open, s + t) + See(more, open);
      }
    }
  }

  lemma {:induction false} FineBoth(a: string, b: string, x: seq<Token>, y: seq<Token>, safe: string -> bool)
    requires Fine(a, x, safe) && Fine(b, y, safe)
    ensures Fine(a + b, x + y, safe)
  {
    ReadsBoth(a, b, x, y);
    NestsBoth(x, y);
  }

  lemma {:induction false} ShowsBoth(a: string, b: string, s: string, t: string, p: seq<Seen>, q: seq<Seen>, safe: string -> bool)
    requires Shows(a, s, p, safe) && Shows(b, t, q, safe)
    ensures Shows(a + b, s + t, p + q, safe)
  {
    var x :| Fine(a, x, safe) && TextOf(x) == s && Sees(x, p);
    var y :| Fine(b, y, safe) && TextOf(y) == t && Sees(y, q);
    FineBoth(a, b, x, y, safe);
    TextOfConcat(x, y);
    SeesBoth(x, y, p, q);
  }

  lemma {:induction false} SeesOne(token: Token)
    requires token.Char? || token.Void?
    ensures Nests([token]) && Sees([token], [Seen(token, [])])
  {
    forall more, names
      ensures StillOpen([token] + more, names) == StillOpen(more, names)
    {
      assert ([token] + more)[1..] == more;
    }
    forall more: seq<Token>, open: seq<Token>
      ensures See([token] + more, open) == Under(open, [Seen(token, [])]) + See(more, open)
    {
      assert ([token] + more)[1..] == more;
      assert open + [] == open;
      assert Under(open, [Seen(token, [])]) == [Seen(token, open)];
    }
  }

  lemma {:induction false} ShowsOne(html: string, token: Token, safe: string -> bool)
    requires ReadsAs(html, [token]) && IsAllowed(token, safe) && (token.Char? || token.Void?)
    ensures Shows(html, if token.Char? then [token.c] else "", [Seen(token, [])], safe)
  {
    SeesOne(token);
    assert TextOf([token]) == if token.Char? then [token.c] else "";
    assert Fine(html, [token], safe);
  }

  lemma {:induction false} ShowsVoid(name: string, attrs: seq<Attr>, safe: string -> bool)
    requires IsName(name) && AttrNames(attrs) && IsAllowed(Void(name, attrs), safe)
    ensures Shows(PrintTag(name, attrs, " />"), "", [Seen(Void(name, attrs), [])], safe)
  {
    forall rest
      ensures Lex(PrintTag(name, attrs, " />") + rest) == [Void(name, attrs)] + Lex(rest)
    {
      ReadsTag(name, attrs, " />", rest);
    }
    ShowsOne(PrintTag(name, attrs, " />"), Void(name, attrs), safe);
  }

  /** Characters under no tag of their own. */
  function Plain(text: string): (r: seq<Seen>)
    ensures |r| == |text|
  {
    seq(|text|, i requires 0 <= i < |text| => Seen(Char(text[i]), []))
  }

  lemma {:induction false} ShowsChar(c: char, safe: string -> bool)
    ensures Shows(Escaped(c), [c], [Seen(Char(c), [])], safe)
  {
    forall rest
      ensures Lex(Escaped(c) + rest) == [Char(c)] + Lex(rest)
    {
      ReadsEscaped(c, rest);
    }
    ShowsOne(Escaped(c), Char(c), safe);
  }

  lemma {:induction false} PlainFirst(text: string)
    requires text != ""
    ensures [text[0]] + text[1..] == text
    ensures [Seen(Char(text[0]), [])] + Plain(text[1..]) == Plain(text)
  {
  }

  lemma {:induction false} ShowsEscaped(text: string, safe: string -> bool)
    ensures Shows(EscapeHtml(text), text, Plain(text), safe)
  {
    if text == "" {
      ShowsNothing(safe);
      assert Plain(text) == [];
    } else {
      ShowsChar(text[0], safe);
      ShowsEscaped(text[1..], safe);
      PlainFirst(text);
      ShowsBoth(Escaped(text[0]), EscapeHtml(text[1..]), [text[0]], text[1..],
                [Seen(Char(text[0]), [])], Plain(text[1..]), safe);
    }
  }

  lemma {:induction false} OpenReads(name: string, attrs: seq<Attr>)
    requires IsName(name) && AttrNames(attrs)
    ensures ReadsAs(PrintTag(name, attrs, ">"), [Open(name, attrs)])
  {
    forall rest
      ensures Lex(PrintTag(name, attrs, ">") + rest) == [Open(name, attrs)] + Lex(rest)
    {
      ReadsTag(name, attrs, ">", rest);
    }
  }

  lemma {:induction false} CloseReads(name: string)
    requires IsName(name)
    ensures ReadsAs("</" + name + ">", [Close(name)])
  {
    forall rest
      ensures Lex("</" + name + ">" + rest) == [Close(name)] + Lex(rest)
    {
      ReadsClose(name, rest);
    }
  }

  lemma {:induction false} ShowsElement(name: string, attrs: seq<Attr>, html: string, text: string, seen: seq<Seen>,
                                        safe: string -> bool)
    requires IsName(name) && AttrNames(attrs) && IsAllowed(Open(name, attrs), safe) && Shows(html, text, seen, safe)
    ensures Shows(Element(name, attrs, html), text, Under([Open(name, attrs)], seen), safe)
  {
    var x :| Fine(html, x, safe) && TextOf(x) == text && Sees(x, seen);
    ElementReads(name, attrs, html, x);
    ElementNests(name, attrs, x);
    ElementTokens(name, attrs, x, safe);
    ElementSees(name, attrs, x, seen);
    ShowsBy(Element(name, attrs, html), [Open(name, attrs)] + x + [Close(name)], text, Under([Open(name, attrs)], seen), safe);
  }

  lemma {:induction false} ShowsBy(html: string, tokens: seq<Token>, text: string, seen: seq<Seen>, safe: string -> bool)
    requires ReadsAs(html, tokens) && Nests(tokens) && AllAllowed(tokens, safe) && TextOf(tokens) == text && Sees(tokens, seen)
    ensures Shows(html, text, seen, safe)
  {
    assert Fine(html, tokens, safe);
  }

  lemma {:induction false} ElementTokens(name: string, attrs: seq<Attr>, x: seq<Token>, safe: string -> bool)
    requires IsAllowed(Open(name, attrs), safe) && AllAllowed(x, safe)
    ensures AllAllowed([Open(name, attrs)] + x + [Close(name)], safe)
    ensures TextOf([Open(name, attrs)] + x + [Close(name)]) == TextOf(x)
  {
    TextOfConcat([Open(name, attrs)] + x, [Close(name)]);
    TextOfConcat([Open(name, attrs)], x);
  }

  lemma {:induction false} ElementSees(name: string, attrs: seq<Attr>, x: seq<Token>, seen: seq<Seen>)
    requires Sees(x, seen)
    ensures Sees([Open(name, attrs)] + x + [Close(name)], Under([Open(name, attrs)], seen))
  {
    var tag := Open(name, attrs);
    forall more, open
      ensures See([tag] + x + [Close(name)] + more, open) == Under(open, Under([tag], seen)) + See(more, open)
    {
      var rest := [Close(name)] + more;
      assert [tag] + x + [Close(name)] + more == [tag] + (x + rest);
      calc {
        See([tag] + (x + rest), open);
      == { assert ([tag] + (x + rest))[1..] == x + rest; }
        See(x + rest, open + [tag]);
      == { SeesAt(x, seen, rest, open + [tag]); }
        Under(open + [tag], seen) + See(rest, open + [tag]);
      == { UnderUnder(open, [tag], seen); ClosesLast(name, more, open, tag); }
        Under(open, Under([tag], seen)) + See(more, open);
      }
    }
  }

  lemma {:induction false} ClosesLast(name: string, more: seq<Token>, open: seq<Token>, tag: Token)
    ensures See([Close(name)] + more, open + [tag]) == See(more, open)
  {
    assert ([Close(name)] + more)[1..] == more;
    assert (open + [tag])[..|open + [tag]| - 1] == open;
  }

  lemma {:induction false} PlainNameIsName(name: string)
    requires IsPlainName(name)
    ensures IsName(name) && name != "a" && name != "code"
  {
  }

  lemma {:induction false} ShowsPlain(name: string, html: string, text: string, seen: seq<Seen>, safe: string -> bool)
    requires IsPlainName(name) && Shows(html, text, seen, safe)
    ensures Shows(Element(name, [], html), text, In(name, seen), safe)
  {
    PlainNameIsName(name);
    ShowsElement(name, [], html, text, seen, safe);
  }

  function In(name: string, seen: seq<Seen>): seq<Seen> {
    Under([Open(name, [])], seen)
  }

  lemma {:induction false} ElementReads(name: string, attrs: seq<Attr>, html: string, x: seq<Token>)
    requires IsName(name) && AttrNames(attrs) && ReadsAs(html, x)
    ensures ReadsAs(Element(name, attrs, html), [Open(name, attrs)] + x + [Close(name)])
  {
    OpenReads(name, attrs);
    CloseReads(name);
    ReadsBoth(PrintTag(name, attrs, ">"), html, [Open(name, attrs)], x);
    ReadsBoth(PrintTag(name, attrs, ">") + html, "</" + name + ">", [Open(name, attrs)] + x, [Close(name)]);
  }

  lemma {:induction false} ElementNests(name: string, attrs: seq<Attr>, x: seq<Token>)
    requires Nests(x)
    ensures Nests([Open(name, attrs)] + x + [Close(name)])
  {
    forall more, open
      ensures StillOpen([Open(name, attrs)] + x + [Close(name)] + more, open) == StillOpen(more, open)
    {
      var rest := [Close(name)] + more;
      assert [Open(name, attrs)] + x + [Close(name)] + more == [Open(name, attrs)] + (x + rest);
      assert ([Open(name, attrs)] + (x + rest))[1..] == x + rest;
      assert StillOpen(x + rest, [name] + open) == StillOpen(rest, [name] + open);
      assert rest[1..] == more && ([name] + open)[1..] == open;
    }
  }

  // ---------- Inline content ----------

  /** The mark a tag stands for, by itself. */
  function MarkOf(tag: Token): Option<Mark> {
    match tag
    case Open(name, attrs) =>
      if name == "strong" then Some(Bold)
      else if name == "em" then Some(Italic)
      else if name == "s" then Some(Strike)
      else if name == "code" then Some(CodeMark)
      else if name == "a" && attrs != [] then Some(Link(attrs[0].value, if |attrs| == 1 then None else Some(true)))
      else None
    case _ => None
  }

  /** The marks a reader would put on text under these tags. */
  function MarksUnder(under: seq<Token>): seq<Mark> {
    if under == [] then []
    else (if MarkOf(under[0]).Some? then [MarkOf(under[0]).value] else []) + MarksUnder(under[1..])
  }

  function Restyled(seen: seq<Seen>): seq<InlineText.Styled> {
    seq(|seen|, i requires 0 <= i < |seen| =>
      InlineText.Styled(if seen[i].what.Char? then seen[i].what.c else ' ', MarksUnder(seen[i].under)))
  }

  /** The marks a page may show: unsafe links go, and a link opens in place unless it says otherwise. */
  function Kept(marks: seq<Mark>, safe: string -> bool): seq<Mark> {
    if marks == [] then []
    else
      (match marks[0]
       case Link(href, newTab) => if safe(href) then [Link(href, if newTab == Some(true) then Some(true) else None)] else []
       case mark => [mark]) + Kept(marks[1..], safe)
  }

  function KeptChars(s: seq<InlineText.Styled>, safe: string -> bool): seq<InlineText.Styled> {
    seq(|s|, i requires 0 <= i < |s| => InlineText.Styled(s[i].c, Kept(s[i].marks, safe)))
  }

  function TagOf(mark: Mark, safe: string -> bool): seq<Token> {
    match mark
    case Bold => [Open("strong", [])]
    case Italic => [Open("em", [])]
    case Strike => [Open("s", [])]
    case CodeMark => [Open("code", [])]
    case Link(href, newTab) => if safe(href) then [Open("a", LinkAttrs(href, newTab == Some(true)))] else []
  }

  function TagsOf(marks: seq<Mark>, safe: string -> bool): seq<Token> {
    if marks == [] then [] else TagOf(marks[0], safe) + TagsOf(marks[1..], safe)
  }

  function InlineSeen(content: InlineContent, safe: string -> bool): seq<Seen> {
    if content == [] then []
    else Under(TagsOf(InlineText.MarksOf(content[0]), safe), Plain(content[0].text)) + InlineSeen(content[1..], safe)
  }

  lemma {:induction false} ShowsMark(mark: Mark, html: string, text: string, seen: seq<Seen>, options: Options)
    requires Shows(html, text, seen, options.safe)
    ensures Shows(WrapMark(mark, html, options), text, Under(TagOf(mark, options.safe), seen), options.safe)
  {
    match mark
    case Bold => ShowsPlain("strong", html, text, seen, options.safe);
    case Italic => ShowsPlain("em", html, text, seen, options.safe);
    case Strike => ShowsPlain("s", html, text, seen, options.safe);
    case CodeMark => ShowsElement("code", [], html, text, seen, options.safe);
    case Link(href, newTab) =>
      if options.safe(href) {
        ShowsLink(href, newTab == Some(true), html, text, seen, options.safe);
      } else {
        UnderNothing(seen);
      }
  }

  lemma {:induction false} ShowsLink(href: string, newTab: bool, html: string, text: string, seen: seq<Seen>, safe: string -> bool)
    requires Shows(html, text, seen, safe) && safe(href)
    ensures Shows(Element("a", LinkAttrs(href, newTab), html), text, Under([Open("a", LinkAttrs(href, newTab))], seen), safe)
  {
    ShowsElement("a", LinkAttrs(href, newTab), html, text, seen, safe);
  }

  lemma {:induction false} ShowsMarks(marks: seq<Mark>, html: string, text: string, seen: seq<Seen>, options: Options)
    requires Shows(html, text, seen, options.safe)
    ensures Shows(WrapMarks(marks, html, options), text, Under(TagsOf(marks, options.safe), seen), options.safe)
  {
    if marks == [] {
      UnderNothing(seen);
    } else {
      var inner := Under(TagsOf(marks[1..], options.safe), seen);
      ShowsMarks(marks[1..], html, text, seen, options);
      ShowsMark(marks[0], WrapMarks(marks[1..], html, options), text, inner, options);
      UnderUnder(TagOf(marks[0], options.safe), TagsOf(marks[1..], options.safe), seen);
    }
  }

  lemma {:induction false} ShowsInline(content: InlineContent, options: Options)
    ensures Shows(InlineHtml(content, options), InlineText.Text(content), InlineSeen(content, options.safe), options.safe)
  {
    if content == [] {
      ShowsNothing(options.safe);
    } else {
      var marks, text, html := InlineText.MarksOf(content[0]), content[0].text, EscapeHtml(content[0].text);
      ShowsEscaped(text, options.safe);
      ShowsMarks(marks, html, text, Plain(text), options);
      ShowsInline(content[1..], options);
      InlineText.TextFirst(content);
      ShowsBoth(WrapMarks(marks, html, options), InlineHtml(content[1..], options), text, InlineText.Text(content[1..]),
                Under(TagsOf(marks, options.safe), Plain(text)), InlineSeen(content[1..], options.safe), options.safe);
    }
  }

  lemma {:induction false} TagsReadBack(marks: seq<Mark>, safe: string -> bool)
    ensures MarksUnder(TagsOf(marks, safe)) == Kept(marks, safe)
  {
    if marks != [] {
      TagsReadBack(marks[1..], safe);
      var tag, rest := TagOf(marks[0], safe), TagsOf(marks[1..], safe);
      if tag == [] {
        assert tag + rest == rest;
      } else {
        assert (tag + rest)[1..] == rest && (tag + rest)[0] == tag[0];
      }
    }
  }

  lemma {:induction false} RestyledBoth(a: seq<Seen>, b: seq<Seen>)
    ensures Restyled(a + b) == Restyled(a) + Restyled(b)
  {
  }

  lemma {:induction false} KeptBoth(a: seq<InlineText.Styled>, b: seq<InlineText.Styled>, safe: string -> bool)
    ensures KeptChars(a + b, safe) == KeptChars(a, safe) + KeptChars(b, safe)
  {
  }

  lemma {:induction false} NodeReadsBack(node: InlineNode, safe: string -> bool)
    ensures Restyled(Under(TagsOf(InlineText.MarksOf(node), safe), Plain(node.text)))
            == KeptChars(InlineText.NodeChars(node), safe)
  {
    var tags := TagsOf(InlineText.MarksOf(node), safe);
    TagsReadBack(InlineText.MarksOf(node), safe);
    assert tags + [] == tags;
  }

  lemma {:induction false} StyleReadsBack(content: InlineContent, safe: string -> bool)
    ensures Restyled(InlineSeen(content, safe)) == KeptChars(InlineText.Chars(content), safe)
  {
    if content != [] {
      var node, rest := content[0], content[1..];
      NodeReadsBack(node, safe);
      StyleReadsBack(rest, safe);
      InlineText.CharsFirst(content);
      RestyledBoth(Under(TagsOf(InlineText.MarksOf(node), safe), Plain(node.text)), InlineSeen(rest, safe));
      KeptBoth(InlineText.NodeChars(node), InlineText.Chars(rest), safe);
    }
  }

  /** What a whole page of HTML has to be. */
  ghost predicate IsProper(html: string, safe: string -> bool) {
    Balanced(Lex(html)) && AllAllowed(Lex(html), safe)
  }

  lemma {:induction false} ShownIsProper(html: string, text: string, seen: seq<Seen>, safe: string -> bool)
    requires Shows(html, text, seen, safe)
    ensures IsProper(html, safe) && TextOf(Lex(html)) == text && See(Lex(html), []) == seen
  {
    var x :| Fine(html, x, safe) && TextOf(x) == text && Sees(x, seen);
    ReadsAt(html, x, "");
    assert html + "" == html && x + Lex("") == x;
    assert StillOpen(x + [], []) == StillOpen([], []);
    assert x + [] == x;
    SeesAt(x, seen, [], []);
    UnderNothing(seen);
    assert seen + [] == seen;
  }

  /**
   * For any runs and marks: tags nest, only listed ones appear, links are safe, removing the
   * tags and undoing the escapes gives exactly the plain text, and a reader who takes the tags
   * for marks gets every character back with the marks it may show.
   */
  lemma {:induction false} InlineRoundTrip(content: InlineContent, options: Options)
    ensures IsProper(InlineHtml(content, options), options.safe)
    ensures TextOf(Lex(InlineHtml(content, options))) == InlineText.Text(content)
    ensures Restyled(See(Lex(InlineHtml(content, options)), [])) == KeptChars(InlineText.Chars(content), options.safe)
  {
    ShowsInline(content, options);
    ShownIsProper(InlineHtml(content, options), InlineText.Text(content), InlineSeen(content, options.safe), options.safe);
    StyleReadsBack(content, options.safe);
  }

  // ---------- Blocks ----------

  function Joined(parts: seq<string>): string {
    if parts == [] then "" else parts[0] + Joined(parts[1..])
  }

  function ItemTexts(items: seq<InlineContent>): seq<string> {
    if items == [] then [] else [InlineText.Text(items[0])] + ItemTexts(items[1..])
  }

  /** Everything a reader would read in one block. */
  function BlockTexts(block: Block): seq<string> {
    match block
    case Paragraph(_, content) => [InlineText.Text(content)]
    case Heading(_, _, content) => [InlineText.Text(content)]
    case Quote(_, content, attribution) =>
      [InlineText.Text(content)] + (if HasText(attribution) then [attribution.value] else [])
    case List(_, _, items) => ItemTexts(items)
    case Code(_, _, code) => [code]
    case Image(_, _, caption) => if caption.Some? then [InlineText.Text(caption.value)] else []
    case Divider(_) => []
  }

  /** The caption of an image that cannot be found is not rendered. */
  predicate IsRendered(block: Block, options: Options) {
    block.Image? ==> options.media(block.mediaId).Some?
  }

  function RenderedText(block: Block, options: Options): string {
    if IsRendered(block, options) then Joined(BlockTexts(block)) else ""
  }

  function RenderedTexts(blocks: seq<Block>, options: Options): string {
    if blocks == [] then "" else RenderedText(blocks[0], options) + RenderedTexts(blocks[1..], options)
  }

  lemma {:induction false} JoinedAppend(a: seq<string>, b: seq<string>)
    ensures Joined(a + b) == Joined(a) + Joined(b)
  {
    if a == [] {
      assert a + b == b;
    } else {
      assert (a + b)[1..] == a[1..] + b;
      JoinedAppend(a[1..], b);
    }
  }

  lemma {:induction false} JoinedOne(s: string)
    ensures Joined([s]) == s
  {
    assert [s][1..] == [];
  }

  function ItemsSeen(items: seq<InlineContent>, safe: string -> bool): seq<Seen> {
    if items == [] then [] else In("li", InlineSeen(items[0], safe)) + ItemsSeen(items[1..], safe)
  }

  function FigureSeen(media: ResolvedMedia, caption: Option<InlineContent>, safe: string -> bool): seq<Seen> {
    var image := [Seen(Void("img", ImageAttrs(media)), [])];
    In("figure", if caption.None? then image else image + In("figcaption", InlineSeen(caption.value, safe)))
  }

  /** What a reader sees of a block: its characters and images, each under the tags of its place. */
  function BlockSeen(block: Block, options: Options): seq<Seen> {
    var safe := options.safe;
    match block
    case Paragraph(_, content) => In("p", InlineSeen(content, safe))
    case Heading(_, level, content) => In("h" + Decimal(level), InlineSeen(content, safe))
    case Quote(_, content, attribution) =>
      var words := In("blockquote", In("p", InlineSeen(content, safe)));
      if HasText(attribution) then In("figure", words + In("figcaption", Plain(attribution.value))) else words
    case List(_, ordered, items) => In(if ordered then "ol" else "ul", ItemsSeen(items, safe))
    case Code(_, language, code) => In("pre", Under([Open("code", CodeAttrs(language))], Plain(code)))
    case Image(_, mediaId, caption) =>
      var media := options.media(mediaId);
      if media.None? then [] else FigureSeen(media.value, caption, safe)
    case Divider(_) => [Seen(Void("hr", []), [])]
  }

  function BlocksSeen(blocks: seq<Block>, options: Options): seq<Seen> {
    if blocks == [] then [] else BlockSeen(blocks[0], options) + BlocksSeen(blocks[1..], options)
  }

  lemma {:induction false} ShowsItems(items: seq<InlineContent>, options: Options)
    ensures Shows(ItemsHtml(items, options), Joined(ItemTexts(items)), ItemsSeen(items, options.safe), options.safe)
  {
    if items == [] {
      ShowsNothing(options.safe);
    } else {
      var html, seen := InlineHtml(items[0], options), InlineSeen(items[0], options.safe);
      ShowsInline(items[0], options);
      ShowsPlain("li", html, InlineText.Text(items[0]), seen, options.safe);
      ShowsItems(items[1..], options);
      ShowsBoth(Element("li", [], html), ItemsHtml(items[1..], options),
                InlineText.Text(items[0]), Joined(ItemTexts(items[1..])),
                In("li", seen), ItemsSeen(items[1..], options.safe), options.safe);
      assert ItemTexts(items)[1..] == ItemTexts(items[1..]);
    }
  }

  lemma {:induction false} DecimalDigits(n: nat)
    ensures Decimal(n) != "" && forall i :: 0 <= i < |Decimal(n)| ==> '0' <= Decimal(n)[i] <= '9'
  {
    if n >= 10 {
      DecimalDigits(n / 10);
    }
  }

  lemma {:induction false} ShowsHeading(level: nat, content: InlineContent, options: Options)
    ensures var name := "h" + Decimal(level);
            Shows(Element(name, [], InlineHtml(content, options)), InlineText.Text(content),
                  In(name, InlineSeen(content, options.safe)), options.safe)
  {
    DecimalDigits(level);
    ShowsInline(content, options);
    ShowsElement("h" + Decimal(level), [], InlineHtml(content, options), InlineText.Text(content),
                 InlineSeen(content, options.safe), options.safe);
  }

  lemma {:induction false} ShowsQuotation(content: InlineContent, options: Options)
    ensures Shows(Quotation(content, options), InlineText.Text(content),
                  In("blockquote", In("p", InlineSeen(content, options.safe))), options.safe)
  {
    var text, html, seen := InlineText.Text(content), InlineHtml(content, options), InlineSeen(content, options.safe);
    ShowsInline(content, options);
    ShowsPlain("p", html, text, seen, options.safe);
    ShowsPlain("blockquote", Element("p", [], html), text, In("p", seen), options.safe);
  }

  lemma {:induction false} ShowsAttributed(content: InlineContent, attribution: string, options: Options)
    ensures var words := In("blockquote", In("p", InlineSeen(content, options.safe)));
            Shows(Element("figure", [], Quotation(content, options) + Element("figcaption", [], EscapeHtml(attribution))),
                  InlineText.Text(content) + attribution,
                  In("figure", words + In("figcaption", Plain(attribution))), options.safe)
  {
    var text := InlineText.Text(content);
    var words := In("blockquote", In("p", InlineSeen(content, options.safe)));
    var caption, seen := Element("figcaption", [], EscapeHtml(attribution)), In("figcaption", Plain(attribution));
    ShowsQuotation(content, options);
    ShowsEscaped(attribution, options.safe);
    ShowsPlain("figcaption", EscapeHtml(attribution), attribution, Plain(attribution), options.safe);
    ShowsBoth(Quotation(content, options), caption, text, attribution, words, seen, options.safe);
    ShowsPlain("figure", Quotation(content, options) + caption, text + attribution, words + seen, options.safe);
  }

  lemma {:induction false} JoinedTwo(a: string, b: string)
    ensures Joined([a] + [b]) == a + b
  {
    JoinedAppend([a], [b]);
    JoinedOne(a);
    JoinedOne(b);
  }

  lemma {:induction false} CodeTagIsAllowed(language: Option<string>, safe: string -> bool)
    ensures AttrNames(CodeAttrs(language)) && IsAllowed(Open("code", CodeAttrs(language)), safe)
  {
    if language.Some? && IsLanguage(language.value) {
      var value := "language-" + language.value;
      assert value[..9] == "language-" && value[9..] == language.value;
    }
  }

  lemma {:induction false} ShowsCode(language: Option<string>, code: string, options: Options)
    ensures Shows(Element("pre", [], Element("code", CodeAttrs(language), EscapeHtml(code))), code,
                  In("pre", Under([Open("code", CodeAttrs(language))], Plain(code))), options.safe)
  {
    CodeTagIsAllowed(language, options.safe);
    ShowsEscaped(code, options.safe);
    ShowsElement("code", CodeAttrs(language), EscapeHtml(code), code, Plain(code), options.safe);
    ShowsPlain("pre", Element("code", CodeAttrs(language), EscapeHtml(code)), code,
               Under([Open("code", CodeAttrs(language))], Plain(code)), options.safe);
  }

  lemma {:induction false} ImageAttrNames(media: ResolvedMedia)
    ensures AttrNames(ImageAttrs(media))
    ensures forall i :: 0 <= i < |ImageAttrs(media)| ==>
              ImageAttrs(media)[i].name in {"src", "alt", "width", "height", "loading", "decoding"}
  {
  }

  lemma {:induction false} ShowsImageTag(media: ResolvedMedia, safe: string -> bool)
    ensures Shows(ImageTag(media), "", [Seen(Void("img", ImageAttrs(media)), [])], safe)
  {
    ImageAttrNames(media);
    ShowsVoid("img", ImageAttrs(media), safe);
  }

  lemma {:induction false} ShowsCaptioned(media: ResolvedMedia, caption: InlineContent, options: Options)
    ensures Shows(Element("figure", [], ImageTag(media) + Element("figcaption", [], InlineHtml(caption, options))),
                  InlineText.Text(caption),
                  In("figure", [Seen(Void("img", ImageAttrs(media)), [])] + In("figcaption", InlineSeen(caption, options.safe))),
                  options.safe)
  {
    var img, html := ImageTag(media), InlineHtml(caption, options);
    var text, seen := InlineText.Text(caption), InlineSeen(caption, options.safe);
    var image := [Seen(Void("img", ImageAttrs(media)), [])];
    ShowsImageTag(media, options.safe);
    ShowsInline(caption, options);
    ShowsPlain("figcaption", html, text, seen, options.safe);
    ShowsBoth(img, Element("figcaption", [], html), "", text, image, In("figcaption", seen), options.safe);
    assert "" + text == text;
    ShowsPlain("figure", img + Element("figcaption", [], html), text, image + In("figcaption", seen), options.safe);
  }

  lemma {:induction false} ShowsFigure(media: ResolvedMedia, caption: Option<InlineContent>, options: Options)
    ensures Shows(FigureHtml(media, caption, options), if caption.Some? then InlineText.Text(caption.value) else "",
                  FigureSeen(media, caption, options.safe), options.safe)
  {
    if caption.None? {
      ShowsImageTag(media, options.safe);
      ShowsPlain("figure", ImageTag(media), "", [Seen(Void("img", ImageAttrs(media)), [])], options.safe);
    } else {
      ShowsCaptioned(media, caption.value, options);
    }
  }

  lemma {:induction false} ShowsBlock(block: Block, options: Options)
    ensures Shows(BlockHtml(block, options), RenderedText(block, options), BlockSeen(block, options), options.safe)
  {
    match block
    case Paragraph(_, content) =>
      ShowsInline(content, options);
      ShowsPlain("p", InlineHtml(content, options), InlineText.Text(content), InlineSeen(content, options.safe), options.safe);
      JoinedOne(InlineText.Text(content));
    case Heading(_, level, content) =>
      ShowsHeading(level, content, options);
      JoinedOne(InlineText.Text(content));
    case Quote(_, content, attribution) =>
      ShowsQuotation(content, options);
      JoinedOne(InlineText.Text(content));
      if HasText(attribution) {
        ShowsAttributed(content, attribution.value, options);
        JoinedTwo(InlineText.Text(content), attribution.value);
      }
    case List(_, ordered, items) =>
      ShowsItems(items, options);
      ShowsPlain(if ordered then "ol" else "ul", ItemsHtml(items, options), Joined(ItemTexts(items)),
                 ItemsSeen(items, options.safe), options.safe);
    case Code(_, language, code) =>
      ShowsCode(language, code, options);
      JoinedOne(code);
    case Image(_, mediaId, caption) =>
      if options.media(mediaId).None? {
        ShowsNothing(options.safe);
      } else {
        ShowsFigure(options.media(mediaId).value, caption, options);
        if caption.Some? {
          JoinedOne(InlineText.Text(caption.value));
        }
      }
    case Divider(_) =>
      ShowsVoid("hr", [], options.safe);
  }

  lemma {:induction false} ShowsBlocks(blocks: seq<Block>, options: Options)
    ensures Shows(BlocksHtml(blocks, options), RenderedTexts(blocks, options), BlocksSeen(blocks, options), options.safe)
  {
    if blocks == [] {
      ShowsNothing(options.safe);
    } else {
      ShowsBlock(blocks[0], options);
      ShowsBlocks(blocks[1..], options);
      ShowsBoth(BlockHtml(blocks[0], options), BlocksHtml(blocks[1..], options),
                RenderedText(blocks[0], options), RenderedTexts(blocks[1..], options),
                BlockSeen(blocks[0], options), BlocksSeen(blocks[1..], options), options.safe);
    }
  }

  /**
   * Every document renders to balanced, whitelisted HTML, whatever its blocks hold, and every
   * character and image of it is seen in order, under the tags of its own block.
   */
  lemma {:induction false} BlocksAreProper(blocks: seq<Block>, options: Options)
    ensures IsProper(BlocksHtml(blocks, options), options.safe)
    ensures TextOf(Lex(BlocksHtml(blocks, options))) == RenderedTexts(blocks, options)
    ensures See(Lex(BlocksHtml(blocks, options)), []) == BlocksSeen(blocks, options)
  {
    ShowsBlocks(blocks, options);
    ShownIsProper(BlocksHtml(blocks, options), RenderedTexts(blocks, options), BlocksSeen(blocks, options), options.safe);
  }

  // ---------- Plain text ----------

  function AllTexts(blocks: seq<Block>): seq<string> {
    if blocks == [] then [] else BlockTexts(blocks[0]) + AllTexts(blocks[1..])
  }

  function NonEmpty(parts: seq<string>): seq<string> {
    if parts == [] then []
    else if parts[0] == "" then NonEmpty(parts[1..])
    else [parts[0]] + NonEmpty(parts[1..])
  }

  function Lines(parts: seq<string>): string {
    if parts == [] then "" else if |parts| == 1 then parts[0] else parts[0] + "\n" + Lines(parts[1..])
  }

  lemma {:induction false} AllTextsAppend(a: seq<Block>, block: Block)
    ensures AllTexts(a + [block]) == AllTexts(a) + BlockTexts(block)
  {
    if a == [] {
      assert a + [block] == [block] && [block][1..] == [];
    } else {
      assert (a + [block])[1..] == a[1..] + [block];
      AllTextsAppend(a[1..], block);
    }
  }

  lemma {:induction false} ItemTextsAppend(a: seq<InlineContent>, item: InlineContent)
    ensures ItemTexts(a + [item]) == ItemTexts(a) + [InlineText.Text(item)]
  {
    if a == [] {
      assert a + [item] == [item] && [item][1..] == [];
    } else {
      assert (a + [item])[1..] == a[1..] + [item];
      ItemTextsAppend(a[1..], item);
    }
  }

  method BlockParts(block: Block) returns (parts: seq<string>)
    ensures parts == BlockTexts(block)
  {
    parts := [];
    match block
    case Paragraph(_, content) => parts := parts + [InlineText.Text(content)];
    case Heading(_, _, content) => parts := parts + [InlineText.Text(content)];
    case Quote(_, content, attribution) =>
      parts := parts + [InlineText.Text(content)];
      if HasText(attribution) {
        parts := parts + [attribution.value];
      }
    case List(_, _, items) =>
      for n := 0 to |items|
        invariant parts == ItemTexts(items[..n])
      {
        assert items[..n + 1] == items[..n] + [items[n]];
        ItemTextsAppend(items[..n], items[n]);
        parts := parts + [InlineText.Text(items[n])];
      }
      assert items[..|items|] == items;
    case Code(_, _, code) => parts := parts + [code];
    case Image(_, _, caption) =>
      if caption.Some? {
        parts := parts + [InlineText.Text(caption.value)];
      }
    case Divider(_) =>
  }

  method BlocksToPlainText(blocks: seq<Block>) returns (text: string)
    ensures text == Lines(NonEmpty(AllTexts(blocks)))
  {
    var parts: seq<string> := [];
    for n := 0 to |blocks|
      invariant parts == AllTexts(blocks[..n])
    {
      assert blocks[..n + 1] == blocks[..n] + [blocks[n]];
      AllTextsAppend(blocks[..n], blocks[n]);
      var more := BlockParts(blocks[n]);
      parts := parts + more;
    }
    assert blocks[..|blocks|] == blocks;
    text := Lines(NonEmpty(parts));
  }

  lemma {:induction false} NonEmptyJoins(parts: seq<string>)
    ensures Joined(NonEmpty(parts)) == Joined(parts)
    ensures forall i :: 0 <= i < |NonEmpty(parts)| ==> NonEmpty(parts)[i] != ""
  {
    if parts != [] {
      NonEmptyJoins(parts[1..]);
      if parts[0] != "" {
        assert NonEmpty(parts)[1..] == NonEmpty(parts[1..]);
      }
    }
  }

  lemma {:induction false} TextsSplit(blocks: seq<Block>, options: Options)
    ensures |RenderedTexts(blocks, options)| <= |Joined(AllTexts(blocks))|
    ensures RenderedTexts(blocks, options) == Joined(AllTexts(blocks)) <==>
            forall i :: 0 <= i < |blocks| && Joined(BlockTexts(blocks[i])) != "" ==> IsRendered(blocks[i], options)
  {
    if blocks != [] {
      var rest := blocks[1..];
      TextsSplit(rest, options);
      JoinedAppend(BlockTexts(blocks[0]), AllTexts(rest));
      assert forall i :: 0 <= i < |rest| ==> rest[i] == blocks[i + 1];
      if IsRendered(blocks[0], options) || Joined(BlockTexts(blocks[0])) == "" {
        var head := Joined(BlockTexts(blocks[0]));
        assert RenderedText(blocks[0], options) == head;
        assert (head + RenderedTexts(rest, options))[|head|..] == RenderedTexts(rest, options);
        assert (head + Joined(AllTexts(rest)))[|head|..] == Joined(AllTexts(rest));
        assert (forall i :: 0 <= i < |blocks| && Joined(BlockTexts(blocks[i])) != "" ==> IsRendered(blocks[i], options))
            == (forall i :: 0 <= i < |rest| && Joined(BlockTexts(rest[i])) != "" ==> IsRendered(rest[i], options));
      }
    }
  }

  /**
   * The extractor and the renderer say the same words in the same order, the extractor with a
   * line per part, exactly when no image with a caption has gone missing.
   */
  lemma {:induction false} PlainTextMatchesHtml(blocks: seq<Block>, options: Options)
    ensures TextOf(Lex(BlocksHtml(blocks, options))) == Joined(NonEmpty(AllTexts(blocks))) <==>
            forall i :: 0 <= i < |blocks| && Joined(BlockTexts(blocks[i])) != "" ==> IsRendered(blocks[i], options)
  {
    BlocksAreProper(blocks, options);
    NonEmptyJoins(AllTexts(blocks));
    TextsSplit(blocks, options);
  }
}
