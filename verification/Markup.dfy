/** The two kinds of markup put into Ada snippets, type links and coloured spans, and documents
    built from them. */
module Markup {
  import opened Texts
  import opened Patterns

  predicate HrefChar(c: char) {
    c != '"' && c != '<' && c != '>'
  }

  /** What an anchor of a page can hold. */
  predicate IdChar(c: char) {
    c != ' ' && c != '>'
  }

  predicate TargetChar(c: char) {
    Alphanumeric(c) || c == '.'
  }

  predicate CaptionChar(c: char) {
    c != '<' && c != '>'
  }

  predicate ContentChar(c: char) {
    c != '<'
  }

  const CLASSES: set<string> :=
    {"keyword", "number", "string", "character", "attribute", "comment", "operator"}

  /** Captures of a link, in order: address, qualified type name, text shown. */
  const LINK: Pattern := Literal("<a class=\"type-reference\" href=\"", Run(HrefChar, 1, LINK_DATA))
  const LINK_DATA := Literal("\" data-type=\"", Run(TargetChar, 1, LINK_SHOWN))
  const LINK_SHOWN := Literal("\">", Run(CaptionChar, 1, LINK_END))
  const LINK_END := Literal(LINK_CLOSE, Done)
  const CAPTION := 2

  /** Captures of a span: class and content. */
  const SPAN: Pattern := Literal("<span class=\"ada-", Word(CLASSES, SPAN_CONTENT))
  const SPAN_CONTENT := Literal("\">", Run(ContentChar, 0, SPAN_END))
  const SPAN_END := Literal(SPAN_CLOSE, Done)
  const CONTENT := 1

  const SPAN_CLOSE := "</span>"
  const LINK_CLOSE := "</a>"

  function LinkOpen(href: string, target: string): string {
    "<a class=\"type-reference\" href=\"" + href + "\" data-type=\"" + target + "\">"
  }

  function SpanOpen(category: string): string {
    "<span class=\"ada-" + category + "\">"
  }

  function PrintSpan(category: string, content: string): string {
    SpanOpen(category) + content + SPAN_CLOSE
  }

  predicate ValidLink(link: seq<string>) {
    |link| == 3 && Fits(LINK, link)
  }

  /** plain: remove only the exact links; any other tag is an error. */
  function Plain(s: string): Option<string> {
    var stripped := Keep(LINK, CAPTION, s);
    if '<' in stripped then None else Some(stripped)
  }

  function FindLinks(s: string): seq<seq<string>> {
    FindAll(LINK, s)
  }

  function StripHighlighting(s: string): string {
    Keep(SPAN, CONTENT, s)
  }

  lemma LinkPattern()
    ensures TagPattern(LINK, 'a') && Separated(LINK) && TagFree(LINK, 's')
  {
    assert Separated(LINK_SHOWN) && TagFree(LINK_SHOWN, 's');
    assert Separated(LINK_DATA) && TagFree(LINK_DATA, 's');
  }

  lemma SpanPattern()
    ensures TagPattern(SPAN, 's') && Separated(SPAN) && TagFree(SPAN, 'a')
  {
    assert Separated(SPAN_CONTENT) && TagFree(SPAN_CONTENT, 'a');
  }

  lemma SpanPrinted(category: string, content: string)
    requires category in CLASSES && '<' !in content
    ensures Fits(SPAN, [category, content]) && Print(SPAN, [category, content]) == PrintSpan(category, content)
  {
    assert AllOf(category, LowerLetter);
    assert [category, content][1..] == [content] && [content][1..] == [];
    assert Fits(SPAN_END, []) && Print(SPAN_END, []) == SPAN_CLOSE + "" == SPAN_CLOSE;
    FitsStep(SPAN_CONTENT, [content]);
    PrintStep(SPAN_CONTENT, [content]);
    PrintStep(SPAN, [category, content]);
    Associate("<span class=\"ada-", category, "\">" + (content + SPAN_CLOSE));
    Associate("<span class=\"ada-" + category, "\">", content + SPAN_CLOSE);
    Associate(SpanOpen(category), content, SPAN_CLOSE);
  }

  lemma LinkFits(link: seq<string>)
    ensures Fits(LINK, link) <==>
            |link| == 3 && link[0] != "" && AllOf(link[0], HrefChar) && link[1] != "" && AllOf(link[1], TargetChar) &&
            link[CAPTION] != "" && AllOf(link[CAPTION], CaptionChar)
  {
    FitsStep(LINK, link);
    if link != [] {
      FitsStep(LINK_DATA, link[1..]);
      if |link| > 1 {
        FitsStep(LINK_SHOWN, link[1..][1..]);
        if |link| > 2 {
          var none := link[1..][1..][1..];
          assert Fits(LINK_END, none) == Fits(Done, none) == (none == []);
        }
      }
    }
  }

  lemma LinkPrinted(href: string, target: string, caption: string)
    ensures Print(LINK, [href, target, caption]) == LinkOpen(href, target) + caption + LINK_CLOSE
  {
    var link := [href, target, caption];
    assert link[1..] == [target, caption] && link[1..][1..] == [caption] && [caption][1..] == [];
    PrintStep(LINK, link);
    PrintStep(LINK_DATA, [target, caption]);
    PrintStep(LINK_SHOWN, [caption]);
    assert Print(LINK_END, []) == LINK_CLOSE + "" == LINK_CLOSE;
    Nested("<a class=\"type-reference\" href=\"", href, "\" data-type=\"", target, "\">", caption, LINK_CLOSE);
  }

  lemma Nested(a: string, b: string, c: string, d: string, e: string, f: string, g: string)
    ensures a + (b + (c + (d + (e + (f + g))))) == (a + b + c + d + e) + f + g
  {
  }
}
