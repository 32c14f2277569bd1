/** Snippets as documents: text, links and coloured spans. The scans of Markup act on the printed
    document as the obvious operations act on its pieces. */
module Documents {
  import opened Texts
  import opened Patterns
  import opened Markup

  /** Stray is what is left of a tag whose opening part was cut off. */
  datatype Doc =
    | Nothing
    | Text(text: string, next: Doc)
    | Anchor(link: seq<string>, next: Doc)
    | Colour(category: string, content: string, next: Doc)
    | Stray(text: string, close: string, next: Doc)

  const CLOSES: set<string> := {SPAN_CLOSE, LINK_CLOSE}

  function Show(doc: Doc): string {
    match doc
    case Nothing => ""
    case Text(text, next) => text + Show(next)
    case Anchor(link, next) => Print(LINK, link) + Show(next)
    case Colour(category, content, next) => PrintSpan(category, content) + Show(next)
    case Stray(text, close, next) => text + close + Show(next)
  }

  /** Angle brackets open tags only. */
  predicate Clean(doc: Doc) {
    match doc
    case Nothing => true
    case Text(text, next) => '<' !in text && Clean(next)
    case Anchor(link, next) => ValidLink(link) && Clean(next)
    case Colour(category, content, next) => category in CLASSES && '<' !in content && Clean(next)
    case Stray(text, close, next) => '<' !in text && close in CLOSES && Clean(next)
  }

  function Uncolour(doc: Doc): Doc {
    match doc
    case Nothing => Nothing
    case Colour(_, content, next) => Text(content, Uncolour(next))
    case Text(text, next) => Text(text, Uncolour(next))
    case Anchor(link, next) => Anchor(link, Uncolour(next))
    case Stray(text, close, next) => Stray(text, close, Uncolour(next))
  }

  function Unlink(doc: Doc): Doc {
    match doc
    case Nothing => Nothing
    case Anchor(link, next) => Text(Nth(link, CAPTION), Unlink(next))
    case Text(text, next) => Text(text, Unlink(next))
    case Colour(category, content, next) => Colour(category, content, Unlink(next))
    case Stray(text, close, next) => Stray(text, close, Unlink(next))
  }

  function Links(doc: Doc): seq<seq<string>> {
    match doc
    case Nothing => []
    case Anchor(link, next) => [link] + Links(next)
    case _ => Links(doc.next)
  }

  /** The text a reader sees. */
  function Words(doc: Doc): string {
    match doc
    case Nothing => ""
    case Anchor(link, next) => Nth(link, CAPTION) + Words(next)
    case Colour(_, content, next) => content + Words(next)
    case _ => doc.text + Words(doc.next)
  }

  predicate HasStray(doc: Doc) {
    match doc
    case Nothing => false
    case Stray(_, _, _) => true
    case _ => HasStray(doc.next)
  }

  predicate HasColour(doc: Doc) {
    match doc
    case Nothing => false
    case Colour(_, _, _) => true
    case _ => HasColour(doc.next)
  }

  lemma TextHasNoTag(text: string, c: char)
    requires '<' !in text
    ensures NoTag(text, c)
  {
  }

  lemma CloseHasNoTag(text: string, close: string, c: char)
    requires '<' !in text && close in CLOSES && c != '/'
    ensures NoTag(text + close, c)
  {
    TextHasNoTag(text, c);
    NoTagJoin(text, close, c);
  }

  // ----- the scans, piece by piece

  lemma {:induction false} StripShow(doc: Doc)
    requires Clean(doc)
    ensures StripHighlighting(Show(doc)) == Show(Uncolour(doc))
  {
    SpanPattern();
    match doc
    case Nothing =>
    case Text(text, next) =>
      TextHasNoTag(text, 's');
      Copied(SPAN, 's', CONTENT, text, Show(next));
      StripShow(next);
    case Anchor(link, next) =>
      LinkPattern();
      PrintTagFree(LINK, link, 's');
      Copied(SPAN, 's', CONTENT, Print(LINK, link), Show(next));
      StripShow(next);
    case Colour(category, content, next) =>
      SpanPrinted(category, content);
      PrintedFound(SPAN, 's', CONTENT, [category, content], Show(next));
      StripShow(next);
    case Stray(text, close, next) =>
      CloseHasNoTag(text, close, 's');
      Copied(SPAN, 's', CONTENT, text + close, Show(next));
      StripShow(next);
  }

  lemma {:induction false} LinksShow(doc: Doc)
    requires Clean(doc)
    ensures Keep(LINK, CAPTION, Show(doc)) == Show(Unlink(doc))
    ensures FindLinks(Show(doc)) == Links(doc)
  {
    LinkPattern();
    match doc
    case Nothing =>
    case Text(text, next) =>
      TextHasNoTag(text, 'a');
      Copied(LINK, 'a', CAPTION, text, Show(next));
      LinksShow(next);
    case Anchor(link, next) =>
      PrintedFound(LINK, 'a', CAPTION, link, Show(next));
      LinksShow(next);
    case Colour(category, content, next) =>
      SpanPattern();
      SpanPrinted(category, content);
      PrintTagFree(SPAN, [category, content], 'a');
      Copied(LINK, 'a', CAPTION, PrintSpan(category, content), Show(next));
      LinksShow(next);
    case Stray(text, close, next) =>
      CloseHasNoTag(text, close, 'a');
      Copied(LINK, 'a', CAPTION, text + close, Show(next));
      LinksShow(next);
  }

  lemma CaptionPlain(link: seq<string>)
    requires ValidLink(link)
    ensures '<' !in link[CAPTION]
  {
    LinkFits(link);
  }

  lemma {:induction false} BracketShows(doc: Doc)
    requires Clean(doc)
    ensures '<' in Show(Unlink(doc)) <==> HasColour(doc) || HasStray(doc)
    ensures !HasColour(doc) && !HasStray(doc) ==> Show(Unlink(doc)) == Words(doc)
  {
    match doc
    case Nothing =>
    case Text(text, next) =>
      BracketShows(next);
    case Anchor(link, next) =>
      CaptionPlain(link);
      BracketShows(next);
    case Colour(category, content, next) =>
      assert SpanOpen(category)[0] == '<';
      assert PrintSpan(category, content)[0] == '<';
    case Stray(text, close, next) =>
      assert (text + close)[|text|] == '<';
  }

  /** plain succeeds exactly on documents of text and links, and gives their words. */
  lemma PlainShow(doc: Doc)
    requires Clean(doc)
    ensures Plain(Show(doc)) == if HasColour(doc) || HasStray(doc) then None else Some(Words(doc))
  {
    LinksShow(doc);
    BracketShows(doc);
  }

  lemma {:induction false} UncolourKeeps(doc: Doc)
    requires Clean(doc)
    ensures Clean(Uncolour(doc)) && !HasColour(Uncolour(doc))
    ensures HasStray(Uncolour(doc)) == HasStray(doc)
    ensures Words(Uncolour(doc)) == Words(doc) && Links(Uncolour(doc)) == Links(doc)
  {
    if doc.Nothing? {
    } else {
      UncolourKeeps(doc.next);
    }
  }

  // ----- reading a document of text and links

  /** The pieces finditer(LINK) cuts a snippet into; text was read already. */
  function Parse(text: string, s: string): Doc
    decreases |s|
  {
    if s == "" then Text(text, Nothing)
    else
      var found := Match(LINK, s);
      if found.Found? && found.length > 0 then Text(text, Anchor(found.captures, Parse("", s[found.length..])))
      else Parse(text + [s[0]], s[1..])
  }

  predicate TextsAndLinks(doc: Doc) {
    match doc
    case Nothing => true
    case Text(_, next) => TextsAndLinks(next)
    case Anchor(_, next) => TextsAndLinks(next)
    case _ => false
  }

  lemma {:induction false} ParseShow(text: string, s: string)
    ensures Show(Parse(text, s)) == text + s
    decreases |s|
  {
    if s == "" {
      assert text + "" == text;
    } else {
      var found := Match(LINK, s);
      if found.Found? && found.length > 0 {
        ParseShow("", s[found.length..]);
        PrintMatched(LINK, s);
        FrontAndRest(text, s, found.length);
      } else {
        ParseShow(text + [s[0]], s[1..]);
        FrontAndRest(text, s, 1);
        assert s[..1] == [s[0]];
      }
    }
  }

  lemma FrontAndRest(text: string, s: string, n: nat)
    requires n <= |s|
    ensures text + (s[..n] + ("" + s[n..])) == text + s
    ensures (text + s[..n]) + s[n..] == text + s
  {
    assert s[..n] + s[n..] == s;
    Associate(text, s[..n], s[n..]);
    assert "" + s[n..] == s[n..];
  }

  lemma {:induction false} ParseClean(text: string, s: string)
    requires '<' !in text && Plain(s).Some?
    ensures Clean(Parse(text, s)) && TextsAndLinks(Parse(text, s))
    decreases |s|
  {
    if s == "" {
    } else {
      var found := Match(LINK, s);
      var rest := s[Advance(found)..];
      var all := Keep(LINK, CAPTION, s);
      KeepTail(s);
      assert Plain(rest).Some?;
      if found.Found? && found.length > 0 {
        PrintMatched(LINK, s);
        LinkFits(found.captures);
        ParseClean("", rest);
      } else {
        if found.Found? {
          LinkPattern();
          MatchAdvances(LINK, 'a', s);
        }
        assert all == [s[0]] + Keep(LINK, CAPTION, rest);
        assert all[0] == s[0];
        ParseClean(text + [s[0]], s[1..]);
      }
    }
  }

  lemma KeepTail(s: string)
    requires s != ""
    ensures var rest := Keep(LINK, CAPTION, s[Advance(Match(LINK, s))..]);
            forall c :: c in rest ==> c in Keep(LINK, CAPTION, s)
  {
  }

  /** Texts and links take turns, a text first and last. */
  predicate Alternating(doc: Doc) {
    doc.Text? && (doc.next.Nothing? || (doc.next.Anchor? && Alternating(doc.next.next)))
  }

  lemma {:induction false} ParseSkips(read: string, text: string, rest: string)
    requires '<' !in text
    ensures Parse(read, text + rest) == Parse(read + text, rest)
    decreases |text|
  {
    if text == "" {
      assert text + rest == rest && read + text == read;
    } else {
      var s := text + rest;
      LinkPattern();
      if Match(LINK, s).Found? {
        MatchAdvances(LINK, 'a', s);
      }
      assert s[1..] == text[1..] + rest && s[0] == text[0];
      ParseSkips(read + [text[0]], text[1..], rest);
      Associate(read, [text[0]], text[1..]);
      assert [text[0]] + text[1..] == text;
    }
  }

  /** Such a document is read as it was shown. */
  lemma {:induction false} ParseShown(doc: Doc)
    requires Clean(doc) && Alternating(doc)
    ensures Parse("", Show(doc)) == doc
  {
    ParseSkips("", doc.text, Show(doc.next));
    assert "" + doc.text == doc.text;
    if doc.next.Anchor? {
      var link, next := doc.next.link, doc.next.next;
      ParseShown(next);
      LinkPattern();
      MatchPrinted(LINK, link, Show(next));
      MatchAdvances(LINK, 'a', Print(LINK, link) + Show(next));
      Cut(Print(LINK, link), Show(next));
    }
  }

  function Append(doc: Doc, rest: Doc): Doc {
    match doc
    case Nothing => rest
    case Text(text, next) => Text(text, Append(next, rest))
    case Anchor(link, next) => Anchor(link, Append(next, rest))
    case Colour(category, content, next) => Colour(category, content, Append(next, rest))
    case Stray(text, close, next) => Stray(text, close, Append(next, rest))
  }

  lemma {:induction false} AppendTexts(doc: Doc, rest: Doc)
    ensures Show(Append(doc, rest)) == Show(doc) + Show(rest)
    ensures Words(Append(doc, rest)) == Words(doc) + Words(rest)
  {
    match doc
    case Nothing =>
      assert "" + Show(rest) == Show(rest) && "" + Words(rest) == Words(rest);
    case Text(text, next) =>
      AppendTexts(next, rest);
      Associate(text, Show(next), Show(rest));
      Associate(text, Words(next), Words(rest));
    case Anchor(link, next) =>
      AppendTexts(next, rest);
      Associate(Print(LINK, link), Show(next), Show(rest));
      Associate(Nth(link, CAPTION), Words(next), Words(rest));
    case Colour(category, content, next) =>
      AppendTexts(next, rest);
      Associate(PrintSpan(category, content), Show(next), Show(rest));
      Associate(content, Words(next), Words(rest));
    case Stray(text, close, next) =>
      AppendTexts(next, rest);
      Associate(text + close, Show(next), Show(rest));
      Associate(text, Words(next), Words(rest));
  }

  lemma {:induction false} AppendParts(doc: Doc, rest: Doc)
    ensures Links(Append(doc, rest)) == Links(doc) + Links(rest)
    ensures Clean(Append(doc, rest)) == (Clean(doc) && Clean(rest))
    ensures HasStray(Append(doc, rest)) == (HasStray(doc) || HasStray(rest))
  {
    match doc
    case Nothing =>
      assert [] + Links(rest) == Links(rest);
    case Anchor(link, next) =>
      AppendParts(next, rest);
      assert [link] + (Links(next) + Links(rest)) == [link] + Links(next) + Links(rest);
    case _ =>
      AppendParts(doc.next, rest);
  }

  lemma AppendKeeps(doc: Doc, rest: Doc)
    ensures Show(Append(doc, rest)) == Show(doc) + Show(rest)
    ensures Words(Append(doc, rest)) == Words(doc) + Words(rest)
    ensures Links(Append(doc, rest)) == Links(doc) + Links(rest)
    ensures Clean(Append(doc, rest)) == (Clean(doc) && Clean(rest))
    ensures HasStray(Append(doc, rest)) == (HasStray(doc) || HasStray(rest))
  {
    AppendTexts(doc, rest);
    AppendParts(doc, rest);
  }
}
