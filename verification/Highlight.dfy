/** Lexical colouring of snippets: when it succeeds, and that it can be taken off again. */
module Highlight {
  import opened Texts
  import opened Patterns
  import opened Markup
  import opened Documents
  import opened Offsets
  import opened Weaving
  import opened Lexemes

  function MarkOf(cells: seq<Cell>, token: Token, i: nat): seq<Mark>
    requires i < |cells|
  {
    if token.Token? && i < token.end <= |cells| && token.category.Some?
    then [Mark(cells[i].start, cells[token.end - 1].end, Span(token.category.value))]
    else []
  }

  /** The coloured lexemes of the decoded text from i on, as raw spans. */
  function Marks(lexer: Lexer, cells: seq<Cell>, text: string, i: nat): seq<Mark>
    requires |text| == |cells|
    decreases |text| - i
  {
    if i >= |text| then []
    else
      var token := lexer(text, i);
      MarkOf(cells, token, i) + Marks(lexer, cells, text, Next(token, i))
  }

  function MarksOf(lexer: Lexer, unescape: Unescape, raw: string): seq<Mark> {
    var cells := Cells(unescape, raw, 0);
    Marks(lexer, cells, Decoded(cells), 0)
  }

  lemma MarksUnfold(lexer: Lexer, cells: seq<Cell>, text: string, i: nat)
    requires LexerFits(lexer) && |text| == |cells| && i < |text|
    ensures var token := lexer(text, i);
            var rest := Marks(lexer, cells, text, Next(token, i));
            TokenFits(token, text, i) &&
            Marks(lexer, cells, text, i) ==
            if token.Token? && token.category.Some?
            then [Mark(cells[i].start, cells[token.end - 1].end, Span(token.category.value))] + rest
            else rest
  {
    var token := lexer(text, i);
    assert TokenFits(token, text, i);
    var rest := Marks(lexer, cells, text, Next(token, i));
    assert [] + rest == rest;
  }

  lemma {:induction false} MarksInOrder(lexer: Lexer, raw: string, cells: seq<Cell>, text: string, i: nat, a: nat, b: nat)
    requires |text| == |cells| && LexerFits(lexer)
    requires CellsWithin(cells, 0, |raw|) && CellsRise(cells)
    requires i < |text| ==> a <= cells[i].start && b <= cells[i].end
    ensures MarksChain(raw, Marks(lexer, cells, text, i), a, b)
    decreases |text| - i
  {
    if i < |text| {
      var token := lexer(text, i);
      MarksUnfold(lexer, cells, text, i);
      var rest := Marks(lexer, cells, text, Next(token, i));
      if token.Token? && token.category.Some? {
        var m := Mark(cells[i].start, cells[token.end - 1].end, Span(token.category.value));
        MarksInOrder(lexer, raw, cells, text, token.end, m.start, m.end);
        assert ([m] + rest)[1..] == rest;
      } else {
        MarksInOrder(lexer, raw, cells, text, Next(token, i), a, b);
      }
    }
  }

  lemma {:induction false} SpansHoldNoLinks(lexer: Lexer, raw: string, cells: seq<Cell>, text: string, i: nat)
    requires |text| == |cells| && LexerFits(lexer)
    ensures MarkLinks(raw, Marks(lexer, cells, text, i)) == []
    decreases |text| - i
  {
    if i < |text| {
      MarksUnfold(lexer, cells, text, i);
      SpansHoldNoLinks(lexer, raw, cells, text, Next(lexer(text, i), i));
      var rest := Marks(lexer, cells, text, Next(lexer(text, i), i));
      if Marks(lexer, cells, text, i) != rest {
        assert Marks(lexer, cells, text, i)[1..] == rest;
      }
    }
  }

  lemma MarksOrdered(lexer: Lexer, unescape: Unescape, raw: string)
    requires LexerFits(lexer)
    ensures MarksChain(raw, MarksOf(lexer, unescape, raw), 0, 0) && MarkLinks(raw, MarksOf(lexer, unescape, raw)) == []
    ensures Inside(raw, Edits(MarksOf(lexer, unescape, raw)))
  {
    var cells := OrderedCells(unescape, raw);
    MarksInOrder(lexer, raw, cells, Decoded(cells), 0, 0, 0);
    SpansHoldNoLinks(lexer, raw, cells, Decoded(cells), 0);
    EditsChain(raw, Marks(lexer, cells, Decoded(cells), 0), 0, 0);
  }

  /** highlight_text */
  ghost function Coloured(lexer: Lexer, unescape: Unescape, raw: string): string
    requires LexerFits(lexer)
  {
    MarksOrdered(lexer, unescape, raw);
    Splice(raw, Edits(MarksOf(lexer, unescape, raw)))
  }

  /** The inserts collected by highlight_text, in order. */
  method CollectInserts(lexer: Lexer, text: string, starts: seq<nat>, ends: seq<nat>, ghost cells: seq<Cell>)
    returns (inserts: seq<Edit>)
    requires LexerFits(lexer) && text == Decoded(cells) && starts == Starts(cells) && ends == Ends(cells)
    ensures inserts == Edits(Marks(lexer, cells, text, 0))
  {
    inserts := [];
    ghost var whole := Marks(lexer, cells, text, 0);
    ghost var found: seq<Mark> := [];
    var i := 0;
    assert found + whole == whole;
    while i < |text|
      invariant inserts == Edits(found)
      invariant whole == found + Marks(lexer, cells, text, i)
      decreases |text| - i
    {
      var token := lexer(text, i);
      MarksStep(lexer, cells, text, i, found);
      if token.Token? && token.category.Some? {
        ghost var m := Mark(starts[i], ends[token.end - 1], Span(token.category.value));
        EditsSnoc(found, m);
        inserts := inserts + [Edit(starts[i], ends[token.end - 1], SpanOpen(token.category.value), SPAN_CLOSE)];
        found := found + [m];
      }
      i := Next(token, i);
    }
    assert found + [] == found;
  }

  lemma MarksStep(lexer: Lexer, cells: seq<Cell>, text: string, i: nat, found: seq<Mark>)
    requires LexerFits(lexer) && |text| == |cells| && i < |text|
    ensures TokenFits(lexer(text, i), text, i)
    ensures var token := lexer(text, i);
            found + Marks(lexer, cells, text, i) ==
            (if token.Token? && token.category.Some?
             then found + [Mark(cells[i].start, cells[token.end - 1].end, Span(token.category.value))]
             else found) + Marks(lexer, cells, text, Next(token, i))
  {
    var token := lexer(text, i);
    assert TokenFits(token, text, i);
    JoinMarks(found, MarkOf(cells, token, i), Marks(lexer, cells, text, Next(token, i)));
  }

  method HighlightText(lexer: Lexer, unescape: Unescape, raw: string) returns (result: string)
    requires LexerFits(lexer)
    ensures result == Coloured(lexer, unescape, raw)
  {
    var text, starts, ends := DecodedOffsets(unescape, raw);
    ghost var cells := Cells(unescape, raw, 0);
    var inserts := CollectInserts(lexer, text, starts, ends, cells);
    MarksOrdered(lexer, unescape, raw);
    result := SpliceReversed(raw, inserts);
  }

  lemma ColouredIsDoc(lexer: Lexer, unescape: Unescape, raw: string) returns (doc: Doc)
    requires LexerFits(lexer) && '<' !in raw
    ensures Coloured(lexer, unescape, raw) == Show(doc)
    ensures Clean(doc)
    ensures HasStray(doc) <==> !MarksApart(MarksOf(lexer, unescape, raw), 0)
    ensures MarksApart(MarksOf(lexer, unescape, raw), 0) ==> Words(doc) == raw && Links(doc) == []
  {
    MarksOrdered(lexer, unescape, raw);
    doc := SpliceIsDoc(raw, MarksOf(lexer, unescape, raw));
  }

  // ----- a whole snippet: only the text between links is coloured

  ghost function Rendered(lexer: Lexer, unescape: Unescape, doc: Doc): string
    requires LexerFits(lexer)
  {
    match doc
    case Nothing => ""
    case Text(text, next) => Coloured(lexer, unescape, text) + Rendered(lexer, unescape, next)
    case Anchor(link, next) => Print(LINK, link) + Rendered(lexer, unescape, next)
    case _ => Rendered(lexer, unescape, doc.next)
  }

  /** highlight; None stands for a raised CrossReferenceError. */
  ghost function Highlighted(lexer: Lexer, unescape: Unescape, raw: string): Option<string>
    requires LexerFits(lexer)
  {
    var rendered := Rendered(lexer, unescape, Parse("", raw));
    if Plain(raw).None? || Plain(StripHighlighting(rendered)) != Plain(raw) || FindLinks(rendered) != FindLinks(raw)
    then None else Some(rendered)
  }

  /** The loop of highlight: colour the text between links, keep the links. */
  method RenderSnippet(lexer: Lexer, unescape: Unescape, raw: string) returns (rendered: string)
    requires LexerFits(lexer)
    ensures rendered == Rendered(lexer, unescape, Parse("", raw))
  {
    var text, rest := "", raw;
    rendered := "";
    ghost var whole := Rendered(lexer, unescape, Parse("", raw));
    assert "" + whole == whole;
    while rest != ""
      invariant whole == rendered + Rendered(lexer, unescape, Parse(text, rest))
      decreases |rest|
    {
      var found := Match(LINK, rest);
      ParseStep(lexer, unescape, text, rest, rendered);
      if found.Found? && found.length > 0 {
        var piece := HighlightText(lexer, unescape, text);
        rendered := rendered + piece + Print(LINK, found.captures);
        text, rest := "", rest[found.length..];
      } else {
        text, rest := text + [rest[0]], rest[1..];
      }
    }
    ParseLast(lexer, unescape, text);
    var last := HighlightText(lexer, unescape, text);
    rendered := rendered + last;
  }

  lemma ParseLast(lexer: Lexer, unescape: Unescape, text: string)
    requires LexerFits(lexer)
    ensures Rendered(lexer, unescape, Parse(text, "")) == Coloured(lexer, unescape, text)
  {
    assert Coloured(lexer, unescape, text) + "" == Coloured(lexer, unescape, text);
  }

  method HighlightSnippet(lexer: Lexer, unescape: Unescape, raw: string) returns (r: Option<string>)
    requires LexerFits(lexer)
    ensures r == Highlighted(lexer, unescape, raw)
  {
    var original := Plain(raw);
    if original.None? {
      return None;
    }
    var rendered := RenderSnippet(lexer, unescape, raw);
    if Plain(StripHighlighting(rendered)) != original || FindLinks(rendered) != FindLinks(raw) {
      return None;
    }
    return Some(rendered);
  }

  lemma ParseStep(lexer: Lexer, unescape: Unescape, text: string, s: string, before: string)
    requires LexerFits(lexer) && s != ""
    ensures var found := Match(LINK, s);
            before + Rendered(lexer, unescape, Parse(text, s)) ==
            if found.Found? && found.length > 0
            then before + Coloured(lexer, unescape, text) + Print(LINK, found.captures) +
                 Rendered(lexer, unescape, Parse("", s[found.length..]))
            else before + Rendered(lexer, unescape, Parse(text + [s[0]], s[1..]))
  {
    var found := Match(LINK, s);
    if found.Found? && found.length > 0 {
      RenderTextAnchor(lexer, unescape, text, found.captures, Parse("", s[found.length..]), before);
    }
  }

  lemma RenderTextAnchor(lexer: Lexer, unescape: Unescape, text: string, link: seq<string>, next: Doc, before: string)
    requires LexerFits(lexer)
    ensures before + Rendered(lexer, unescape, Text(text, Anchor(link, next))) ==
            before + Coloured(lexer, unescape, text) + Print(LINK, link) + Rendered(lexer, unescape, next)
  {
    FourParts(before, Coloured(lexer, unescape, text), Print(LINK, link), Rendered(lexer, unescape, next));
  }

  lemma FourParts(a: string, b: string, c: string, d: string)
    ensures a + (b + (c + d)) == a + b + c + d
  {
  }

  /** In no text between links do two coloured lexemes touch the same character reference. */
  ghost predicate TextsApart(lexer: Lexer, unescape: Unescape, doc: Doc) {
    match doc
    case Nothing => true
    case Text(text, next) => MarksApart(MarksOf(lexer, unescape, text), 0) && TextsApart(lexer, unescape, next)
    case _ => TextsApart(lexer, unescape, doc.next)
  }

  lemma {:induction false} RenderedIsDoc(lexer: Lexer, unescape: Unescape, doc: Doc) returns (coloured: Doc)
    requires LexerFits(lexer) && Clean(doc) && TextsAndLinks(doc)
    ensures Rendered(lexer, unescape, doc) == Show(coloured)
    ensures Clean(coloured)
    ensures HasStray(coloured) <==> !TextsApart(lexer, unescape, doc)
    ensures TextsApart(lexer, unescape, doc) ==>
              Links(coloured) == Links(doc) && Words(coloured) == Words(doc) && Show(Uncolour(coloured)) == Show(doc)
  {
    match doc
    case Nothing =>
      coloured := Nothing;
    case Text(text, next) =>
      var front := ColouredIsDoc(lexer, unescape, text);
      var rest := RenderedIsDoc(lexer, unescape, next);
      coloured := Append(front, rest);
      AppendKeeps(front, rest);
      UncolourAppend(front, rest);
      if TextsApart(lexer, unescape, doc) {
        WordsOnly(front);
      }
    case Anchor(link, next) =>
      var rest := RenderedIsDoc(lexer, unescape, next);
      coloured := Anchor(link, rest);
    case _ =>
      assert false;
  }

  lemma {:induction false} UncolourAppend(doc: Doc, rest: Doc)
    ensures Uncolour(Append(doc, rest)) == Append(Uncolour(doc), Uncolour(rest))
    ensures Show(Uncolour(Append(doc, rest))) == Show(Uncolour(doc)) + Show(Uncolour(rest))
  {
    if doc.Nothing? {
    } else {
      UncolourAppend(doc.next, rest);
    }
    AppendKeeps(Uncolour(doc), Uncolour(rest));
  }

  /** Without links and strays, taking the colour off leaves the words. */
  lemma {:induction false} WordsOnly(doc: Doc)
    requires Links(doc) == [] && !HasStray(doc)
    ensures Show(Uncolour(doc)) == Words(doc)
  {
    if doc.Nothing? {
    } else {
      WordsOnly(doc.next);
    }
  }

  /** Colouring a snippet succeeds exactly when it holds no markup but links and no two coloured
      lexemes of a text touch the same character reference. Then taking the colour off gives the
      snippet back, character by character, with the same text and the same links. */
  lemma HighlightExact(lexer: Lexer, unescape: Unescape, raw: string)
    requires LexerFits(lexer)
    ensures var r := Highlighted(lexer, unescape, raw);
            (r.Some? <==> Plain(raw).Some? && TextsApart(lexer, unescape, Parse("", raw))) &&
            (r.Some? ==> StripHighlighting(r.value) == raw && FindLinks(r.value) == FindLinks(raw))
  {
    if Plain(raw).Some? {
      var doc := Parse("", raw);
      ParseShow("", raw);
      ParseClean("", raw);
      assert "" + raw == raw;
      var coloured := RenderedIsDoc(lexer, unescape, doc);
      ColourRemoved(raw, doc, coloured);
    }
  }

  lemma ColourRemoved(raw: string, doc: Doc, coloured: Doc)
    requires Clean(doc) && TextsAndLinks(doc) && Show(doc) == raw && Clean(coloured)
    ensures HasStray(coloured) ==> Plain(StripHighlighting(Show(coloured))).None?
    ensures !HasStray(coloured) && Words(coloured) == Words(doc) ==>
              Plain(StripHighlighting(Show(coloured))) == Plain(raw)
    ensures !HasStray(coloured) && Show(Uncolour(coloured)) == Show(doc) ==> StripHighlighting(Show(coloured)) == raw
    ensures Links(coloured) == Links(doc) ==> FindLinks(Show(coloured)) == FindLinks(raw)
  {
    StripShow(coloured);
    UncolourKeeps(coloured);
    LinksShow(coloured);
    LinksShow(doc);
    PlainShow(Uncolour(coloured));
    PlainShow(doc);
    TextsAndLinksPlain(doc);
  }

  lemma {:induction false} TextsAndLinksPlain(doc: Doc)
    requires TextsAndLinks(doc)
    ensures !HasColour(doc) && !HasStray(doc)
  {
    if doc.Nothing? {
    } else {
      TextsAndLinksPlain(doc.next);
    }
  }

  /** A coloured snippet as a document. */
  lemma HighlightedDoc(lexer: Lexer, unescape: Unescape, raw: string) returns (coloured: Doc)
    requires LexerFits(lexer) && Highlighted(lexer, unescape, raw).Some?
    ensures Highlighted(lexer, unescape, raw) == Some(Show(coloured)) && Clean(coloured) && !HasStray(coloured)
    ensures Plain(raw) == Some(Words(coloured)) && FindLinks(raw) == Links(coloured)
  {
    HighlightExact(lexer, unescape, raw);
    ParseClean("", raw);
    coloured := RenderedIsDoc(lexer, unescape, Parse("", raw));
    StripShow(coloured);
    UncolourKeeps(coloured);
    PlainShow(Uncolour(coloured));
    LinksShow(coloured);
  }

  /** No text between links holds a lexeme to be coloured. */
  ghost predicate TextsBare(lexer: Lexer, unescape: Unescape, doc: Doc) {
    match doc
    case Nothing => true
    case Text(text, next) => MarksOf(lexer, unescape, text) == [] && TextsBare(lexer, unescape, next)
    case _ => TextsBare(lexer, unescape, doc.next)
  }

  lemma ColouredGrows(lexer: Lexer, unescape: Unescape, text: string)
    requires LexerFits(lexer)
    ensures MarksOf(lexer, unescape, text) == [] ==> Coloured(lexer, unescape, text) == text
    ensures MarksOf(lexer, unescape, text) != [] ==> |Coloured(lexer, unescape, text)| > |text|
  {
    var marks := MarksOf(lexer, unescape, text);
    MarksOrdered(lexer, unescape, text);
    forall e | e in Edits(marks)
      ensures e.open != ""
    {
      var k :| 0 <= k < |marks| && Edits(marks)[k] == e;
    }
    SpliceGrows(text, Edits(marks));
  }

  lemma {:induction false} RenderedGrows(lexer: Lexer, unescape: Unescape, doc: Doc)
    requires LexerFits(lexer) && TextsAndLinks(doc)
    ensures TextsBare(lexer, unescape, doc) ==> Rendered(lexer, unescape, doc) == Show(doc)
    ensures |Rendered(lexer, unescape, doc)| >= |Show(doc)|
    ensures !TextsBare(lexer, unescape, doc) ==> |Rendered(lexer, unescape, doc)| > |Show(doc)|
  {
    match doc
    case Nothing =>
    case Text(text, next) =>
      ColouredGrows(lexer, unescape, text);
      RenderedGrows(lexer, unescape, next);
    case Anchor(link, next) =>
      RenderedGrows(lexer, unescape, next);
    case _ =>
      assert false;
  }

  /** Colouring leaves a snippet as it was exactly if there is nothing to colour in it. */
  lemma ColouredSame(lexer: Lexer, unescape: Unescape, raw: string)
    requires LexerFits(lexer) && Highlighted(lexer, unescape, raw).Some?
    ensures Highlighted(lexer, unescape, raw) == Some(raw) <==> TextsBare(lexer, unescape, Parse("", raw))
  {
    HighlightExact(lexer, unescape, raw);
    ParseClean("", raw);
    ParseShow("", raw);
    assert "" + raw == raw;
    RenderedGrows(lexer, unescape, Parse("", raw));
  }

  // ----- when references stand for single characters, and when they do not

  lemma ApartCons(m: Mark, rest: seq<Mark>, pos: nat)
    ensures MarksApart([m] + rest, pos) <==> pos <= m.start && MarksApart(rest, m.end)
  {
    assert ([m] + rest)[1..] == rest;
  }

  lemma CellsNext(cells: seq<Cell>, i: nat, next: nat, pos: nat, high: nat)
    requires CellsWithin(cells, 0, high) && CellsApart(cells) && i < next <= |cells| && pos <= cells[i].start
    ensures next < |cells| ==> pos <= cells[next].start && cells[next - 1].end <= cells[next].start
  {
  }

  /** One mark more, or none, in front of marks that are apart from some place on. */
  lemma MarksAhead(lexer: Lexer, cells: seq<Cell>, text: string, i: nat, pos: nat, bound: nat)
    requires LexerFits(lexer) && |text| == |cells| && i < |text| && pos <= cells[i].start
    requires var token := lexer(text, i);
             MarksApart(Marks(lexer, cells, text, Next(token, i)), bound) &&
             bound == (if token.Token? && token.category.Some? && i < token.end <= |cells| then cells[token.end - 1].end else pos)
    ensures MarksApart(Marks(lexer, cells, text, i), pos)
  {
    var token := lexer(text, i);
    MarksUnfold(lexer, cells, text, i);
    if token.Token? && token.category.Some? {
      var m := Mark(cells[i].start, cells[token.end - 1].end, Span(token.category.value));
      ApartCons(m, Marks(lexer, cells, text, token.end), pos);
    }
  }

  lemma {:induction false} SingleMarks(lexer: Lexer, cells: seq<Cell>, text: string, i: nat, pos: nat, high: nat)
    requires |text| == |cells| && LexerFits(lexer) && CellsWithin(cells, 0, high) && CellsApart(cells)
    requires i < |text| ==> pos <= cells[i].start
    ensures MarksApart(Marks(lexer, cells, text, i), pos)
    decreases |text| - i
  {
    if i < |text| {
      var token := lexer(text, i);
      assert TokenFits(token, text, i);
      var next := Next(token, i);
      var bound := if token.Token? && token.category.Some? then cells[token.end - 1].end else pos;
      CellsNext(cells, i, next, pos, high);
      SingleMarks(lexer, cells, text, next, bound, high);
      MarksAhead(lexer, cells, text, i, pos, bound);
    }
  }

  lemma {:induction false} SingleTextsApart(lexer: Lexer, unescape: Unescape, doc: Doc)
    requires LexerFits(lexer) && TextsSingle(unescape, doc)
    ensures TextsApart(lexer, unescape, doc)
  {
    match doc
    case Nothing =>
    case Text(text, next) =>
      var cells := OrderedCells(unescape, text);
      SingleCells(unescape, text, 0);
      SingleMarks(lexer, cells, Decoded(cells), 0, 0, |text|);
      SingleTextsApart(lexer, unescape, next);
    case _ =>
      SingleTextsApart(lexer, unescape, doc.next);
  }

  /** Where every character reference stands for at most one character, colouring never fails. */
  lemma SingleCharactersSucceed(unescape: Unescape, raw: string)
    requires Plain(raw).Some? && TextsSingle(unescape, Parse("", raw))
    ensures LexerFits(ADA) && Highlighted(ADA, unescape, raw).Some?
  {
    AdaFits();
    SingleTextsApart(ADA, unescape, Parse("", raw));
    HighlightExact(ADA, unescape, raw);
  }

  lemma {:induction false} ParseWithoutTags(text: string, s: string)
    requires '<' !in s
    ensures Parse(text, s) == Text(text + s, Nothing)
    decreases |s|
  {
    if s == "" {
      assert text + s == text;
    } else {
      LinkPattern();
      if Match(LINK, s).Found? {
        MatchAdvances(LINK, 'a', s);
      }
      ParseWithoutTags(text + [s[0]], s[1..]);
      Associate(text, [s[0]], s[1..]);
      assert [s[0]] + s[1..] == s;
    }
  }

  lemma {:induction false} PlainWithoutTags(s: string)
    requires '<' !in s
    ensures Plain(s) == Some(s)
  {
    TextHasNoTag(s, 'a');
    LinkPattern();
    Copied(LINK, 'a', CAPTION, s, "");
    assert s + "" == s;
  }

  const SHARED := "&ampif;"

  lemma SharedCells(unescape: Unescape)
    requires unescape(SHARED) == "&if;"
    ensures Cells(unescape, SHARED, 0) == UnitCells("&if;", 0, 7)
  {
    assert Print(SEMICOLON, []) == ";" + "" == ";";
    assert ["ampif"][1..] == [];
    FitsStep(NAMED, ["ampif"]);
    PrintStep(NAMED, ["ampif"]);
    MatchPrinted(NAMED, ["ampif"], "");
    assert Print(NAMED, ["ampif"]) + "" == "&" + ("ampif" + ";") == SHARED;
    assert SHARED[1] == 'a' && SHARED[..2][1] == SHARED[1];
    assert SHARED[..3][1] == SHARED[1];
    assert SHARED[0..] == SHARED && SHARED[0..7] == SHARED;
    assert UnitLength(SHARED) == 7;
    assert UnitCells("&if;", 0, 7) + [] == UnitCells("&if;", 0, 7);
  }

  lemma SharedTokens()
    ensures AdaToken("&if;", 0) == Token(1, Some("operator"))
    ensures AdaToken("&if;", 1) == Token(3, Some("keyword"))
  {
    var text := "&if;";
    assert RunEnd(text, 1, Alphanumeric) == 3;
    assert text[1..3] == "if" && LowerCase("if") == "if";
  }

  lemma SharedMarks(cells: seq<Cell>)
    requires cells == UnitCells("&if;", 0, 7)
    ensures LexerFits(ADA) && Decoded(cells) == "&if;" && !MarksApart(Marks(ADA, cells, "&if;", 0), 0)
  {
    AdaFits();
    SharedTokens();
    MarksUnfold(ADA, cells, "&if;", 0);
    MarksUnfold(ADA, cells, "&if;", 1);
    var operator, keyword := Mark(0, 7, Span("operator")), Mark(0, 7, Span("keyword"));
    ApartCons(operator, Marks(ADA, cells, "&if;", 1), 0);
    ApartCons(keyword, Marks(ADA, cells, "&if;", 3), 7);
  }

  lemma SharedApart(unescape: Unescape)
    requires unescape(SHARED) == "&if;"
    ensures LexerFits(ADA) && !TextsApart(ADA, unescape, Text(SHARED, Nothing))
  {
    SharedCells(unescape);
    SharedMarks(UnitCells("&if;", 0, 7));
  }

  /** html.unescape reads "&ampif;" as "&if;": an operator and a keyword share one reference, and the
      snippet, though free of markup, cannot be coloured. */
  lemma SharedReferenceFails(unescape: Unescape)
    requires unescape(SHARED) == "&if;"
    ensures LexerFits(ADA) && Plain(SHARED) == Some(SHARED) && Highlighted(ADA, unescape, SHARED).None?
  {
    PlainWithoutTags(SHARED);
    ParseWithoutTags("", SHARED);
    assert "" + SHARED == SHARED;
    SharedApart(unescape);
    HighlightExact(ADA, unescape, SHARED);
  }
}
