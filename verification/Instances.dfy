/** One small site on which a run goes right or wrong, depending on an anchor and a heading. */
module Instances {
  import opened Texts
  import opened Patterns
  import opened Markup
  import opened Documents
  import opened Offsets
  import opened Weaving
  import opened Lexemes
  import opened Tokens
  import opened Resolution
  import L = Links
  import opened Pages
  import opened Anchors
  import D = Discovery
  import opened Pipeline
  import opened Recolouring
  import A = Acceptance
  import opened Sample

  // ----- sources: a package P with a private type U and a function F (A : U) return U

  const U := Declaration("U", "p.u", 1, {})
  const F := Declaration("F", "p.f", 2, {"a"})
  const DECLARED := [Indexed(U, TYPE), Indexed(F, CALL)]
  const SOURCE := Source(true, false, {}, [], {}, map["u" := [U], "f" := [F]], DECLARED)
  const SOURCES: Sources := map["p" := SOURCE]

  function Same(s: string): string {
    s
  }

  /** References are not decoded, and what is hashed is kept as it is. */
  const ENV := Env(SOURCES, Same, ADA, Same)

  lemma EnvRight()
    ensures EnvFits(ENV) && CollisionFree(ENV)
  {
    AdaFits();
  }

  // ----- what is read off the two declarations

  lemma WordsOfType()
    ensures D.WordsOf(TYPE) == ["type", "u", "is", "private", ";"]
  {
    TypeTerms();
  }

  lemma WordsOfCall()
    ensures |D.WordsOf(CALL)| == 10 && D.WordsOf(CALL)[0] == "function" && D.WordsOf(CALL)[1] == "f"
  {
    CallTerms();
  }

  lemma WordsDiffer()
    ensures D.WordsOf(TYPE) == ["type", "u", "is", "private", ";"]
    ensures |D.WordsOf(CALL)| == 10 && D.WordsOf(CALL)[0] == "function" && D.WordsOf(CALL)[1] == "f"
  {
    WordsOfType();
    WordsOfCall();
  }

  lemma FoundType()
    ensures D.Find(SOURCE, Same, TYPE) == Some(U)
  {
    WordsDiffer();
    var profile := D.WordsOf(TYPE);
    assert LowerCase("U") == "u" && LowerCase("F") == "f";
    assert profile[|profile|..] == [];
    assert D.OnlyAt(DECLARED, profile, 0);
    D.MatchExact(DECLARED, profile, DECLARED[0]);
  }

  lemma FoundCall()
    ensures D.Find(SOURCE, Same, CALL) == Some(F)
  {
    WordsDiffer();
    var profile := D.WordsOf(CALL);
    assert LowerCase("U") == "u" && LowerCase("F") == "f";
    assert profile[|profile|..] == [];
    assert D.OnlyAt(DECLARED, profile, 1);
    D.MatchExact(DECLARED, profile, DECLARED[1]);
  }

  predicate Avoids(pieces: Pieces, c: char) {
    match pieces
    case End => true
    case Blank(next) => c != ' ' && Avoids(next, c)
    case Delimiter(d, next) => c != d && Avoids(next, c)
    case Name(text, _, next) => c !in text && Avoids(next, c)
  }

  lemma {:induction false} TextAvoids(pieces: Pieces, c: char)
    requires Avoids(pieces, c)
    ensures c !in Spelled(pieces)
  {
    if !pieces.End? {
      TextAvoids(pieces.next, c);
    }
  }

  lemma PlainOf(c: char)
    requires c in {'<', '&', '=', '-', '>'}
    ensures c !in TYPE && c !in CALL
  {
    TypeAvoids(c);
    CallAvoids(c);
    TextAvoids(TYPE_PIECES, c);
    TextAvoids(CALL_PIECES, c);
  }

  lemma TypeAvoids(c: char)
    requires c in {'<', '&', '=', '-', '>'}
    ensures Avoids(TYPE_PIECES, c)
  {
  }

  lemma CallAvoids(c: char)
    requires c in {'<', '&', '=', '-', '>'}
    ensures Avoids(CALL_PIECES, c)
  {
    assert Avoids(RESULT, c);
    assert Avoids(PARAMETER, c);
  }

  lemma PlainTexts()
    ensures '<' !in TYPE && '&' !in TYPE && '=' !in TYPE && '-' !in TYPE
    ensures '<' !in CALL && '&' !in CALL && '=' !in CALL && '-' !in CALL && '>' !in CALL
  {
    PlainOf('<');
    PlainOf('&');
    PlainOf('=');
    PlainOf('-');
    PlainOf('>');
  }

  lemma TypeIs()
    ensures TYPE == "type U is private;"
  {
  }

  lemma CallIs()
    ensures CALL == "function F (" + "A : U) return U;"
  {
    assert Spelled(RESULT) == " return U;";
    assert Spelled(PARAMETER) == "A : U) return U;";
    assert CALL == "function F (" + Spelled(PARAMETER);
  }

  lemma Halves(front: string, back: string)
    requires |front| == 12 && |back| == 16 && front[..8] == "function" && back[4] == 'U' && back[14] == 'U'
    ensures var s := front + back; |s| == 28 && s[..8] == "function" && s[16] == 'U' && s[26] == 'U'
  {
  }

  lemma CallBegins()
    ensures |CALL| == 28 && CALL[..8] == "function" && CALL[16] == 'U' && CALL[26] == 'U'
  {
    CallIs();
    Halves("function F (", "A : U) return U;");
  }

  lemma NamesOf()
    ensures D.TypeName(TYPE) == Some("U") && D.TypeName(CALL) == None
  {
    TypeIs();
    CallBegins();
    var lower := LowerCase(TYPE);
    assert lower[0..4] == "type";
    assert RunEnd(TYPE, 0, Space) == 0;
    assert RunEnd(TYPE, 4, Space) == 5;
    assert TYPE[5] == 'U' && TYPE[6] == ' ';
    assert RunEnd(TYPE, 5, Alphanumeric) == 6;
    assert IdentifierEnd(TYPE, 5) == Some(6) && TYPE[5..6] == "U";
    assert CALL[0] == CALL[..8][0] == 'f';
    assert RunEnd(CALL, 0, Space) == 0;
    var call := LowerCase(CALL);
    assert call[0] == 'f';
    assert call[0..4][0] == call[0] && call[0..7][0] == call[0];
  }

  // ----- texts without references

  lemma PlainUnit(s: string)
    requires s != "" && s[0] != '&'
    ensures UnitLength(s) == 1
  {
    ReferencePatterns(s);
    if Match(DECIMAL, s).Found? {
      LiteralFirst(DECIMAL, s);
      StartsAt(s, DECIMAL.text, 0);
    } else if Match(HEXADECIMAL, s).Found? {
      LiteralFirst(HEXADECIMAL, s);
      StartsAt(s, HEXADECIMAL.text, 0);
    } else if Match(NAMED, s).Found? {
      LiteralFirst(NAMED, s);
      StartsAt(s, NAMED.text, 0);
    }
  }

  ghost predicate OwnCells(raw: string, i: nat, cells: seq<Cell>)
    requires i <= |raw|
  {
    |cells| == |raw| - i && forall k :: 0 <= k < |cells| ==> cells[k] == Cell(raw[i + k], i + k, i + k + 1)
  }

  /** Every character stands for itself. */
  lemma {:induction false} PlainCells(raw: string, i: nat)
    requires i <= |raw| && '&' !in raw
    ensures OwnCells(raw, i, Cells(Same, raw, i)) && SingleCharacters(Same, raw, i)
    decreases |raw| - i
  {
    if i < |raw| {
      assert raw[i] in raw;
      PlainUnit(raw[i..]);
      PlainCells(raw, i + 1);
      assert raw[i..i + 1] == [raw[i]];
      OneMoreCell(raw, i, Cells(Same, raw, i + 1));
    }
  }

  lemma OneMoreCell(raw: string, i: nat, rest: seq<Cell>)
    requires i < |raw| && OwnCells(raw, i + 1, rest)
    ensures OwnCells(raw, i, UnitCells([raw[i]], i, i + 1) + rest)
  {
  }

  lemma DecodesToItself(raw: string)
    requires '&' !in raw
    ensures Decoded(Cells(Same, raw, 0)) == raw
  {
    PlainCells(raw, 0);
  }

  // ----- the page: a section for the type, and one for the function under a heading of its own

  const TITLE := "<h1>P</h1>"
  const OWN := "x"

  function TypeSection(anchor: string): Section {
    Section([anchor, "U"], TYPE)
  }

  function CallSection(heading: string): Section {
    Section([OWN, heading], CALL)
  }

  function SitePage(anchor: string, heading: string): Page {
    Part(TITLE, TypeSection(anchor), Part("", CallSection(heading), Last("")))
  }

  function SiteFile(anchor: string, heading: string): D.File {
    D.File("p", "p.html", ShowPage(SitePage(anchor, heading)))
  }

  predicate NameLike(s: string) {
    s != "" && forall k :: 0 <= k < |s| ==> s[k] != '<' && s[k] != '>'
  }

  /** An anchor without blanks and brackets, and a heading without them that holds no anchor. */
  predicate Usable(anchor: string, heading: string) {
    NameLike(anchor) && ' ' !in anchor && anchor != OWN && NameLike(heading) && NoId(heading)
  }

  lemma CapturesFit(anchor: string, heading: string)
    requires NameLike(anchor) && ' ' !in anchor && NameLike(heading)
    ensures Fits(HEADER, [anchor, heading])
    ensures Header([anchor, heading]) == ID_OPEN + anchor + ">" + heading + CODE_OPEN
  {
    var captures := [anchor, heading];
    assert captures[1..] == [heading] && [heading][1..] == [];
    assert Fits(HEADER_END, []);
    FitsStep(HEADER_TEXT, [heading]);
    FitsStep(HEADER, captures);
    HeaderParts(captures);
  }

  lemma SectionsFitHere(anchor: string, heading: string)
    requires Usable(anchor, heading)
    ensures Fits(HEADER, TypeSection(anchor).captures) && Fits(HEADER, CallSection(heading).captures)
    ensures BodyFits(TYPE) && BodyFits(CALL)
  {
    CapturesFit(anchor, "U");
    CapturesFit(OWN, heading);
    PlainTexts();
    FooterFreeFits(TYPE);
    FooterFreeFits(CALL);
  }

  lemma TitleSolid(y: string)
    ensures Solid(TITLE, y)
  {
    forall p | 0 <= p < |TITLE|
      ensures MatchSection(TITLE[p..] + y).NoHit?
    {
      var s := TITLE[p..] + y;
      if Match(HEADER, s).Found? {
        LiteralFirst(HEADER, s);
        StartsAt(s, ID_OPEN, 0);
        StartsAt(s, ID_OPEN, 1);
        StartsAt(s, ID_OPEN, 2);
      }
    }
  }

  /** The page is cut into its sections. */
  lemma PageCut(anchor: string, heading: string)
    requires Usable(anchor, heading)
    ensures ParsePage("", SiteFile(anchor, heading).text) == SitePage(anchor, heading)
    ensures Sections(SitePage(anchor, heading)) == [TypeSection(anchor), CallSection(heading)]
  {
    SectionsFitHere(anchor, heading);
    var rest := Part("", CallSection(heading), Last(""));
    assert WellCut(Last(""));
    assert WellCut(rest);
    TitleSolid(ShowSection(TypeSection(anchor)) + ShowPage(rest));
    ParseWritten(SitePage(anchor, heading));
    assert Sections(rest) == [CallSection(heading)] + [];
    assert Sections(SitePage(anchor, heading)) == [TypeSection(anchor)] + Sections(rest);
  }

  // ----- the tests of discovery on it

  lemma TitleFound(rest: string)
    ensures FindAll(HEADING, TITLE + rest) == [["P"]] + FindAll(HEADING, rest)
  {
    PageTagPattern(HEADING, 'h');
    var captures := ["P"];
    FitsStep(HEADING, captures);
    assert Fits(HEADING_END, captures[1..]);
    HeadingPrinted(captures);
    assert "<h1>" + "P" + "</h1>" == TITLE;
    PrintedFound(HEADING, 'h', 0, captures, rest);
  }

  lemma TailHasNoTag(id: string, heading: string)
    requires NameLike(id) && NameLike(heading)
    ensures NoTag(ID_OPEN[1..] + id + ">" + heading + CODE_OPEN, 'h')
  {
    NoTagJoin(ID_OPEN[1..], id, 'h');
    NoTagJoin(ID_OPEN[1..] + id, ">", 'h');
    NoTagJoin(ID_OPEN[1..] + id + ">", heading, 'h');
    NoTagJoin(ID_OPEN[1..] + id + ">" + heading, CODE_OPEN, 'h');
  }

  lemma NotAHeading(rest: string)
    ensures Match(HEADING, ID_OPEN + rest).Missing?
  {
    if Match(HEADING, ID_OPEN + rest).Found? {
      LiteralFirst(HEADING, ID_OPEN + rest);
      StartsAt(ID_OPEN + rest, HEADING.text, 2);
    }
  }

  lemma HeaderTail(id: string, heading: string)
    ensures ID_OPEN + id + ">" + heading + CODE_OPEN == ID_OPEN + (id + ">" + heading + CODE_OPEN)
    ensures (ID_OPEN + id + ">" + heading + CODE_OPEN)[1..] == ID_OPEN[1..] + id + ">" + heading + CODE_OPEN
  {
  }

  lemma HeaderHasNoHeading(id: string, heading: string)
    requires NameLike(id) && NameLike(heading)
    ensures FindAll(HEADING, ID_OPEN + id + ">" + heading + CODE_OPEN) == []
  {
    PageTagPattern(HEADING, 'h');
    HeaderTail(id, heading);
    NotAHeading(id + ">" + heading + CODE_OPEN);
    var tail := ID_OPEN[1..] + id + ">" + heading + CODE_OPEN;
    TailHasNoTag(id, heading);
    Copied(HEADING, 'h', 0, tail, "");
    assert tail + "" == tail;
  }

  lemma LiteralFound(text: string, rest: string)
    requires text != ""
    ensures FindAll(Literal(text, Done), text + rest) == [[]] + FindAll(Literal(text, Done), rest)
  {
    Cut(text, rest);
    assert Match(Literal(text, Done), text + rest) == Found([], |text|);
  }

  lemma NothingInCode()
    ensures FindAll(SNIPPET, CODE) == []
  {
    PageTagPattern(SNIPPET, 'p');
    assert NoTag(CODE, 'p');
    Copied(SNIPPET, 'p', 0, CODE, "");
    assert CODE + "" == CODE;
  }

  lemma FrontHasNoTag(id: string, heading: string, c: char)
    requires NameLike(id) && NameLike(heading) && c == 'p'
    ensures NoTag(ID_OPEN + id + ">" + heading + "</h4>", c)
  {
    NoTagJoin(ID_OPEN, id, c);
    NoTagJoin(ID_OPEN + id, ">", c);
    NoTagJoin(ID_OPEN + id + ">", heading, c);
    NoTagJoin(ID_OPEN + id + ">" + heading, "</h4>", c);
  }

  lemma CloseLiteral()
    ensures "</h4><pre class=ada-code-snippet>" == "</h4>" + SNIPPET.text
  {
  }

  lemma CodeLiteral()
    ensures CODE_OPEN == "</h4>" + (SNIPPET.text + CODE)
  {
    CloseLiteral();
    assert CODE_OPEN == "</h4><pre class=ada-code-snippet>" + CODE;
    Associate("</h4>", SNIPPET.text, CODE);
  }

  lemma CodeSplit(front: string)
    ensures front + CODE_OPEN == front + "</h4>" + (SNIPPET.text + CODE)
  {
    CodeLiteral();
    Associate(front, "</h4>", SNIPPET.text + CODE);
  }

  lemma OneSnippet(id: string, heading: string)
    requires NameLike(id) && NameLike(heading)
    ensures FindAll(SNIPPET, ID_OPEN + id + ">" + heading + CODE_OPEN) == [[]]
  {
    PageTagPattern(SNIPPET, 'p');
    FrontHasNoTag(id, heading, 'p');
    CodeSplit(ID_OPEN + id + ">" + heading);
    Copied(SNIPPET, 'p', 0, ID_OPEN + id + ">" + heading + "</h4>", SNIPPET.text + CODE);
    LiteralFound(SNIPPET.text, CODE);
    NothingInCode();
  }

  lemma LastSection(heading: string)
    ensures FOOTER + ShowPage(Part("", CallSection(heading), Last(""))) ==
            FOOTER + Header([OWN, heading]) + (CALL + (FOOTER + ""))
  {
    ShownPart(FOOTER, "", CallSection(heading), "");
    assert FOOTER + "" == FOOTER;
    assert "" + ShowSection(CallSection(heading)) + "" == "" + ShowSection(CallSection(heading)) + ShowPage(Last(""));
  }

  /** The page behind the title: header, body, footer, header, body, footer. */
  lemma PageShape(anchor: string, heading: string)
    ensures ShowPage(SitePage(anchor, heading)) ==
            TITLE + Header([anchor, "U"]) + (TYPE + (FOOTER + Header([OWN, heading]) + (CALL + (FOOTER + ""))))
  {
    var last := Part("", CallSection(heading), Last(""));
    assert "" + TITLE == TITLE;
    ShownPart("", TITLE, TypeSection(anchor), ShowPage(last));
    assert "" + ShowPage(SitePage(anchor, heading)) == ShowPage(SitePage(anchor, heading));
    LastSection(heading);
  }

  lemma FoundBehind(pattern: Pattern, c: char, heading: string)
    requires NameLike(heading) && PageTag(pattern, c) && '<' !in CALL
    ensures FindAll(pattern, FOOTER + Header([OWN, heading]) + (CALL + (FOOTER + ""))) ==
            FindAll(pattern, FOOTER + Header([OWN, heading]))
  {
    CapturesFit(OWN, heading);
    TextHasNoTag(CALL, c);
    FoundAround(pattern, c, FOOTER, [OWN, heading], CALL, FOOTER + "");
    FooterAlone(pattern, c);
    NoMore(FindAll(pattern, FOOTER + Header([OWN, heading])));
  }

  lemma FooterAlone(pattern: Pattern, c: char)
    requires PageTag(pattern, c)
    ensures FindAll(pattern, FOOTER + "") == []
  {
    PageTagPattern(pattern, c);
    assert NoTag(FOOTER, c);
    Copied(pattern, c, 0, FOOTER, "");
  }

  lemma NoMore<T>(found: seq<T>)
    ensures found + [] == found
  {
  }

  lemma FoundOnSite(pattern: Pattern, c: char, anchor: string, heading: string)
    requires Usable(anchor, heading) && PageTag(pattern, c)
    ensures FindAll(pattern, ShowPage(SitePage(anchor, heading))) ==
            FindAll(pattern, TITLE + Header([anchor, "U"])) + FindAll(pattern, FOOTER + Header([OWN, heading]))
  {
    CapturesFit(anchor, "U");
    PlainTexts();
    TextHasNoTag(TYPE, c);
    PageShape(anchor, heading);
    FoundAround(pattern, c, TITLE, [anchor, "U"], TYPE, FOOTER + Header([OWN, heading]) + (CALL + (FOOTER + "")));
    FoundBehind(pattern, c, heading);
  }

  lemma OneHeading(anchor: string, heading: string)
    requires Usable(anchor, heading)
    ensures Headings(ShowPage(SitePage(anchor, heading))) == [["P"]]
  {
    CapturesFit(anchor, "U");
    CapturesFit(OWN, heading);
    FoundOnSite(HEADING, 'h', anchor, heading);
    TitleFound(Header([anchor, "U"]));
    HeaderHasNoHeading(anchor, "U");
    HeaderHasNoHeading(OWN, heading);
    InFront(anchor, heading);
    assert [["P"]] + [] + [] == [["P"]];
  }

  lemma TwoSnippets(anchor: string, heading: string)
    requires Usable(anchor, heading)
    ensures SnippetCount(ShowPage(SitePage(anchor, heading))) == 2
  {
    CapturesFit(anchor, "U");
    CapturesFit(OWN, heading);
    FoundOnSite(SNIPPET, 'p', anchor, heading);
    OneSnippet(anchor, "U");
    OneSnippet(OWN, heading);
    InFront(anchor, heading);
  }

  lemma PackageName()
    ensures LowerCase("P") == "p" && D.PartsOf("p") == ["p"]
  {
  }

  lemma PageIsRight(anchor: string, heading: string)
    requires Usable(anchor, heading)
    ensures D.PageRight(SiteFile(anchor, heading))
  {
    PageCut(anchor, heading);
    OneHeading(anchor, heading);
    TwoSnippets(anchor, heading);
    PackageName();
  }

  lemma InFront(anchor: string, heading: string)
    ensures FindAll(HEADING, FOOTER + Header([OWN, heading])) == FindAll(HEADING, Header([OWN, heading]))
    ensures FindAll(SNIPPET, FOOTER + Header([OWN, heading])) == FindAll(SNIPPET, Header([OWN, heading]))
    ensures FindAll(SNIPPET, TITLE + Header([anchor, "U"])) == FindAll(SNIPPET, Header([anchor, "U"]))
  {
    PageTagPattern(HEADING, 'h');
    PageTagPattern(SNIPPET, 'p');
    assert NoTag(FOOTER, 'h') && NoTag(FOOTER, 'p') && NoTag(TITLE, 'p');
    Copied(HEADING, 'h', 0, FOOTER, Header([OWN, heading]));
    Copied(SNIPPET, 'p', 0, FOOTER, Header([OWN, heading]));
    Copied(SNIPPET, 'p', 0, TITLE, Header([anchor, "U"]));
  }

  lemma TypeFrame(anchor: string)
    requires NameLike(anchor) && ' ' !in anchor
    ensures FrameIds("" + TITLE, [anchor, "U"]) == [anchor]
  {
    CapturesFit(anchor, "U");
    HeaderAnchors(TITLE, [anchor, "U"]);
    assert "" + TITLE == TITLE;
    NoIdWithout(TITLE + "<h4");
    NoIdWithout("U</h4");
    NoIds(false, TITLE + "<h4");
    NoIds(false, "U</h4");
  }

  lemma CallFrame(heading: string)
    requires NameLike(heading) && NoId(heading)
    ensures FrameIds(SECTION_END + "", [OWN, heading]) == [OWN]
  {
    CapturesFit(OWN, heading);
    HeaderAnchors(SECTION_END, [OWN, heading]);
    assert SECTION_END + "" == SECTION_END;
    NoIdWithout(SECTION_END + "<h4");
    NoIds(false, SECTION_END + "<h4");
    TailHasNoIdHere(heading);
  }

  lemma LastFrame()
    ensures Ids(false, SECTION_END + "") == []
  {
    NoIdWithout(SECTION_END);
    NoIds(false, SECTION_END);
    assert SECTION_END + "" == SECTION_END;
  }

  /** Anchors of the page, given those in its bodies. */
  lemma SiteAnchors(anchor: string, heading: string, inType: seq<string>, inCall: seq<string>)
    requires Usable(anchor, heading)
    ensures PageIds("", SitePage(anchor, heading), [inType, inCall]) == [anchor] + inType + [OWN] + inCall
  {
    TypeFrame(anchor);
    CallFrame(heading);
    LastFrame();
    var last := Part("", CallSection(heading), Last(""));
    assert [inCall][1..] == [] && [inType, inCall][1..] == [inCall];
    assert PageIds(SECTION_END, last, [inCall]) == [OWN] + inCall + [];
    assert [anchor] + inType + ([OWN] + inCall + []) == [anchor] + inType + [OWN] + inCall;
  }

  lemma TailHasNoIdHere(heading: string)
    requires NoId(heading)
    ensures Ids(false, heading + "</h4") == []
  {
    NoIdWithout("</h4");
    NoIdJoin(heading, "</h4");
    NoIds(false, heading + "</h4");
  }

  lemma NoBodyIds()
    ensures BodyIds(TYPE) == [] && BodyIds(CALL) == []
  {
    PlainTexts();
    NoIdWithout(TYPE);
    NoIdWithout(CALL);
    TailHasNoId(TYPE, BODY_END);
    TailHasNoId(CALL, BODY_END);
    NoIds(false, TYPE + BODY_END);
    NoIds(false, CALL + BODY_END);
  }

  lemma FreshIds(anchor: string, heading: string)
    requires Usable(anchor, heading)
    ensures Ids(false, ShowPage(SitePage(anchor, heading))) == PageIds("", SitePage(anchor, heading), [[], []])
  {
    var page := SitePage(anchor, heading);
    PageCut(anchor, heading);
    SectionsFitHere(anchor, heading);
    IdsOnPage("", page);
    assert "" + ShowPage(page) == ShowPage(page);
    NoBodyIds();
    BothBodies(anchor, heading);
  }

  lemma FreshSiteDistinct(anchor: string, heading: string)
    requires Usable(anchor, heading)
    ensures D.AnchorsDistinct([SiteFile(anchor, heading)])
  {
    FreshIds(anchor, heading);
    SiteAnchors(anchor, heading, [], []);
    NoRepeatMeans([anchor, OWN]);
    assert [anchor] + [] + [OWN] + [] == [anchor, OWN];
  }

  lemma BothBodies(anchor: string, heading: string)
    requires Sections(SitePage(anchor, heading)) == [TypeSection(anchor), CallSection(heading)]
    ensures BodiesIn(Sections(SitePage(anchor, heading))) == [TYPE, CALL]
    ensures AllBodyIds([TYPE, CALL]) == [BodyIds(TYPE), BodyIds(CALL)]
  {
    assert [TypeSection(anchor), CallSection(heading)][1..] == [CallSection(heading)];
    assert [CallSection(heading)][1..] == [];
    assert [TYPE, CALL][1..] == [CALL] && [CALL][1..] == [];
    assert AllBodyIds([CALL]) == [BodyIds(CALL)] + [];
  }

  // ----- the one target

  function TypeEntry(anchor: string): D.Entry {
    D.Entry(anchor, "U", Some("U"), true, false)
  }

  function CallEntry(heading: string): D.Entry {
    D.Entry(OWN, heading, None, true, false)
  }

  function SiteEntries(anchor: string, heading: string): D.PageEntries {
    D.PageEntries("p", "p.html", [TypeEntry(anchor), CallEntry(heading)])
  }

  lemma NotFormal()
    ensures !D.Formal(U) && !D.Formal(F)
  {
  }

  lemma TypeEntryHere(anchor: string)
    ensures D.EntryOf(SOURCE, Same, TypeSection(anchor)) == Some(TypeEntry(anchor))
  {
    PlainTexts();
    NothingToStrip(TYPE);
    FoundType();
    NamesOf();
    NotFormal();
  }

  lemma CallEntryHere(heading: string)
    ensures D.EntryOf(SOURCE, Same, CallSection(heading)) == Some(CallEntry(heading))
  {
    PlainTexts();
    NothingToStrip(CALL);
    FoundCall();
    NamesOf();
    NotFormal();
  }

  lemma TwoEntries(source: Source, a: Section, b: Section, entryA: D.Entry, entryB: D.Entry)
    requires D.EntryOf(source, Same, a) == Some(entryA) && D.EntryOf(source, Same, b) == Some(entryB)
    ensures D.EntriesOf(source, Same, [a, b]) == Some([entryA, entryB])
  {
    var none: seq<Section> := [];
    assert [a, b][1..] == [b] && [b][1..] == none;
    assert D.EntriesOf(source, Same, none) == Some([]);
    assert D.EntriesOf(source, Same, [b]) == Joined(Some(entryB), Some([])) == Some([entryB] + []);
    assert [entryB] + [] == [entryB] && [entryA] + [entryB] == [entryA, entryB];
    assert D.EntriesOf(source, Same, [a, b]) == Joined(Some(entryA), Some([entryB]));
  }

  lemma OnePage(sources: Sources, file: D.File, page: D.PageEntries)
    requires D.PageOf(sources, Same, file) == Some(page)
    ensures D.PagesOf(sources, Same, [file]) == Some([page])
  {
    assert [file][1..] == [] && [page] + [] == [page];
  }

  lemma EntriesHere(anchor: string, heading: string)
    requires Usable(anchor, heading)
    ensures D.PagesOf(SOURCES, Same, [SiteFile(anchor, heading)]) == Some([SiteEntries(anchor, heading)])
  {
    PageCut(anchor, heading);
    PageIsRight(anchor, heading);
    TypeEntryHere(anchor);
    CallEntryHere(heading);
    TwoEntries(SOURCE, TypeSection(anchor), CallSection(heading), TypeEntry(anchor), CallEntry(heading));
    OnePage(SOURCES, SiteFile(anchor, heading), SiteEntries(anchor, heading));
  }

  function SiteTargets(anchor: string): Targets {
    map["p.u" := Target("p.html", anchor)]
  }

  lemma OnlyType(anchor: string, heading: string, i: int, j: int, identity: string)
    ensures D.Describes([SiteEntries(anchor, heading)], i, j, identity) <==> i == 0 && j == 0 && identity == "p.u"
  {
    assert LowerCase("U") == "u";
    assert "p" + "." + "u" == "p.u";
  }

  lemma TargetsHere(anchor: string, heading: string)
    requires Usable(anchor, heading)
    ensures TargetsOf(ENV, [SiteFile(anchor, heading)]) == Some(SiteTargets(anchor))
  {
    var pages := [SiteEntries(anchor, heading)];
    FreshSiteDistinct(anchor, heading);
    EntriesHere(anchor, heading);
    forall i, j, identity
      ensures D.Describes(pages, i, j, identity) <==> i == 0 && j == 0 && identity == "p.u"
    {
      OnlyType(anchor, heading, i, j, identity);
    }
    assert D.AllOnce(pages, 1, 0);
    assert D.AllRight(pages, 1, 0);
    assert D.Describes(pages, 0, 0, "p.u") && D.Earlier(0, 0, 1, 0);
    assert D.TargetsTo(pages, SiteTargets(anchor), 1, 0);
    D.DescribedExactly(pages);
    D.OnlyTargets(pages, SiteTargets(anchor), D.DescribedTargets(pages));
  }

  // ----- the two links of the function

  lemma ResolvedHere(anchor: string)
    ensures Resolve(SOURCES, SiteTargets(anchor), "u", "p", F) == Linked("p.u")
  {
    var site := Site("p", 2);
    assert RPartitionAt("p", '.').0 == "";
    assert Scopes("p") == ["p"] + Scopes("");
    assert Visible([U], "p", site) == [U] + Visible([U][1..], "p", site);
    assert "p" + "." + "u" == "p.u";
    assert FirstPart("u") == "u";
  }

  function AddressOf(anchor: string): string {
    "#" + anchor
  }

  function SiteMarks(anchor: string): seq<Mark> {
    [Mark(16, 17, Reference(AddressOf(anchor), "p.u")), Mark(26, 27, Reference(AddressOf(anchor), "p.u"))]
  }

  lemma CallCells()
    ensures OwnCells(CALL, 0, Cells(Same, CALL, 0)) && SingleCharacters(Same, CALL, 0) && |CALL| == 28
  {
    PlainTexts();
    CallBegins();
    PlainCells(CALL, 0);
  }

  lemma CallIsRead()
    ensures L.WordsOf(Same, CALL) == Some([Term("u", 16, 17), Term("u", 26, 27)])
  {
    PlainTexts();
    DecodesToItself(CALL);
    CallTerms();
    var terms := CALL_TERMS;
    assert terms[5] == Term("u", 16, 17) && terms[8] == Term("u", 26, 27);
    CallMarks(terms);
  }

  lemma TypeIsRead()
    ensures L.WordsOf(Same, TYPE) == Some([]) && SingleCharacters(Same, TYPE, 0)
  {
    TypeDecodes();
    TypeTerms();
    TypeHasNoMarks(TYPE_TERMS);
  }

  lemma TypeDecodes()
    ensures Decoded(Cells(Same, TYPE, 0)) == TYPE && SingleCharacters(Same, TYPE, 0)
  {
    PlainTexts();
    DecodesToItself(TYPE);
    PlainCells(TYPE, 0);
  }

  lemma MarkHere(c: L.Context, cells: seq<Cell>, word: Term, anchor: string)
    requires c.resolve("u") == Linked("p.u") && c.targets == SiteTargets(anchor) && c.filename == "p.html"
    requires OwnCells(CALL, 0, cells) && word.text == "u" && word.start + 1 == word.end <= |cells|
    ensures L.WordMark(c, cells, word) == [Mark(word.start, word.end, Reference(AddressOf(anchor), "p.u"))]
  {
    assert "" + "#" + anchor == AddressOf(anchor);
  }

  lemma TwoLinkMarks(c: L.Context, cells: seq<Cell>, a: Term, b: Term, markA: Mark, markB: Mark)
    requires L.WordMark(c, cells, a) == [markA] && L.WordMark(c, cells, b) == [markB]
    ensures L.LinkMarks(c, cells, [a, b]) == [markA, markB]
  {
    assert [a, b][1..] == [b] && [b][1..] == [];
    assert L.LinkMarks(c, cells, [b]) == [markB] + [];
    assert [markA] + [markB] == [markA, markB];
  }

  lemma MarksHere(anchor: string, heading: string)
    ensures MarksFor(ENV, SiteTargets(anchor), SiteFile(anchor, heading), CALL, F) == SiteMarks(anchor)
  {
    CallIsRead();
    CallCells();
    ResolvedHere(anchor);
    var c, cells := L.ContextOf(SOURCES, SiteTargets(anchor), "p", F, "p.html"), Cells(Same, CALL, 0);
    var a, b := Term("u", 16, 17), Term("u", 26, 27);
    MarkHere(c, cells, a, anchor);
    MarkHere(c, cells, b, anchor);
    TwoLinkMarks(c, cells, a, b, SiteMarks(anchor)[0], SiteMarks(anchor)[1]);
  }

  lemma NoMarksHere(anchor: string, heading: string)
    ensures MarksFor(ENV, SiteTargets(anchor), SiteFile(anchor, heading), TYPE, U) == []
  {
    TypeIsRead();
  }

  // ----- no marker yet, and bodies that stand nowhere but in their places

  /** No a is followed by b, and none ends s. */
  predicate NoPair(s: string, a: char, b: char) {
    forall i :: 0 <= i < |s| && s[i] == a ==> i + 1 < |s| && s[i + 1] != b
  }

  lemma NoPairJoin(s: string, t: string, a: char, b: char)
    requires NoPair(s, a, b) && NoPair(t, a, b)
    ensures NoPair(s + t, a, b)
  {
  }

  lemma NoPairHeader(id: string, heading: string, a: char, b: char)
    requires NoPair(ID_OPEN, a, b) && NoPair(id, a, b) && a != '>' && NoPair(heading, a, b) && NoPair(CODE_OPEN, a, b)
    ensures NoPair(ID_OPEN + id + ">" + heading + CODE_OPEN, a, b)
  {
    NoPairJoin(ID_OPEN, id, a, b);
    NoPairJoin(ID_OPEN + id, ">", a, b);
    NoPairJoin(ID_OPEN + id + ">", heading, a, b);
    NoPairJoin(ID_OPEN + id + ">" + heading, CODE_OPEN, a, b);
  }

  lemma NowhereWithout(s: string, literal: string, k: nat)
    requires k + 1 < |literal| && NoPair(s, literal[k], literal[k + 1])
    ensures forall i :: 0 <= i ==> !At(s, i, literal)
  {
    forall i | 0 <= i
      ensures !At(s, i, literal)
    {
      if At(s, i, literal) {
        PlacedAt(s, i, literal, k);
        PlacedAt(s, i, literal, k + 1);
      }
    }
  }

  /** A body whose first two letters do not stand together in its header is framed. */
  lemma FramedHere(captures: seq<string>, body: string)
    requires Fits(HEADER, captures) && |body| > 1 && NoPair(Header(captures), body[0], body[1])
    ensures Framed(Section(captures, body))
  {
    var section, header := Section(captures, body), Header(captures);
    assert ShowSection(section)[|header|..|header| + |body|] == body;
    forall j | 0 <= j < |header|
      ensures !At(ShowSection(section), j, body)
    {
      if At(ShowSection(section), j, body) {
        PlacedAt(ShowSection(section), j, body, 0);
        PlacedAt(ShowSection(section), j, body, 1);
      }
    }
    BenignOutside(section);
  }

  lemma NoPairPage(title: string, first: string, body: string, footer: string, second: string, last: string, a: char, b: char)
    requires NoPair(title, a, b) && NoPair(first, a, b) && NoPair(body, a, b) && NoPair(footer, a, b)
    requires NoPair(second, a, b) && NoPair(last, a, b)
    ensures NoPair(title + first + (body + (footer + second + (last + (footer + "")))), a, b)
  {
    assert footer + "" == footer;
    NoPairJoin(last, footer, a, b);
    NoPairJoin(footer, second, a, b);
    NoPairJoin(footer + second, last + footer, a, b);
    NoPairJoin(body, footer + second + (last + footer), a, b);
    NoPairJoin(title, first, a, b);
    NoPairJoin(title + first, body + (footer + second + (last + footer)), a, b);
  }

  lemma NoDashes()
    ensures NoPair(ID_OPEN, '-', 'r') && NoPair(CODE_OPEN, '-', 'r') && NoPair(TITLE, '-', 'r') && NoPair(FOOTER, '-', 'r')
  {
  }

  lemma NoMarkerWithout(text: string)
    requires NoPair(text, '-', 'r')
    ensures FindText(text, 0, MARKER).None?
  {
    assert MARKER[4] == '-' && MARKER[5] == 'r';
    NowhereWithout(text, MARKER, 4);
  }

  lemma NoMarkerHere(anchor: string, heading: string)
    requires Usable(anchor, heading) && NoPair(anchor, '-', 'r') && '-' !in heading
    ensures FindText(SiteFile(anchor, heading).text, 0, MARKER).None?
  {
    PlainTexts();
    CapturesFit(anchor, "U");
    CapturesFit(OWN, heading);
    NoDashes();
    NoPairHeader(anchor, "U", '-', 'r');
    NoPairHeader(OWN, heading, '-', 'r');
    PageShape(anchor, heading);
    NoPairPage(TITLE, Header([anchor, "U"]), TYPE, FOOTER, Header([OWN, heading]), CALL, '-', 'r');
    NoMarkerWithout(SiteFile(anchor, heading).text);
  }

  lemma TypeFramed(anchor: string)
    requires NameLike(anchor) && ' ' !in anchor && NoPair(anchor, 't', 'y')
    ensures Framed(TypeSection(anchor))
  {
    CapturesFit(anchor, "U");
    TypeBegins();
    OpensNoPair();
    NoPairHeader(anchor, "U", 't', 'y');
    FramedHere([anchor, "U"], TYPE);
  }

  lemma TypeBegins()
    ensures |TYPE| > 1 && TYPE[0] == 't' && TYPE[1] == 'y'
  {
    TypeIs();
  }

  lemma OpensNoPair()
    ensures NoPair(ID_OPEN, 't', 'y') && NoPair(CODE_OPEN, 't', 'y')
    ensures NoPair(ID_OPEN, 'f', 'u') && NoPair(CODE_OPEN, 'f', 'u')
  {
  }

  lemma CallFramed(heading: string)
    requires NameLike(heading) && 'f' !in heading
    ensures Framed(CallSection(heading))
  {
    CapturesFit(OWN, heading);
    CallFirst();
    OpensNoPair();
    NoPairHeader(OWN, heading, 'f', 'u');
    FramedHere([OWN, heading], CALL);
  }

  lemma CallFirst()
    ensures |CALL| > 1 && CALL[0] == 'f' && CALL[1] == 'u'
  {
    CallBegins();
    assert CALL[0] == CALL[..8][0] && CALL[1] == CALL[..8][1];
  }

  lemma SimpleTexts()
    ensures A.SimpleText(ENV, TYPE) && A.SimpleText(ENV, CALL)
  {
    PlainTexts();
    NoIdWithout(TYPE);
    NoIdWithout(CALL);
    TypeIsRead();
    CallIsRead();
    CallCells();
  }

  lemma AddressesHere(anchor: string)
    requires AllOf(anchor, HrefChar)
    ensures L.AddressesFit(SiteMarks(anchor))
  {
    assert AllOf(AddressOf(anchor), HrefChar);
  }

  lemma PlacedIf(env: Env, file: D.File, targets: Targets, section: Section, declaration: Declaration, marks: seq<Mark>)
    requires file.package in env.sources && EnvFits(env) && Framed(section)
    requires D.Find(env.sources[file.package], env.unescape, section.body) == Some(declaration)
    requires MarksFor(env, targets, file, section.body, declaration) == marks && L.AddressesFit(marks)
    ensures A.Placed(env, targets, file, section)
  {
  }

  lemma PlacedHere(anchor: string, heading: string)
    requires AllOf(anchor, HrefChar) && Framed(TypeSection(anchor)) && Framed(CallSection(heading))
    ensures EnvFits(ENV)
    ensures A.Placed(ENV, SiteTargets(anchor), SiteFile(anchor, heading), TypeSection(anchor))
    ensures A.Placed(ENV, SiteTargets(anchor), SiteFile(anchor, heading), CallSection(heading))
  {
    EnvRight();
    FoundType();
    FoundCall();
    NoMarksHere(anchor, heading);
    MarksHere(anchor, heading);
    AddressesHere(anchor);
    PlacedIf(ENV, SiteFile(anchor, heading), SiteTargets(anchor), TypeSection(anchor), U, []);
    PlacedIf(ENV, SiteFile(anchor, heading), SiteTargets(anchor), CallSection(heading), F, SiteMarks(anchor));
  }

  lemma SimpleIf(env: Env, targets: Targets, file: D.File, a: Section, b: Section)
    requires file.package in env.sources && EnvFits(env) && FindText(file.text, 0, MARKER).None?
    requires Sections(ParsePage("", file.text)) == [a, b]
    requires A.SimpleText(env, a.body) && A.Placed(env, targets, file, a)
    requires A.SimpleText(env, b.body) && A.Placed(env, targets, file, b)
    ensures A.SimpleSite(env, targets, [file])
  {
    assert A.AllSimple(env, targets, file, [a, b]);
    SimpleAlone(env, targets, file);
  }

  lemma SimpleAlone(env: Env, targets: Targets, file: D.File)
    requires EnvFits(env) && A.SimplePage(env, targets, file)
    ensures A.SimpleSite(env, targets, [file])
  {
    assert [file][0] == file;
  }

  /** Without a heading or an anchor in the way, the page is one of those that are always accepted. */
  lemma SimpleHere(anchor: string, heading: string)
    requires Usable(anchor, heading) && AllOf(anchor, HrefChar) && NoPair(anchor, 't', 'y') && NoPair(anchor, '-', 'r')
    requires 'f' !in heading && '-' !in heading
    ensures EnvFits(ENV) && A.SimpleSite(ENV, SiteTargets(anchor), [SiteFile(anchor, heading)])
  {
    TypeFramed(anchor);
    CallFramed(heading);
    SimpleTexts();
    PlacedHere(anchor, heading);
    NoMarkerHere(anchor, heading);
    PageCut(anchor, heading);
    SimpleIf(ENV, SiteTargets(anchor), SiteFile(anchor, heading), TypeSection(anchor), CallSection(heading));
  }

  const RUN := Options(false, false, 0, 0)

  lemma SiteRuns(anchor: string, heading: string)
    ensures D.SiteFits([SiteFile(anchor, heading)]) && Runnable(ENV, [SiteFile(anchor, heading)], None, RUN)
  {
    var files := [SiteFile(anchor, heading)];
    assert files[0].package == "p";
    assert Packages(files) == {"p"};
  }

  lemma Accepted(anchor: string, heading: string)
    requires Usable(anchor, heading) && AllOf(anchor, HrefChar) && NoPair(anchor, 't', 'y') && NoPair(anchor, '-', 'r')
    requires 'f' !in heading && '-' !in heading
    ensures EnvFits(ENV) && D.SiteFits([SiteFile(anchor, heading)])
    ensures Process(ENV, [SiteFile(anchor, heading)], None, RUN).Some?
    ensures var r := Process(ENV, [SiteFile(anchor, heading)], None, RUN).value;
            r.wrote && (D.AnchorsDistinct(r.files) <==> NoRepeat(A.LinkedAnchors(ENV, SiteTargets(anchor), SiteFile(anchor, heading))))
  {
    var files := [SiteFile(anchor, heading)];
    EnvRight();
    SiteRuns(anchor, heading);
    TargetsHere(anchor, heading);
    SimpleHere(anchor, heading);
    var runs := FreshSiteLinks(ENV, files, RUN, SiteTargets(anchor));
    A.SimpleSiteRuns(ENV, SiteTargets(anchor), files);
    A.FreshSiteAnchors(ENV, SiteTargets(anchor), files);
    A.FreshResult(files, RUN, runs.value);
  }

  // ----- an anchor that reads as another one where it is linked

  const ODD := "a-id=1"

  lemma {:induction false} IdsBehind(inWord: bool, x: string, s: string)
    requires forall i :: 0 <= i < |x| ==> !IdHere(x + s, i)
    ensures Ids(inWord, x + s) == Ids(if x == "" then inWord else Alphanumeric(x[|x| - 1]), s)
    decreases |x|
  {
    if x == "" {
      assert x + s == s;
    } else {
      var all := x + s;
      assert !IdHere(all, 0) && all[1..] == x[1..] + s && all[0] == x[0];
      forall i | 0 <= i < |x[1..]|
        ensures !IdHere(x[1..] + s, i)
      {
        assert !IdHere(all, i + 1);
      }
      IdsShort(inWord, all);
      IdsBehind(Alphanumeric(x[0]), x[1..], s);
    }
  }

  /** The address of this anchor is taken for an anchor. */
  lemma OddIsRead()
    ensures HrefIds(AddressOf(ODD)) == ["1\""]
  {
    var front, id := "href=\"#a-", "1\"";
    assert "href=\"" + AddressOf(ODD) + "\"" == front + ("id=" + id);
    IdsBehind(false, front, "id=" + id);
    IdChunk(id);
  }

  lemma OddIsUsable(heading: string)
    requires NameLike(heading) && NoId(heading)
    ensures Usable(ODD, heading) && AllOf(ODD, HrefChar) && NoPair(ODD, 't', 'y') && NoPair(ODD, '-', 'r')
  {
  }

  lemma TwoLinks(anchor: string, heading: string)
    ensures A.LinksFor(ENV, SiteTargets(anchor), SiteFile(anchor, heading), TYPE) == []
    ensures LinkIds(A.LinksFor(ENV, SiteTargets(anchor), SiteFile(anchor, heading), CALL)) ==
            HrefIds(AddressOf(anchor)) + HrefIds(AddressOf(anchor))
  {
    FoundType();
    FoundCall();
    NoMarksHere(anchor, heading);
    MarksHere(anchor, heading);
    CallCells();
    TwoMarks(AddressOf(anchor), SiteMarks(anchor));
  }

  lemma TwoMarks(href: string, marks: seq<Mark>)
    requires marks == [Mark(16, 17, Reference(href, "p.u")), Mark(26, 27, Reference(href, "p.u"))] && |CALL| == 28
    ensures LinkIds(MarkLinks(CALL, marks)) == HrefIds(href) + HrefIds(href)
  {
    var first, second := [href, "p.u", CALL[16..17]], [href, "p.u", CALL[26..27]];
    assert marks[1..] == [marks[1]] && [marks[1]][1..] == [];
    assert MarkLinks(CALL, [marks[1]]) == [second] + [];
    assert MarkLinks(CALL, marks) == [first] + [second];
    assert [first, second][1..] == [second] && [second][1..] == [];
    assert LinkIds([second]) == HrefIds(href) + [];
  }

  lemma BothLinkIds(env: Env, targets: Targets, file: D.File, a: string, b: string, inA: seq<string>, inB: seq<string>)
    requires file.package in env.sources
    requires LinkIds(A.LinksFor(env, targets, file, a)) == inA && LinkIds(A.LinksFor(env, targets, file, b)) == inB
    ensures A.AllLinkIds(env, targets, file, [a, b]) == [inA, inB]
  {
    assert [a, b][1..] == [b] && [b][1..] == [];
    assert A.AllLinkIds(env, targets, file, [b]) == [inB] + [];
    assert [inA] + [inB] == [inA, inB];
  }

  lemma OddIds()
    ensures A.AllLinkIds(ENV, SiteTargets(ODD), SiteFile(ODD, "F"), [TYPE, CALL]) == [[], ["1\"", "1\""]]
  {
    TwoLinks(ODD, "F");
    OddIsRead();
    assert ["1\""] + ["1\""] == ["1\"", "1\""];
    BothLinkIds(ENV, SiteTargets(ODD), SiteFile(ODD, "F"), TYPE, CALL, [], ["1\"", "1\""]);
  }

  lemma TwiceRepeats(id: string)
    ensures !NoRepeat([ODD] + [] + [OWN] + [id, id])
  {
    var ids := [ODD] + [] + [OWN] + [id, id];
    assert ids[2] == ids[3];
    NoRepeatMeans(ids);
  }

  lemma OddRepeats()
    ensures !NoRepeat(A.LinkedAnchors(ENV, SiteTargets(ODD), SiteFile(ODD, "F")))
  {
    OddIsUsable("F");
    PageCut(ODD, "F");
    BothBodies(ODD, "F");
    OddIds();
    SiteAnchors(ODD, "F", [], ["1\"", "1\""]);
    TwiceRepeats("1\"");
  }

  /** A section with this anchor, linked to twice on its own page: the first run succeeds, and every
      later one on what it wrote is refused. */
  lemma LinkedTwiceRefused(later: Options)
    ensures EnvFits(ENV) && D.SiteFits([SiteFile(ODD, "F")])
    ensures Process(ENV, [SiteFile(ODD, "F")], None, RUN).Some?
    ensures var r := Process(ENV, [SiteFile(ODD, "F")], None, RUN).value;
            r.wrote && D.SiteFits(r.files) && Process(ENV, r.files, Some(r.manifest), later).None?
  {
    assert NoId("F") && NameLike("F");
    OddIsUsable("F");
    Accepted(ODD, "F");
    OddRepeats();
    RunIsIdempotent(ENV, [SiteFile(ODD, "F")], None, RUN, RUN);
    var r := Process(ENV, [SiteFile(ODD, "F")], None, RUN).value;
    RejectedAnchors(ENV, r.files, Some(r.manifest), later);
  }

  // ----- a heading that repeats its snippet

  const PLAIN := "u"

  lemma CallAsHeading()
    ensures Usable(PLAIN, CALL) && Usable(PLAIN, "F")
  {
    PlainTexts();
    NoIdWithout(CALL);
    CallBegins();
    assert NoId("F");
  }

  lemma FirstBehind(front: string, raw: string, behind: string)
    requires raw != "" && raw[0] !in front
    ensures FirstAt(front + raw + behind, 0, |front|, raw)
  {
    var s := front + raw + behind;
    assert s[|front|..|front| + |raw|] == raw;
    forall j | 0 <= j < |front|
      ensures !At(s, j, raw)
    {
      assert s[j] == front[j];
      if At(s, j, raw) {
        PlacedAt(s, j, raw, 0);
      }
    }
  }

  lemma CallUnframed()
    ensures !Framed(CallSection(CALL))
  {
    CallAsHeading();
    CapturesFit(OWN, CALL);
    CallBegins();
    assert CALL[0] == CALL[..8][0] == 'f';
    SectionAround(CALL);
    FirstBehind(ID_OPEN + OWN + ">", CALL, CODE_OPEN + CALL + FOOTER);
    RepeatedHeading(OWN, CALL);
  }

  lemma SectionAround(heading: string)
    requires Header([OWN, heading]) == ID_OPEN + OWN + ">" + heading + CODE_OPEN
    ensures ShowSection(CallSection(heading)) == (ID_OPEN + OWN + ">") + heading + (CODE_OPEN + CALL + FOOTER)
  {
  }

  /** Under a heading "F" the page is linked; under a heading that repeats the snippet it is refused,
      though discovery succeeds and the snippet is as before. */
  lemma RepeatedHeadingRefused()
    ensures EnvFits(ENV) && D.SiteFits([SiteFile(PLAIN, "F")]) && D.SiteFits([SiteFile(PLAIN, CALL)])
    ensures Process(ENV, [SiteFile(PLAIN, "F")], None, RUN).Some?
    ensures TargetsOf(ENV, [SiteFile(PLAIN, CALL)]).Some? && Runnable(ENV, [SiteFile(PLAIN, CALL)], None, RUN)
    ensures Process(ENV, [SiteFile(PLAIN, CALL)], None, RUN).None?
  {
    CallAsHeading();
    Accepted(PLAIN, "F");
    EnvRight();
    SiteRuns(PLAIN, CALL);
    TargetsHere(PLAIN, CALL);
    PageCut(PLAIN, CALL);
    FoundCall();
    MarksHere(PLAIN, CALL);
    CallUnframed();
    assert CallSection(CALL) in Sections(SitePage(PLAIN, CALL));
    var runs := FreshSiteLinks(ENV, [SiteFile(PLAIN, CALL)], RUN, SiteTargets(PLAIN));
  }
}
