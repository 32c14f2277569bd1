/** The cross-reference run over generated pages and its integrity manifest. */
module Pipeline {
  import opened Texts
  import opened Patterns
  import opened Markup
  import opened Documents
  import opened Offsets
  import opened Lexemes
  import opened Resolution
  import L = Links
  import H = Highlight
  import opened Pages
  import opened Anchors
  import opened Discovery

  /** Everything a run depends on besides pages and manifest. */
  datatype Env = Env(sources: Sources, unescape: Unescape, lexer: Lexer, hash: string -> string)

  ghost predicate EnvFits(env: Env) {
    LexerFits(env.lexer) && L.Sane(env.unescape) && SourcesFit(env.sources)
  }

  /** The search for type targets. */
  ghost function TargetsOf(env: Env, files: seq<File>): Option<Targets> {
    Discover(env.sources, env.unescape, files)
  }

  datatype Record = Record(file: string, outside: string, snippets: seq<string>)
  datatype Manifest = Manifest(pages: map<string, Record>, highlighting: bool)

  /** The outcome for one snippet: its new body, its text without markup, and what was counted. */
  datatype Snippet = Snippet(body: string, raw: string, tally: L.Tally)

  ghost predicate Ready(env: Env, targets: Targets, package: string) {
    EnvFits(env) && L.TargetsFit(targets) && package in env.sources
  }

  ghost function LinkedBody(env: Env, targets: Targets, file: File, raw: string, declaration: Declaration): Option<string>
    requires Ready(env, targets, file.package)
  {
    L.ContextOfFits(env.sources, targets, file.package, declaration, file.name);
    L.Linking(L.ContextOf(env.sources, targets, file.package, declaration, file.name), env.unescape, raw)
  }

  ghost function Counts(env: Env, targets: Targets, file: File, raw: string, declaration: Declaration): L.Tally
    requires file.package in env.sources
  {
    L.CountsOf(L.ContextOf(env.sources, targets, file.package, declaration, file.name), env.unescape, raw)
  }

  ghost function Coloured(env: Env, body: string): Option<string>
    requires EnvFits(env)
  {
    H.Highlighted(env.lexer, env.unescape, body)
  }

  /** The expected link markup of a snippet text, with what is counted on the way. */
  ghost function Expected(env: Env, targets: Targets, file: File, raw: string): Option<Snippet>
    requires Ready(env, targets, file.package)
  {
    match Find(env.sources[file.package], env.unescape, raw)
    case None => None
    case Some(declaration) =>
      match LinkedBody(env, targets, file, raw, declaration)
      case None => None
      case Some(body) => Some(Snippet(body, raw, Counts(env, targets, file, raw, declaration)))
  }

  /** One turn of the inner loop of process; None stands for a raised error. */
  ghost function RunSnippet(env: Env, targets: Targets, file: File, body: string, stored: Option<string>,
                            coloured: bool, highlight: bool): Option<Snippet>
    requires Ready(env, targets, file.package)
  {
    var raw := stored.GetOr(body);
    if Plain(if coloured then StripHighlighting(body) else body) != Some(raw) then None
    else
      match Expected(env, targets, file, raw)
      case None => None
      case Some(expected) =>
        Finished(env, expected, body, stored, coloured, highlight)
  }

  /** The comparison with what is expected, and the colour. */
  ghost function Finished(env: Env, expected: Snippet, body: string, stored: Option<string>, coloured: bool, highlight: bool)
    : Option<Snippet>
    requires EnvFits(env)
  {
    var colour := if coloured || highlight then Coloured(env, expected.body) else Some(expected.body);
    if colour.None? then None
    else if stored.Some? && body != (if coloured then colour.value else expected.body) then None
    else Some(expected.(body := colour.value))
  }

  function HeadOf(stored: Option<seq<string>>): Option<string>
    requires stored.Some? ==> stored.value != []
  {
    if stored.Some? then Some(stored.value[0]) else None
  }

  function TailOf(stored: Option<seq<string>>): Option<seq<string>>
    requires stored.Some? ==> stored.value != []
  {
    if stored.Some? then Some(stored.value[1..]) else None
  }

  ghost function RunSections(env: Env, targets: Targets, file: File, sections: seq<Section>, stored: Option<seq<string>>,
                             coloured: bool, highlight: bool): (r: Option<seq<Snippet>>)
    requires Ready(env, targets, file.package)
    requires stored.Some? ==> |stored.value| == |sections|
    ensures r.Some? ==> |r.value| == |sections|
    decreases |sections|
  {
    if sections == [] then Some([])
    else
      Joined(RunSnippet(env, targets, file, sections[0].body, HeadOf(stored), coloured, highlight),
             RunSections(env, targets, file, sections[1..], TailOf(stored), coloured, highlight))
  }

  lemma SectionsJoined(env: Env, targets: Targets, file: File, sections: seq<Section>, stored: Option<seq<string>>,
                       coloured: bool, highlight: bool)
    requires Ready(env, targets, file.package) && sections != [] && (stored.Some? ==> |stored.value| == |sections|)
    ensures RunSections(env, targets, file, sections, stored, coloured, highlight) ==
            Joined(RunSnippet(env, targets, file, sections[0].body, HeadOf(stored), coloured, highlight),
                   RunSections(env, targets, file, sections[1..], TailOf(stored), coloured, highlight))
  {
  }

  function Bodies(snippets: seq<Snippet>): (r: seq<string>)
    ensures |r| == |snippets|
  {
    if snippets == [] then [] else [snippets[0].body] + Bodies(snippets[1..])
  }

  function Raws(snippets: seq<Snippet>): (r: seq<string>)
    ensures |r| == |snippets|
  {
    if snippets == [] then [] else [snippets[0].raw] + Raws(snippets[1..])
  }

  function SnippetTotal(snippets: seq<Snippet>): L.Tally {
    if snippets == [] then L.NOTHING_COUNTED else snippets[0].tally.Plus(SnippetTotal(snippets[1..]))
  }

  datatype PageRun = PageRun(text: string, entry: Record, tally: L.Tally)

  const MARKER := "type-reference"

  function SnippetsOf(entry: Option<Record>): Option<seq<string>> {
    if entry.Some? then Some(entry.value.snippets) else None
  }

  ghost function RunPage(env: Env, targets: Targets, file: File, entry: Option<Record>,
                         coloured: bool, highlight: bool): Option<PageRun>
    requires Ready(env, targets, file.package)
  {
    var page := ParsePage("", file.text);
    var outside := env.hash(Outside(page));
    if entry.Some? && (entry.value.file != file.name || entry.value.outside != outside ||
                       |entry.value.snippets| != |Sections(page)|) then None
    else if entry.None? && FindText(file.text, 0, MARKER).Some? then None
    else
      match RunSections(env, targets, file, Sections(page), SnippetsOf(entry), coloured, highlight)
      case None => None
      case Some(snippets) =>
        var kept := if entry.Some? then entry.value else Record(file.name, outside, Raws(snippets));
        var result := WithBodies(page, Bodies(snippets));
        if env.hash(Outside(result)) != kept.outside then None
        else Some(PageRun(ShowPage(result), kept, SnippetTotal(snippets)))
  }

  // ----- one snippet, run after run

  /** What a successful run leaves of a snippet. */
  ghost predicate Settled(env: Env, targets: Targets, file: File, snippet: Snippet, coloured: bool)
    requires Ready(env, targets, file.package)
  {
    var expected := Expected(env, targets, file, snippet.raw);
    '<' !in snippet.raw && expected.Some? && snippet.tally == expected.value.tally &&
    Some(snippet.body) == if coloured then Coloured(env, expected.value.body) else Some(expected.value.body)
  }

  lemma PlainIsPlain(s: string)
    requires Plain(s).Some?
    ensures '<' !in Plain(s).value
  {
  }

  lemma RunSettles(env: Env, targets: Targets, file: File, body: string, stored: Option<string>,
                   coloured: bool, highlight: bool)
    requires Ready(env, targets, file.package)
    requires RunSnippet(env, targets, file, body, stored, coloured, highlight).Some?
    ensures var snippet := RunSnippet(env, targets, file, body, stored, coloured, highlight).value;
            Settled(env, targets, file, snippet, coloured || highlight) && snippet.raw == stored.GetOr(body)
  {
    PlainIsPlain(if coloured then StripHighlighting(body) else body);
  }

  /** A settled body: the markup comes off again, and the page scan is not disturbed. */
  lemma SettledBody(env: Env, targets: Targets, file: File, snippet: Snippet, coloured: bool)
    requires Ready(env, targets, file.package) && Settled(env, targets, file, snippet, coloured)
    ensures var linked := Expected(env, targets, file, snippet.raw).value.body;
            StripHighlighting(snippet.body) == linked && StripHighlighting(linked) == linked &&
            Plain(linked) == Some(snippet.raw)
    ensures BodyFits(snippet.body)
  {
    var declaration := Find(env.sources[file.package], env.unescape, snippet.raw).value;
    var c := L.ContextOf(env.sources, targets, file.package, declaration, file.name);
    L.ContextOfFits(env.sources, targets, file.package, declaration, file.name);
    var linked := LinkedBody(env, targets, file, snippet.raw, declaration).value;
    var doc := L.LinkingDoc(c, env.unescape, snippet.raw);
    UncolouredStays(doc);
    DocBodyFits(doc);
    if coloured {
      var colour := H.HighlightedDoc(env.lexer, env.unescape, linked);
      H.HighlightExact(env.lexer, env.unescape, linked);
      DocBodyFits(colour);
    }
  }

  // ----- bodies do not run into the footer of their section

  predicate FooterFreeAt(x: string, i: nat)
    requires i < |x|
  {
    x[i] == '<' ==> i + 2 < |x| && (x[i + 1] != '/' || x[i + 2] != 'c')
  }

  predicate FooterFree(x: string) {
    forall i :: 0 <= i < |x| ==> FooterFreeAt(x, i)
  }

  lemma FooterFreeJoin(x: string, y: string)
    requires FooterFree(x) && FooterFree(y)
    ensures FooterFree(x + y)
  {
    forall i | 0 <= i < |x + y|
      ensures FooterFreeAt(x + y, i)
    {
      if i < |x| {
        assert FooterFreeAt(x, i);
      } else {
        assert FooterFreeAt(y, i - |x|);
      }
    }
  }

  lemma FooterFreeFits(body: string)
    requires FooterFree(body)
    ensures BodyFits(body)
  {
    var s := body + FOOTER;
    assert s[|body|..|body| + |FOOTER|] == FOOTER;
    forall j | 0 <= j < |body|
      ensures !At(s, j, FOOTER)
    {
      assert FooterFreeAt(body, j);
      if At(s, j, FOOTER) {
        FooterBegins(s, j);
      }
    }
  }

  lemma FooterBegins(s: string, j: nat)
    requires At(s, j, FOOTER)
    ensures s[j] == '<' && s[j + 1] == '/' && s[j + 2] == 'c'
  {
    var piece := s[j..j + |FOOTER|];
    assert piece[0] == s[j] && piece[1] == s[j + 1] && piece[2] == s[j + 2];
  }

  lemma TextFooterFree(text: string)
    requires '<' !in text
    ensures FooterFree(text)
  {
  }

  lemma SpanFooterFree(category: string, content: string)
    requires category in CLASSES && '<' !in content
    ensures FooterFree(PrintSpan(category, content))
  {
    assert AllOf(category, LowerLetter);
    FooterFreeJoin("<span class=\"ada-", category);
    FooterFreeJoin("<span class=\"ada-" + category, "\">");
    FooterFreeJoin(SpanOpen(category), content);
    FooterFreeJoin(SpanOpen(category) + content, SPAN_CLOSE);
  }

  lemma OpenFooterFree(href: string, data: string)
    requires '<' !in href && '<' !in data
    ensures FooterFree(LinkOpen(href, data))
  {
    var open := "<a class=\"type-reference\" href=\"";
    TextFooterFree(href);
    TextFooterFree(data);
    FooterFreeJoin(open, href);
    FooterFreeJoin(open + href, "\" data-type=\"");
    FooterFreeJoin(open + href + "\" data-type=\"", data);
    FooterFreeJoin(open + href + "\" data-type=\"" + data, "\">");
  }

  lemma LinkFooterFree(link: seq<string>)
    requires ValidLink(link)
    ensures FooterFree(Print(LINK, link))
  {
    LinkFits(link);
    assert link == [link[0], link[1], link[2]];
    LinkPrinted(link[0], link[1], link[2]);
    OpenFooterFree(link[0], link[1]);
    FooterFreeJoin(LinkOpen(link[0], link[1]), link[2]);
    FooterFreeJoin(LinkOpen(link[0], link[1]) + link[2], LINK_CLOSE);
  }

  lemma {:induction false} DocFooterFree(doc: Doc)
    requires Clean(doc) && !HasStray(doc)
    ensures FooterFree(Show(doc))
  {
    match doc
    case Nothing =>
    case Text(text, next) =>
      DocFooterFree(next);
      FooterFreeJoin(text, Show(next));
    case Anchor(link, next) =>
      DocFooterFree(next);
      LinkFooterFree(link);
      FooterFreeJoin(Print(LINK, link), Show(next));
    case Colour(category, content, next) =>
      DocFooterFree(next);
      SpanFooterFree(category, content);
      FooterFreeJoin(PrintSpan(category, content), Show(next));
    case Stray(_, _, _) =>
      assert false;
  }

  lemma DocBodyFits(doc: Doc)
    requires Clean(doc) && !HasStray(doc)
    ensures BodyFits(Show(doc))
  {
    DocFooterFree(doc);
    FooterFreeFits(Show(doc));
  }

  /** Nothing to take off where nothing is coloured. */
  lemma UncolouredStays(doc: Doc)
    requires Clean(doc) && !HasColour(doc)
    ensures StripHighlighting(Show(doc)) == Show(doc)
  {
    StripShow(doc);
    UncolourSame(doc);
  }

  lemma {:induction false} UncolourSame(doc: Doc)
    requires !HasColour(doc)
    ensures Uncolour(doc) == doc
  {
    if doc.Nothing? {
    } else {
      UncolourSame(doc.next);
    }
  }

  /** A run over its own settled output accepts it and leaves it alone. */
  lemma RunAgain(env: Env, targets: Targets, file: File, snippet: Snippet, coloured: bool, highlight: bool)
    requires Ready(env, targets, file.package) && Settled(env, targets, file, snippet, coloured)
    requires highlight ==> coloured
    ensures RunSnippet(env, targets, file, snippet.body, Some(snippet.raw), coloured, highlight) == Some(snippet)
  {
    SettledBody(env, targets, file, snippet, coloured);
    FinishedAgain(env, Expected(env, targets, file, snippet.raw).value, snippet, coloured, highlight);
  }

  lemma FinishedAgain(env: Env, expected: Snippet, snippet: Snippet, coloured: bool, highlight: bool)
    requires EnvFits(env) && (highlight ==> coloured) && expected.raw == snippet.raw && expected.tally == snippet.tally
    requires Some(snippet.body) == if coloured then Coloured(env, expected.body) else Some(expected.body)
    ensures Finished(env, expected, snippet.body, Some(snippet.raw), coloured, highlight) == Some(snippet)
  {
  }

  // ----- all snippets of a page

  ghost predicate AllSettled(env: Env, targets: Targets, file: File, snippets: seq<Snippet>, coloured: bool)
    requires Ready(env, targets, file.package)
  {
    snippets == [] ||
    (Settled(env, targets, file, snippets[0], coloured) && AllSettled(env, targets, file, snippets[1..], coloured))
  }

  predicate HaveBodies(sections: seq<Section>, bodies: seq<string>) {
    |sections| == |bodies| &&
    (sections == [] || (sections[0].body == bodies[0] && HaveBodies(sections[1..], bodies[1..])))
  }

  lemma SectionsStep(env: Env, targets: Targets, file: File, sections: seq<Section>, stored: Option<seq<string>>,
                     coloured: bool, highlight: bool) returns (first: Snippet, others: seq<Snippet>)
    requires Ready(env, targets, file.package) && sections != []
    requires stored.Some? ==> |stored.value| == |sections|
    requires RunSections(env, targets, file, sections, stored, coloured, highlight).Some?
    ensures RunSnippet(env, targets, file, sections[0].body, HeadOf(stored), coloured, highlight) == Some(first)
    ensures RunSections(env, targets, file, sections[1..], TailOf(stored), coloured, highlight) == Some(others)
    ensures RunSections(env, targets, file, sections, stored, coloured, highlight) == Some([first] + others)
    ensures ([first] + others)[1..] == others
    ensures Bodies([first] + others)[1..] == Bodies(others) && Raws([first] + others) == [first.raw] + Raws(others)
  {
    first := RunSnippet(env, targets, file, sections[0].body, HeadOf(stored), coloured, highlight).value;
    others := RunSections(env, targets, file, sections[1..], TailOf(stored), coloured, highlight).value;
    assert ([first] + others)[1..] == others;
  }

  lemma {:induction false} SectionsSettle(env: Env, targets: Targets, file: File, sections: seq<Section>,
                                          stored: Option<seq<string>>, coloured: bool, highlight: bool)
    requires Ready(env, targets, file.package)
    requires stored.Some? ==> |stored.value| == |sections|
    requires RunSections(env, targets, file, sections, stored, coloured, highlight).Some?
    ensures var snippets := RunSections(env, targets, file, sections, stored, coloured, highlight).value;
            AllSettled(env, targets, file, snippets, coloured || highlight) &&
            (stored.Some? ==> Raws(snippets) == stored.value)
    decreases |sections|
  {
    if sections == [] {
    } else {
      var first, others := SectionsStep(env, targets, file, sections, stored, coloured, highlight);
      FirstSettles(env, targets, file, sections[0].body, stored, coloured, highlight, first);
      SectionsSettle(env, targets, file, sections[1..], TailOf(stored), coloured, highlight);
      SettledCons(env, targets, file, first, others, coloured || highlight, stored);
    }
  }

  lemma FirstSettles(env: Env, targets: Targets, file: File, body: string, stored: Option<seq<string>>,
                     coloured: bool, highlight: bool, first: Snippet)
    requires Ready(env, targets, file.package) && (stored.Some? ==> stored.value != [])
    requires RunSnippet(env, targets, file, body, HeadOf(stored), coloured, highlight) == Some(first)
    ensures Settled(env, targets, file, first, coloured || highlight) && (stored.Some? ==> first.raw == stored.value[0])
  {
    RunSettles(env, targets, file, body, HeadOf(stored), coloured, highlight);
  }

  lemma SettledCons(env: Env, targets: Targets, file: File, first: Snippet, others: seq<Snippet>, coloured: bool,
                    stored: Option<seq<string>>)
    requires Ready(env, targets, file.package) && (stored.Some? ==> stored.value != [])
    requires Settled(env, targets, file, first, coloured) && AllSettled(env, targets, file, others, coloured)
    requires stored.Some? ==> first.raw == stored.value[0] && Raws(others) == stored.value[1..]
    ensures AllSettled(env, targets, file, [first] + others, coloured)
    ensures stored.Some? ==> Raws([first] + others) == stored.value
  {
    assert ([first] + others)[1..] == others;
    if stored.Some? {
      assert stored.value == [stored.value[0]] + stored.value[1..];
    }
  }

  lemma SnippetAgain(env: Env, targets: Targets, file: File, body: string, stored: Option<string>, snippet: Snippet,
                     coloured: bool, highlight: bool)
    requires Ready(env, targets, file.package) && Settled(env, targets, file, snippet, coloured)
    requires (highlight ==> coloured) && body == snippet.body && stored == Some(snippet.raw)
    ensures RunSnippet(env, targets, file, body, stored, coloured, highlight) == Some(snippet)
  {
    RunAgain(env, targets, file, snippet, coloured, highlight);
  }

  lemma {:induction false} SectionsAgain(env: Env, targets: Targets, file: File, sections: seq<Section>, stored: Option<seq<string>>,
                                         snippets: seq<Snippet>, coloured: bool, highlight: bool)
    requires Ready(env, targets, file.package) && AllSettled(env, targets, file, snippets, coloured)
    requires HaveBodies(sections, Bodies(snippets)) && (highlight ==> coloured) && stored == Some(Raws(snippets))
    ensures |sections| == |snippets|
    ensures RunSections(env, targets, file, sections, stored, coloured, highlight) == Some(snippets)
    decreases |sections|
  {
    if sections == [] {
    } else {
      var first, others := SnippetsSplit(sections, stored, snippets);
      SnippetAgain(env, targets, file, sections[0].body, HeadOf(stored), first, coloured, highlight);
      SectionsAgain(env, targets, file, sections[1..], TailOf(stored), others, coloured, highlight);
      SectionsJoin(env, targets, file, sections, stored, first, others, coloured, highlight);
    }
  }

  lemma SnippetsSplit(sections: seq<Section>, stored: Option<seq<string>>, snippets: seq<Snippet>)
    returns (first: Snippet, others: seq<Snippet>)
    requires sections != [] && HaveBodies(sections, Bodies(snippets)) && stored == Some(Raws(snippets))
    ensures snippets == [first] + others && first == snippets[0] && others == snippets[1..]
    ensures sections[0].body == first.body && HeadOf(stored) == Some(first.raw)
    ensures HaveBodies(sections[1..], Bodies(others)) && TailOf(stored) == Some(Raws(others))
  {
    first, others := snippets[0], snippets[1..];
  }

  lemma SectionsJoin(env: Env, targets: Targets, file: File, sections: seq<Section>, stored: Option<seq<string>>,
                     first: Snippet, others: seq<Snippet>, coloured: bool, highlight: bool)
    requires Ready(env, targets, file.package) && sections != [] && (stored.Some? ==> |stored.value| == |sections|)
    requires RunSnippet(env, targets, file, sections[0].body, HeadOf(stored), coloured, highlight) == Some(first)
    requires RunSections(env, targets, file, sections[1..], TailOf(stored), coloured, highlight) == Some(others)
    ensures RunSections(env, targets, file, sections, stored, coloured, highlight) == Some([first] + others)
  {
  }

  lemma {:induction false} SettledBodiesFit(env: Env, targets: Targets, file: File, snippets: seq<Snippet>, coloured: bool)
    requires Ready(env, targets, file.package) && AllSettled(env, targets, file, snippets, coloured)
    ensures forall body :: body in Bodies(snippets) ==> BodyFits(body)
  {
    if snippets == [] {
    } else {
      SettledBody(env, targets, file, snippets[0], coloured);
      SettledBodiesFit(env, targets, file, snippets[1..], coloured);
    }
  }

  lemma {:induction false} WithBodiesHas(page: Page, bodies: seq<string>)
    requires |bodies| == |Sections(page)|
    ensures HaveBodies(Sections(WithBodies(page, bodies)), bodies)
    ensures WithBodies(WithBodies(page, bodies), bodies) == WithBodies(page, bodies)
  {
    match page
    case Last(_) =>
    case Part(text, section, rest) =>
      WithBodiesHas(rest, bodies[1..]);
      var all := WithBodies(page, bodies);
      assert Sections(all)[1..] == Sections(WithBodies(rest, bodies[1..]));
  }

  lemma LinkedFile(env: Env, targets: Targets, file: File, file': File, raw: string, declaration: Declaration)
    requires Ready(env, targets, file.package) && file.package == file'.package && file.name == file'.name
    ensures LinkedBody(env, targets, file', raw, declaration) == LinkedBody(env, targets, file, raw, declaration)
    ensures Counts(env, targets, file', raw, declaration) == Counts(env, targets, file, raw, declaration)
  {
  }

  lemma ExpectedFile(env: Env, targets: Targets, file: File, file': File, raw: string)
    requires Ready(env, targets, file.package) && file.package == file'.package && file.name == file'.name
    ensures Expected(env, targets, file', raw) == Expected(env, targets, file, raw)
  {
    var found := Find(env.sources[file.package], env.unescape, raw);
    if found.Some? {
      LinkedFile(env, targets, file, file', raw, found.value);
    }
  }

  lemma SnippetFile(env: Env, targets: Targets, file: File, file': File, body: string, stored: Option<string>,
                    coloured: bool, highlight: bool)
    requires Ready(env, targets, file.package) && file.package == file'.package && file.name == file'.name
    ensures RunSnippet(env, targets, file', body, stored, coloured, highlight) ==
            RunSnippet(env, targets, file, body, stored, coloured, highlight)
  {
    ExpectedFile(env, targets, file, file', stored.GetOr(body));
  }

  /** Only package and name of a file matter to its snippets. */
  lemma {:induction false} SectionsFile(env: Env, targets: Targets, file: File, file': File, sections: seq<Section>,
                                        raws: seq<string>, coloured: bool, highlight: bool)
    requires Ready(env, targets, file.package) && file.package == file'.package && file.name == file'.name
    requires |raws| == |sections|
    ensures RunSections(env, targets, file', sections, Some(raws), coloured, highlight) ==
            RunSections(env, targets, file, sections, Some(raws), coloured, highlight)
    decreases |sections|
  {
    if sections == [] {
    } else {
      SectionsFile(env, targets, file, file', sections[1..], raws[1..], coloured, highlight);
      SnippetFile(env, targets, file, file', sections[0].body, Some(raws[0]), coloured, highlight);
    }
  }

  /** The page a run leaves: the same sections, with the new bodies. */
  ghost predicate Rewritten(file: File, run: PageRun, snippets: seq<Snippet>) {
    |snippets| == |Sections(ParsePage("", file.text))| &&
    ParsePage("", run.text) == WithBodies(ParsePage("", file.text), Bodies(snippets)) &&
    run.text == ShowPage(WithBodies(ParsePage("", file.text), Bodies(snippets)))
  }

  lemma RunRewrites(env: Env, targets: Targets, file: File, entry: Option<Record>, coloured: bool, highlight: bool)
    returns (snippets: seq<Snippet>)
    requires Ready(env, targets, file.package)
    requires RunPage(env, targets, file, entry, coloured, highlight).Some?
    ensures entry.Some? ==> |entry.value.snippets| == |Sections(ParsePage("", file.text))|
    ensures RunSections(env, targets, file, Sections(ParsePage("", file.text)), SnippetsOf(entry), coloured, highlight) ==
            Some(snippets)
    ensures AllSettled(env, targets, file, snippets, coloured || highlight)
    ensures Rewritten(file, RunPage(env, targets, file, entry, coloured, highlight).value, snippets)
  {
    var page := ParsePage("", file.text);
    snippets := RunSections(env, targets, file, Sections(page), SnippetsOf(entry), coloured, highlight).value;
    SectionsSettle(env, targets, file, Sections(page), SnippetsOf(entry), coloured, highlight);
    SettledBodiesFit(env, targets, file, snippets, coloured || highlight);
    RewrittenPage(file.text, Bodies(snippets));
  }

  /** A page whose record still matches, and whose snippets a run leaves alone. */
  lemma PageStands(env: Env, targets: Targets, file: File, entry: Record, page: Page, snippets: seq<Snippet>,
                   coloured: bool, highlight: bool)
    requires Ready(env, targets, file.package) && page == ParsePage("", file.text) && ShowPage(page) == file.text
    requires entry.file == file.name && entry.outside == env.hash(Outside(page)) && |entry.snippets| == |Sections(page)|
    requires RunSections(env, targets, file, Sections(page), Some(entry.snippets), coloured, highlight) == Some(snippets)
    requires WithBodies(page, Bodies(snippets)) == page
    ensures RunPage(env, targets, file, Some(entry), coloured, highlight) ==
            Some(PageRun(file.text, entry, SnippetTotal(snippets)))
  {
  }

  lemma RunKeeps(env: Env, targets: Targets, file: File, entry: Option<Record>, coloured: bool, highlight: bool,
                 snippets: seq<Snippet>)
    requires Ready(env, targets, file.package)
    requires RunPage(env, targets, file, entry, coloured, highlight).Some?
    requires entry.Some? ==> |entry.value.snippets| == |Sections(ParsePage("", file.text))|
    requires RunSections(env, targets, file, Sections(ParsePage("", file.text)), SnippetsOf(entry), coloured, highlight) ==
             Some(snippets)
    ensures var run := RunPage(env, targets, file, entry, coloured, highlight).value;
            var page := WithBodies(ParsePage("", file.text), Bodies(snippets));
            run == PageRun(ShowPage(page), run.entry, SnippetTotal(snippets)) &&
            run.entry == Record(file.name, env.hash(Outside(page)), Raws(snippets))
  {
    SectionsSettle(env, targets, file, Sections(ParsePage("", file.text)), SnippetsOf(entry), coloured, highlight);
  }

  /** Running again on a page just written accepts it, changes nothing and counts the same. */
  lemma PageAgain(env: Env, targets: Targets, file: File, entry: Option<Record>,
                  coloured: bool, highlight: bool, again: bool)
    requires Ready(env, targets, file.package) && (again ==> coloured || highlight)
    requires RunPage(env, targets, file, entry, coloured, highlight).Some?
    ensures var run := RunPage(env, targets, file, entry, coloured, highlight).value;
            RunPage(env, targets, file.(text := run.text), Some(run.entry), coloured || highlight, again) == Some(run)
  {
    var run := RunPage(env, targets, file, entry, coloured, highlight).value;
    var snippets := RunRewrites(env, targets, file, entry, coloured, highlight);
    RunKeeps(env, targets, file, entry, coloured, highlight, snippets);
    var page, file' := WithBodies(ParsePage("", file.text), Bodies(snippets)), file.(text := run.text);
    WithBodiesHas(ParsePage("", file.text), Bodies(snippets));
    SectionsFile(env, targets, file, file', Sections(page), Raws(snippets), coloured || highlight, again);
    SectionsAgain(env, targets, file, Sections(page), Some(Raws(snippets)), snippets, coloured || highlight, again);
    PageStands(env, targets, file', run.entry, page, snippets, coloured || highlight, again);
  }

  // ----- the whole site

  predicate Distinct(files: seq<File>) {
    forall i, j :: 0 <= i < j < |files| ==> files[i].package != files[j].package
  }

  function Packages(files: seq<File>): set<string> {
    set i | 0 <= i < |files| :: files[i].package
  }

  ghost predicate AllReady(env: Env, targets: Targets, files: seq<File>) {
    forall i :: 0 <= i < |files| ==> Ready(env, targets, files[i].package)
  }

  function RecordOf(pages: Option<map<string, Record>>, package: string): Option<Record> {
    if pages.Some? && package in pages.value then Some(pages.value[package]) else None
  }

  ghost function RunFiles(env: Env, targets: Targets, files: seq<File>, pages: Option<map<string, Record>>,
                          coloured: bool, highlight: bool): (r: Option<seq<PageRun>>)
    requires AllReady(env, targets, files)
    ensures r.Some? ==> |r.value| == |files|
  {
    if files == [] then Some([])
    else
      assert Ready(env, targets, files[0].package);
      assert AllReady(env, targets, files[1..]) by { ReadyTail(env, targets, files); }
      Joined(RunPage(env, targets, files[0], RecordOf(pages, files[0].package), coloured, highlight),
             RunFiles(env, targets, files[1..], pages, coloured, highlight))
  }

  lemma ReadyTail(env: Env, targets: Targets, files: seq<File>)
    requires AllReady(env, targets, files) && files != []
    ensures AllReady(env, targets, files[1..])
  {
    forall i | 0 <= i < |files[1..]|
      ensures Ready(env, targets, files[1..][i].package)
    {
      assert files[1..][i] == files[i + 1];
    }
  }

  function Written(files: seq<File>, runs: seq<PageRun>): (r: seq<File>)
    requires |files| == |runs|
    ensures |r| == |files|
    ensures forall i :: 0 <= i < |r| ==> r[i] == files[i].(text := runs[i].text)
  {
    if files == [] then [] else [files[0].(text := runs[0].text)] + Written(files[1..], runs[1..])
  }

  function Records(files: seq<File>, runs: seq<PageRun>): (m: map<string, Record>)
    requires |files| == |runs|
  {
    if files == [] then map[] else Records(files[1..], runs[1..])[files[0].package := runs[0].entry]
  }

  function Total(runs: seq<PageRun>): L.Tally {
    if runs == [] then L.NOTHING_COUNTED else runs[0].tally.Plus(Total(runs[1..]))
  }

  function Enhanced(runs: seq<PageRun>): nat {
    if runs == [] then 0 else (if runs[0].tally.linked > 0 then 1 else 0) + Enhanced(runs[1..])
  }

  /** The site and its manifest after a run, whether anything was written, and the counts returned. */
  datatype RunResult = RunResult(files: seq<File>, manifest: Manifest, wrote: bool, tally: L.Tally, enhanced: nat)

  datatype Options = Options(check: bool, highlight: bool, minimumLinks: nat, minimumPages: nat)

  /** The end of process: the coverage test, and what is written if anything is. */
  function Conclude(files: seq<File>, manifest: Option<Manifest>, options: Options, coloured: bool, runs: seq<PageRun>)
    : Option<RunResult>
    requires |files| == |runs| && (options.check ==> manifest.Some?)
  {
    var tally, enhanced := Total(runs), Enhanced(runs);
    if tally.linked < options.minimumLinks || enhanced < options.minimumPages then None
    else if options.check || (manifest.Some? && (!options.highlight || coloured))
    then Some(RunResult(files, manifest.value, false, tally, enhanced))
    else
      Some(RunResult(Written(files, runs), Manifest(Records(files, runs), coloured || options.highlight), true,
                     tally, enhanced))
  }

  function RecordsOf(manifest: Option<Manifest>): Option<map<string, Record>> {
    if manifest.Some? then Some(manifest.value.pages) else None
  }

  predicate IsColoured(manifest: Option<Manifest>) {
    manifest.Some? && manifest.value.highlighting
  }

  /** The tests between discovery and the loop over pages. */
  predicate Runnable(env: Env, files: seq<File>, manifest: Option<Manifest>, options: Options) {
    Distinct(files) && Packages(files) == env.sources.Keys &&
    (manifest.None? ==> !options.check && !options.highlight) &&
    (manifest.Some? ==> manifest.value.pages.Keys == Packages(files))
  }

  /** process; None stands for any raised error, and nothing is written then. */
  ghost function Process(env: Env, files: seq<File>, manifest: Option<Manifest>, options: Options): Option<RunResult>
    requires EnvFits(env) && SiteFits(files)
  {
    var targets := TargetsOf(env, files);
    if targets.None? || !Runnable(env, files, manifest, options) then None
    else
      assert AllReady(env, targets.value, files) by { SiteReady(env, files); }
      match RunFiles(env, targets.value, files, RecordsOf(manifest), IsColoured(manifest), options.highlight)
      case None => None
      case Some(runs) => Conclude(files, manifest, options, IsColoured(manifest), runs)
  }

  lemma SiteReady(env: Env, files: seq<File>)
    requires EnvFits(env) && SiteFits(files) && TargetsOf(env, files).Some? && Packages(files) == env.sources.Keys
    ensures AllReady(env, TargetsOf(env, files).value, files)
  {
    DiscoveredFit(env.sources, env.unescape, files);
    FilesReady(env, TargetsOf(env, files).value, files);
  }

  lemma FilesReady(env: Env, targets: Targets, files: seq<File>)
    requires EnvFits(env) && L.TargetsFit(targets) && Packages(files) == env.sources.Keys
    ensures AllReady(env, targets, files)
  {
    forall i | 0 <= i < |files|
      ensures Ready(env, targets, files[i].package)
    {
      assert files[i].package in Packages(files);
    }
  }

  // ----- what a run leaves as it was

  lemma PlainHasNoColour(s: string)
    requires Plain(s).Some?
    ensures StripHighlighting(s) == s
  {
    ParseClean("", s);
    ParseShow("", s);
    assert "" + s == s;
    H.TextsAndLinksPlain(Parse("", s));
    UncolouredStays(Parse("", s));
  }

  lemma SnippetView(env: Env, targets: Targets, file: File, body: string, stored: Option<string>,
                    coloured: bool, highlight: bool)
    requires Ready(env, targets, file.package)
    requires RunSnippet(env, targets, file, body, stored, coloured, highlight).Some?
    ensures var snippet := RunSnippet(env, targets, file, body, stored, coloured, highlight).value;
            Plain(StripHighlighting(snippet.body)) == Plain(StripHighlighting(body)) == Some(snippet.raw)
  {
    RunSettles(env, targets, file, body, stored, coloured, highlight);
    SettledBody(env, targets, file, RunSnippet(env, targets, file, body, stored, coloured, highlight).value,
                coloured || highlight);
    if !coloured {
      PlainHasNoColour(body);
    }
  }

  /** The same sections with other bodies. */
  predicate Rebodied(sections: seq<Section>, sections': seq<Section>, bodies: seq<string>) {
    |sections| == |sections'| == |bodies| &&
    (sections == [] ||
     (sections'[0] == Section(sections[0].captures, bodies[0]) && Rebodied(sections[1..], sections'[1..], bodies[1..])))
  }

  lemma {:induction false} WithBodiesRebodies(page: Page, bodies: seq<string>)
    requires |bodies| == |Sections(page)|
    ensures Rebodied(Sections(page), Sections(WithBodies(page, bodies)), bodies)
  {
    match page
    case Last(_) =>
    case Part(text, section, rest) =>
      WithBodiesRebodies(rest, bodies[1..]);
      assert Sections(WithBodies(page, bodies))[1..] == Sections(WithBodies(rest, bodies[1..]));
      assert Sections(page)[1..] == Sections(rest);
  }

  lemma EntriesStep(source: Source, unescape: Unescape, sections: seq<Section>, sections': seq<Section>)
    requires sections != [] && sections' != [] && sections[0].captures == sections'[0].captures
    requires Plain(StripHighlighting(sections[0].body)) == Plain(StripHighlighting(sections'[0].body))
    requires EntriesOf(source, unescape, sections[1..]) == EntriesOf(source, unescape, sections'[1..])
    ensures EntriesOf(source, unescape, sections) == EntriesOf(source, unescape, sections')
  {
  }

  lemma {:induction false} EntriesStay(env: Env, targets: Targets, file: File, sections: seq<Section>,
                                       sections': seq<Section>, stored: Option<seq<string>>, coloured: bool, highlight: bool)
    requires Ready(env, targets, file.package)
    requires stored.Some? ==> |stored.value| == |sections|
    requires var r := RunSections(env, targets, file, sections, stored, coloured, highlight);
             r.Some? && Rebodied(sections, sections', Bodies(r.value))
    ensures EntriesOf(env.sources[file.package], env.unescape, sections') ==
            EntriesOf(env.sources[file.package], env.unescape, sections)
    decreases |sections|
  {
    if sections == [] {
    } else {
      var first, others := SectionsStep(env, targets, file, sections, stored, coloured, highlight);
      SnippetView(env, targets, file, sections[0].body, HeadOf(stored), coloured, highlight);
      EntriesStay(env, targets, file, sections[1..], sections'[1..], TailOf(stored), coloured, highlight);
      EntriesStep(env.sources[file.package], env.unescape, sections, sections');
    }
  }

  /** Every body a run accepts, and every body it leaves, is a document of text, links and colour. */
  lemma SettledDoc(env: Env, targets: Targets, file: File, snippet: Snippet, coloured: bool) returns (doc: Doc)
    requires Ready(env, targets, file.package) && Settled(env, targets, file, snippet, coloured)
    ensures Show(doc) == snippet.body && Clean(doc) && !HasStray(doc)
  {
    var declaration := Find(env.sources[file.package], env.unescape, snippet.raw).value;
    var c := L.ContextOf(env.sources, targets, file.package, declaration, file.name);
    L.ContextOfFits(env.sources, targets, file.package, declaration, file.name);
    doc := L.LinkingDoc(c, env.unescape, snippet.raw);
    if coloured {
      doc := H.HighlightedDoc(env.lexer, env.unescape, Show(doc));
    }
  }

  lemma AcceptedDoc(env: Env, targets: Targets, file: File, body: string, stored: Option<string>,
                    coloured: bool, highlight: bool) returns (doc: Doc)
    requires Ready(env, targets, file.package) && (coloured ==> stored.Some?)
    requires RunSnippet(env, targets, file, body, stored, coloured, highlight).Some?
    ensures Show(doc) == body && Clean(doc) && !HasStray(doc)
  {
    if coloured {
      RunSettles(env, targets, file, body, stored, coloured, highlight);
      doc := SettledDoc(env, targets, file, RunSnippet(env, targets, file, body, stored, coloured, highlight).value, true);
    } else {
      doc := Parse("", body);
      ParseClean("", body);
      ParseShow("", body);
      assert "" + body == body;
      H.TextsAndLinksPlain(doc);
    }
  }

  predicate PageTagChar(c: char) {
    c != 'a' && c != 's' && c != '/'
  }

  lemma {:induction false} AcceptedBodiesFree(env: Env, targets: Targets, file: File, sections: seq<Section>,
                                              stored: Option<seq<string>>, coloured: bool, highlight: bool, c: char)
    requires Ready(env, targets, file.package) && PageTagChar(c) && (coloured ==> stored.Some?)
    requires stored.Some? ==> |stored.value| == |sections|
    requires RunSections(env, targets, file, sections, stored, coloured, highlight).Some?
    ensures BodiesFree(BodiesIn(sections), c)
    decreases |sections|
  {
    if sections == [] {
    } else {
      var first, others := SectionsStep(env, targets, file, sections, stored, coloured, highlight);
      var doc := AcceptedDoc(env, targets, file, sections[0].body, HeadOf(stored), coloured, highlight);
      DocHasNoTag(doc, c);
      AcceptedBodiesFree(env, targets, file, sections[1..], TailOf(stored), coloured, highlight, c);
    }
  }

  lemma {:induction false} SettledBodiesFree(env: Env, targets: Targets, file: File, snippets: seq<Snippet>,
                                             coloured: bool, c: char)
    requires Ready(env, targets, file.package) && AllSettled(env, targets, file, snippets, coloured) && PageTagChar(c)
    ensures BodiesFree(Bodies(snippets), c)
  {
    if snippets == [] {
    } else {
      var doc := SettledDoc(env, targets, file, snippets[0], coloured);
      DocHasNoTag(doc, c);
      SettledBodiesFree(env, targets, file, snippets[1..], coloured, c);
    }
  }

  lemma FoundStays(env: Env, targets: Targets, file: File, entry: Option<Record>, coloured: bool, highlight: bool,
                   pattern: Pattern, c: char)
    requires Ready(env, targets, file.package) && (coloured ==> entry.Some?) && PageTag(pattern, c)
    requires RunPage(env, targets, file, entry, coloured, highlight).Some?
    ensures FindAll(pattern, RunPage(env, targets, file, entry, coloured, highlight).value.text) == FindAll(pattern, file.text)
  {
    var page := ParsePage("", file.text);
    var snippets := RunRewrites(env, targets, file, entry, coloured, highlight);
    ParsedFits(file.text);
    AcceptedBodiesFree(env, targets, file, Sections(page), SnippetsOf(entry), coloured, highlight, c);
    SettledBodiesFree(env, targets, file, snippets, coloured || highlight, c);
    FoundOnPage(pattern, c, "", page, Bodies(snippets));
    assert "" + ShowPage(page) == ShowPage(page) == file.text;
    assert "" + ShowPage(WithBodies(page, Bodies(snippets))) == ShowPage(WithBodies(page, Bodies(snippets)));
  }

  lemma SectionsStay(env: Env, targets: Targets, file: File, entry: Option<Record>, coloured: bool, highlight: bool)
    requires Ready(env, targets, file.package)
    requires RunPage(env, targets, file, entry, coloured, highlight).Some?
    ensures var sections := Sections(ParsePage("", file.text));
            var sections' := Sections(ParsePage("", RunPage(env, targets, file, entry, coloured, highlight).value.text));
            |sections'| == |sections| &&
            EntriesOf(env.sources[file.package], env.unescape, sections') ==
            EntriesOf(env.sources[file.package], env.unescape, sections)
  {
    var page := ParsePage("", file.text);
    var snippets := RunRewrites(env, targets, file, entry, coloured, highlight);
    var sections' := Sections(WithBodies(page, Bodies(snippets)));
    WithBodiesRebodies(page, Bodies(snippets));
    EntriesStay(env, targets, file, Sections(page), sections', SnippetsOf(entry), coloured, highlight);
  }

  lemma SamePage(sources: Sources, unescape: Unescape, file: File, file': File)
    requires file.package in sources && file.package == file'.package && file.name == file'.name
    requires Headings(file.text) == Headings(file'.text) && SnippetCount(file.text) == SnippetCount(file'.text)
    requires |Sections(ParsePage("", file.text))| == |Sections(ParsePage("", file'.text))|
    requires EntriesOf(sources[file.package], unescape, Sections(ParsePage("", file.text))) ==
             EntriesOf(sources[file.package], unescape, Sections(ParsePage("", file'.text)))
    ensures PageOf(sources, unescape, file') == PageOf(sources, unescape, file)
  {
  }

  /** Discovery reads the same off a page before and after a run, its anchors aside. */
  lemma PageStays(env: Env, targets: Targets, file: File, entry: Option<Record>, coloured: bool, highlight: bool)
    requires Ready(env, targets, file.package) && (coloured ==> entry.Some?)
    requires RunPage(env, targets, file, entry, coloured, highlight).Some?
    ensures var file' := file.(text := RunPage(env, targets, file, entry, coloured, highlight).value.text);
            PageOf(env.sources, env.unescape, file') == PageOf(env.sources, env.unescape, file)
  {
    SectionsStay(env, targets, file, entry, coloured, highlight);
    FoundStays(env, targets, file, entry, coloured, highlight, HEADING, 'h');
    FoundStays(env, targets, file, entry, coloured, highlight, SNIPPET, 'p');
    SamePage(env.sources, env.unescape, file,
             file.(text := RunPage(env, targets, file, entry, coloured, highlight).value.text));
  }

  lemma {:induction false} FilesStand(env: Env, targets: Targets, files: seq<File>, pages: Option<map<string, Record>>,
                                      coloured: bool, highlight: bool)
    requires AllReady(env, targets, files) && RunFiles(env, targets, files, pages, coloured, highlight).Some?
    requires coloured ==> pages.Some? && Packages(files) <= pages.value.Keys
    ensures var files' := Written(files, RunFiles(env, targets, files, pages, coloured, highlight).value);
            PagesOf(env.sources, env.unescape, files') == PagesOf(env.sources, env.unescape, files)
  {
    if files == [] {
    } else {
      FilesStep(env, targets, files, pages, coloured, highlight);
      var runs := RunFiles(env, targets, files, pages, coloured, highlight).value;
      assert runs[1..] == RunFiles(env, targets, files[1..], pages, coloured, highlight).value;
      PackagesCons(files);
      assert files[0].package in Packages(files);
      PageStays(env, targets, files[0], RecordOf(pages, files[0].package), coloured, highlight);
      FilesStand(env, targets, files[1..], pages, coloured, highlight);
    }
  }

  /** The entries recorded are those of the runs. */
  predicate Recorded(files: seq<File>, runs: seq<PageRun>, pages: map<string, Record>) {
    |files| == |runs| &&
    forall i :: 0 <= i < |files| ==> files[i].package in pages && pages[files[i].package] == runs[i].entry
  }

  lemma {:induction false} RecordsHeld(files: seq<File>, runs: seq<PageRun>)
    requires |files| == |runs| && Distinct(files)
    ensures Recorded(files, runs, Records(files, runs)) && Records(files, runs).Keys == Packages(files)
  {
    if files == [] {
    } else {
      var tail, entries := files[1..], Records(files[1..], runs[1..]);
      assert forall i :: 0 <= i < |tail| ==> tail[i] == files[i + 1] && runs[1..][i] == runs[i + 1];
      RecordsHeld(tail, runs[1..]);
      assert Packages(files) == Packages(tail) + {files[0].package} by {
        PackagesCons(files);
      }
      forall i | 0 <= i < |files|
        ensures Records(files, runs)[files[i].package] == runs[i].entry
      {
        if i > 0 {
          assert tail[i - 1] == files[i] && files[0].package != files[i].package;
        }
      }
    }
  }

  lemma PackagesCons(files: seq<File>)
    requires files != []
    ensures Packages(files) == {files[0].package} + Packages(files[1..])
  {
    forall p | p in Packages(files)
      ensures p in {files[0].package} + Packages(files[1..])
    {
      var i :| 0 <= i < |files| && files[i].package == p;
      if i > 0 {
        assert files[1..][i - 1] == files[i];
      }
    }
    forall p | p in Packages(files[1..])
      ensures p in Packages(files)
    {
      var i :| 0 <= i < |files[1..]| && files[1..][i].package == p;
      assert files[i + 1] == files[1..][i];
    }
  }

  lemma RecordedTail(files: seq<File>, runs: seq<PageRun>, pages: map<string, Record>)
    requires Recorded(files, runs, pages) && files != []
    ensures Recorded(files[1..], runs[1..], pages) && RecordOf(Some(pages), files[0].package) == Some(runs[0].entry)
  {
    forall i | 0 <= i < |files[1..]|
      ensures files[1..][i].package in pages && pages[files[1..][i].package] == runs[1..][i].entry
    {
      assert files[1..][i] == files[i + 1] && runs[1..][i] == runs[i + 1];
    }
  }

  lemma FilesStep(env: Env, targets: Targets, files: seq<File>, pages: Option<map<string, Record>>,
                  coloured: bool, highlight: bool)
    requires AllReady(env, targets, files) && files != []
    ensures Ready(env, targets, files[0].package) && AllReady(env, targets, files[1..])
    ensures var first := RunPage(env, targets, files[0], RecordOf(pages, files[0].package), coloured, highlight);
            var rest := RunFiles(env, targets, files[1..], pages, coloured, highlight);
            RunFiles(env, targets, files, pages, coloured, highlight) ==
            if first.Some? && rest.Some? then Some([first.value] + rest.value) else None
  {
    assert Ready(env, targets, files[0].package);
    ReadyTail(env, targets, files);
  }

  lemma WrittenReady(env: Env, targets: Targets, files: seq<File>, runs: seq<PageRun>)
    requires AllReady(env, targets, files) && |files| == |runs|
    ensures AllReady(env, targets, Written(files, runs))
  {
    forall i | 0 <= i < |files|
      ensures Ready(env, targets, Written(files, runs)[i].package)
    {
      assert Ready(env, targets, files[i].package);
    }
  }

  lemma {:induction false} FilesAgain(env: Env, targets: Targets, files: seq<File>, pages: Option<map<string, Record>>,
                                      pages': map<string, Record>, coloured: bool, highlight: bool, again: bool)
    requires AllReady(env, targets, files) && (again ==> coloured || highlight)
    requires RunFiles(env, targets, files, pages, coloured, highlight).Some?
    requires Recorded(files, RunFiles(env, targets, files, pages, coloured, highlight).value, pages')
    ensures var runs := RunFiles(env, targets, files, pages, coloured, highlight).value;
            var files' := Written(files, runs);
            AllReady(env, targets, files') &&
            RunFiles(env, targets, files', Some(pages'), coloured || highlight, again) == Some(runs)
  {
    var runs := RunFiles(env, targets, files, pages, coloured, highlight).value;
    WrittenReady(env, targets, files, runs);
    if files == [] {
    } else {
      var files' := Written(files, runs);
      FilesStep(env, targets, files, pages, coloured, highlight);
      assert runs[1..] == RunFiles(env, targets, files[1..], pages, coloured, highlight).value;
      RecordedTail(files, runs, pages');
      FilesAgain(env, targets, files[1..], pages, pages', coloured, highlight, again);
      PageAgain(env, targets, files[0], RecordOf(pages, files[0].package), coloured, highlight, again);
      assert files'[1..] == Written(files[1..], runs[1..]) && files'[0] == files[0].(text := runs[0].text);
      FilesStep(env, targets, files', Some(pages'), coloured || highlight, again);
      assert [runs[0]] + runs[1..] == runs;
    }
  }

  lemma WrittenKeeps(files: seq<File>, runs: seq<PageRun>)
    requires |files| == |runs|
    ensures Packages(Written(files, runs)) == Packages(files) && Distinct(Written(files, runs)) == Distinct(files)
  {
    var files' := Written(files, runs);
    assert forall i :: 0 <= i < |files| ==> files'[i].package == files[i].package;
  }

  // ----- a run that writes nothing

  lemma DropColour(env: Env, targets: Targets, file: File, body: string, stored: string)
    requires Ready(env, targets, file.package)
    requires RunSnippet(env, targets, file, body, Some(stored), false, true).Some?
    ensures RunSnippet(env, targets, file, body, Some(stored), false, false) ==
            Some(RunSnippet(env, targets, file, body, Some(stored), false, true).value.(body := body))
  {
  }

  lemma {:induction false} DropColours(env: Env, targets: Targets, file: File, sections: seq<Section>, stored: seq<string>)
    returns (snippets: seq<Snippet>)
    requires Ready(env, targets, file.package) && |stored| == |sections|
    requires RunSections(env, targets, file, sections, Some(stored), false, true).Some?
    ensures RunSections(env, targets, file, sections, Some(stored), false, false) == Some(snippets)
    ensures Bodies(snippets) == BodiesIn(sections)
    ensures SnippetTotal(snippets) == SnippetTotal(RunSections(env, targets, file, sections, Some(stored), false, true).value)
    decreases |sections|
  {
    if sections == [] {
      snippets := [];
    } else {
      var first, others := SectionsStep(env, targets, file, sections, Some(stored), false, true);
      var rest := DropColours(env, targets, file, sections[1..], stored[1..]);
      DropColour(env, targets, file, sections[0].body, stored[0]);
      var plain := first.(body := sections[0].body);
      SectionsJoin(env, targets, file, sections, Some(stored), plain, rest, false, false);
      snippets := [plain] + rest;
      assert snippets[1..] == rest && ([first] + others)[1..] == others;
    }
  }

  lemma {:induction false} SameBodies(page: Page)
    ensures WithBodies(page, BodiesIn(Sections(page))) == page
  {
    match page
    case Last(_) =>
    case Part(text, section, rest) =>
      SameBodies(rest);
      assert Sections(page)[1..] == Sections(rest);
  }

  /** A page that passes a run asked to colour passes one that is not. */
  lemma DropPageColour(env: Env, targets: Targets, file: File, entry: Record)
    requires Ready(env, targets, file.package)
    requires RunPage(env, targets, file, Some(entry), false, true).Some?
    ensures var r := RunPage(env, targets, file, Some(entry), false, false);
            r.Some? && r.value.tally == RunPage(env, targets, file, Some(entry), false, true).value.tally
  {
    var page := ParsePage("", file.text);
    var snippets := DropColours(env, targets, file, Sections(page), entry.snippets);
    SameBodies(page);
  }

  lemma {:induction false} DropSiteColour(env: Env, targets: Targets, files: seq<File>, pages: map<string, Record>)
    requires AllReady(env, targets, files) && Packages(files) <= pages.Keys
    requires RunFiles(env, targets, files, Some(pages), false, true).Some?
    ensures var r := RunFiles(env, targets, files, Some(pages), false, false);
            var before := RunFiles(env, targets, files, Some(pages), false, true);
            r.Some? && Total(r.value) == Total(before.value) && Enhanced(r.value) == Enhanced(before.value)
  {
    if files == [] {
    } else {
      FilesStep(env, targets, files, Some(pages), false, true);
      FilesStep(env, targets, files, Some(pages), false, false);
      PackagesCons(files);
      assert files[0].package in Packages(files);
      DropPageColour(env, targets, files[0], pages[files[0].package]);
      DropSiteColour(env, targets, files[1..], pages);
      TotalsCons(env, targets, files, pages, true);
      TotalsCons(env, targets, files, pages, false);
    }
  }

  lemma TotalsCons(env: Env, targets: Targets, files: seq<File>, pages: map<string, Record>, highlight: bool)
    requires AllReady(env, targets, files) && files != [] && files[0].package in pages
    requires Ready(env, targets, files[0].package) && AllReady(env, targets, files[1..])
    ensures var first := RunPage(env, targets, files[0], Some(pages[files[0].package]), false, highlight);
            var rest := RunFiles(env, targets, files[1..], Some(pages), false, highlight);
            var all := RunFiles(env, targets, files, Some(pages), false, highlight);
            first.Some? && rest.Some? ==>
              all.Some? && Total(all.value) == first.value.tally.Plus(Total(rest.value)) &&
              Enhanced(all.value) == (if first.value.tally.linked > 0 then 1 else 0) + Enhanced(rest.value)
  {
    FilesStep(env, targets, files, Some(pages), false, highlight);
    var all := RunFiles(env, targets, files, Some(pages), false, highlight);
    if all.Some? {
      assert all.value[1..] == RunFiles(env, targets, files[1..], Some(pages), false, highlight).value;
    }
  }

  lemma {:induction false} ColouredAnyway(env: Env, targets: Targets, file: File, sections: seq<Section>,
                                          stored: Option<seq<string>>, highlight: bool)
    requires Ready(env, targets, file.package) && (stored.Some? ==> |stored.value| == |sections|)
    ensures RunSections(env, targets, file, sections, stored, true, highlight) ==
            RunSections(env, targets, file, sections, stored, true, false)
    decreases |sections|
  {
    if sections == [] {
    } else {
      ColouredAnyway(env, targets, file, sections[1..], TailOf(stored), highlight);
      SnippetAnyway(env, targets, file, sections[0].body, HeadOf(stored), highlight);
    }
  }

  lemma SnippetAnyway(env: Env, targets: Targets, file: File, body: string, stored: Option<string>, highlight: bool)
    requires Ready(env, targets, file.package)
    ensures RunSnippet(env, targets, file, body, stored, true, highlight) ==
            RunSnippet(env, targets, file, body, stored, true, false)
  {
  }

  lemma PageAnyway(env: Env, targets: Targets, file: File, entry: Option<Record>, highlight: bool)
    requires Ready(env, targets, file.package)
    ensures RunPage(env, targets, file, entry, true, highlight) == RunPage(env, targets, file, entry, true, false)
  {
    var page := ParsePage("", file.text);
    if entry.None? || |entry.value.snippets| == |Sections(page)| {
      ColouredAnyway(env, targets, file, Sections(page), SnippetsOf(entry), highlight);
    }
  }

  /** On a coloured site, asking for colour changes nothing. */
  lemma {:induction false} SiteAnyway(env: Env, targets: Targets, files: seq<File>, pages: Option<map<string, Record>>,
                                      highlight: bool)
    requires AllReady(env, targets, files)
    ensures RunFiles(env, targets, files, pages, true, highlight) == RunFiles(env, targets, files, pages, true, false)
  {
    if files == [] {
    } else {
      FilesStep(env, targets, files, pages, true, highlight);
      FilesStep(env, targets, files, pages, true, false);
      PageAnyway(env, targets, files[0], RecordOf(pages, files[0].package), highlight);
      SiteAnyway(env, targets, files[1..], pages, highlight);
    }
  }

  // ----- running again

  /** What a later run may ask for without asking for more: no colour the site does not have, unless
      both runs only check whether it could be added. */
  predicate AsksNoMore(options: Options, r: RunResult, later: Options) {
    later.minimumLinks <= options.minimumLinks && later.minimumPages <= options.minimumPages &&
    (later.highlight ==> r.manifest.highlighting || (options.check && options.highlight && later.check))
  }

  lemma RunBehind(env: Env, files: seq<File>, manifest: Option<Manifest>, options: Options)
    returns (targets: Targets, runs: seq<PageRun>)
    requires EnvFits(env) && SiteFits(files) && Process(env, files, manifest, options).Some?
    ensures TargetsOf(env, files) == Some(targets) && AllReady(env, targets, files) && Runnable(env, files, manifest, options)
    ensures RunFiles(env, targets, files, RecordsOf(manifest), IsColoured(manifest), options.highlight) == Some(runs)
    ensures Process(env, files, manifest, options) == Conclude(files, manifest, options, IsColoured(manifest), runs)
  {
    targets := TargetsOf(env, files).value;
    SiteReady(env, files);
    runs := RunFiles(env, targets, files, RecordsOf(manifest), IsColoured(manifest), options.highlight).value;
  }

  /** Process, given what it finds out on the way. */
  lemma ProcessIs(env: Env, files: seq<File>, manifest: Option<Manifest>, options: Options, targets: Targets, runs: seq<PageRun>)
    requires EnvFits(env) && SiteFits(files) && TargetsOf(env, files) == Some(targets) && AllReady(env, targets, files)
    requires Runnable(env, files, manifest, options)
    requires RunFiles(env, targets, files, RecordsOf(manifest), IsColoured(manifest), options.highlight) == Some(runs)
    ensures Process(env, files, manifest, options) == Conclude(files, manifest, options, IsColoured(manifest), runs)
  {
  }

  lemma UnwrittenRuns(env: Env, targets: Targets, files: seq<File>, manifest: Manifest, highlight: bool, later: bool)
    returns (runs: seq<PageRun>)
    requires AllReady(env, targets, files) && Packages(files) <= manifest.pages.Keys
    requires RunFiles(env, targets, files, Some(manifest.pages), manifest.highlighting, highlight).Some?
    requires later ==> manifest.highlighting || highlight
    ensures RunFiles(env, targets, files, Some(manifest.pages), manifest.highlighting, later) == Some(runs)
    ensures var before := RunFiles(env, targets, files, Some(manifest.pages), manifest.highlighting, highlight).value;
            Total(runs) == Total(before) && Enhanced(runs) == Enhanced(before)
  {
    if manifest.highlighting {
      SiteAnyway(env, targets, files, Some(manifest.pages), highlight);
      SiteAnyway(env, targets, files, Some(manifest.pages), later);
    } else if highlight && !later {
      DropSiteColour(env, targets, files, manifest.pages);
    }
    runs := RunFiles(env, targets, files, Some(manifest.pages), manifest.highlighting, later).value;
  }

  lemma AgainUnwritten(env: Env, files: seq<File>, manifest: Option<Manifest>, options: Options, later: Options)
    requires EnvFits(env) && SiteFits(files) && Process(env, files, manifest, options).Some?
    requires !Process(env, files, manifest, options).value.wrote
    requires AsksNoMore(options, Process(env, files, manifest, options).value, later)
    ensures manifest.Some? && AnchorsDistinct(files)
    ensures Process(env, files, manifest, options).value.files == files
    ensures Process(env, files, manifest, options).value.manifest == manifest.value
    ensures Process(env, files, manifest, later) == Process(env, files, manifest, options)
  {
    var targets, runs := RunBehind(env, files, manifest, options);
    var again := UnwrittenRuns(env, targets, files, manifest.value, options.highlight, later.highlight);
    ProcessIs(env, files, manifest, later, targets, again);
  }

  /** The discovery of a run on what another has written. */
  lemma TargetsAgain(env: Env, targets: Targets, files: seq<File>, pages: Option<map<string, Record>>,
                     coloured: bool, highlight: bool)
    requires EnvFits(env) && SiteFits(files) && TargetsOf(env, files) == Some(targets) && AllReady(env, targets, files)
    requires RunFiles(env, targets, files, pages, coloured, highlight).Some?
    requires coloured ==> pages.Some? && Packages(files) <= pages.value.Keys
    ensures var files' := Written(files, RunFiles(env, targets, files, pages, coloured, highlight).value);
            SiteFits(files') && TargetsOf(env, files') == if AnchorsDistinct(files') then Some(targets) else None
  {
    FilesStand(env, targets, files, pages, coloured, highlight);
  }

  lemma WrittenResult(files: seq<File>, manifest: Option<Manifest>, options: Options, coloured: bool, runs: seq<PageRun>)
    requires |files| == |runs| && (options.check ==> manifest.Some?)
    requires Conclude(files, manifest, options, coloured, runs).Some?
    requires Conclude(files, manifest, options, coloured, runs).value.wrote
    ensures Conclude(files, manifest, options, coloured, runs) ==
            Some(RunResult(Written(files, runs), Manifest(Records(files, runs), coloured || options.highlight), true,
                           Total(runs), Enhanced(runs)))
    ensures !options.check && options.minimumLinks <= Total(runs).linked && options.minimumPages <= Enhanced(runs)
  {
  }

  lemma RejectedAnchors(env: Env, files: seq<File>, manifest: Option<Manifest>, options: Options)
    requires EnvFits(env) && SiteFits(files) && !AnchorsDistinct(files)
    ensures Process(env, files, manifest, options).None?
  {
  }

  lemma ConcludeAgain(files: seq<File>, manifest: Manifest, later: Options, runs: seq<PageRun>)
    requires |files| == |runs| && (later.highlight ==> manifest.highlighting)
    requires later.minimumLinks <= Total(runs).linked && later.minimumPages <= Enhanced(runs)
    ensures Conclude(files, Some(manifest), later, manifest.highlighting, runs) ==
            Some(RunResult(files, manifest, false, Total(runs), Enhanced(runs)))
  {
  }

  /** A run on what another one with these page runs has written. */
  lemma RunOnWritten(env: Env, targets: Targets, files: seq<File>, pages: Option<map<string, Record>>, coloured: bool,
                     highlight: bool, runs: seq<PageRun>, later: Options)
    requires EnvFits(env) && SiteFits(files) && TargetsOf(env, files) == Some(targets) && AllReady(env, targets, files)
    requires RunFiles(env, targets, files, pages, coloured, highlight) == Some(runs)
    requires Distinct(files) && Packages(files) == env.sources.Keys
    requires coloured ==> pages.Some? && Packages(files) <= pages.value.Keys
    requires later.highlight ==> coloured || highlight
    requires later.minimumLinks <= Total(runs).linked && later.minimumPages <= Enhanced(runs)
    ensures var files', manifest' := Written(files, runs), Manifest(Records(files, runs), coloured || highlight);
            SiteFits(files') && Process(env, files', Some(manifest'), later) ==
            if AnchorsDistinct(files') then Some(RunResult(files', manifest', false, Total(runs), Enhanced(runs))) else None
  {
    var files', manifest' := Written(files, runs), Manifest(Records(files, runs), coloured || highlight);
    TargetsAgain(env, targets, files, pages, coloured, highlight);
    if AnchorsDistinct(files') {
      RecordsHeld(files, runs);
      FilesAgain(env, targets, files, pages, Records(files, runs), coloured, highlight, later.highlight);
      WrittenKeeps(files, runs);
      ProcessIs(env, files', Some(manifest'), later, targets, runs);
      ConcludeAgain(files', manifest', later, runs);
    } else {
      RejectedAnchors(env, files', Some(manifest'), later);
    }
  }

  lemma AgainWritten(env: Env, files: seq<File>, manifest: Option<Manifest>, options: Options, later: Options)
    requires EnvFits(env) && SiteFits(files) && Process(env, files, manifest, options).Some?
    requires Process(env, files, manifest, options).value.wrote
    requires AsksNoMore(options, Process(env, files, manifest, options).value, later)
    ensures var r := Process(env, files, manifest, options).value;
            SiteFits(r.files) && Process(env, r.files, Some(r.manifest), later) ==
                                 if AnchorsDistinct(r.files) then Some(r.(wrote := false)) else None
  {
    var targets, runs := RunBehind(env, files, manifest, options);
    WrittenResult(files, manifest, options, IsColoured(manifest), runs);
    RunOnWritten(env, targets, files, RecordsOf(manifest), IsColoured(manifest), options.highlight, runs, later);
  }

  /** After any successful run, a later run on its pages and manifest that asks for no more is
      accepted, with the same counts and nothing written, if and only if no page now repeats an
      anchor. */
  lemma RunIsIdempotent(env: Env, files: seq<File>, manifest: Option<Manifest>, options: Options, later: Options)
    requires EnvFits(env) && SiteFits(files) && Process(env, files, manifest, options).Some?
    requires AsksNoMore(options, Process(env, files, manifest, options).value, later)
    ensures var r := Process(env, files, manifest, options).value;
            SiteFits(r.files) && Process(env, r.files, Some(r.manifest), later) ==
                                 if AnchorsDistinct(r.files) then Some(r.(wrote := false)) else None
  {
    if Process(env, files, manifest, options).value.wrote {
      AgainWritten(env, files, manifest, options, later);
    } else {
      AgainUnwritten(env, files, manifest, options, later);
    }
  }
}
