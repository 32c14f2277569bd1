/** Which fresh sites can be linked, coloured and checked without a complaint, told from their pages
    and sources alone. */
module Acceptance {
  import opened Texts
  import opened Patterns
  import opened Documents
  import opened Offsets
  import opened Weaving
  import opened Tokens
  import opened Resolution
  import L = Links
  import H = Highlight
  import opened Pages
  import opened Anchors
  import opened Discovery
  import opened Pipeline
  import opened Recolouring

  // ----- anchors of the pages a run writes

  /** The links a snippet is given. */
  ghost function LinksFor(env: Env, targets: Targets, file: File, raw: string): seq<seq<string>>
    requires file.package in env.sources
  {
    match Find(env.sources[file.package], env.unescape, raw)
    case None => []
    case Some(declaration) => MarkLinks(raw, MarksFor(env, targets, file, raw, declaration))
  }

  ghost function AllLinkIds(env: Env, targets: Targets, file: File, raws: seq<string>): (r: seq<seq<string>>)
    requires file.package in env.sources
    ensures |r| == |raws|
  {
    if raws == [] then [] else [LinkIds(LinksFor(env, targets, file, raws[0]))] + AllLinkIds(env, targets, file, raws[1..])
  }

  predicate NoIdsIn(raws: seq<string>) {
    forall raw :: raw in raws ==> NoId(raw)
  }

  /** A snippet as a run leaves it, with what it shows and where it links to. */
  lemma SettledShows(env: Env, targets: Targets, file: File, snippet: Snippet, coloured: bool) returns (doc: Doc)
    requires Ready(env, targets, file.package) && Settled(env, targets, file, snippet, coloured)
    ensures Show(doc) == snippet.body && Clean(doc) && !HasStray(doc)
    ensures Words(doc) == snippet.raw && Links(doc) == LinksFor(env, targets, file, snippet.raw)
  {
    var declaration := Find(env.sources[file.package], env.unescape, snippet.raw).value;
    var c := L.ContextOf(env.sources, targets, file.package, declaration, file.name);
    L.ContextOfFits(env.sources, targets, file.package, declaration, file.name);
    doc := L.LinkingDoc(c, env.unescape, snippet.raw);
    LinksShow(doc);
    if coloured {
      doc := H.HighlightedDoc(env.lexer, env.unescape, Show(doc));
    }
  }

  lemma SettledIds(env: Env, targets: Targets, file: File, snippet: Snippet, coloured: bool)
    requires Ready(env, targets, file.package) && Settled(env, targets, file, snippet, coloured) && NoId(snippet.raw)
    ensures BodyIds(snippet.body) == LinkIds(LinksFor(env, targets, file, snippet.raw))
  {
    var doc := SettledShows(env, targets, file, snippet, coloured);
    SnippetIds(doc);
  }

  lemma {:induction false} AllSettledIds(env: Env, targets: Targets, file: File, snippets: seq<Snippet>, coloured: bool)
    requires Ready(env, targets, file.package) && AllSettled(env, targets, file, snippets, coloured)
    requires NoIdsIn(Raws(snippets))
    ensures AllBodyIds(Bodies(snippets)) == AllLinkIds(env, targets, file, Raws(snippets))
  {
    if snippets == [] {
    } else {
      assert Raws(snippets)[0] in Raws(snippets) && Raws(snippets)[1..] == Raws(snippets[1..]);
      assert forall raw :: raw in Raws(snippets[1..]) ==> raw in Raws(snippets);
      SettledIds(env, targets, file, snippets[0], coloured);
      AllSettledIds(env, targets, file, snippets[1..], coloured);
      assert Bodies(snippets)[1..] == Bodies(snippets[1..]);
    }
  }

  /** The anchors of a page a run leaves: those around its snippets, and those the addresses of its
      links are taken for, in order. */
  lemma WrittenAnchors(env: Env, targets: Targets, file: File, entry: Option<Record>, coloured: bool, highlight: bool)
    requires Ready(env, targets, file.package)
    requires RunPage(env, targets, file, entry, coloured, highlight).Some?
    requires NoIdsIn(RunPage(env, targets, file, entry, coloured, highlight).value.entry.snippets)
    ensures var run := RunPage(env, targets, file, entry, coloured, highlight).value;
            Ids(false, run.text) ==
            PageIds("", ParsePage("", file.text), AllLinkIds(env, targets, file, run.entry.snippets))
  {
    var run := RunPage(env, targets, file, entry, coloured, highlight).value;
    var page := ParsePage("", file.text);
    var snippets := RunRewrites(env, targets, file, entry, coloured, highlight);
    RunKeeps(env, targets, file, entry, coloured, highlight, snippets);
    AllSettledIds(env, targets, file, snippets, coloured || highlight);
    ParsedFits(run.text);
    IdsOnPage("", WithBodies(page, Bodies(snippets)));
    IdsElsewhere("", page, Bodies(snippets), AllBodyIds(Bodies(snippets)));
    assert "" + run.text == run.text;
  }

  // ----- addresses that are taken for no anchor

  predicate SilentAddresses(targets: Targets, filename: string) {
    forall identity :: identity in targets ==> HrefIds(L.Href(targets[identity], filename)) == []
  }

  lemma {:induction false} SilentMarks(c: L.Context, cells: seq<Cell>, words: seq<Term>)
    requires SilentAddresses(c.targets, c.filename)
    ensures forall m :: m in L.LinkMarks(c, cells, words) && m.wrap.Reference? ==> HrefIds(m.wrap.href) == []
  {
    if words == [] {
    } else {
      SilentMarks(c, cells, words[1..]);
    }
  }

  lemma {:induction false} SilentLinks(raw: string, marks: seq<Mark>)
    requires forall m :: m in marks && m.wrap.Reference? ==> HrefIds(m.wrap.href) == []
    ensures LinkIds(MarkLinks(raw, marks)) == []
  {
    if marks == [] {
    } else {
      assert marks[0] in marks;
      SilentLinks(raw, marks[1..]);
      var rest := MarkLinks(raw, marks[1..]);
      assert [] + rest == rest;
      if MarkLinks(raw, marks) != rest {
        assert MarkLinks(raw, marks)[1..] == rest;
      }
    }
  }

  lemma SilentSnippet(env: Env, targets: Targets, file: File, raw: string)
    requires file.package in env.sources && SilentAddresses(targets, file.name)
    ensures LinkIds(LinksFor(env, targets, file, raw)) == []
  {
    var found := Find(env.sources[file.package], env.unescape, raw);
    if found.Some? {
      var c := L.ContextOf(env.sources, targets, file.package, found.value, file.name);
      SilentMarks(c, Cells(env.unescape, raw, 0), L.WordsOf(env.unescape, raw).GetOr([]));
      SilentLinks(raw, MarksFor(env, targets, file, raw, found.value));
    }
  }

  lemma {:induction false} SilentTexts(env: Env, targets: Targets, file: File, raws: seq<string>)
    requires file.package in env.sources && SilentAddresses(targets, file.name) && NoIdsIn(raws)
    ensures AllLinkIds(env, targets, file, raws) == AllBodyIds(raws)
  {
    if raws == [] {
    } else {
      assert raws[0] in raws && forall raw :: raw in raws[1..] ==> raw in raws;
      SilentSnippet(env, targets, file, raws[0]);
      TailHasNoId(raws[0], BODY_END);
      NoIds(false, raws[0] + BODY_END);
      SilentTexts(env, targets, file, raws[1..]);
    }
  }

  lemma {:induction false} FreshRaws(env: Env, targets: Targets, file: File, sections: seq<Section>)
    requires Ready(env, targets, file.package)
    requires RunSections(env, targets, file, sections, None, false, false).Some?
    ensures Raws(RunSections(env, targets, file, sections, None, false, false).value) == BodiesIn(sections)
    decreases |sections|
  {
    if sections == [] {
    } else {
      var first, others := SectionsStep(env, targets, file, sections, None, false, false);
      FreshRaw(env, targets, file, sections[0].body, first);
      FreshRaws(env, targets, file, sections[1..]);
    }
  }

  lemma FreshRaw(env: Env, targets: Targets, file: File, body: string, snippet: Snippet)
    requires Ready(env, targets, file.package)
    requires RunSnippet(env, targets, file, body, None, false, false) == Some(snippet)
    ensures snippet.raw == body
  {
    RunSettles(env, targets, file, body, None, false, false);
  }

  function TextsOf(file: File): seq<string> {
    BodiesIn(Sections(ParsePage("", file.text)))
  }

  lemma FreshEntry(env: Env, targets: Targets, file: File)
    requires Ready(env, targets, file.package)
    requires RunPage(env, targets, file, None, false, false).Some?
    ensures RunPage(env, targets, file, None, false, false).value.entry.snippets == TextsOf(file)
  {
    var snippets := RunRewrites(env, targets, file, None, false, false);
    RunKeeps(env, targets, file, None, false, false, snippets);
    FreshRaws(env, targets, file, Sections(ParsePage("", file.text)));
  }

  /** The anchors of a fresh page once it is linked. */
  ghost function LinkedAnchors(env: Env, targets: Targets, file: File): seq<string>
    requires file.package in env.sources
  {
    PageIds("", ParsePage("", file.text), AllLinkIds(env, targets, file, TextsOf(file)))
  }

  /** If no address is taken for an anchor, linking adds none. */
  lemma SilentAnchors(env: Env, targets: Targets, file: File)
    requires file.package in env.sources && SilentAddresses(targets, file.name) && NoIdsIn(TextsOf(file))
    ensures LinkedAnchors(env, targets, file) == Ids(false, file.text)
  {
    SilentTexts(env, targets, file, TextsOf(file));
    ParsedFits(file.text);
    IdsOnPage("", ParsePage("", file.text));
    assert "" + file.text == file.text;
  }

  lemma FreshAnchors(env: Env, targets: Targets, file: File)
    requires Ready(env, targets, file.package) && NoIdsIn(TextsOf(file))
    requires RunPage(env, targets, file, None, false, false).Some?
    ensures Ids(false, RunPage(env, targets, file, None, false, false).value.text) == LinkedAnchors(env, targets, file)
  {
    FreshEntry(env, targets, file);
    WrittenAnchors(env, targets, file, None, false, false);
  }

  lemma {:induction false} SameLinkIds(env: Env, targets: Targets, file: File, file': File, raws: seq<string>)
    requires file.package in env.sources && file.package == file'.package && file.name == file'.name
    ensures AllLinkIds(env, targets, file', raws) == AllLinkIds(env, targets, file, raws)
  {
    if raws == [] {
    } else {
      SameLinkIds(env, targets, file, file', raws[1..]);
    }
  }

  /** Colour changes no anchors. */
  lemma ColouredAnchors(env: Env, targets: Targets, file: File)
    requires Ready(env, targets, file.package) && NoIdsIn(TextsOf(file))
    requires RunPage(env, targets, file, None, false, false).Some?
    requires var run := RunPage(env, targets, file, None, false, false).value;
             RunPage(env, targets, file.(text := run.text), Some(run.entry), false, true).Some?
    ensures var run := RunPage(env, targets, file, None, false, false).value;
            var coloured := RunPage(env, targets, file.(text := run.text), Some(run.entry), false, true).value;
            Ids(false, coloured.text) == Ids(false, run.text)
  {
    var run := RunPage(env, targets, file, None, false, false).value;
    var file' := file.(text := run.text);
    var snippets := RunRewrites(env, targets, file, None, false, false);
    FreshEntry(env, targets, file);
    FreshAnchors(env, targets, file);
    WrittenAnchors(env, targets, file', Some(run.entry), false, true);
    SameLinkIds(env, targets, file, file', TextsOf(file));
    IdsElsewhere("", ParsePage("", file.text), Bodies(snippets), AllLinkIds(env, targets, file, TextsOf(file)));
  }

  // ----- the site

  ghost predicate TextsHoldNoIds(files: seq<File>) {
    forall i :: 0 <= i < |files| ==> NoIdsIn(TextsOf(files[i]))
  }

  /** On no page do the anchors repeat once it is linked. */
  ghost predicate LinkedAnchorsDistinct(env: Env, targets: Targets, files: seq<File>) {
    forall i :: 0 <= i < |files| ==> files[i].package in env.sources && NoRepeat(LinkedAnchors(env, targets, files[i]))
  }

  lemma {:induction false} RunsOfFiles(env: Env, targets: Targets, files: seq<File>, pages: Option<map<string, Record>>,
                                       coloured: bool, highlight: bool, runs: seq<PageRun>, i: nat)
    requires AllReady(env, targets, files) && i < |files|
    requires RunFiles(env, targets, files, pages, coloured, highlight) == Some(runs)
    ensures Ready(env, targets, files[i].package)
    ensures RunPage(env, targets, files[i], RecordOf(pages, files[i].package), coloured, highlight) == Some(runs[i])
  {
    var rest := FirstRun(env, targets, files, pages, coloured, highlight, runs);
    if i > 0 {
      assert files[i] == files[1..][i - 1] && runs[i] == rest[i - 1];
      RunsOfFiles(env, targets, files[1..], pages, coloured, highlight, rest, i - 1);
    }
  }

  lemma FirstRun(env: Env, targets: Targets, files: seq<File>, pages: Option<map<string, Record>>,
                 coloured: bool, highlight: bool, runs: seq<PageRun>) returns (rest: seq<PageRun>)
    requires AllReady(env, targets, files) && files != []
    requires RunFiles(env, targets, files, pages, coloured, highlight) == Some(runs)
    ensures Ready(env, targets, files[0].package) && AllReady(env, targets, files[1..])
    ensures RunPage(env, targets, files[0], RecordOf(pages, files[0].package), coloured, highlight) == Some(runs[0])
    ensures RunFiles(env, targets, files[1..], pages, coloured, highlight) == Some(rest) && runs == [runs[0]] + rest
  {
    FilesStep(env, targets, files, pages, coloured, highlight);
    rest := RunFiles(env, targets, files[1..], pages, coloured, highlight).value;
  }

  /** Where no snippet's text holds an anchor, a fresh run leaves pages without repeated anchors exactly
      if the anchors around the snippets, and those the addresses of its links are taken for, do not
      repeat. */
  lemma FreshSiteAnchors(env: Env, targets: Targets, files: seq<File>)
    requires AllReady(env, targets, files) && TextsHoldNoIds(files)
    requires RunFiles(env, targets, files, None, false, false).Some?
    ensures AnchorsDistinct(Written(files, RunFiles(env, targets, files, None, false, false).value)) <==>
            LinkedAnchorsDistinct(env, targets, files)
  {
    var runs := RunFiles(env, targets, files, None, false, false).value;
    var files' := Written(files, runs);
    forall i | 0 <= i < |files|
      ensures files[i].package in env.sources
      ensures DistinctAnchors(files'[i].text) <==> NoRepeat(LinkedAnchors(env, targets, files[i]))
    {
      RunsOfFiles(env, targets, files, None, false, false, runs, i);
      FreshAnchors(env, targets, files[i]);
    }
  }

  lemma ColouredSiteAnchors(env: Env, targets: Targets, files: seq<File>, pages: map<string, Record>)
    requires AllReady(env, targets, files) && TextsHoldNoIds(files)
    requires RunFiles(env, targets, files, None, false, false).Some?
    requires Recorded(files, RunFiles(env, targets, files, None, false, false).value, pages)
    requires var files' := Written(files, RunFiles(env, targets, files, None, false, false).value);
             AllReady(env, targets, files') && RunFiles(env, targets, files', Some(pages), false, true).Some? &&
             AnchorsDistinct(files')
    ensures var files' := Written(files, RunFiles(env, targets, files, None, false, false).value);
            AnchorsDistinct(Written(files', RunFiles(env, targets, files', Some(pages), false, true).value))
  {
    var runs := RunFiles(env, targets, files, None, false, false).value;
    var files' := Written(files, runs);
    var coloured := RunFiles(env, targets, files', Some(pages), false, true).value;
    forall i | 0 <= i < |files|
      ensures DistinctAnchors(Written(files', coloured)[i].text)
    {
      RunsOfFiles(env, targets, files, None, false, false, runs, i);
      RunsOfFiles(env, targets, files', Some(pages), false, true, coloured, i);
      assert RecordOf(Some(pages), files'[i].package) == Some(runs[i].entry);
      ColouredAnchors(env, targets, files[i]);
      assert DistinctAnchors(files'[i].text);
    }
  }

  /** A linked fresh site whose snippets hold no anchors: running again is accepted, and writes nothing,
      exactly if the linked anchors do not repeat; and always if no address is taken for an anchor. */
  lemma FreshRunAgain(env: Env, files: seq<File>, linking: Options, later: Options)
    requires EnvFits(env) && SiteFits(files) && Process(env, files, None, linking).Some? && TextsHoldNoIds(files)
    requires later.minimumLinks <= linking.minimumLinks && later.minimumPages <= linking.minimumPages && !later.highlight
    ensures TargetsOf(env, files).Some?
    ensures var r, targets := Process(env, files, None, linking).value, TargetsOf(env, files).value;
            SiteFits(r.files) &&
            Process(env, r.files, Some(r.manifest), later) ==
            (if LinkedAnchorsDistinct(env, targets, files) then Some(r.(wrote := false)) else None) &&
            ((forall i :: 0 <= i < |files| ==> SilentAddresses(targets, files[i].name)) ==>
               LinkedAnchorsDistinct(env, targets, files))
  {
    var targets, runs := RunBehind(env, files, None, linking);
    WrittenResult(files, None, linking, false, runs);
    FreshSiteAnchors(env, targets, files);
    RunIsIdempotent(env, files, None, linking, later);
    if forall i :: 0 <= i < |files| ==> SilentAddresses(targets, files[i].name) {
      forall i | 0 <= i < |files|
        ensures files[i].package in env.sources && NoRepeat(LinkedAnchors(env, targets, files[i]))
      {
        assert Ready(env, targets, files[i].package) && DistinctAnchors(files[i].text);
        SilentAnchors(env, targets, files[i]);
      }
    }
  }

  /** Linking, colouring and checking a fresh site whose snippets hold no anchors: after linking,
      colouring goes through exactly if the linked anchors do not repeat and every linked snippet is
      colourable; and then every later run that asks for no more accepts the site and writes nothing. */
  lemma LinkColourCheck(env: Env, files: seq<File>, linking: Options, colouring: Options, later: Options)
    requires EnvFits(env) && SiteFits(files) && Process(env, files, None, linking).Some? && TextsHoldNoIds(files)
    requires colouring.highlight && !colouring.check
    requires colouring.minimumLinks <= linking.minimumLinks && colouring.minimumPages <= linking.minimumPages
    requires later.minimumLinks <= colouring.minimumLinks && later.minimumPages <= colouring.minimumPages
    ensures TargetsOf(env, files).Some?
    ensures var linked := Process(env, files, None, linking).value;
            SiteFits(linked.files) &&
            var coloured := Process(env, linked.files, Some(linked.manifest), colouring);
            Exactly(env, coloured.Some?,
                    LinkedAnchorsDistinct(env, TargetsOf(env, files).value, files) && ColourableSite(env, linked.files)) &&
            (coloured.Some? ==>
               SiteFits(coloured.value.files) &&
               Process(env, coloured.value.files, Some(coloured.value.manifest), later) ==
               Some(coloured.value.(wrote := false)))
  {
    var targets, runs := RunBehind(env, files, None, linking);
    LinkThenColourThenCheck(env, files, linking, colouring, later);
    WrittenResult(files, None, linking, false, runs);
    FreshSiteAnchors(env, targets, files);
    var linked := Process(env, files, None, linking).value;
    var coloured := Process(env, linked.files, Some(linked.manifest), colouring);
    if coloured.Some? {
      ColouredFilesDistinct(env, files, linking, colouring);
    }
  }

  lemma ColouredFilesDistinct(env: Env, files: seq<File>, linking: Options, colouring: Options)
    requires EnvFits(env) && SiteFits(files) && Process(env, files, None, linking).Some? && TextsHoldNoIds(files)
    requires SiteFits(Process(env, files, None, linking).value.files) && colouring.highlight && !colouring.check
    requires var linked := Process(env, files, None, linking).value;
             Process(env, linked.files, Some(linked.manifest), colouring).Some?
    ensures var linked := Process(env, files, None, linking).value;
            AnchorsDistinct(Process(env, linked.files, Some(linked.manifest), colouring).value.files)
  {
    var targets, runs := RunBehind(env, files, None, linking);
    WrittenResult(files, None, linking, false, runs);
    RecordsHeld(files, runs);
    TargetsAgain(env, targets, files, None, false, false);
    var linked := Process(env, files, None, linking).value;
    var targets', runs' := RunBehind(env, linked.files, Some(linked.manifest), colouring);
    WrittenResult(linked.files, Some(linked.manifest), colouring, false, runs');
    ColouredSiteAnchors(env, targets, files, Records(files, runs));
  }

  // ----- sites in which every reference stands for one character

  /** Free of markup and anchors, with a profile that can be read and references for one character each. */
  ghost predicate SimpleText(env: Env, raw: string) {
    '<' !in raw && NoId(raw) && SingleCharacters(env.unescape, raw, 0) && L.WordsOf(env.unescape, raw).Some?
  }

  /** A snippet with its one declaration, links to addresses a link can hold, and a section that keeps
      its outside; this matters only if there is something to link or to colour. */
  ghost predicate Placed(env: Env, targets: Targets, file: File, section: Section)
    requires file.package in env.sources && EnvFits(env)
  {
    var found := Find(env.sources[file.package], env.unescape, section.body);
    found.Some? &&
    var marks := MarksFor(env, targets, file, section.body, found.value);
    L.AddressesFit(marks) &&
    (Framed(section) || (marks == [] && H.MarksOf(env.lexer, env.unescape, section.body) == []))
  }

  lemma SimpleIsLinkable(env: Env, targets: Targets, file: File, section: Section)
    requires Ready(env, targets, file.package) && SimpleText(env, section.body) && Placed(env, targets, file, section)
    ensures Linkable(env, targets, file, section)
  {
    var declaration := Find(env.sources[file.package], env.unescape, section.body).value;
    var c := L.ContextOf(env.sources, targets, file.package, declaration, file.name);
    L.ContextOfFits(env.sources, targets, file.package, declaration, file.name);
    L.SingleCharactersLink(c, env.unescape, section.body);
    L.LinkingExact(c, env.unescape, section.body);
  }

  /** What a fresh run makes of such a snippet can be coloured. */
  lemma SimpleIsColourable(env: Env, targets: Targets, file: File, section: Section)
    requires Ready(env, targets, file.package) && SimpleText(env, section.body) && Placed(env, targets, file, section)
    requires Fits(HEADER, section.captures)
    requires RunSnippet(env, targets, file, section.body, None, false, false).Some?
    ensures var snippet := RunSnippet(env, targets, file, section.body, None, false, false).value;
            Colourable(env, section.(body := snippet.body))
  {
    FreshRun(env, targets, file, section.body);
    var declaration := Find(env.sources[file.package], env.unescape, section.body).value;
    var c := L.ContextOf(env.sources, targets, file.package, declaration, file.name);
    L.ContextOfFits(env.sources, targets, file.package, declaration, file.name);
    LinkedIsColourable(env, c, section);
  }

  lemma LinkedIsColourable(env: Env, c: L.Context, section: Section)
    requires EnvFits(env) && L.ContextFits(c) && L.TargetsFit(c.targets) && Fits(HEADER, section.captures)
    requires SimpleText(env, section.body) && L.AddressesFit(L.MarksOf(c, env.unescape, section.body))
    requires Framed(section) ||
             (L.MarksOf(c, env.unescape, section.body) == [] && H.MarksOf(env.lexer, env.unescape, section.body) == [])
    ensures L.Linking(c, env.unescape, section.body).Some?
    ensures Colourable(env, section.(body := L.Linking(c, env.unescape, section.body).value))
  {
    var raw := section.body;
    L.SingleCharactersLink(c, env.unescape, raw);
    var body := L.Linking(c, env.unescape, raw).value;
    H.SingleTextsApart(env.lexer, env.unescape, Parse("", body));
    LinkedSame(c, env, raw);
    if body == raw {
      H.ParseWithoutTags("", raw);
      assert "" + raw == raw;
    } else {
      var doc := L.LinkingDoc(c, env.unescape, raw);
      var t := DocTagged(doc);
      TaggedOutside(section.captures, body, t);
    }
  }

  ghost predicate AllSimple(env: Env, targets: Targets, file: File, sections: seq<Section>)
    requires file.package in env.sources && EnvFits(env)
  {
    forall section :: section in sections ==> SimpleText(env, section.body) && Placed(env, targets, file, section)
  }

  lemma {:induction false} SimpleSections(env: Env, targets: Targets, file: File, sections: seq<Section>, sections': seq<Section>)
    requires Ready(env, targets, file.package) && AllSimple(env, targets, file, sections)
    requires forall section :: section in sections ==> Fits(HEADER, section.captures)
    requires var r := RunSections(env, targets, file, sections, None, false, false);
             r.Some? && Rebodied(sections, sections', Bodies(r.value))
    ensures AllColourable(env, sections')
    decreases |sections|
  {
    if sections == [] {
    } else {
      var first, others := SectionsStep(env, targets, file, sections, None, false, false);
      assert sections[0] in sections && forall s :: s in sections[1..] ==> s in sections;
      SimpleIsColourable(env, targets, file, sections[0]);
      SimpleSections(env, targets, file, sections[1..], sections'[1..]);
      ColourableCons(env, sections');
    }
  }

  /** A page of such snippets, without a link marker. */
  ghost predicate SimplePage(env: Env, targets: Targets, file: File)
    requires EnvFits(env)
  {
    file.package in env.sources && FindText(file.text, 0, MARKER).None? &&
    AllSimple(env, targets, file, Sections(ParsePage("", file.text)))
  }

  lemma SimplePageLinks(env: Env, targets: Targets, file: File)
    requires Ready(env, targets, file.package) && SimplePage(env, targets, file)
    ensures NoIdsIn(TextsOf(file)) && LinkablePage(env, targets, file)
  {
    var page := ParsePage("", file.text);
    forall section | section in Sections(page)
      ensures Linkable(env, targets, file, section)
    {
      SimpleIsLinkable(env, targets, file, section);
    }
    forall raw | raw in TextsOf(file)
      ensures NoId(raw)
    {
      var k :| 0 <= k < |Sections(page)| && TextsOf(file)[k] == raw;
      assert Sections(page)[k] in Sections(page);
    }
  }

  lemma SimplePageColours(env: Env, targets: Targets, file: File)
    requires Ready(env, targets, file.package) && SimplePage(env, targets, file)
    requires RunPage(env, targets, file, None, false, false).Some?
    ensures AllColourable(env, Sections(ParsePage("", RunPage(env, targets, file, None, false, false).value.text)))
  {
    var page := ParsePage("", file.text);
    var snippets := RunRewrites(env, targets, file, None, false, false);
    ParsedFits(file.text);
    WithBodiesRebodies(page, Bodies(snippets));
    SimpleSections(env, targets, file, Sections(page), Sections(WithBodies(page, Bodies(snippets))));
  }

  ghost predicate SimpleSite(env: Env, targets: Targets, files: seq<File>)
    requires EnvFits(env)
  {
    forall i :: 0 <= i < |files| ==> SimplePage(env, targets, files[i])
  }

  lemma SimpleSiteRuns(env: Env, targets: Targets, files: seq<File>)
    requires AllReady(env, targets, files) && EnvFits(env) && SimpleSite(env, targets, files)
    ensures TextsHoldNoIds(files) && RunFiles(env, targets, files, None, false, false).Some?
    ensures ColourableSite(env, Written(files, RunFiles(env, targets, files, None, false, false).value))
  {
    forall i | 0 <= i < |files|
      ensures NoIdsIn(TextsOf(files[i])) && LinkablePage(env, targets, files[i])
    {
      SimplePageLinks(env, targets, files[i]);
    }
    FreshFiles(env, targets, files);
    var runs := RunFiles(env, targets, files, None, false, false).value;
    forall i | 0 <= i < |files|
      ensures AllColourable(env, Sections(ParsePage("", Written(files, runs)[i].text)))
    {
      RunsOfFiles(env, targets, files, None, false, false, runs, i);
      SimplePageColours(env, targets, files[i]);
    }
  }

  // ----- what a fresh run counts

  ghost function SectionsTally(env: Env, targets: Targets, file: File, sections: seq<Section>): L.Tally
    requires file.package in env.sources
  {
    if sections == [] then L.NOTHING_COUNTED
    else
      (match Find(env.sources[file.package], env.unescape, sections[0].body)
       case None => L.NOTHING_COUNTED
       case Some(declaration) => Counts(env, targets, file, sections[0].body, declaration))
      .Plus(SectionsTally(env, targets, file, sections[1..]))
  }

  ghost function PageTally(env: Env, targets: Targets, file: File): L.Tally {
    if file.package in env.sources then SectionsTally(env, targets, file, Sections(ParsePage("", file.text)))
    else L.NOTHING_COUNTED
  }

  ghost function SiteTally(env: Env, targets: Targets, files: seq<File>): L.Tally {
    if files == [] then L.NOTHING_COUNTED else PageTally(env, targets, files[0]).Plus(SiteTally(env, targets, files[1..]))
  }

  ghost function LinkedPages(env: Env, targets: Targets, files: seq<File>): nat {
    if files == [] then 0
    else (if PageTally(env, targets, files[0]).linked > 0 then 1 else 0) + LinkedPages(env, targets, files[1..])
  }

  lemma {:induction false} SectionsCounted(env: Env, targets: Targets, file: File, sections: seq<Section>)
    requires Ready(env, targets, file.package)
    requires RunSections(env, targets, file, sections, None, false, false).Some?
    ensures SnippetTotal(RunSections(env, targets, file, sections, None, false, false).value) ==
            SectionsTally(env, targets, file, sections)
    decreases |sections|
  {
    if sections == [] {
    } else {
      var first, others := SectionsStep(env, targets, file, sections, None, false, false);
      SectionsCounted(env, targets, file, sections[1..]);
      FreshRun(env, targets, file, sections[0].body);
      TotalJoined(Some(first), Some(others));
    }
  }

  lemma {:induction false} FilesCounted(env: Env, targets: Targets, files: seq<File>)
    requires AllReady(env, targets, files) && RunFiles(env, targets, files, None, false, false).Some?
    ensures var runs := RunFiles(env, targets, files, None, false, false).value;
            Total(runs) == SiteTally(env, targets, files) && Enhanced(runs) == LinkedPages(env, targets, files)
  {
    if files == [] {
    } else {
      FilesStep(env, targets, files, None, false, false);
      FilesCounted(env, targets, files[1..]);
      var snippets := RunRewrites(env, targets, files[0], None, false, false);
      RunKeeps(env, targets, files[0], None, false, false, snippets);
      SectionsCounted(env, targets, files[0], Sections(ParsePage("", files[0].text)));
      RunsJoined(RunPage(env, targets, files[0], None, false, false), RunFiles(env, targets, files[1..], None, false, false));
    }
  }

  /** A fresh site of such snippets is linked, then coloured, then accepted by every later run, if no
      anchor comes to repeat and there are links enough. */
  lemma SimpleSiteAccepted(env: Env, files: seq<File>, targets: Targets, linking: Options, colouring: Options, later: Options)
    requires EnvFits(env) && SiteFits(files) && TargetsOf(env, files) == Some(targets) && Runnable(env, files, None, linking)
    requires SimpleSite(env, targets, files) && LinkedAnchorsDistinct(env, targets, files)
    requires linking.minimumLinks <= SiteTally(env, targets, files).linked
    requires linking.minimumPages <= LinkedPages(env, targets, files)
    requires colouring.highlight && !colouring.check
    requires colouring.minimumLinks <= linking.minimumLinks && colouring.minimumPages <= linking.minimumPages
    requires later.minimumLinks <= colouring.minimumLinks && later.minimumPages <= colouring.minimumPages
    ensures var linked := Process(env, files, None, linking);
            linked.Some? && SiteFits(linked.value.files) &&
            var coloured := Process(env, linked.value.files, Some(linked.value.manifest), colouring);
            coloured.Some? && SiteFits(coloured.value.files) &&
            Process(env, coloured.value.files, Some(coloured.value.manifest), later) ==
            Some(coloured.value.(wrote := false))
  {
    var runs := FreshSiteLinks(env, files, linking, targets);
    SimpleSiteRuns(env, targets, files);
    FilesCounted(env, targets, files);
    FreshResult(files, linking, runs.value);
    LinkColourCheck(env, files, linking, colouring, later);
  }

  lemma FreshResult(files: seq<File>, linking: Options, runs: seq<PageRun>)
    requires |files| == |runs| && !linking.check && !linking.highlight
    requires linking.minimumLinks <= Total(runs).linked && linking.minimumPages <= Enhanced(runs)
    ensures var r := Conclude(files, None, linking, false, runs);
            r.Some? && r.value.files == Written(files, runs)
  {
  }
}
