/** The loops of a cross-reference run, proved against the functions that say what a run does. */
module Processing {
  import opened Texts
  import opened Markup
  import opened Resolution
  import L = Links
  import H = Highlight
  import opened Pages
  import D = Discovery
  import opened Pipeline

  /** The expected markup of a snippet text. */
  method ExpectedSnippet(env: Env, targets: Targets, file: D.File, raw: string) returns (r: Option<Snippet>)
    requires Ready(env, targets, file.package)
    ensures r == Expected(env, targets, file, raw)
  {
    var source := env.sources[file.package];
    var found := D.MatchProfile(source.declarations, D.WordsOf(env.unescape(raw)));
    if found.None? {
      return None;
    }
    var declaration := found.value.declaration;
    var c := L.ContextOf(env.sources, targets, file.package, declaration, file.name);
    L.ContextOfFits(env.sources, targets, file.package, declaration, file.name);
    var body, tally := L.RenderLinks(c, env.unescape, raw);
    r := if body.None? then None else Some(Snippet(body.value, raw, tally));
  }

  method FinishSnippet(env: Env, expected: Snippet, body: string, stored: Option<string>, coloured: bool, highlight: bool)
    returns (r: Option<Snippet>)
    requires EnvFits(env)
    ensures r == Finished(env, expected, body, stored, coloured, highlight)
  {
    var written := Some(expected.body);
    if coloured || highlight {
      written := H.HighlightSnippet(env.lexer, env.unescape, expected.body);
    }
    if written.None? || (stored.Some? && body != (if coloured then written.value else expected.body)) {
      return None;
    }
    r := Some(expected.(body := written.value));
  }

  /** One turn of the inner loop of process. */
  method ProcessSnippet(env: Env, targets: Targets, file: D.File, body: string, stored: Option<string>,
                        coloured: bool, highlight: bool) returns (r: Option<Snippet>)
    requires Ready(env, targets, file.package)
    ensures r == RunSnippet(env, targets, file, body, stored, coloured, highlight)
  {
    var raw := stored.GetOr(body);
    if Plain(if coloured then StripHighlighting(body) else body) != Some(raw) {
      return None;
    }
    var expected := ExpectedSnippet(env, targets, file, raw);
    if expected.None? {
      return None;
    }
    r := FinishSnippet(env, expected.value, body, stored, coloured, highlight);
  }

  /** The loop over the sections of a page. */
  method ProcessSections(env: Env, targets: Targets, file: D.File, sections: seq<Section>, stored: Option<seq<string>>,
                         coloured: bool, highlight: bool) returns (r: Option<seq<Snippet>>)
    requires Ready(env, targets, file.package) && (stored.Some? ==> |stored.value| == |sections|)
    ensures r == RunSections(env, targets, file, sections, stored, coloured, highlight)
  {
    var snippets: seq<Snippet>, rest, left := [], sections, stored;
    ghost var goal := RunSections(env, targets, file, sections, stored, coloured, highlight);
    AheadNothing(goal);
    while rest != []
      invariant left.Some? ==> |left.value| == |rest|
      invariant Ahead(snippets, RunSections(env, targets, file, rest, left, coloured, highlight)) == goal
      decreases |rest|
    {
      var first := ProcessSnippet(env, targets, file, rest[0].body, HeadOf(left), coloured, highlight);
      SectionsJoined(env, targets, file, rest, left, coloured, highlight);
      AheadJoined(snippets, first, RunSections(env, targets, file, rest[1..], TailOf(left), coloured, highlight));
      if first.None? {
        return None;
      }
      snippets, rest, left := snippets + [first.value], rest[1..], TailOf(left);
    }
    assert snippets + [] == snippets;
    r := Some(snippets);
  }

  /** The tests and the rewriting of one page. */
  method ProcessPage(env: Env, targets: Targets, file: D.File, entry: Option<Record>, coloured: bool, highlight: bool)
    returns (r: Option<PageRun>)
    requires Ready(env, targets, file.package)
    ensures r == RunPage(env, targets, file, entry, coloured, highlight)
  {
    var page := ParsePage("", file.text);
    var outside := env.hash(Outside(page));
    if entry.Some? {
      if entry.value.file != file.name || entry.value.outside != outside || |entry.value.snippets| != |Sections(page)| {
        return None;
      }
    } else if FindText(file.text, 0, MARKER).Some? {
      return None;
    }
    var snippets := ProcessSections(env, targets, file, Sections(page), SnippetsOf(entry), coloured, highlight);
    if snippets.None? {
      return None;
    }
    var kept := if entry.Some? then entry.value else Record(file.name, outside, Raws(snippets.value));
    var result := WithBodies(page, Bodies(snippets.value));
    if env.hash(Outside(result)) != kept.outside {
      return None;
    }
    r := Some(PageRun(ShowPage(result), kept, SnippetTotal(snippets.value)));
  }

  lemma FilesJoined(env: Env, targets: Targets, files: seq<D.File>, pages: Option<map<string, Record>>, coloured: bool, highlight: bool)
    requires AllReady(env, targets, files) && files != []
    requires Ready(env, targets, files[0].package) && AllReady(env, targets, files[1..])
    ensures RunFiles(env, targets, files, pages, coloured, highlight) ==
            Joined(RunPage(env, targets, files[0], RecordOf(pages, files[0].package), coloured, highlight),
                   RunFiles(env, targets, files[1..], pages, coloured, highlight))
  {
  }

  /** The loop over the pages. */
  method ProcessFiles(env: Env, targets: Targets, files: seq<D.File>, pages: Option<map<string, Record>>, coloured: bool, highlight: bool)
    returns (r: Option<seq<PageRun>>)
    requires AllReady(env, targets, files)
    ensures r == RunFiles(env, targets, files, pages, coloured, highlight)
  {
    var runs: seq<PageRun>, rest := [], files;
    ghost var goal := RunFiles(env, targets, files, pages, coloured, highlight);
    AheadNothing(goal);
    while rest != []
      invariant AllReady(env, targets, rest)
      invariant Ahead(runs, RunFiles(env, targets, rest, pages, coloured, highlight)) == goal
      decreases |rest|
    {
      FirstReady(env, targets, rest);
      var first := ProcessPage(env, targets, rest[0], RecordOf(pages, rest[0].package), coloured, highlight);
      FilesJoined(env, targets, rest, pages, coloured, highlight);
      AheadJoined(runs, first, RunFiles(env, targets, rest[1..], pages, coloured, highlight));
      if first.None? {
        return None;
      }
      runs, rest := runs + [first.value], rest[1..];
    }
    assert runs + [] == runs;
    r := Some(runs);
  }

  lemma FirstReady(env: Env, targets: Targets, files: seq<D.File>)
    requires AllReady(env, targets, files) && files != []
    ensures Ready(env, targets, files[0].package) && AllReady(env, targets, files[1..])
  {
    ReadyTail(env, targets, files);
  }

  /** process: all tests come before anything is written. */
  method ProcessSite(env: Env, files: seq<D.File>, manifest: Option<Manifest>, options: Options) returns (r: Option<RunResult>)
    requires EnvFits(env) && D.SiteFits(files)
    ensures r == Process(env, files, manifest, options)
  {
    var targets := D.PagesAndTargets(env.sources, env.unescape, files);
    if targets.None? || !Runnable(env, files, manifest, options) {
      return None;
    }
    SiteReady(env, files);
    var runs := ProcessFiles(env, targets.value, files, RecordsOf(manifest), IsColoured(manifest), options.highlight);
    if runs.None? {
      return None;
    }
    r := Conclude(files, manifest, options, IsColoured(manifest), runs.value);
  }
}
