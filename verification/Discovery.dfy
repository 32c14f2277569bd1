/** What a cross-reference run finds before it links anything: the one source declaration of every
    snippet, the tests on each page, and the one section every public type is described in. */
module Discovery {
  import opened Texts
  import opened Patterns
  import opened Markup
  import opened Offsets
  import opened Lexemes
  import opened Tokens
  import opened Resolution
  import opened Pages
  import opened Anchors
  import L = Links

  function TermTexts(terms: seq<Term>): (r: seq<string>)
    ensures |r| == |terms|
  {
    seq(|terms|, i requires 0 <= i < |terms| => terms[i].text)
  }

  /** words(text) */
  function WordsOf(text: string): seq<string> {
    TermTexts(TokensFrom(text, 0))
  }

  const SUBPROGRAMS: set<string> := {"function", "procedure"}
  const NAMED_KINDS: set<string> := {"type", "subtype", "function", "procedure"}
  const ENDINGS: set<string> := {";", "with", "is"}

  /** A subprogram's snippet may stop in front of its semicolon, aspects or body. */
  predicate Complete(profile: seq<string>, rest: seq<string>)
    requires profile != []
  {
    rest == [] || (profile[0] in SUBPROGRAMS && rest[0] in ENDINGS)
  }

  /** Does the declaration begin with this profile, complete? */
  predicate Declares(d: Indexed, profile: seq<string>)
    requires profile != []
  {
    (|profile| > 1 && profile[0] in NAMED_KINDS ==> LowerCase(d.declaration.name) == profile[1]) &&
    var source := WordsOf(d.full);
    profile <= source && Complete(profile, source[|profile|..])
  }

  function MatchesOf(ds: seq<Indexed>, profile: seq<string>): seq<Indexed>
    requires profile != []
  {
    if ds == [] then []
    else (if Declares(ds[0], profile) then [ds[0]] else []) + MatchesOf(ds[1..], profile)
  }

  function MatchOf(ds: seq<Indexed>, profile: seq<string>): Option<Indexed> {
    if profile == [] || |MatchesOf(ds, profile)| != 1 then None else Some(MatchesOf(ds, profile)[0])
  }

  /** Source.match on the words of a snippet. */
  method MatchProfile(ds: seq<Indexed>, profile: seq<string>) returns (found: Option<Indexed>)
    ensures found == MatchOf(ds, profile)
  {
    if profile == [] {
      return None;
    }
    var matches: seq<Indexed> := [];
    assert ds[0..] == ds && [] + MatchesOf(ds, profile) == MatchesOf(ds, profile);
    for i := 0 to |ds|
      invariant matches + MatchesOf(ds[i..], profile) == MatchesOf(ds, profile)
    {
      MatchesStep(ds, profile, i, matches);
      if Declares(ds[i], profile) {
        matches := matches + [ds[i]];
      }
    }
    assert matches + [] == matches;
    found := if |matches| == 1 then Some(matches[0]) else None;
  }

  lemma MatchesStep(ds: seq<Indexed>, profile: seq<string>, i: nat, matches: seq<Indexed>)
    requires profile != [] && i < |ds|
    ensures matches + MatchesOf(ds[i..], profile) ==
            (if Declares(ds[i], profile) then matches + [ds[i]] else matches) + MatchesOf(ds[i + 1..], profile)
  {
    assert ds[i..][0] == ds[i] && ds[i..][1..] == ds[i + 1..];
    var rest := MatchesOf(ds[i + 1..], profile);
    assert matches + ([ds[i]] + rest) == matches + [ds[i]] + rest && [] + rest == rest;
  }

  ghost predicate OnlyAt(ds: seq<Indexed>, profile: seq<string>, k: int)
    requires profile != []
  {
    0 <= k < |ds| && Declares(ds[k], profile) && forall i :: 0 <= i < |ds| && Declares(ds[i], profile) ==> i == k
  }

  lemma {:induction false} NoMatches(ds: seq<Indexed>, profile: seq<string>)
    requires profile != []
    ensures MatchesOf(ds, profile) == [] <==> forall i :: 0 <= i < |ds| ==> !Declares(ds[i], profile)
  {
    if ds == [] {
    } else {
      NoMatches(ds[1..], profile);
      assert forall i :: 1 <= i < |ds| ==> ds[1..][i - 1] == ds[i];
      if MatchesOf(ds, profile) != [] && !Declares(ds[0], profile) {
        var i :| 0 <= i < |ds[1..]| && Declares(ds[1..][i], profile);
        assert Declares(ds[i + 1], profile);
      }
    }
  }

  /** A snippet is matched exactly if one declaration, and no other, begins with its words. */
  lemma {:induction false} MatchExact(ds: seq<Indexed>, profile: seq<string>, d: Indexed)
    requires profile != []
    ensures MatchOf(ds, profile) == Some(d) <==> exists k :: OnlyAt(ds, profile, k) && ds[k] == d
  {
    if ds == [] {
    } else {
      var rest := ds[1..];
      assert forall i :: 1 <= i < |ds| ==> rest[i - 1] == ds[i];
      NoMatches(rest, profile);
      if Declares(ds[0], profile) {
        FirstOnly(ds, profile, d);
      } else {
        MatchExact(rest, profile, d);
        LaterOnly(ds, profile, d);
        assert [] + MatchesOf(rest, profile) == MatchesOf(rest, profile);
      }
    }
  }

  lemma FirstOnly(ds: seq<Indexed>, profile: seq<string>, d: Indexed)
    requires profile != [] && ds != [] && Declares(ds[0], profile)
    requires MatchesOf(ds[1..], profile) == [] <==> forall i :: 0 <= i < |ds[1..]| ==> !Declares(ds[1..][i], profile)
    ensures MatchOf(ds, profile) == Some(d) <==> exists k :: OnlyAt(ds, profile, k) && ds[k] == d
  {
    var rest := ds[1..];
    assert forall i :: 1 <= i < |ds| ==> rest[i - 1] == ds[i];
    if MatchesOf(rest, profile) == [] {
      forall i | 0 <= i < |ds| && Declares(ds[i], profile)
        ensures i == 0
      {
      }
      assert OnlyAt(ds, profile, 0);
      assert MatchesOf(ds, profile) == [ds[0]];
    } else {
      var i :| 0 <= i < |rest| && Declares(rest[i], profile);
      assert Declares(ds[i + 1], profile) && Declares(ds[0], profile);
      assert forall k :: !OnlyAt(ds, profile, k);
    }
  }

  lemma LaterOnly(ds: seq<Indexed>, profile: seq<string>, d: Indexed)
    requires profile != [] && ds != [] && !Declares(ds[0], profile)
    ensures (exists k :: OnlyAt(ds, profile, k) && ds[k] == d) <==>
            exists k :: OnlyAt(ds[1..], profile, k) && ds[1..][k] == d
  {
    var rest := ds[1..];
    assert forall i :: 1 <= i < |ds| ==> rest[i - 1] == ds[i];
    if k :| OnlyAt(ds, profile, k) && ds[k] == d {
      assert k > 0 && rest[k - 1] == ds[k];
      forall i | 0 <= i < |rest| && Declares(rest[i], profile)
        ensures i == k - 1
      {
        assert Declares(ds[i + 1], profile);
      }
      assert OnlyAt(rest, profile, k - 1);
    }
    if k :| OnlyAt(rest, profile, k) && rest[k] == d {
      forall i | 0 <= i < |ds| && Declares(ds[i], profile)
        ensures i == k + 1
      {
        assert Declares(rest[i - 1], profile);
      }
      assert OnlyAt(ds, profile, k + 1);
    }
  }

  /** The declaration a snippet text belongs to. */
  function Find(source: Source, unescape: Unescape, raw: string): Option<Declaration> {
    match MatchOf(source.declarations, WordsOf(unescape(raw)))
    case None => None
    case Some(d) => Some(d.declaration)
  }

  // ----- type targets

  /** What discovery needs of a section: its anchor, its heading, the type its text declares, if any,
      whether it has its one declaration, and whether that is a generic formal. */
  datatype Entry = Entry(anchor: string, heading: string, typeName: Option<string>, declared: bool, formal: bool)

  datatype PageEntries = PageEntries(package: string, file: string, entries: seq<Entry>)

  predicate IsType(e: Entry) {
    e.typeName.Some? && !e.formal
  }

  /** Every section is declared once, and a type's heading names it. */
  predicate EntryRight(e: Entry) {
    e.declared && (IsType(e) ==> LowerCase(e.typeName.value) == LowerCase(e.heading))
  }

  function IdentityOf(page: PageEntries, e: Entry): string
    requires e.typeName.Some?
  {
    page.package + "." + LowerCase(e.typeName.value)
  }

  /** Section j of page i describes the type. */
  predicate Describes(pages: seq<PageEntries>, i: int, j: int, identity: string) {
    0 <= i < |pages| && 0 <= j < |pages[i].entries| && IsType(pages[i].entries[j]) &&
    IdentityOf(pages[i], pages[i].entries[j]) == identity
  }

  function TargetAt(pages: seq<PageEntries>, i: nat, j: nat): Target
    requires i < |pages| && j < |pages[i].entries|
  {
    Target(pages[i].file, pages[i].entries[j].anchor)
  }

  /** In front of section j of page i. */
  predicate Earlier(a: int, b: int, i: int, j: int) {
    a < i || (a == i && b < j)
  }

  ghost predicate AllRight(pages: seq<PageEntries>, i: nat, j: nat) {
    forall a, b :: 0 <= a < |pages| && 0 <= b < |pages[a].entries| && Earlier(a, b, i, j) ==> EntryRight(pages[a].entries[b])
  }

  /** No type is described twice in front of section j of page i. */
  ghost predicate AllOnce(pages: seq<PageEntries>, i: nat, j: nat) {
    forall a, b, c, d, identity ::
      (Describes(pages, a, b, identity) && Describes(pages, c, d, identity) && Earlier(a, b, i, j) && Earlier(c, d, i, j)) ==>
        a == c && b == d
  }

  /** The targets are exactly the types described in front of there, each with its section. */
  ghost predicate TargetsTo(pages: seq<PageEntries>, targets: Targets, i: nat, j: nat) {
    (forall a, b, identity :: Describes(pages, a, b, identity) && Earlier(a, b, i, j) ==>
                                identity in targets && targets[identity] == TargetAt(pages, a, b)) &&
    forall identity :: identity in targets ==> exists a, b :: Describes(pages, a, b, identity) && Earlier(a, b, i, j)
  }

  ghost predicate Sofar(pages: seq<PageEntries>, targets: Targets, i: nat, j: nat) {
    AllRight(pages, i, j) && AllOnce(pages, i, j) && TargetsTo(pages, targets, i, j)
  }

  function Identities(pages: seq<PageEntries>): set<string> {
    set a: nat, b: nat | a < |pages| && b < |pages[a].entries| && IsType(pages[a].entries[b]) ::
      IdentityOf(pages[a], pages[a].entries[b])
  }

  ghost function SectionOf(pages: seq<PageEntries>, identity: string): Target
    requires identity in Identities(pages)
  {
    assert exists a, b :: Describes(pages, a, b, identity) by {
      var a: nat, b: nat :| a < |pages| && b < |pages[a].entries| && IsType(pages[a].entries[b]) &&
                            identity == IdentityOf(pages[a], pages[a].entries[b]);
      assert Describes(pages, a, b, identity);
    }
    var a, b :| Describes(pages, a, b, identity);
    TargetAt(pages, a, b)
  }

  /** Every type that is described, with its section. */
  ghost function DescribedTargets(pages: seq<PageEntries>): Targets {
    map identity | identity in Identities(pages) :: SectionOf(pages, identity)
  }

  lemma DescribedExactly(pages: seq<PageEntries>)
    requires AllOnce(pages, |pages|, 0)
    ensures TargetsTo(pages, DescribedTargets(pages), |pages|, 0)
  {
    var targets := DescribedTargets(pages);
    forall a, b, identity | Describes(pages, a, b, identity)
      ensures identity in targets && targets[identity] == TargetAt(pages, a, b)
    {
      assert identity in Identities(pages);
      var c, d :| Describes(pages, c, d, identity) && TargetAt(pages, c, d) == SectionOf(pages, identity);
      assert Earlier(a, b, |pages|, 0) && Earlier(c, d, |pages|, 0);
    }
    forall identity | identity in targets
      ensures exists a, b :: Describes(pages, a, b, identity) && Earlier(a, b, |pages|, 0)
    {
      var a, b :| Describes(pages, a, b, identity);
      assert Earlier(a, b, |pages|, 0);
    }
  }

  lemma OnlyTargets(pages: seq<PageEntries>, one: Targets, other: Targets)
    requires TargetsTo(pages, one, |pages|, 0) && TargetsTo(pages, other, |pages|, 0)
    ensures one == other
  {
    forall identity | identity in one
      ensures identity in other && other[identity] == one[identity]
    {
      var a, b :| Describes(pages, a, b, identity) && Earlier(a, b, |pages|, 0);
    }
    forall identity | identity in other
      ensures identity in one
    {
      var a, b :| Describes(pages, a, b, identity) && Earlier(a, b, |pages|, 0);
    }
  }

  /** The targets found, or an error. */
  ghost function Discovered(pages: seq<PageEntries>): Option<Targets> {
    if AllRight(pages, |pages|, 0) && AllOnce(pages, |pages|, 0) then Some(DescribedTargets(pages)) else None
  }

  /** The section loops of pages_and_targets: they succeed exactly if every section is right and no
      type is described twice, and then lead every described type, and nothing else, to its section. */
  method FindTargets(pages: seq<PageEntries>) returns (targets: Option<Targets>)
    ensures targets.Some? <==> AllRight(pages, |pages|, 0) && AllOnce(pages, |pages|, 0)
    ensures targets.Some? ==> TargetsTo(pages, targets.value, |pages|, 0)
    ensures targets == Discovered(pages)
  {
    var found: Targets := map[];
    var i := 0;
    while i < |pages|
      invariant i <= |pages| && Sofar(pages, found, i, 0)
    {
      var j := 0;
      while j < |pages[i].entries|
        invariant j <= |pages[i].entries| && Sofar(pages, found, i, j)
      {
        var e := pages[i].entries[j];
        if !EntryRight(e) {
          WrongEntry(pages, i, j);
          return None;
        }
        if IsType(e) {
          var identity := IdentityOf(pages[i], e);
          if identity in found {
            TwiceDescribed(pages, found, i, j);
            return None;
          }
          OneMoreTarget(pages, found, i, j);
          found := found[identity := TargetAt(pages, i, j)];
        } else {
          NoTargetHere(pages, found, i, j);
        }
        j := j + 1;
      }
      NextPage(pages, found, i);
      i := i + 1;
    }
    targets := Some(found);
    DescribedExactly(pages);
    OnlyTargets(pages, found, DescribedTargets(pages));
  }

  lemma WrongEntry(pages: seq<PageEntries>, i: nat, j: nat)
    requires i < |pages| && j < |pages[i].entries| && !EntryRight(pages[i].entries[j])
    ensures !AllRight(pages, |pages|, 0)
  {
    assert Earlier(i, j, |pages|, 0);
  }

  lemma TwiceDescribed(pages: seq<PageEntries>, targets: Targets, i: nat, j: nat)
    requires i < |pages| && j < |pages[i].entries| && TargetsTo(pages, targets, i, j)
    requires IsType(pages[i].entries[j]) && IdentityOf(pages[i], pages[i].entries[j]) in targets
    ensures !AllOnce(pages, |pages|, 0)
  {
    var identity := IdentityOf(pages[i], pages[i].entries[j]);
    var a, b :| Describes(pages, a, b, identity) && Earlier(a, b, i, j);
    assert Describes(pages, i, j, identity) && Earlier(i, j, |pages|, 0) && Earlier(a, b, |pages|, 0);
  }

  lemma NextIs(i: nat, j: nat, a: int, b: int)
    ensures Earlier(a, b, i, j + 1) <==> Earlier(a, b, i, j) || (a == i && b == j)
  {
  }

  lemma NoTargetHere(pages: seq<PageEntries>, targets: Targets, i: nat, j: nat)
    requires i < |pages| && j < |pages[i].entries| && Sofar(pages, targets, i, j)
    requires EntryRight(pages[i].entries[j]) && !IsType(pages[i].entries[j])
    ensures Sofar(pages, targets, i, j + 1)
  {
    forall a, b
      ensures Earlier(a, b, i, j + 1) <==> Earlier(a, b, i, j) || (a == i && b == j)
    {
      NextIs(i, j, a, b);
    }
  }

  lemma OneMoreTarget(pages: seq<PageEntries>, targets: Targets, i: nat, j: nat)
    requires i < |pages| && j < |pages[i].entries| && Sofar(pages, targets, i, j)
    requires EntryRight(pages[i].entries[j]) && IsType(pages[i].entries[j])
    requires IdentityOf(pages[i], pages[i].entries[j]) !in targets
    ensures Sofar(pages, targets[IdentityOf(pages[i], pages[i].entries[j]) := TargetAt(pages, i, j)], i, j + 1)
  {
    var identity := IdentityOf(pages[i], pages[i].entries[j]);
    var targets' := targets[identity := TargetAt(pages, i, j)];
    forall a, b
      ensures Earlier(a, b, i, j + 1) <==> Earlier(a, b, i, j) || (a == i && b == j)
    {
      NextIs(i, j, a, b);
    }
    assert Describes(pages, i, j, identity);
    forall x | x in targets'
      ensures exists a, b :: Describes(pages, a, b, x) && Earlier(a, b, i, j + 1)
    {
      if x == identity {
        assert Describes(pages, i, j, x) && Earlier(i, j, i, j + 1);
      } else {
        var a, b :| Describes(pages, a, b, x) && Earlier(a, b, i, j);
        assert Earlier(a, b, i, j + 1);
      }
    }
  }

  lemma NextPage(pages: seq<PageEntries>, targets: Targets, i: nat)
    requires i < |pages| && Sofar(pages, targets, i, |pages[i].entries|)
    ensures Sofar(pages, targets, i + 1, 0)
  {
    var n := |pages[i].entries|;
    forall a, b | 0 <= a < |pages| && 0 <= b < |pages[a].entries|
      ensures Earlier(a, b, i + 1, 0) <==> Earlier(a, b, i, n)
    {
    }
    forall x | x in targets
      ensures exists a, b :: Describes(pages, a, b, x) && Earlier(a, b, i + 1, 0)
    {
      var a, b :| Describes(pages, a, b, x) && Earlier(a, b, i, n);
      assert Earlier(a, b, i + 1, 0);
    }
  }

  /** Targets found that way are fit for links if page names, anchors and packages are. */
  lemma FoundTargetsFit(pages: seq<PageEntries>, targets: Targets)
    requires TargetsTo(pages, targets, |pages|, 0)
    requires forall i :: 0 <= i < |pages| ==> PageFits(pages[i])
    ensures L.TargetsFit(targets)
  {
    forall identity | identity in targets
      ensures identity != "" && AllOf(identity, TargetChar) && AllOf(targets[identity].file, HrefChar) &&
              AllOf(targets[identity].anchor, IdChar)
    {
      var a, b :| Describes(pages, a, b, identity) && Earlier(a, b, |pages|, 0);
      EntryFits(pages[a], pages[a].entries[b]);
    }
  }

  predicate PageFits(page: PageEntries) {
    AllOf(page.package, TargetChar) && AllOf(page.file, HrefChar) &&
    forall e :: e in page.entries ==> AllOf(e.anchor, IdChar) && (e.typeName.Some? ==> AllOf(e.typeName.value, Alphanumeric))
  }

  lemma EntryFits(page: PageEntries, e: Entry)
    requires PageFits(page) && e in page.entries && e.typeName.Some?
    ensures IdentityOf(page, e) != "" && AllOf(IdentityOf(page, e), TargetChar) && AllOf(e.anchor, IdChar)
  {
    var name := LowerCase(e.typeName.value);
    assert forall i :: 0 <= i < |name| ==> Alphanumeric(e.typeName.value[i]) && TargetChar(name[i]);
  }

  // ----- what a page describes

  /** \s*(type|subtype)\s+(identifier)\b, in any case. */
  function TypeName(text: string): Option<string> {
    var i, lower := RunEnd(text, 0, Space), LowerCase(text);
    var k := if At(lower, i, "type") then i + 4 else if At(lower, i, "subtype") then i + 7 else i;
    var j := RunEnd(text, k, Space);
    if k == i || j == k then None
    else
      match IdentifierEnd(text, j)
      case None => None
      case Some(e) => Some(text[j..e])
  }

  predicate Formal(d: Declaration) {
    StartsWith(d.scope, "generic ")
  }

  function EntryFor(source: Source, unescape: Unescape, captures: seq<string>, raw: string): Entry {
    var found := Find(source, unescape, raw);
    Entry(Nth(captures, 0), Nth(captures, 1), TypeName(unescape(raw)), found.Some?, found.Some? && Formal(found.value))
  }

  /** None where the snippet holds other markup than ours. */
  function EntryOf(source: Source, unescape: Unescape, section: Section): Option<Entry> {
    match Plain(StripHighlighting(section.body))
    case None => None
    case Some(raw) => Some(EntryFor(source, unescape, section.captures, raw))
  }

  function EntriesOf(source: Source, unescape: Unescape, sections: seq<Section>): Option<seq<Entry>> {
    if sections == [] then Some([])
    else Joined(EntryOf(source, unescape, sections[0]), EntriesOf(source, unescape, sections[1..]))
  }

  /** A page with the package it is kept under. */
  datatype File = File(package: string, name: string, text: string)

  /** package.split('.') */
  function PartsOf(s: string): seq<string>
    decreases |s|
  {
    var k := IndexFrom(s, 0, '.');
    if k == |s| then [s] else [s[..k]] + PartsOf(s[k + 1..])
  }

  /** One heading, which names the package; a public package; and every snippet in a section. */
  predicate PageRight(file: File) {
    |Headings(file.text)| == 1 && LowerCase(Nth(Headings(file.text)[0], 0)) == file.package &&
    "internal" !in PartsOf(file.package) &&
    |Sections(ParsePage("", file.text))| == SnippetCount(file.text)
  }

  function PageOf(sources: Sources, unescape: Unescape, file: File): Option<PageEntries> {
    if file.package !in sources || !PageRight(file) then None
    else
      match EntriesOf(sources[file.package], unescape, Sections(ParsePage("", file.text)))
      case None => None
      case Some(entries) => Some(PageEntries(file.package, file.name, entries))
  }

  function PagesOf(sources: Sources, unescape: Unescape, files: seq<File>): (r: Option<seq<PageEntries>>)
    ensures r.Some? ==> |r.value| == |files|
    ensures r.Some? ==> forall i :: 0 <= i < |files| ==> PageOf(sources, unescape, files[i]) == Some(r.value[i])
  {
    if files == [] then Some([]) else Joined(PageOf(sources, unescape, files[0]), PagesOf(sources, unescape, files[1..]))
  }

  /** No page repeats an anchor. */
  predicate AnchorsDistinct(files: seq<File>) {
    forall i :: 0 <= i < |files| ==> DistinctAnchors(files[i].text)
  }

  /** pages_and_targets; None stands for any raised error. */
  ghost function Discover(sources: Sources, unescape: Unescape, files: seq<File>): Option<Targets> {
    if !AnchorsDistinct(files) then None
    else
      match PagesOf(sources, unescape, files)
      case None => None
      case Some(pages) => Discovered(pages)
  }

  method ReadSections(source: Source, unescape: Unescape, sections: seq<Section>) returns (r: Option<seq<Entry>>)
    ensures r == EntriesOf(source, unescape, sections)
  {
    var entries: seq<Entry>, rest := [], sections;
    AheadNothing(EntriesOf(source, unescape, sections));
    while rest != []
      invariant Ahead(entries, EntriesOf(source, unescape, rest)) == EntriesOf(source, unescape, sections)
      decreases |rest|
    {
      var raw := Plain(StripHighlighting(rest[0].body));
      AheadJoined(entries, EntryOf(source, unescape, rest[0]), EntriesOf(source, unescape, rest[1..]));
      if raw.None? {
        return None;
      }
      var d := MatchProfile(source.declarations, WordsOf(unescape(raw.value)));
      var name := TypeName(unescape(raw.value));
      entries := entries + [Entry(Nth(rest[0].captures, 0), Nth(rest[0].captures, 1), name, d.Some?,
                                  d.Some? && Formal(d.value.declaration))];
      rest := rest[1..];
    }
    assert entries + [] == entries;
    r := Some(entries);
  }

  /** The tests on one page, and what its sections describe. */
  method ReadPage(sources: Sources, unescape: Unescape, file: File) returns (r: Option<PageEntries>)
    ensures r == if DistinctAnchors(file.text) then PageOf(sources, unescape, file) else None
  {
    if file.package !in sources || !PageRight(file) || !DistinctAnchors(file.text) {
      return None;
    }
    var entries := ReadSections(sources[file.package], unescape, Sections(ParsePage("", file.text)));
    r := if entries.None? then None else Some(PageEntries(file.package, file.name, entries.value));
  }

  lemma PagesNext(sources: Sources, unescape: Unescape, files: seq<File>, i: nat, pages: seq<PageEntries>)
    requires i < |files|
    ensures Ahead(pages, PagesOf(sources, unescape, files[i..])) ==
            match PageOf(sources, unescape, files[i])
            case None => None
            case Some(page) => Ahead(pages + [page], PagesOf(sources, unescape, files[i + 1..]))
  {
    AheadJoined(pages, PageOf(sources, unescape, files[i]), PagesOf(sources, unescape, files[i + 1..]));
    assert files[i..][0] == files[i] && files[i..][1..] == files[i + 1..];
  }

  method ReadPages(sources: Sources, unescape: Unescape, files: seq<File>) returns (r: Option<seq<PageEntries>>)
    ensures r == if AnchorsDistinct(files) then PagesOf(sources, unescape, files) else None
  {
    var pages: seq<PageEntries> := [];
    ghost var all := PagesOf(sources, unescape, files);
    AheadNothing(all);
    assert files[0..] == files;
    for i := 0 to |files|
      invariant forall k :: 0 <= k < i ==> DistinctAnchors(files[k].text)
      invariant Ahead(pages, PagesOf(sources, unescape, files[i..])) == all
    {
      var page := ReadPage(sources, unescape, files[i]);
      PagesNext(sources, unescape, files, i, pages);
      if page.None? {
        return None;
      }
      pages := pages + [page.value];
    }
    assert pages + [] == pages;
    r := Some(pages);
  }

  /** The search for type targets. */
  method PagesAndTargets(sources: Sources, unescape: Unescape, files: seq<File>) returns (r: Option<Targets>)
    ensures r == Discover(sources, unescape, files)
  {
    var pages := ReadPages(sources, unescape, files);
    if pages.None? {
      return None;
    }
    r := FindTargets(pages.value);
  }

  /** Package names of sources are dotted names. */
  ghost predicate SourcesFit(sources: Sources) {
    forall package :: package in sources ==> AllOf(package, TargetChar)
  }

  /** The names of pages can stand in an address. */
  ghost predicate SiteFits(files: seq<File>) {
    forall i :: 0 <= i < |files| ==> AllOf(files[i].name, HrefChar)
  }

  lemma TypeNameFits(text: string)
    ensures TypeName(text).Some? ==> AllOf(TypeName(text).value, Alphanumeric)
  {
  }

  lemma {:induction false} EntriesFit(source: Source, unescape: Unescape, sections: seq<Section>)
    requires EntriesOf(source, unescape, sections).Some?
    requires forall section :: section in sections ==> Fits(HEADER, section.captures)
    ensures forall e :: e in EntriesOf(source, unescape, sections).value ==>
              AllOf(e.anchor, IdChar) && (e.typeName.Some? ==> AllOf(e.typeName.value, Alphanumeric))
  {
    if sections == [] {
    } else {
      assert sections[0] in sections;
      HeaderParts(sections[0].captures);
      TypeNameFits(unescape(Plain(StripHighlighting(sections[0].body)).value));
      EntriesFit(source, unescape, sections[1..]);
    }
  }

  /** So links to discovered targets are well formed. */
  lemma DiscoveredFit(sources: Sources, unescape: Unescape, files: seq<File>)
    requires SourcesFit(sources) && SiteFits(files) && Discover(sources, unescape, files).Some?
    ensures L.TargetsFit(Discover(sources, unescape, files).value)
  {
    var pages := PagesOf(sources, unescape, files).value;
    forall i | 0 <= i < |pages|
      ensures PageFits(pages[i])
    {
      assert PageOf(sources, unescape, files[i]) == Some(pages[i]) && AllOf(files[i].name, HrefChar);
      ParsedFits(files[i].text);
      EntriesFit(sources[files[i].package], unescape, Sections(ParsePage("", files[i].text)));
    }
    DescribedExactly(pages);
    FoundTargetsFit(pages, DescribedTargets(pages));
  }
}
