/** When linking a fresh site and colouring a linked one go through, exactly. What can stand in the
    way beside the snippets themselves is the digest of the text outside them: it takes the first
    occurrence of a body out of its section, and that may be in the heading. */
module Recolouring {
  import opened Texts
  import opened Patterns
  import opened Markup
  import opened Documents
  import opened Weaving
  import opened Discovery
  import opened Resolution
  import L = Links
  import H = Highlight
  import opened Pages
  import opened Pipeline

  function OutsideOf(section: Section): string {
    RemoveFirst(ShowSection(section), section.body)
  }

  function Frame(captures: seq<string>): string {
    Header(captures) + FOOTER
  }

  /** The body does not already stand in front of its place in the section. */
  predicate Benign(section: Section) {
    section.body == "" || FirstAt(ShowSection(section), 0, |Header(section.captures)|, section.body)
  }

  lemma BenignOutside(section: Section)
    requires Benign(section)
    ensures OutsideOf(section) == Frame(section.captures)
  {
    var header, body, s := Header(section.captures), section.body, ShowSection(section);
    if body == "" {
      assert s == header + FOOTER;
    } else {
      FindIs(s, 0, |header|, body);
      assert s[..|header|] == header && s[|header| + |body|..] == FOOTER;
    }
  }

  /** The first tag of a body is a whole opening tag of ours. */
  predicate Tagged(body: string, t: nat) {
    t + 5 < |body| && '<' !in body[..t] && body[t] == '<' &&
    ((body[t + 1] == 'a' && body[t + 2] == ' ') ||
     (body[t + 1] == 's' && body[t + 2] == 'p' && body[t + 3] == 'a' && body[t + 4] == 'n' && body[t + 5] == ' '))
  }

  lemma TaggedBehind(text: string, rest: string, t: nat)
    requires '<' !in text && Tagged(rest, t)
    ensures Tagged(text + rest, |text| + t)
  {
    assert (text + rest)[..|text| + t] == text + rest[..t];
  }

  lemma LinkTagged(link: seq<string>, rest: string)
    requires ValidLink(link)
    ensures Tagged(Print(LINK, link) + rest, 0)
  {
    LinkFits(link);
    assert link == [link[0], link[1], link[2]];
    LinkPrinted(link[0], link[1], link[2]);
    var open := "<a class=\"type-reference\" href=\"";
    var s := Print(LINK, link) + rest;
    assert forall j :: 0 <= j < |open| ==> LinkOpen(link[0], link[1])[j] == open[j];
    assert forall j :: 0 <= j < 6 ==> s[j] == open[j];
  }

  lemma SpanTagged(category: string, content: string, rest: string)
    ensures Tagged(PrintSpan(category, content) + rest, 0)
  {
    var open := "<span class=\"ada-";
    var s := PrintSpan(category, content) + rest;
    assert forall j :: 0 <= j < |open| ==> SpanOpen(category)[j] == open[j];
    assert forall j :: 0 <= j < 6 ==> s[j] == open[j];
  }

  lemma {:induction false} DocTagged(doc: Doc) returns (t: nat)
    requires Clean(doc) && !HasStray(doc) && '<' in Show(doc)
    ensures Tagged(Show(doc), t)
  {
    t := 0;
    match doc
    case Nothing =>
    case Text(text, next) =>
      t := DocTagged(next);
      TaggedBehind(text, Show(next), t);
      t := |text| + t;
    case Anchor(link, next) =>
      LinkTagged(link, Show(next));
    case Colour(category, content, next) =>
      SpanTagged(category, content, Show(next));
    case Stray(_, _, _) =>
      assert false;
  }

  // ----- a tagged body stands nowhere in front of its place

  /** No "<a " and no "<span " in a header. */
  lemma HeaderHasNoTag(id: string, heading: string, u: nat)
    requires AllOf(id, IdChar) && AllOf(heading, HeadingChar) && heading != ""
    requires var h := ID_OPEN + id + ">" + heading + CODE_OPEN;
             u < |h| && h[u] == '<'
    ensures var h := ID_OPEN + id + ">" + heading + CODE_OPEN;
            u + 1 < |h| && (h[u + 1] == 'a' ==> u + 2 < |h| && h[u + 2] != ' ') &&
            (h[u + 1] == 's' ==>
               u + 5 < |h| && !(h[u + 2] == 'p' && h[u + 3] == 'a' && h[u + 4] == 'n' && h[u + 5] == ' '))
  {
    var a, b, c, d := |ID_OPEN|, |ID_OPEN + id|, |ID_OPEN + id + ">"|, |ID_OPEN + id + ">" + heading|;
    var h := ID_OPEN + id + ">" + heading + CODE_OPEN;
    assert forall j :: 0 <= j < a ==> h[j] == ID_OPEN[j];
    assert h[b] == '>';
    assert forall j :: c <= j < d ==> h[j] == heading[j - c];
    if u < a {
      assert u == 0 && h[1] == 'h';
    } else if u < b {
      IdHasNoTag(id, heading, u);
    } else if d <= u {
      BehindHeading(ID_OPEN + id + ">" + heading, u);
    }
  }

  lemma BehindHeading(front: string, u: nat)
    requires |front| <= u < |front + CODE_OPEN| && (front + CODE_OPEN)[u] == '<'
    ensures var h := front + CODE_OPEN; u + 1 < |h| && h[u + 1] != 'a' && h[u + 1] != 's'
  {
    CodeHasNoTag(u - |front|);
  }

  lemma CodeHasNoTag(k: nat)
    requires k < |CODE_OPEN| && CODE_OPEN[k] == '<'
    ensures k + 1 < |CODE_OPEN| && CODE_OPEN[k + 1] != 'a' && CODE_OPEN[k + 1] != 's'
  {
  }

  lemma IdHasNoTag(id: string, heading: string, u: nat)
    requires AllOf(id, IdChar) && heading != "" && |ID_OPEN| <= u < |ID_OPEN| + |id|
    ensures var h := ID_OPEN + id + ">" + heading + CODE_OPEN;
            u + 5 < |h| && (h[u + 1] == 'a' ==> h[u + 2] != ' ') &&
            (h[u + 1] == 's' ==> !(h[u + 2] == 'p' && h[u + 3] == 'a' && h[u + 4] == 'n' && h[u + 5] == ' '))
  {
    var h, a := ID_OPEN + id + ">" + heading + CODE_OPEN, |ID_OPEN|;
    assert forall j :: a <= j < a + |id| ==> h[j] == id[j - a];
    assert h[a + |id|] == '>';
  }

  lemma PlacedAt(s: string, q: nat, body: string, k: nat)
    requires At(s, q, body) && k < |body|
    ensures s[q + k] == body[k]
  {
    assert s[q..q + |body|][k] == body[k];
  }

  /** Position u does not begin "<a " or "<span ". */
  predicate NoTagFrom(h: string, u: nat)
    requires u < |h|
  {
    h[u] == '<' ==>
      u + 1 < |h| && (h[u + 1] == 'a' ==> u + 2 < |h| && h[u + 2] != ' ') &&
      (h[u + 1] == 's' ==>
         u + 5 < |h| && !(h[u + 2] == 'p' && h[u + 3] == 'a' && h[u + 4] == 'n' && h[u + 5] == ' '))
  }

  lemma HeaderNoTag(captures: seq<string>)
    requires Fits(HEADER, captures)
    ensures forall u :: 0 <= u < |Header(captures)| ==> NoTagFrom(Header(captures), u)
  {
    HeaderParts(captures);
    forall u | 0 <= u < |Header(captures)|
      ensures NoTagFrom(Header(captures), u)
    {
      if Header(captures)[u] == '<' {
        HeaderHasNoTag(captures[0], captures[1], u);
      }
    }
  }

  lemma FirstBracket(body: string, t: nat, k: nat)
    requires Tagged(body, t) && k < t
    ensures body[k] != '<'
  {
    assert body[..t][k] == body[k];
  }

  lemma NotInFront(header: string, body: string, footer: string, t: nat, q: nat)
    requires forall u :: 0 <= u < |header| ==> NoTagFrom(header, u)
    requires Tagged(body, t) && q < |header|
    ensures !At(header + body + footer, q, body)
  {
    var s := header + body + footer;
    assert s == header + (body + footer);
    if q + t < |header| {
      TagInHeader(header, body + footer, q + t);
    } else {
      FirstBracket(body, t, q + t - |header|);
      assert s[q + t] == body[q + t - |header|];
    }
    if At(s, q, body) {
      PlacedTag(s, q, body, t);
    }
  }

  lemma PlacedTag(s: string, q: nat, body: string, t: nat)
    requires Tagged(body, t) && At(s, q, body)
    ensures s[q + t] == '<' && q + t + 5 < |s|
    ensures (s[q + t + 1] == 'a' && s[q + t + 2] == ' ') ||
            (s[q + t + 1] == 's' && s[q + t + 2] == 'p' && s[q + t + 3] == 'a' && s[q + t + 4] == 'n' && s[q + t + 5] == ' ')
  {
    forall k | t <= k <= t + 5
      ensures s[q + k] == body[k]
    {
      PlacedAt(s, q, body, k);
    }
  }

  lemma TagInHeader(header: string, rest: string, u: nat)
    requires u < |header| && NoTagFrom(header, u)
    ensures var s := header + rest;
            s[u] == '<' && u + 5 < |s| ==>
              !(s[u + 1] == 'a' && s[u + 2] == ' ') &&
              !(s[u + 1] == 's' && s[u + 2] == 'p' && s[u + 3] == 'a' && s[u + 4] == 'n' && s[u + 5] == ' ')
  {
  }

  lemma TaggedOutside(captures: seq<string>, body: string, t: nat)
    requires Fits(HEADER, captures) && Tagged(body, t)
    ensures OutsideOf(Section(captures, body)) == Frame(captures)
  {
    var section, header := Section(captures, body), Header(captures);
    assert ShowSection(section)[|header|..|header| + |body|] == body;
    HeaderNoTag(captures);
    forall q | 0 <= q < |header|
      ensures !At(ShowSection(section), q, body)
    {
      NotInFront(header, body, FOOTER, t, q);
    }
    BenignOutside(section);
  }

  // ----- what is hashed of a page before and after

  /** The digest takes the body of the section out of its own place, or makes no difference of it. */
  predicate Framed(section: Section) {
    OutsideOf(section) == Frame(section.captures)
  }

  lemma OutsideLength(section: Section)
    ensures |OutsideOf(section)| == |Frame(section.captures)|
  {
    var s, header := ShowSection(section), Header(section.captures);
    assert s[|header|..|header| + |section.body|] == section.body;
    assert At(s, |header|, section.body);
  }

  /** Two lists of sections, one under the other, lose the same to the digest. */
  ghost predicate SameOutsides(sections: seq<Section>, bodies: seq<string>) {
    |sections| == |bodies| &&
    (sections == [] ||
     (OutsideOf(sections[0].(body := bodies[0])) == OutsideOf(sections[0]) && SameOutsides(sections[1..], bodies[1..])))
  }

  lemma SplitEqual(text: string, a: string, b: string, rest: string, rest': string)
    requires |a| == |b|
    ensures text + a + rest == text + b + rest' <==> a == b && rest == rest'
  {
    if text + a + rest == text + b + rest' {
      var n := |text| + |a|;
      assert (text + a + rest)[..n][|text|..] == a && (text + b + rest')[..n][|text|..] == b;
      assert (text + a + rest)[n..] == rest && (text + b + rest')[n..] == rest';
    }
  }

  /** What is hashed of a page stays exactly if what is hashed of each of its sections does. */
  lemma {:induction false} OutsideStays(page: Page, bodies: seq<string>)
    requires |bodies| == |Sections(page)|
    ensures Outside(WithBodies(page, bodies)) == Outside(page) <==> SameOutsides(Sections(page), bodies)
  {
    match page
    case Last(_) =>
    case Part(text, section, rest) =>
      OutsideStays(rest, bodies[1..]);
      assert Sections(page)[1..] == Sections(rest);
      var section' := section.(body := bodies[0]);
      OutsideLength(section);
      OutsideLength(section');
      SplitEqual(text, OutsideOf(section'), OutsideOf(section), Outside(WithBodies(rest, bodies[1..])), Outside(rest));
  }

  /** A body with markup loses itself; so a section keeps its outside when its body gets markup
      exactly if it lost its own body before. */
  lemma MarkupOutside(section: Section, doc: Doc)
    requires Fits(HEADER, section.captures) && Clean(doc) && !HasStray(doc)
    requires Show(doc) == section.body || '<' in Show(doc)
    ensures OutsideOf(section.(body := Show(doc))) == OutsideOf(section) <==>
            Show(doc) == section.body || Framed(section)
  {
    if Show(doc) != section.body {
      var t := DocTagged(doc);
      TaggedOutside(section.captures, Show(doc), t);
    }
  }

  /** A section whose heading is its own text, not met earlier, loses the heading to the digest. */
  lemma RepeatedHeading(id: string, raw: string)
    requires Fits(HEADER, [id, raw]) && FirstAt(ShowSection(Section([id, raw], raw)), 0, |ID_OPEN + id + ">"|, raw)
    ensures !Framed(Section([id, raw], raw))
  {
    HeaderParts([id, raw]);
    var front := ID_OPEN + id + ">";
    NoBracketFirst(raw);
    HeadingTwice(front, raw);
    WithoutFirst(front, raw, CODE_OPEN + raw + FOOTER, ShowSection(Section([id, raw], raw)));
    PartsDiffer(front, CODE_OPEN + raw + FOOTER, raw + CODE_OPEN + FOOTER);
  }

  lemma NoBracketFirst(heading: string)
    requires heading != "" && AllOf(heading, HeadingChar)
    ensures heading[0] != CODE_OPEN[0]
  {
  }

  lemma HeadingTwice(front: string, raw: string)
    ensures front + raw + CODE_OPEN + raw + FOOTER == front + raw + (CODE_OPEN + raw + FOOTER)
    ensures front + raw + CODE_OPEN + FOOTER == front + (raw + CODE_OPEN + FOOTER)
  {
  }

  lemma PartsDiffer(front: string, a: string, b: string)
    requires a != "" && b != "" && a[0] != b[0]
    ensures front + a != front + b
  {
    assert (front + a)[|front|] == a[0] && (front + b)[|front|] == b[0];
  }

  lemma WithoutFirst(front: string, raw: string, behind: string, s: string)
    requires s == front + raw + behind && raw != "" && FirstAt(s, 0, |front|, raw)
    ensures RemoveFirst(s, raw) == front + behind
  {
    FindIs(s, 0, |front|, raw);
    assert s[..|front|] == front && s[|front| + |raw|..] == behind;
  }

  ghost predicate CollisionFree(env: Env) {
    forall a, b :: env.hash(a) == env.hash(b) ==> a == b
  }

  /** If and only if; only if is claimed of a hash without collisions alone. */
  ghost predicate Exactly(env: Env, success: bool, condition: bool) {
    (condition ==> success) && (CollisionFree(env) && success ==> condition)
  }

  // ----- linking a fresh page

  ghost function MarksFor(env: Env, targets: Targets, file: File, raw: string, declaration: Declaration): seq<Mark>
    requires file.package in env.sources
  {
    L.MarksOf(L.ContextOf(env.sources, targets, file.package, declaration, file.name), env.unescape, raw)
  }

  /** The snippet is free of markup, has its one declaration, a profile that can be read, links that
      do not share a character reference, to addresses a link can hold, and either no link or a
      section that keeps its outside. */
  ghost predicate Linkable(env: Env, targets: Targets, file: File, section: Section)
    requires file.package in env.sources
  {
    var raw := section.body;
    var found := Find(env.sources[file.package], env.unescape, raw);
    '<' !in raw && found.Some? && L.WordsOf(env.unescape, raw).Some? &&
    var marks := MarksFor(env, targets, file, raw, found.value);
    MarksApart(marks, 0) && L.AddressesFit(marks) && (marks == [] || Framed(section))
  }

  lemma NothingToStrip(s: string)
    requires '<' !in s
    ensures StripHighlighting(s) == s && Plain(s) == Some(s) && FindLinks(s) == []
  {
    H.PlainWithoutTags(s);
    PlainHasNoColour(s);
    LinkPattern();
    TextHasNoTag(s, 'a');
    Copied(LINK, 'a', CAPTION, s, "");
    assert s + "" == s;
  }

  lemma MarksShow(raw: string, marks: seq<Mark>)
    requires MarksChain(raw, marks, 0, 0) && forall m :: m in marks ==> m.wrap.Reference?
    ensures marks != [] ==> MarkLinks(raw, marks) != []
  {
    if marks != [] {
      assert marks[0] in marks;
    }
  }

  lemma LinkedSame(c: L.Context, env: Env, raw: string)
    requires EnvFits(env) && L.ContextFits(c) && L.TargetsFit(c.targets) && L.Linking(c, env.unescape, raw).Some?
    ensures var r := L.Linking(c, env.unescape, raw).value;
            (r == raw <==> L.MarksOf(c, env.unescape, raw) == []) && (r != raw ==> '<' in r)
  {
    var marks := L.MarksOf(c, env.unescape, raw);
    L.LinkingExact(c, env.unescape, raw);
    L.MarksOrdered(c, env.unescape, raw);
    L.LinkMarksChain(raw, marks);
    MarksShow(raw, marks);
    NothingToStrip(raw);
    var r := L.Linking(c, env.unescape, raw).value;
    if '<' !in r {
      NothingToStrip(r);
    }
  }

  lemma LinkedOutside(c: L.Context, env: Env, section: Section)
    requires EnvFits(env) && L.ContextFits(c) && L.TargetsFit(c.targets) && Fits(HEADER, section.captures)
    requires L.Linking(c, env.unescape, section.body).Some?
    ensures OutsideOf(section.(body := L.Linking(c, env.unescape, section.body).value)) == OutsideOf(section) <==>
            L.MarksOf(c, env.unescape, section.body) == [] || Framed(section)
  {
    var doc := L.LinkingDoc(c, env.unescape, section.body);
    LinkedSame(c, env, section.body);
    MarkupOutside(section, doc);
  }

  lemma FreshRun(env: Env, targets: Targets, file: File, body: string)
    requires Ready(env, targets, file.package)
    ensures RunSnippet(env, targets, file, body, None, false, false) ==
            if '<' in body then None else Expected(env, targets, file, body)
  {
    if '<' !in body {
      NothingToStrip(body);
    } else if Plain(body).Some? {
      PlainIsPlain(body);
    }
  }

  lemma ExpectedLinks(env: Env, targets: Targets, file: File, section: Section, declaration: Declaration)
    requires Ready(env, targets, file.package) && Fits(HEADER, section.captures) && '<' !in section.body
    requires Find(env.sources[file.package], env.unescape, section.body) == Some(declaration)
    ensures var r := Expected(env, targets, file, section.body);
            Linkable(env, targets, file, section) <==>
            r.Some? && OutsideOf(section.(body := r.value.body)) == OutsideOf(section)
  {
    var c := L.ContextOf(env.sources, targets, file.package, declaration, file.name);
    L.ContextOfFits(env.sources, targets, file.package, declaration, file.name);
    L.LinkingExact(c, env.unescape, section.body);
    if L.Linking(c, env.unescape, section.body).Some? {
      LinkedOutside(c, env, section);
    }
  }

  /** A fresh snippet is linked, and its section keeps its outside, exactly if it is linkable. */
  lemma FreshSnippet(env: Env, targets: Targets, file: File, section: Section)
    requires Ready(env, targets, file.package) && Fits(HEADER, section.captures)
    ensures var r := RunSnippet(env, targets, file, section.body, None, false, false);
            Linkable(env, targets, file, section) <==>
            r.Some? && OutsideOf(section.(body := r.value.body)) == OutsideOf(section)
  {
    FreshRun(env, targets, file, section.body);
    var found := Find(env.sources[file.package], env.unescape, section.body);
    if '<' !in section.body && found.Some? {
      ExpectedLinks(env, targets, file, section, found.value);
    }
  }

  ghost predicate AllLinkable(env: Env, targets: Targets, file: File, sections: seq<Section>)
    requires file.package in env.sources
  {
    forall section :: section in sections ==> Linkable(env, targets, file, section)
  }

  /** A run of the first section and of the others that all keep their outsides. */
  lemma OutsidesJoined(sections: seq<Section>, first: Option<Snippet>, others: Option<seq<Snippet>>)
    requires sections != [] && (others.Some? ==> |others.value| == |sections| - 1)
    ensures var r := Joined(first, others);
            (r.Some? && SameOutsides(sections, Bodies(r.value))) <==>
            (first.Some? && OutsideOf(sections[0].(body := first.value.body)) == OutsideOf(sections[0]) &&
             others.Some? && SameOutsides(sections[1..], Bodies(others.value)))
  {
    if first.Some? && others.Some? {
      assert ([first.value] + others.value)[1..] == others.value;
      assert Bodies([first.value] + others.value) == [first.value.body] + Bodies(others.value);
    }
  }

  lemma {:induction false} FreshSections(env: Env, targets: Targets, file: File, sections: seq<Section>)
    requires Ready(env, targets, file.package) && forall section :: section in sections ==> Fits(HEADER, section.captures)
    ensures var r := RunSections(env, targets, file, sections, None, false, false);
            AllLinkable(env, targets, file, sections) <==> r.Some? && SameOutsides(sections, Bodies(r.value))
    decreases |sections|
  {
    if sections == [] {
    } else {
      assert sections[0] in sections && forall s :: s in sections[1..] ==> s in sections;
      FreshSnippet(env, targets, file, sections[0]);
      FreshSections(env, targets, file, sections[1..]);
      LinkableCons(env, targets, file, sections);
      SectionsJoined(env, targets, file, sections, None, false, false);
      OutsidesJoined(sections, RunSnippet(env, targets, file, sections[0].body, None, false, false),
                     RunSections(env, targets, file, sections[1..], None, false, false));
    }
  }

  lemma LinkableCons(env: Env, targets: Targets, file: File, sections: seq<Section>)
    requires file.package in env.sources && sections != []
    ensures AllLinkable(env, targets, file, sections) <==>
            Linkable(env, targets, file, sections[0]) && AllLinkable(env, targets, file, sections[1..])
  {
    assert sections == [sections[0]] + sections[1..];
  }

  /** No link marker yet, and every snippet linkable. */
  ghost predicate LinkablePage(env: Env, targets: Targets, file: File)
    requires file.package in env.sources
  {
    FindText(file.text, 0, MARKER).None? && AllLinkable(env, targets, file, Sections(ParsePage("", file.text)))
  }

  /** A fresh page is linked exactly if it holds no link marker yet and all its snippets are
      linkable in their sections. */
  lemma FreshPageLinks(env: Env, targets: Targets, file: File)
    requires Ready(env, targets, file.package)
    ensures Exactly(env, RunPage(env, targets, file, None, false, false).Some?, LinkablePage(env, targets, file))
  {
    var page := ParsePage("", file.text);
    ParsedFits(file.text);
    FreshSections(env, targets, file, Sections(page));
    var r := RunSections(env, targets, file, Sections(page), None, false, false);
    FreshPageIs(env, targets, file, page, r);
    if r.Some? {
      OutsideStays(page, Bodies(r.value));
    }
  }

  lemma FreshPageIs(env: Env, targets: Targets, file: File, page: Page, r: Option<seq<Snippet>>)
    requires Ready(env, targets, file.package) && page == ParsePage("", file.text)
    requires r == RunSections(env, targets, file, Sections(page), None, false, false)
    ensures RunPage(env, targets, file, None, false, false).Some? <==>
            FindText(file.text, 0, MARKER).None? && r.Some? &&
            env.hash(Outside(WithBodies(page, Bodies(r.value)))) == env.hash(Outside(page))
  {
  }

  // ----- colouring a linked page

  /** In no text of the snippet do two coloured lexemes share a character reference; and either
      nothing is to be coloured or the section keeps its outside. */
  ghost predicate Colourable(env: Env, section: Section)
    requires EnvFits(env)
  {
    var doc := Parse("", section.body);
    H.TextsApart(env.lexer, env.unescape, doc) && (H.TextsBare(env.lexer, env.unescape, doc) || Framed(section))
  }

  lemma ColouredOutside(env: Env, section: Section)
    requires EnvFits(env) && Fits(HEADER, section.captures) && Plain(section.body).Some?
    ensures var r := Coloured(env, section.body);
            Colourable(env, section) <==> r.Some? && OutsideOf(section.(body := r.value)) == OutsideOf(section)
  {
    var body := section.body;
    H.HighlightExact(env.lexer, env.unescape, body);
    var r := Coloured(env, body);
    if r.Some? {
      H.ColouredSame(env.lexer, env.unescape, body);
      var doc := H.HighlightedDoc(env.lexer, env.unescape, body);
      if '<' !in r.value {
        NothingToStrip(r.value);
      }
      MarkupOutside(section, doc);
    }
  }

  /** What colouring does to a linked snippet. */
  lemma SnippetColours(env: Env, targets: Targets, file: File, snippet: Snippet)
    requires Ready(env, targets, file.package) && Settled(env, targets, file, snippet, false)
    ensures Plain(snippet.body).Some?
    ensures RunSnippet(env, targets, file, snippet.body, Some(snippet.raw), false, true) ==
            match Coloured(env, snippet.body)
            case None => None
            case Some(body) => Some(snippet.(body := body))
  {
    SettledBody(env, targets, file, snippet, false);
  }

  ghost predicate AllColourable(env: Env, sections: seq<Section>)
    requires EnvFits(env)
  {
    forall section :: section in sections ==> Colourable(env, section)
  }

  lemma TotalJoined(first: Option<Snippet>, others: Option<seq<Snippet>>)
    ensures var r := Joined(first, others);
            r.Some? ==> SnippetTotal(r.value) == first.value.tally.Plus(SnippetTotal(others.value))
  {
    if first.Some? && others.Some? {
      assert ([first.value] + others.value)[1..] == others.value;
    }
  }

  lemma {:induction false} SectionsColour(env: Env, targets: Targets, file: File, sections: seq<Section>, snippets: seq<Snippet>)
    requires Ready(env, targets, file.package) && AllSettled(env, targets, file, snippets, false)
    requires HaveBodies(sections, Bodies(snippets)) && forall section :: section in sections ==> Fits(HEADER, section.captures)
    ensures |sections| == |snippets|
    ensures var r := RunSections(env, targets, file, sections, Some(Raws(snippets)), false, true);
            (AllColourable(env, sections) <==> r.Some? && SameOutsides(sections, Bodies(r.value))) &&
            (r.Some? ==> SnippetTotal(r.value) == SnippetTotal(snippets))
    decreases |sections|
  {
    if sections == [] {
    } else {
      assert Bodies(snippets)[1..] == Bodies(snippets[1..]) && Raws(snippets)[1..] == Raws(snippets[1..]);
      assert sections[0] in sections && forall s :: s in sections[1..] ==> s in sections;
      SnippetColours(env, targets, file, snippets[0]);
      ColouredOutside(env, sections[0]);
      SectionsColour(env, targets, file, sections[1..], snippets[1..]);
      ColourableCons(env, sections);
      var first := RunSnippet(env, targets, file, snippets[0].body, Some(snippets[0].raw), false, true);
      var others := RunSections(env, targets, file, sections[1..], Some(Raws(snippets[1..])), false, true);
      SectionsJoined(env, targets, file, sections, Some(Raws(snippets)), false, true);
      OutsidesJoined(sections, first, others);
      TotalJoined(first, others);
    }
  }

  lemma ColourableCons(env: Env, sections: seq<Section>)
    requires EnvFits(env) && sections != []
    ensures AllColourable(env, sections) <==> Colourable(env, sections[0]) && AllColourable(env, sections[1..])
  {
    assert sections == [sections[0]] + sections[1..];
  }

  /** What is known of a page just linked, and of the page read back from it. */
  ghost predicate JustLinked(env: Env, targets: Targets, file: File, run: PageRun, page: Page, snippets: seq<Snippet>)
    requires Ready(env, targets, file.package)
  {
    page == ParsePage("", run.text) && SectionsFit(page) &&
    |Sections(page)| == |snippets| && HaveBodies(Sections(page), Bodies(snippets)) &&
    AllSettled(env, targets, file, snippets, false) &&
    run.entry == Record(file.name, env.hash(Outside(page)), Raws(snippets)) && run.tally == SnippetTotal(snippets)
  }

  lemma LinkedPage(env: Env, targets: Targets, file: File) returns (page: Page, snippets: seq<Snippet>)
    requires Ready(env, targets, file.package)
    requires RunPage(env, targets, file, None, false, false).Some?
    ensures JustLinked(env, targets, file, RunPage(env, targets, file, None, false, false).value, page, snippets)
  {
    var original := ParsePage("", file.text);
    snippets := RunRewrites(env, targets, file, None, false, false);
    page := WithBodies(original, Bodies(snippets));
    WithBodiesHas(original, Bodies(snippets));
    ParsedFits(RunPage(env, targets, file, None, false, false).value.text);
  }

  lemma RecordedPage(env: Env, targets: Targets, file: File, entry: Record, page: Page, runs: Option<seq<Snippet>>)
    requires Ready(env, targets, file.package) && page == ParsePage("", file.text)
    requires entry.file == file.name && entry.outside == env.hash(Outside(page))
    requires |entry.snippets| == |Sections(page)|
    requires runs == RunSections(env, targets, file, Sections(page), Some(entry.snippets), false, true)
    ensures var r := RunPage(env, targets, file, Some(entry), false, true);
            (r.Some? <==> runs.Some? && env.hash(Outside(WithBodies(page, Bodies(runs.value)))) == entry.outside) &&
            (r.Some? ==> r.value.tally == SnippetTotal(runs.value))
  {
  }

  /** A page just linked is coloured exactly if all its snippets are colourable in their sections. */
  lemma PageColours(env: Env, targets: Targets, file: File)
    requires Ready(env, targets, file.package)
    requires RunPage(env, targets, file, None, false, false).Some?
    ensures var run := RunPage(env, targets, file, None, false, false).value;
            var coloured := RunPage(env, targets, file.(text := run.text), Some(run.entry), false, true);
            Exactly(env, coloured.Some?, AllColourable(env, Sections(ParsePage("", run.text)))) &&
            (coloured.Some? ==> coloured.value.tally == run.tally)
  {
    var run := RunPage(env, targets, file, None, false, false).value;
    var page, snippets := LinkedPage(env, targets, file);
    var file' := file.(text := run.text);
    SectionsFile(env, targets, file, file', Sections(page), Raws(snippets), false, true);
    SectionsColour(env, targets, file, Sections(page), snippets);
    var runs := RunSections(env, targets, file', Sections(page), Some(Raws(snippets)), false, true);
    RecordedPage(env, targets, file', run.entry, page, runs);
    if runs.Some? {
      OutsideStays(page, Bodies(runs.value));
    }
  }

  // ----- the site

  ghost predicate LinkableSite(env: Env, targets: Targets, files: seq<File>)
    requires AllReady(env, targets, files)
  {
    forall i :: 0 <= i < |files| ==> LinkablePage(env, targets, files[i])
  }

  lemma {:induction false} FreshFiles(env: Env, targets: Targets, files: seq<File>)
    requires AllReady(env, targets, files)
    ensures Exactly(env, RunFiles(env, targets, files, None, false, false).Some?, LinkableSite(env, targets, files))
  {
    if files == [] {
    } else {
      FilesStep(env, targets, files, None, false, false);
      FreshPageLinks(env, targets, files[0]);
      FreshFiles(env, targets, files[1..]);
      LinkableSiteCons(env, targets, files);
    }
  }

  lemma LinkableSiteCons(env: Env, targets: Targets, files: seq<File>)
    requires AllReady(env, targets, files) && files != []
    requires Ready(env, targets, files[0].package) && AllReady(env, targets, files[1..])
    ensures LinkableSite(env, targets, files) <==>
            LinkablePage(env, targets, files[0]) && LinkableSite(env, targets, files[1..])
  {
    var tail := files[1..];
    assert forall i :: 0 <= i < |tail| ==> tail[i] == files[i + 1];
    if LinkablePage(env, targets, files[0]) && LinkableSite(env, targets, tail) {
      forall i | 0 <= i < |files|
        ensures LinkablePage(env, targets, files[i])
      {
        if i > 0 {
          assert files[i] == tail[i - 1];
        }
      }
    }
    if LinkableSite(env, targets, files) {
      forall i | 0 <= i < |tail|
        ensures LinkablePage(env, targets, tail[i])
      {
        assert tail[i] == files[i + 1];
      }
    }
  }

  ghost predicate ColourableSite(env: Env, files: seq<File>)
    requires EnvFits(env)
  {
    forall i :: 0 <= i < |files| ==> AllColourable(env, Sections(ParsePage("", files[i].text)))
  }

  lemma ColourableSiteCons(env: Env, files: seq<File>)
    requires EnvFits(env) && files != []
    ensures ColourableSite(env, files) <==>
            AllColourable(env, Sections(ParsePage("", files[0].text))) && ColourableSite(env, files[1..])
  {
    var tail := files[1..];
    assert forall i :: 0 <= i < |tail| ==> tail[i] == files[i + 1];
    if AllColourable(env, Sections(ParsePage("", files[0].text))) && ColourableSite(env, tail) {
      forall i | 0 <= i < |files|
        ensures AllColourable(env, Sections(ParsePage("", files[i].text)))
      {
        if i > 0 {
          assert files[i] == tail[i - 1];
        }
      }
    }
    if ColourableSite(env, files) {
      forall i | 0 <= i < |tail|
        ensures AllColourable(env, Sections(ParsePage("", tail[i].text)))
      {
        assert tail[i] == files[i + 1];
      }
    }
  }

  /** Colouring the written files succeeds exactly if they are colourable, and counts the same. */
  ghost predicate FilesColourRight(env: Env, targets: Targets, files: seq<File>, runs: seq<PageRun>, pages: map<string, Record>)
    requires EnvFits(env) && AllReady(env, targets, files)
  {
    var coloured := RunFiles(env, targets, files, Some(pages), false, true);
    Exactly(env, coloured.Some?, ColourableSite(env, files)) &&
    (coloured.Some? ==> Total(coloured.value) == Total(runs) && Enhanced(coloured.value) == Enhanced(runs))
  }

  lemma {:induction false} FilesColour(env: Env, targets: Targets, files: seq<File>, pages: map<string, Record>)
    requires EnvFits(env) && AllReady(env, targets, files)
    requires RunFiles(env, targets, files, None, false, false).Some?
    requires Recorded(files, RunFiles(env, targets, files, None, false, false).value, pages)
    ensures var runs := RunFiles(env, targets, files, None, false, false).value;
            AllReady(env, targets, Written(files, runs)) && FilesColourRight(env, targets, Written(files, runs), runs, pages)
  {
    var runs := RunFiles(env, targets, files, None, false, false).value;
    WrittenReady(env, targets, files, runs);
    if files == [] {
    } else {
      var files' := Written(files, runs);
      FilesStep(env, targets, files, None, false, false);
      assert runs[1..] == RunFiles(env, targets, files[1..], None, false, false).value;
      RecordedTail(files, runs, pages);
      PageColours(env, targets, files[0]);
      FilesColour(env, targets, files[1..], pages);
      assert files'[1..] == Written(files[1..], runs[1..]) && files'[0] == files[0].(text := runs[0].text);
      FilesColourCons(env, targets, files', runs, pages,
                      RunPage(env, targets, files'[0], RecordOf(Some(pages), files'[0].package), false, true));
    }
  }

  lemma RunsJoined(first: Option<PageRun>, others: Option<seq<PageRun>>)
    ensures var r := if first.Some? && others.Some? then Some([first.value] + others.value) else None;
            r.Some? ==> Total(r.value) == first.value.tally.Plus(Total(others.value)) &&
                        Enhanced(r.value) == (if first.value.tally.linked > 0 then 1 else 0) + Enhanced(others.value)
  {
    if first.Some? && others.Some? {
      assert ([first.value] + others.value)[1..] == others.value;
    }
  }

  /** The same for one more page in front of a site. */
  lemma OneMorePage(env: Env, files: seq<File>, runs: seq<PageRun>, first: Option<PageRun>, others: Option<seq<PageRun>>)
    requires EnvFits(env) && files != [] && runs != []
    requires Exactly(env, others.Some?, ColourableSite(env, files[1..]))
    requires others.Some? ==> Total(others.value) == Total(runs[1..]) && Enhanced(others.value) == Enhanced(runs[1..])
    requires Exactly(env, first.Some?, AllColourable(env, Sections(ParsePage("", files[0].text))))
    requires first.Some? ==> first.value.tally == runs[0].tally
    ensures var all := if first.Some? && others.Some? then Some([first.value] + others.value) else None;
            Exactly(env, all.Some?, ColourableSite(env, files)) &&
            (all.Some? ==> Total(all.value) == Total(runs) && Enhanced(all.value) == Enhanced(runs))
  {
    ColourableSiteCons(env, files);
    RunsJoined(first, others);
  }

  lemma FilesColourCons(env: Env, targets: Targets, files: seq<File>, runs: seq<PageRun>, pages: map<string, Record>,
                        first: Option<PageRun>)
    requires EnvFits(env) && AllReady(env, targets, files) && files != [] && runs != []
    requires Ready(env, targets, files[0].package) && AllReady(env, targets, files[1..])
    requires FilesColourRight(env, targets, files[1..], runs[1..], pages)
    requires first == RunPage(env, targets, files[0], RecordOf(Some(pages), files[0].package), false, true)
    requires Exactly(env, first.Some?, AllColourable(env, Sections(ParsePage("", files[0].text))))
    requires first.Some? ==> first.value.tally == runs[0].tally
    ensures FilesColourRight(env, targets, files, runs, pages)
  {
    var others := RunFiles(env, targets, files[1..], Some(pages), false, true);
    OneMorePage(env, files, runs, first, others);
    FilesStep(env, targets, files, Some(pages), false, true);
  }

  lemma ProcessFresh(env: Env, files: seq<File>, linking: Options, targets: Targets, runs: Option<seq<PageRun>>)
    requires EnvFits(env) && SiteFits(files) && Runnable(env, files, None, linking)
    requires TargetsOf(env, files) == Some(targets) && AllReady(env, targets, files)
    requires RunFiles(env, targets, files, None, false, false) == runs
    ensures Process(env, files, None, linking) ==
            if runs.Some? then Conclude(files, None, linking, false, runs.value) else None
  {
  }

  /** Linking a fresh site gets as far as its coverage test exactly if discovery succeeds and every
      page is linkable. */
  lemma FreshSiteLinks(env: Env, files: seq<File>, linking: Options, targets: Targets) returns (runs: Option<seq<PageRun>>)
    requires EnvFits(env) && SiteFits(files) && Runnable(env, files, None, linking)
    requires TargetsOf(env, files) == Some(targets)
    ensures AllReady(env, targets, files) && RunFiles(env, targets, files, None, false, false) == runs
    ensures Exactly(env, runs.Some?, LinkableSite(env, targets, files))
    ensures Process(env, files, None, linking) ==
            if runs.Some? then Conclude(files, None, linking, false, runs.value) else None
  {
    SiteReady(env, files);
    FreshFiles(env, targets, files);
    runs := RunFiles(env, targets, files, None, false, false);
    ProcessFresh(env, files, linking, targets, runs);
  }

  lemma ColourProcess(env: Env, targets: Targets, files: seq<File>, runs: seq<PageRun>, pages: map<string, Record>,
                      colouring: Options)
    requires EnvFits(env) && SiteFits(files) && AllReady(env, targets, files)
    requires FilesColourRight(env, targets, files, runs, pages)
    requires Distinct(files) && Packages(files) == env.sources.Keys && pages.Keys == Packages(files)
    requires TargetsOf(env, files) == if AnchorsDistinct(files) then Some(targets) else None
    requires colouring.highlight
    requires Total(runs).linked >= colouring.minimumLinks && Enhanced(runs) >= colouring.minimumPages
    ensures var coloured := Process(env, files, Some(Manifest(pages, false)), colouring);
            Exactly(env, coloured.Some?, AnchorsDistinct(files) && ColourableSite(env, files)) &&
            (coloured.Some? ==> coloured.value.wrote == coloured.value.manifest.highlighting == !colouring.check)
  {
  }

  /** After linking a fresh site, colouring it succeeds exactly if no page repeats an anchor and every
      linked snippet is colourable. */
  lemma LinkThenColour(env: Env, files: seq<File>, linking: Options, colouring: Options)
    requires EnvFits(env) && SiteFits(files) && Process(env, files, None, linking).Some?
    requires colouring.highlight
    requires colouring.minimumLinks <= linking.minimumLinks && colouring.minimumPages <= linking.minimumPages
    ensures var linked := Process(env, files, None, linking).value;
            SiteFits(linked.files) && linked.wrote && !linked.manifest.highlighting &&
            var coloured := Process(env, linked.files, Some(linked.manifest), colouring);
            Exactly(env, coloured.Some?, AnchorsDistinct(linked.files) && ColourableSite(env, linked.files)) &&
            (coloured.Some? ==> coloured.value.wrote == coloured.value.manifest.highlighting == !colouring.check)
  {
    var targets, runs := RunBehind(env, files, None, linking);
    WrittenResult(files, None, linking, false, runs);
    TargetsAgain(env, targets, files, None, false, false);
    RecordsHeld(files, runs);
    WrittenKeeps(files, runs);
    FilesColour(env, targets, files, Records(files, runs));
    ColourProcess(env, targets, Written(files, runs), runs, Records(files, runs), colouring);
  }

  /** And then every later run that asks for no more, checking or not, accepts the site and writes
      nothing, exactly if no page repeats an anchor. */
  lemma LinkThenColourThenCheck(env: Env, files: seq<File>, linking: Options, colouring: Options, later: Options)
    requires EnvFits(env) && SiteFits(files) && Process(env, files, None, linking).Some?
    requires colouring.highlight && !colouring.check
    requires colouring.minimumLinks <= linking.minimumLinks && colouring.minimumPages <= linking.minimumPages
    requires later.minimumLinks <= colouring.minimumLinks && later.minimumPages <= colouring.minimumPages
    ensures var linked := Process(env, files, None, linking).value;
            SiteFits(linked.files) &&
            var coloured := Process(env, linked.files, Some(linked.manifest), colouring);
            Exactly(env, coloured.Some?, AnchorsDistinct(linked.files) && ColourableSite(env, linked.files)) &&
            (coloured.Some? ==>
               SiteFits(coloured.value.files) &&
               Process(env, coloured.value.files, Some(coloured.value.manifest), later) ==
               if AnchorsDistinct(coloured.value.files) then Some(coloured.value.(wrote := false)) else None)
  {
    LinkThenColour(env, files, linking, colouring);
    var linked := Process(env, files, None, linking).value;
    if Process(env, linked.files, Some(linked.manifest), colouring).Some? {
      RunIsIdempotent(env, linked.files, Some(linked.manifest), colouring, later);
    }
  }
}
