/** Package pages as text around declaration sections, found by the SECTION expression. Replacing
    the bodies of sections neither hides a section nor makes up a new one. */
module Pages {
  import opened Texts
  import opened Patterns
  import opened Markup

  predicate HeadingChar(c: char) {
    c != '<'
  }

  const ID_OPEN := "<h4 id="
  const CODE_OPEN := "</h4><pre class=ada-code-snippet><code>"
  const FOOTER := "</code></pre>"

  /** SECTION up to the body; captures are the anchor and the heading. */
  const HEADER: Pattern := Literal(ID_OPEN, Run(IdChar, 1, HEADER_TEXT))
  const HEADER_TEXT := Literal(">", Run(HeadingChar, 1, HEADER_END))
  const HEADER_END := Literal(CODE_OPEN, Done)

  datatype Section = Section(captures: seq<string>, body: string)

  function Header(captures: seq<string>): string {
    Print(HEADER, captures)
  }

  function ShowSection(section: Section): string {
    Header(section.captures) + section.body + FOOTER
  }

  datatype Hit = NoHit | Hit(section: Section, length: nat)

  /** SECTION.match at the start of s; the body is the shortest possible. */
  function MatchSection(s: string): (r: Hit)
    ensures r.Hit? ==> 0 < r.length <= |s| && s[..r.length] == ShowSection(r.section) &&
                       Fits(HEADER, r.section.captures)
  {
    match Match(HEADER, s)
    case Missing => NoHit
    case Found(captures, n) =>
      match FindText(s, n, FOOTER)
      case None => NoHit
      case Some(k) =>
        PrintMatched(HEADER, s);
        Slices(s, n, k - n);
        Slices(s, k, |FOOTER|);
        Hit(Section(captures, s[n..k]), k + |FOOTER|)
  }

  /** A page: text, then a section and the rest of the page, or nothing more. */
  datatype Page = Last(text: string) | Part(text: string, section: Section, rest: Page)

  function ShowPage(page: Page): string {
    match page
    case Last(text) => text
    case Part(text, section, rest) => text + ShowSection(section) + ShowPage(rest)
  }

  /** The pieces SECTION.finditer cuts a page into; text was read already. */
  function ParsePage(text: string, s: string): Page
    decreases |s|
  {
    if s == "" then Last(text)
    else
      match MatchSection(s)
      case Hit(section, n) => Part(text, section, ParsePage("", s[n..]))
      case NoHit => ParsePage(text + [s[0]], s[1..])
  }

  function Sections(page: Page): seq<Section> {
    match page
    case Last(_) => []
    case Part(_, section, rest) => [section] + Sections(rest)
  }

  function BodiesIn(sections: seq<Section>): (r: seq<string>)
    ensures |r| == |sections| && forall i :: 0 <= i < |r| ==> r[i] == sections[i].body
  {
    if sections == [] then [] else [sections[0].body] + BodiesIn(sections[1..])
  }

  /** The page with other bodies, in order; surplus bodies are ignored, missing ones keep the old. */
  function WithBodies(page: Page, bodies: seq<string>): Page {
    match page
    case Last(text) => Last(text)
    case Part(text, section, rest) =>
      if bodies == [] then page else Part(text, section.(body := bodies[0]), WithBodies(rest, bodies[1..]))
  }

  /** str.replace(sub, "", 1) */
  function RemoveFirst(s: string, sub: string): string {
    if sub == "" then s
    else
      match FindText(s, 0, sub)
      case None => s
      case Some(k) => s[..k] + s[k + |sub|..]
  }

  /** What outside_hash hashes: the page with the first occurrence of its body taken out of every
      section. */
  function Outside(page: Page): string {
    match page
    case Last(text) => text
    case Part(text, section, rest) => text + RemoveFirst(ShowSection(section), section.body) + Outside(rest)
  }

  // ----- a header never reaches across the start of another section

  lemma HeaderPattern()
    ensures Separated(HEADER)
  {
    assert Separated(HEADER_TEXT);
  }

  lemma HeaderParts(captures: seq<string>)
    requires Fits(HEADER, captures)
    ensures |captures| == 2 && captures[0] != "" && AllOf(captures[0], IdChar)
    ensures captures[1] != "" && AllOf(captures[1], HeadingChar)
    ensures Header(captures) == ID_OPEN + captures[0] + ">" + captures[1] + CODE_OPEN
  {
    FitsStep(HEADER, captures);
    FitsStep(HEADER_TEXT, captures[1..]);
    PrintStep(HEADER, captures);
    PrintStep(HEADER_TEXT, captures[1..]);
    var none := captures[1..][1..];
    assert Fits(HEADER_END, none) == Fits(Done, none) == (none == []);
    assert Print(HEADER_END, none) == CODE_OPEN + "" == CODE_OPEN;
    Five(ID_OPEN, captures[0], ">", captures[1], CODE_OPEN);
  }

  lemma Five(a: string, b: string, c: string, d: string, e: string)
    ensures a + (b + (c + (d + e))) == a + b + c + d + e
  {
  }

  /** Inside a header, no "<" but the first begins "<h4 ". */
  lemma HeaderHasOneStart(id: string, heading: string, q: nat)
    requires AllOf(id, IdChar) && AllOf(heading, HeadingChar) && heading != ""
    requires var h := ID_OPEN + id + ">" + heading + CODE_OPEN;
             0 < q < |h| && h[q] == '<'
    ensures var h := ID_OPEN + id + ">" + heading + CODE_OPEN;
            q + 1 < |h| && (h[q + 1] == 'h' ==> q + 3 < |h| && (h[q + 2] != '4' || h[q + 3] != ' '))
  {
    var a, b, c, d := |ID_OPEN|, |ID_OPEN + id|, |ID_OPEN + id + ">"|, |ID_OPEN + id + ">" + heading|;
    var h := ID_OPEN + id + ">" + heading + CODE_OPEN;
    assert |h| >= c + 1 + |CODE_OPEN|;
    assert forall j :: 0 <= j < a ==> h[j] == ID_OPEN[j];
    assert h[b] == '>';
    assert forall j :: c <= j < d ==> h[j] == heading[j - c];
    if a <= q < b {
      InId(id, heading, q);
    } else if d <= q {
      assert h[q] == CODE_OPEN[q - d];
      InCode(q - d);
      assert h[q + 1] == CODE_OPEN[q - d + 1];
    }
  }

  lemma InCode(k: nat)
    requires k < |CODE_OPEN| && CODE_OPEN[k] == '<'
    ensures k + 1 < |CODE_OPEN| && CODE_OPEN[k + 1] != 'h'
  {
  }

  lemma InId(id: string, heading: string, q: nat)
    requires AllOf(id, IdChar) && heading != "" && |ID_OPEN| <= q < |ID_OPEN| + |id|
    ensures var h := ID_OPEN + id + ">" + heading + CODE_OPEN;
            q + 3 < |h| && (h[q + 1] == 'h' && h[q + 2] == '4' ==> h[q + 3] != ' ')
  {
    var h, a := ID_OPEN + id + ">" + heading + CODE_OPEN, |ID_OPEN|;
    assert forall j :: a <= j < a + |id| ==> h[j] == id[j - a];
    assert h[a + |id|] == '>';
  }

  lemma HeaderSpans(id: string, heading: string, s: string, q: nat)
    requires AllOf(id, IdChar) && AllOf(heading, HeadingChar) && heading != ""
    requires StartsWith(s, ID_OPEN + id + ">" + heading + CODE_OPEN) && 0 < q < |ID_OPEN + id + ">" + heading + CODE_OPEN|
    requires q + 3 < |s|
    ensures !(s[q] == '<' && s[q + 1] == 'h' && s[q + 2] == '4' && s[q + 3] == ' ')
  {
    var h := ID_OPEN + id + ">" + heading + CODE_OPEN;
    StartsAt(s, h, q);
    if s[q] == '<' {
      HeaderHasOneStart(id, heading, q);
      StartsAt(s, h, q + 1);
      if s[q + 1] == 'h' {
        StartsAt(s, h, q + 2);
        StartsAt(s, h, q + 3);
      }
    }
  }

  /** A header that begins in front of a section ends in front of it. */
  lemma HeaderBefore(t: string, y: string)
    requires t != "" && |y| >= 4 && y[0] == '<' && y[1] == 'h' && y[2] == '4' && y[3] == ' '
    requires Match(HEADER, t + y).Found?
    ensures Match(HEADER, t + y).length <= |t|
  {
    var s, captures := t + y, Match(HEADER, t + y).captures;
    PrintMatched(HEADER, s);
    HeaderParts(captures);
    if |t| < |Header(captures)| {
      HeaderSpans(captures[0], captures[1], s, |t|);
    }
  }

  // ----- pages read back as they were written

  /** The body does not run into its footer. */
  predicate BodyFits(body: string) {
    FirstAt(body + FOOTER, 0, |body|, FOOTER)
  }

  lemma FindIs(s: string, i: nat, k: nat, literal: string)
    requires FirstAt(s, i, k, literal)
    ensures FindText(s, i, literal) == Some(k)
  {
    var r := FindText(s, i, literal);
    if r.Some? {
      assert !(k < r.value);
      assert !(r.value < k);
    }
  }

  lemma AtShift(a: string, b: string, k: nat, literal: string)
    ensures At(a + b, |a| + k, literal) <==> At(b, k, literal)
  {
    if |a| + k + |literal| <= |a + b| {
      assert (a + b)[|a| + k..|a| + k + |literal|] == b[k..k + |literal|];
    }
  }

  lemma AtPrefix(a: string, b: string, k: nat, literal: string)
    requires k + |literal| <= |a|
    ensures At(a + b, k, literal) <==> At(a, k, literal)
  {
    assert (a + b)[k..k + |literal|] == a[k..k + |literal|];
  }

  lemma SamePlaces(header: string, body: string, literal: string, rest: string, j: nat)
    requires j <= |body|
    ensures At(header + (body + literal + rest), |header| + j, literal) <==> At(body + literal, j, literal)
  {
    AtShift(header, body + literal + rest, j, literal);
    AtPrefix(body + literal, rest, j, literal);
  }

  /** Where a literal first stands in body and literal, it first stands in their surroundings, and
      the other way round. */
  lemma FirstAround(header: string, body: string, literal: string, rest: string)
    ensures FirstAt(body + literal, 0, |body|, literal) <==>
            FirstAt(header + (body + literal + rest), |header|, |header| + |body|, literal)
  {
    var s := header + (body + literal + rest);
    SamePlaces(header, body, literal, rest, |body|);
    forall j | 0 <= j < |body|
      ensures At(s, |header| + j, literal) <==> At(body + literal, j, literal)
    {
      SamePlaces(header, body, literal, rest, j);
    }
    if FirstAt(body + literal, 0, |body|, literal) {
      forall j | |header| <= j < |header| + |body|
        ensures !At(s, j, literal)
      {
        SamePlaces(header, body, literal, rest, j - |header|);
      }
    }
  }

  lemma SectionText(header: string, body: string, rest: string)
    ensures header + body + FOOTER + rest == header + (body + FOOTER + rest)
    ensures (header + (body + FOOTER + rest))[|header|..|header| + |body|] == body
  {
  }

  lemma SectionMatched(section: Section, rest: string)
    requires Fits(HEADER, section.captures) && BodyFits(section.body)
    ensures MatchSection(ShowSection(section) + rest) == Hit(section, |ShowSection(section)|)
  {
    var header, body := Header(section.captures), section.body;
    HeaderPattern();
    MatchPrinted(HEADER, section.captures, body + FOOTER + rest);
    FirstAround(header, body, FOOTER, rest);
    FindIs(header + (body + FOOTER + rest), |header|, |header| + |body|, FOOTER);
    SectionText(header, body, rest);
  }

  /** No section begins inside t when y follows. */
  ghost predicate Solid(t: string, y: string) {
    forall p :: 0 <= p < |t| ==> MatchSection(t[p..] + y).NoHit?
  }

  /** Whether a section begins inside text in front of another section does not depend on what
      that section holds. */
  lemma SolidStays(t: string, section: Section, rest: string, section': Section, rest': string)
    requires Solid(t, ShowSection(section) + rest)
    requires Fits(HEADER, section.captures) && section.captures == section'.captures
    ensures Solid(t, ShowSection(section') + rest')
  {
    forall p | 0 <= p < |t|
      ensures MatchSection(t[p..] + (ShowSection(section') + rest')).NoHit?
    {
      assert MatchSection(t[p..] + (ShowSection(section) + rest)).NoHit?;
      MissStays(t[p..], section, rest, section', rest');
    }
  }

  lemma SectionStart(section: Section, rest: string)
    requires Fits(HEADER, section.captures)
    ensures var y := ShowSection(section) + rest;
            |y| >= 4 && y[0] == '<' && y[1] == 'h' && y[2] == '4' && y[3] == ' '
  {
    HeaderParts(section.captures);
    var y := ShowSection(section) + rest;
    assert forall j :: 0 <= j < 4 ==> y[j] == ID_OPEN[j];
  }

  lemma MissStays(t: string, section: Section, rest: string, section': Section, rest': string)
    requires t != "" && MatchSection(t + (ShowSection(section) + rest)).NoHit?
    requires Fits(HEADER, section.captures) && section.captures == section'.captures
    ensures MatchSection(t + (ShowSection(section') + rest')).NoHit?
  {
    var y, y' := ShowSection(section) + rest, ShowSection(section') + rest';
    if Match(HEADER, t + y').Found? {
      SectionStart(section', rest');
      HeaderBefore(t, y');
      HeaderCarries(t, y', y);
      FooterAhead(t, section, rest);
    }
  }

  lemma FooterAhead(t: string, section: Section, rest: string)
    ensures At(t + (ShowSection(section) + rest), |t| + |Header(section.captures)| + |section.body|, FOOTER)
  {
    var front := t + Header(section.captures) + section.body;
    assert t + (ShowSection(section) + rest) == front + (FOOTER + rest);
    AtShift(front, FOOTER + rest, 0, FOOTER);
    assert (FOOTER + rest)[0..|FOOTER|] == FOOTER;
  }

  /** A header inside t is found whatever follows t. */
  lemma HeaderCarries(t: string, y': string, y: string)
    requires Match(HEADER, t + y').Found? && Match(HEADER, t + y').length <= |t|
    ensures Match(HEADER, t + y) == Match(HEADER, t + y')
  {
    var found := Match(HEADER, t + y');
    PrintMatched(HEADER, t + y');
    HeaderPattern();
    var header := Header(found.captures);
    assert header == t[..found.length];
    assert t + y == header + (t[found.length..] + y);
    MatchPrinted(HEADER, found.captures, t[found.length..] + y);
  }

  /** Every section is where the scan finds it, and nothing in between is taken for one. */
  ghost predicate WellCut(page: Page) {
    match page
    case Last(text) => Solid(text, "")
    case Part(text, section, rest) =>
      Fits(HEADER, section.captures) && BodyFits(section.body) &&
      Solid(text, ShowSection(section) + ShowPage(rest)) && WellCut(rest)
  }

  lemma {:induction false} SkipText(read: string, t: string, y: string)
    requires Solid(t, y)
    ensures ParsePage(read, t + y) == ParsePage(read + t, y)
    decreases |t|
  {
    if t == "" {
      assert t + y == y && read + t == read;
    } else {
      var s := t + y;
      assert t[0..] == t;
      assert s[1..] == t[1..] + y && s[0] == t[0];
      forall p | 0 <= p < |t[1..]|
        ensures MatchSection(t[1..][p..] + y).NoHit?
      {
        assert t[1..][p..] == t[p + 1..];
      }
      SkipText(read + [t[0]], t[1..], y);
      assert read + [t[0]] + t[1..] == read + t;
    }
  }

  /** A well-cut page is read back as it was written. */
  lemma {:induction false} ParseWritten(page: Page)
    requires WellCut(page)
    ensures ParsePage("", ShowPage(page)) == page
  {
    match page
    case Last(text) =>
      assert text + "" == text && "" + text == text;
      SkipText("", text, "");
    case Part(text, section, rest) =>
      var y := ShowSection(section) + ShowPage(rest);
      assert ShowPage(page) == text + y;
      SkipText("", text, y);
      assert "" + text == text;
      SectionMatched(section, ShowPage(rest));
      assert y[|ShowSection(section)|..] == ShowPage(rest);
      ParseWritten(rest);
  }

  // ----- what the scan cuts is well cut, and stays so under other bodies

  lemma PieceBack(read: string, s: string, n: nat)
    requires n <= |s|
    ensures read + s[..n] + s[n..] == read + s && "" + s[n..] == s[n..]
  {
    assert s[..n] + s[n..] == s;
  }

  lemma {:induction false} CutShown(read: string, s: string)
    ensures ShowPage(ParsePage(read, s)) == read + s
    decreases |s|
  {
    if s == "" {
      assert read + "" == read;
    } else {
      match MatchSection(s)
      case Hit(section, n) =>
        CutShown("", s[n..]);
        PieceBack(read, s, n);
      case NoHit =>
        CutShown(read + [s[0]], s[1..]);
        PieceBack(read, s, 1);
        assert s[..1] == [s[0]];
    }
  }

  lemma HitBodyFits(s: string)
    requires MatchSection(s).Hit?
    ensures BodyFits(MatchSection(s).section.body)
  {
    var n := Match(HEADER, s).length;
    var k := FindText(s, n, FOOTER).value;
    Surroundings(s, n, k, FOOTER);
    FirstAround(s[..n], s[n..k], FOOTER, s[k + |FOOTER|..]);
  }

  lemma Surroundings(s: string, n: nat, k: nat, literal: string)
    requires n <= k && At(s, k, literal)
    ensures s == s[..n] + (s[n..k] + literal + s[k + |literal|..])
  {
  }

  lemma SolidSnoc(read: string, c: char, y: string)
    requires Solid(read, [c] + y) && MatchSection([c] + y).NoHit?
    ensures Solid(read + [c], y)
  {
    forall p | 0 <= p < |read + [c]|
      ensures MatchSection((read + [c])[p..] + y).NoHit?
    {
      if p < |read| {
        assert (read + [c])[p..] + y == read[p..] + ([c] + y);
        assert MatchSection(read[p..] + ([c] + y)).NoHit?;
      } else {
        assert (read + [c])[p..] + y == [c] + y;
      }
    }
  }

  lemma HitWell(read: string, s: string)
    requires MatchSection(s).Hit? && Solid(read, s)
    requires var rest := ParsePage("", s[MatchSection(s).length..]);
             WellCut(rest) && ShowPage(rest) == s[MatchSection(s).length..]
    ensures WellCut(Part(read, MatchSection(s).section, ParsePage("", s[MatchSection(s).length..])))
  {
    HitBodyFits(s);
    assert s[..MatchSection(s).length] + s[MatchSection(s).length..] == s;
  }

  lemma {:induction false} CutWell(read: string, s: string)
    requires Solid(read, s)
    ensures WellCut(ParsePage(read, s))
    decreases |s|
  {
    if s == "" {
    } else if MatchSection(s).Hit? {
      var n := MatchSection(s).length;
      CutWell("", s[n..]);
      CutShown("", s[n..]);
      PieceBack(read, s, n);
      HitWell(read, s);
    } else {
      assert [s[0]] + s[1..] == s;
      SolidSnoc(read, s[0], s[1..]);
      CutWell(read + [s[0]], s[1..]);
    }
  }

  /** Other bodies that fit leave the page well cut: the scan finds the same sections, with them. */
  lemma {:induction false} BodiesWellCut(page: Page, bodies: seq<string>)
    requires WellCut(page) && forall body :: body in bodies ==> BodyFits(body)
    ensures WellCut(WithBodies(page, bodies))
  {
    match page
    case Last(_) =>
    case Part(text, section, rest) =>
      if bodies != [] {
        assert bodies[0] in bodies && forall body :: body in bodies[1..] ==> body in bodies;
        BodiesWellCut(rest, bodies[1..]);
        SolidStays(text, section, ShowPage(rest), section.(body := bodies[0]), ShowPage(WithBodies(rest, bodies[1..])));
      }
  }

  /** Rewriting the bodies of a page's sections and scanning the result finds exactly the same
      sections and surrounding text, with the new bodies. */
  lemma RewrittenPage(s: string, bodies: seq<string>)
    requires forall body :: body in bodies ==> BodyFits(body)
    ensures var page := WithBodies(ParsePage("", s), bodies);
            ParsePage("", ShowPage(page)) == page
  {
    CutWell("", s);
    BodiesWellCut(ParsePage("", s), bodies);
    ParseWritten(WithBodies(ParsePage("", s), bodies));
  }

  ghost predicate SectionsFit(page: Page) {
    forall section :: section in Sections(page) ==> Fits(HEADER, section.captures)
  }

  lemma {:induction false} WellCutFits(page: Page)
    requires WellCut(page)
    ensures SectionsFit(page)
  {
    match page
    case Last(_) =>
    case Part(_, section, rest) =>
      WellCutFits(rest);
  }

  /** Every section found on a page has a header. */
  lemma ParsedFits(s: string)
    ensures SectionsFit(ParsePage("", s)) && ShowPage(ParsePage("", s)) == s
  {
    CutWell("", s);
    WellCutFits(ParsePage("", s));
    CutShown("", s);
    assert "" + s == s;
  }
}
