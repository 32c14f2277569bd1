/** What discovery reads off the text of a whole page: its heading, its snippets and its anchors; and
    what rewriting snippets does to them. */
module Anchors {
  import opened Texts
  import opened Patterns
  import opened Markup
  import opened Documents
  import opened Pages

  /** <h1>([^<]+)</h1> */
  const HEADING: Pattern := Literal("<h1>", Run(HeadingChar, 1, HEADING_END))
  const HEADING_END := Literal("</h1>", Done)

  const SNIPPET: Pattern := Literal("<pre class=ada-code-snippet>", Done)

  function Headings(text: string): seq<seq<string>> {
    FindAll(HEADING, text)
  }

  function SnippetCount(text: string): nat {
    |FindAll(SNIPPET, text)|
  }

  // ----- headings and snippets are found in front of bodies or behind them, never inside

  const CODE := "<code>"

  ghost predicate PageTag(pattern: Pattern, c: char) {
    (pattern == HEADING && c == 'h') || (pattern == SNIPPET && c == 'p')
  }

  lemma PageTagPattern(pattern: Pattern, c: char)
    requires PageTag(pattern, c)
    ensures TagPattern(pattern, c) && Separated(pattern)
  {
    assert Separated(HEADING_END);
  }

  lemma HeadingPrinted(captures: seq<string>)
    requires Fits(HEADING, captures)
    ensures captures != [] && AllOf(captures[0], HeadingChar) && Print(HEADING, captures) == "<h1>" + captures[0] + "</h1>"
  {
    FitsStep(HEADING, captures);
    PrintStep(HEADING, captures);
    var none := captures[1..];
    assert Print(HEADING_END, none) == "</h1>" + "" == "</h1>";
    Associate("<h1>", captures[0], "</h1>");
  }

  /** The tags of a heading are not <code>. */
  lemma HeadingHasNoCode(h: string, q: nat)
    requires AllOf(h, HeadingChar)
    requires var s := "<h1>" + h + "</h1>"; q < |s| && s[q] == '<'
    ensures var s := "<h1>" + h + "</h1>"; q + 1 < |s| && s[q + 1] != 'c'
  {
    var s := "<h1>" + h + "</h1>";
    assert forall j :: 4 <= j < 4 + |h| ==> s[j] == h[j - 4];
  }

  lemma HeadingBeforeCode(a: string, y: string)
    requires Match(HEADING, a + CODE + y).Found?
    ensures Match(HEADING, a + CODE + y).length <= |a|
  {
    var s := a + CODE + y;
    var found := Match(HEADING, s);
    PrintMatched(HEADING, s);
    HeadingPrinted(found.captures);
    var printed := "<h1>" + found.captures[0] + "</h1>";
    assert s[|a|] == '<' && s[|a| + 1] == 'c';
    if found.length > |a| {
      assert printed == s[..found.length];
      assert printed[|a|] == s[|a|];
      HeadingHasNoCode(found.captures[0], |a|);
    }
  }

  lemma SnippetBeforeCode(a: string, y: string)
    requires Match(SNIPPET, a + CODE + y).Found?
    ensures Match(SNIPPET, a + CODE + y).length <= |a|
  {
    var s, open := a + CODE + y, SNIPPET.text;
    assert s[|a|] == '<' && s[|a| + 1] == 'c';
    assert forall j :: 0 < j < |open| ==> open[j] != '<';
    assert open[1] == 'p';
    LiteralFirst(SNIPPET, s);
    if |a| < |open| {
      StartsAt(s, open, if |a| == 0 then 1 else |a|);
    }
  }

  lemma CodeStops(pattern: Pattern, c: char, a: string, y: string)
    requires PageTag(pattern, c)
    ensures Contained(pattern, a + CODE, y)
  {
    var x := a + CODE;
    PageTagPattern(pattern, c);
    forall p | 0 <= p < |x|
      ensures Match(pattern, x[p..] + y) == Match(pattern, x[p..])
    {
      if p <= |a| {
        assert x[p..] == a[p..] + CODE;
        if Match(pattern, x[p..] + y).Found? {
          if pattern == HEADING { HeadingBeforeCode(a[p..], y); } else { SnippetBeforeCode(a[p..], y); }
        }
        SameMatch(pattern, x[p..], y);
      } else {
        NoMatchInCode(pattern, c, CODE[p - |a|..], y);
        NoMatchInCode(pattern, c, CODE[p - |a|..], "");
        assert x[p..] == CODE[p - |a|..] && x[p..] + "" == x[p..];
      }
    }
  }

  lemma NoMatchInCode(pattern: Pattern, c: char, u: string, y: string)
    requires PageTag(pattern, c) && u != "" && u[0] != '<'
    ensures Match(pattern, u + y).Missing?
  {
    PageTagPattern(pattern, c);
    if Match(pattern, u + y).Found? {
      MatchAdvances(pattern, c, u + y);
    }
  }

  /** A header ends where its snippet begins. */
  lemma HeaderEnds(captures: seq<string>) returns (front: string)
    requires Fits(HEADER, captures)
    ensures Header(captures) == front + CODE && |captures| == 2
    ensures front == ID_OPEN + captures[0] + ">" + captures[1] + "</h4><pre class=ada-code-snippet>"
  {
    HeaderParts(captures);
    front := ID_OPEN + captures[0] + ">" + captures[1] + "</h4><pre class=ada-code-snippet>";
    assert CODE_OPEN == "</h4><pre class=ada-code-snippet>" + CODE;
  }

  lemma FoundAround(pattern: Pattern, c: char, before: string, captures: seq<string>, body: string, rest: string)
    requires PageTag(pattern, c) && Fits(HEADER, captures) && NoTag(body, c)
    ensures FindAll(pattern, before + Header(captures) + (body + rest)) ==
            FindAll(pattern, before + Header(captures)) + FindAll(pattern, rest)
  {
    PageTagPattern(pattern, c);
    var front := HeaderEnds(captures);
    assert before + Header(captures) == before + front + CODE;
    CodeStops(pattern, c, before + front, body + rest);
    FindAllApart(pattern, before + Header(captures), body + rest);
    Copied(pattern, c, 0, body, rest);
  }

  ghost predicate BodiesFree(bodies: seq<string>, c: char) {
    forall body :: body in bodies ==> NoTag(body, c)
  }

  lemma ShownPart(before: string, text: string, section: Section, rest: string)
    ensures before + (text + ShowSection(section) + rest) ==
            before + text + Header(section.captures) + (section.body + (FOOTER + rest))
  {
  }

  /** What is found on a page does not depend on bodies without such tags. */
  lemma {:induction false} FoundOnPage(pattern: Pattern, c: char, before: string, page: Page, bodies: seq<string>)
    requires PageTag(pattern, c) && SectionsFit(page) && |bodies| == |Sections(page)|
    requires BodiesFree(BodiesIn(Sections(page)), c) && BodiesFree(bodies, c)
    ensures FindAll(pattern, before + ShowPage(WithBodies(page, bodies))) == FindAll(pattern, before + ShowPage(page))
    decreases page
  {
    match page
    case Last(_) =>
    case Part(text, section, rest) =>
      var rest' := WithBodies(rest, bodies[1..]);
      assert section in Sections(page) && Sections(page)[1..] == Sections(rest) && bodies[0] in bodies;
      assert BodiesIn(Sections(page)) == [section.body] + BodiesIn(Sections(rest));
      FoundOnPage(pattern, c, FOOTER, rest, bodies[1..]);
      ShownPart(before, text, section, ShowPage(rest));
      ShownPart(before, text, section.(body := bodies[0]), ShowPage(rest'));
      FoundAround(pattern, c, before + text, section.captures, section.body, FOOTER + ShowPage(rest));
      FoundAround(pattern, c, before + text, section.captures, bodies[0], FOOTER + ShowPage(rest'));
  }

  /** No tag in a document but our own. */
  lemma {:induction false} DocHasNoTag(doc: Doc, c: char)
    requires Clean(doc) && !HasStray(doc) && c != 'a' && c != 's' && c != '/'
    ensures NoTag(Show(doc), c)
  {
    match doc
    case Nothing =>
    case Text(text, next) =>
      DocHasNoTag(next, c);
      TextHasNoTag(text, c);
      NoTagJoin(text, Show(next), c);
    case Anchor(link, next) =>
      DocHasNoTag(next, c);
      OurTagsOnly(c);
      PrintTagFree(LINK, link, c);
      NoTagJoin(Print(LINK, link), Show(next), c);
    case Colour(category, content, next) =>
      DocHasNoTag(next, c);
      OurTagsOnly(c);
      SpanPrinted(category, content);
      PrintTagFree(SPAN, [category, content], c);
      NoTagJoin(PrintSpan(category, content), Show(next), c);
    case Stray(_, _, _) =>
      assert false;
  }

  lemma OurTagsOnly(c: char)
    requires c != 'a' && c != 's' && c != '/'
    ensures TagFree(LINK, c) && TagFree(SPAN, c)
  {
    assert NoTag(LINK_CLOSE, c) && NoTag(SPAN_CLOSE, c);
    assert TagFree(LINK_END, c) && TagFree(SPAN_END, c);
    assert TagFree(LINK_SHOWN, c) && TagFree(SPAN_CONTENT, c);
    assert TagFree(LINK_DATA, c);
  }

  // ----- anchors: \bid=([^ >]+)

  /** "id=" stands in s at i. */
  predicate IdHere(s: string, i: nat) {
    i + 3 <= |s| && s[i] == 'i' && s[i + 1] == 'd' && s[i + 2] == '='
  }

  /** Where an anchor that begins s ends; 0 if none does. */
  function IdEnd(s: string): (e: nat)
    ensures e > 0 ==> 3 < e <= |s|
  {
    if IdHere(s, 0) && RunEnd(s, 3, IdChar) > 3 then RunEnd(s, 3, IdChar) else 0
  }

  /** Everything findall captures in s; inWord tells whether a word character stands in front of it.
      What follows a match is no word character. */
  function Ids(inWord: bool, s: string): seq<string>
    decreases |s|
  {
    if s == "" then []
    else if !inWord && IdEnd(s) > 0 then [s[3..IdEnd(s)]] + Ids(false, s[IdEnd(s)..])
    else Ids(Alphanumeric(s[0]), s[1..])
  }

  predicate NoRepeat(ids: seq<string>) {
    |ids| == |set id | id in ids|
  }

  lemma SetOfSnoc(front: seq<string>, last: string)
    ensures (set id | id in front + [last]) == (set id | id in front) + {last}
    ensures last in (set id | id in front) <==> exists i :: 0 <= i < |front| && front[i] == last
  {
  }

  predicate Different(ids: seq<string>) {
    forall i, j :: 0 <= i < j < |ids| ==> ids[i] != ids[j]
  }

  lemma DifferentSnoc(front: seq<string>, last: string)
    ensures Different(front + [last]) <==> Different(front) && forall i :: 0 <= i < |front| ==> front[i] != last
  {
    var ids := front + [last];
    assert forall i :: 0 <= i < |front| ==> ids[i] == front[i];
    if Different(ids) {
      assert ids[|front|] == last;
    }
  }

  lemma {:induction false} NoRepeatMeans(ids: seq<string>)
    ensures NoRepeat(ids) <==> Different(ids)
    ensures |set id | id in ids| <= |ids|
  {
    if ids == [] {
    } else {
      var front, last := ids[..|ids| - 1], ids[|ids| - 1];
      assert ids == front + [last];
      NoRepeatMeans(front);
      SetOfSnoc(front, last);
      DifferentSnoc(front, last);
    }
  }

  predicate Separator(c: char) {
    c == ' ' || c == '>'
  }

  lemma RunToSeparator(a: string, c: char, b: string, i: nat)
    requires Separator(c) && i <= |a|
    ensures RunEnd(a + [c] + b, i, IdChar) == RunEnd(a, i, IdChar)
    decreases |a| - i
  {
    var s := a + [c] + b;
    assert s[|a|] == c;
    if i < |a| {
      assert s[i] == a[i];
      if IdChar(a[i]) {
        RunToSeparator(a, c, b, i + 1);
      }
    }
  }

  lemma IdEndToSeparator(a: string, c: char, b: string)
    requires Separator(c)
    ensures IdEnd(a + [c] + b) == IdEnd(a)
  {
    var s := a + [c] + b;
    assert s[|a|] == c && forall i :: 0 <= i < |a| ==> s[i] == a[i];
    if |a| >= 3 {
      RunToSeparator(a, c, b, 3);
    }
  }

  lemma IdsShort(inWord: bool, s: string)
    requires s != "" && (inWord || IdEnd(s) == 0)
    ensures Ids(inWord, s) == Ids(Alphanumeric(s[0]), s[1..])
  {
  }

  lemma IdsFound(s: string)
    requires s != "" && IdEnd(s) > 0
    ensures Ids(false, s) == [s[3..IdEnd(s)]] + Ids(false, s[IdEnd(s)..])
  {
  }

  /** Anchors in front of a separator and behind it are found apart. */
  lemma IdsBehind(inWord: bool, c: char, b: string)
    requires Separator(c)
    ensures Ids(inWord, [c] + b) == [] + Ids(false, b)
  {
    IdsShort(inWord, [c] + b);
    assert ([c] + b)[1..] == b;
  }

  lemma BehindFirst(a: string, s: string, b: string)
    requires a != ""
    ensures (a + s + b)[0] == a[0] && (a + s + b)[1..] == a[1..] + s + b
  {
  }

  lemma {:induction false} IdsApart(inWord: bool, a: string, c: char, b: string)
    requires Separator(c)
    ensures Ids(inWord, a + [c] + b) == Ids(inWord, a) + Ids(false, b)
    decreases |a|
  {
    var s := a + [c] + b;
    IdEndToSeparator(a, c, b);
    if a == "" {
      IdsBehind(inWord, c, b);
      assert s == [c] + b;
    } else if !inWord && IdEnd(a) > 0 {
      var e := IdEnd(a);
      IdsApart(false, a[e..], c, b);
      IdsFound(s);
      IdsFound(a);
      FoundInFront(a, c, b, e);
      ThreeLists([a[3..e]], Ids(false, a[e..]), Ids(false, b));
    } else {
      IdsApart(Alphanumeric(a[0]), a[1..], c, b);
      IdsShort(inWord, s);
      IdsShort(inWord, a);
      BehindFirst(a, [c], b);
    }
  }

  lemma FoundInFront(a: string, c: char, b: string, e: nat)
    requires 3 < e <= |a|
    ensures (a + [c] + b)[e..] == a[e..] + [c] + b && (a + [c] + b)[3..e] == a[3..e]
  {
  }

  predicate NoId(s: string) {
    forall i :: 0 <= i < |s| ==> !IdHere(s, i)
  }

  lemma {:induction false} NoIds(inWord: bool, s: string)
    requires NoId(s)
    ensures Ids(inWord, s) == []
    decreases |s|
  {
    if s == "" {
    } else {
      assert !IdHere(s, 0);
      assert s[..1] + s[1..] + "" == s;
      NoIdPart(s[..1], s[1..], "");
      NoIds(Alphanumeric(s[0]), s[1..]);
    }
  }

  lemma NoIdPart(front: string, s: string, behind: string)
    requires NoId(front + s + behind)
    ensures NoId(s)
  {
    forall i | 0 <= i < |s|
      ensures !IdHere(s, i)
    {
      assert !IdHere(front + s + behind, |front| + i);
    }
  }

  /** Put together at a character that no anchor's beginning goes on with, texts without anchors
      have none. */
  lemma NoIdJoin(a: string, b: string)
    requires NoId(a) && NoId(b) && (b == "" || (b[0] != 'd' && b[0] != '='))
    ensures NoId(a + b)
  {
    forall i | 0 <= i < |a + b|
      ensures !IdHere(a + b, i)
    {
      if i < |a| {
        assert !IdHere(a, i);
      } else {
        assert !IdHere(b, i - |a|);
      }
    }
  }

  lemma NoIdWithout(s: string)
    requires '=' !in s
    ensures NoId(s)
  {
  }

  // ----- anchors in a snippet are anchors in the addresses of its links

  /** The anchors an address is taken for. */
  function HrefIds(href: string): seq<string> {
    Ids(false, "href=\"" + href + "\"")
  }

  function LinkIds(links: seq<seq<string>>): seq<string> {
    if links == [] then [] else HrefIds(Nth(links[0], 0)) + LinkIds(links[1..])
  }

  const BODY_END := "</code"

  /** The anchors in the body of a section. */
  function BodyIds(body: string): seq<string> {
    Ids(false, body + BODY_END)
  }

  lemma TailHasNoId(text: string, tail: string)
    requires NoId(text) && (tail == BODY_END || tail == "<a" || tail == "<span" || tail == "</a" || tail == "</span")
    ensures NoId(text + tail)
  {
    NoIdWithout(tail);
    NoIdJoin(text, tail);
  }

  lemma OpenShape(href: string, target: string)
    ensures LinkOpen(href, target) ==
            "<a" + [' '] + ("class=\"type-reference\"" + [' '] + ("href=\"" + href + "\"" + [' '] +
            ("data-type=\"" + target + "\"" + ['>'])))
  {
  }

  /** Six parts around five separators, with more in front and behind. */
  lemma Regrouped(front: string, a: string, b: string, c: string, d: string, e: string, f: string, rest: string)
    ensures front + ((a + [' '] + (b + [' '] + (c + [' '] + (d + ['>']))) + e + (f + ['>'])) + rest) ==
            (front + a) + [' '] + (b + [' '] + (c + [' '] + (d + ['>'] + ((e + f) + ['>'] + rest))))
  {
  }

  lemma LinkShape(front: string, href: string, target: string, caption: string, rest: string)
    ensures front + (Print(LINK, [href, target, caption]) + rest) ==
            (front + "<a") + [' '] + ("class=\"type-reference\"" + [' '] + (("href=\"" + href + "\"") + [' '] +
            (("data-type=\"" + target + "\"") + ['>'] + ((caption + "</a") + ['>'] + rest))))
  {
    LinkPrinted(href, target, caption);
    OpenShape(href, target);
    assert LINK_CLOSE == "</a" + ['>'];
    Regrouped(front, "<a", "class=\"type-reference\"", "href=\"" + href + "\"", "data-type=\"" + target + "\"", caption, "</a", rest);
  }

  lemma TypeHasNoId(target: string)
    requires AllOf(target, TargetChar)
    ensures NoId("data-type=\"" + target + "\"")
  {
    NoIdWithout(target);
    NoIdWithout("\"");
    NoIdJoin(target, "\"");
    assert NoId("data-type=\"");
    var s := "data-type=\"" + target + "\"";
    forall i | 0 <= i < |s|
      ensures !IdHere(s, i)
    {
      assert 10 < i + 2 < 11 + |target| ==> TargetChar(target[i + 2 - 11]);
    }
  }

  lemma LinkHasIds(inWord: bool, front: string, link: seq<string>, rest: string)
    requires ValidLink(link) && NoId(front) && NoId(link[CAPTION])
    ensures Ids(inWord, front + (Print(LINK, link) + rest)) == HrefIds(link[0]) + Ids(false, rest)
  {
    LinkFits(link);
    assert link == [link[0], link[1], link[2]];
    LinkShape(front, link[0], link[1], link[2], rest);
    LinkPartsHaveNoId(inWord, front, link);
    FiveParts(inWord, front + "<a", "class=\"type-reference\"", "href=\"" + link[0] + "\"", "data-type=\"" + link[1] + "\"",
              link[2] + "</a", rest);
  }

  lemma ReferenceHasNoId()
    ensures NoId("class=\"type-reference\"")
  {
    var s := "class=\"type-reference\"";
    assert forall i :: 0 <= i < |s| && s[i] == '=' ==> i == 5;
  }

  lemma LinkPartsHaveNoId(inWord: bool, front: string, link: seq<string>)
    requires |link| == 3 && AllOf(link[1], TargetChar) && NoId(front) && NoId(link[CAPTION])
    ensures Ids(inWord, front + "<a") == [] && Ids(false, "class=\"type-reference\"") == []
    ensures Ids(false, "data-type=\"" + link[1] + "\"") == [] && Ids(false, link[2] + "</a") == []
  {
    TailHasNoId(front, "<a");
    TailHasNoId(link[2], "</a");
    TypeHasNoId(link[1]);
    ReferenceHasNoId();
    NoIds(inWord, front + "<a");
    NoIds(false, "class=\"type-reference\"");
    NoIds(false, "data-type=\"" + link[1] + "\"");
    NoIds(false, link[2] + "</a");
  }

  lemma FiveParts(inWord: bool, a: string, b: string, c: string, d: string, e: string, rest: string)
    requires Ids(inWord, a) == [] && Ids(false, b) == [] && Ids(false, d) == [] && Ids(false, e) == []
    ensures Ids(inWord, a + [' '] + (b + [' '] + (c + [' '] + (d + ['>'] + (e + ['>'] + rest))))) == Ids(false, c) + Ids(false, rest)
  {
    var behindD := e + ['>'] + rest;
    var behindC := d + ['>'] + behindD;
    var behindB := c + [' '] + behindC;
    IdsApart(inWord, a, ' ', b + [' '] + behindB);
    IdsApart(false, b, ' ', behindB);
    IdsApart(false, c, ' ', behindC);
    IdsApart(false, d, '>', behindD);
    IdsApart(false, e, '>', rest);
  }

  lemma SpanShape(front: string, category: string, content: string, rest: string)
    ensures front + (PrintSpan(category, content) + rest) ==
            (front + "<span") + [' '] + (("class=\"ada-" + category + "\"") + ['>'] + ((content + "</span") + ['>'] + rest))
  {
  }

  lemma ClassHasNoId(category: string)
    requires category in CLASSES
    ensures NoId("class=\"ada-" + category + "\"")
  {
    assert AllOf(category, LowerLetter);
    var s := "class=\"ada-" + category + "\"";
    forall i | 0 <= i < |s|
      ensures !IdHere(s, i)
    {
      assert 10 < i + 2 < 11 + |category| ==> LowerLetter(category[i + 2 - 11]);
    }
  }

  lemma SpanHasNoIds(inWord: bool, front: string, category: string, content: string, rest: string)
    requires category in CLASSES && NoId(front) && NoId(content)
    ensures Ids(inWord, front + (PrintSpan(category, content) + rest)) == Ids(false, rest)
  {
    SpanShape(front, category, content, rest);
    TailHasNoId(front, "<span");
    TailHasNoId(content, "</span");
    ClassHasNoId(category);
    NoIds(inWord, front + "<span");
    NoIds(false, "class=\"ada-" + category + "\"");
    NoIds(false, content + "</span");
    IdsApart(inWord, front + "<span", ' ', ("class=\"ada-" + category + "\"") + ['>'] + ((content + "</span") + ['>'] + rest));
    IdsApart(false, "class=\"ada-" + category + "\"", '>', (content + "</span") + ['>'] + rest);
    IdsApart(false, content + "</span", '>', rest);
  }

  lemma AnchorIds(inWord: bool, front: string, link: seq<string>, shown: string, words: string)
    requires ValidLink(link) && NoId(front + (link[CAPTION] + words))
    ensures NoId(words)
    ensures Ids(inWord, front + (Print(LINK, link) + shown + BODY_END)) == HrefIds(link[0]) + BodyIds(shown)
  {
    WordsHaveNoId(front, link[CAPTION], words);
    Associate(Print(LINK, link), shown, BODY_END);
    LinkHasIds(inWord, front, link, shown + BODY_END);
  }

  lemma ColourIds(inWord: bool, front: string, category: string, content: string, shown: string, words: string)
    requires category in CLASSES && NoId(front + (content + words))
    ensures NoId(words)
    ensures Ids(inWord, front + (PrintSpan(category, content) + shown + BODY_END)) == BodyIds(shown)
  {
    WordsHaveNoId(front, content, words);
    Associate(PrintSpan(category, content), shown, BODY_END);
    SpanHasNoIds(inWord, front, category, content, shown + BODY_END);
  }

  lemma TextIds(front: string, text: string, shown: string, words: string)
    ensures front + (text + words) == front + text + words
    ensures front + (text + shown + BODY_END) == front + text + (shown + BODY_END)
    ensures "" + words == words && "" + (shown + BODY_END) == shown + BODY_END
  {
  }

  lemma EndIds(inWord: bool, front: string)
    requires NoId(front + "")
    ensures Ids(inWord, front + ("" + BODY_END)) == []
  {
    assert front + "" == front && "" + BODY_END == BODY_END;
    TailHasNoId(front, BODY_END);
    NoIds(inWord, front + BODY_END);
  }

  /** front was read already. */
  lemma {:induction false} DocIds(inWord: bool, front: string, doc: Doc)
    requires Clean(doc) && !HasStray(doc) && NoId(front + Words(doc))
    ensures Ids(inWord, front + (Show(doc) + BODY_END)) == LinkIds(Links(doc))
    decreases doc
  {
    match doc
    case Nothing =>
      EndIds(inWord, front);
    case Text(text, next) =>
      TextIds(front, text, Show(next), Words(next));
      DocIds(inWord, front + text, next);
    case Anchor(link, next) =>
      AnchorIds(inWord, front, link, Show(next), Words(next));
      TextIds("", "", Show(next), Words(next));
      DocIds(false, "", next);
    case Colour(category, content, next) =>
      ColourIds(inWord, front, category, content, Show(next), Words(next));
      TextIds("", "", Show(next), Words(next));
      DocIds(false, "", next);
    case Stray(_, _, _) =>
      assert false;
  }

  lemma WordsHaveNoId(front: string, text: string, behind: string)
    requires NoId(front + (text + behind))
    ensures NoId(front) && NoId(text) && NoId(behind)
  {
    assert front + (text + behind) == "" + front + (text + behind) == front + text + behind == front + text + behind + "";
    NoIdPart("", front, text + behind);
    NoIdPart(front, text, behind);
    NoIdPart(front + text, behind, "");
  }

  /** In a snippet whose text holds no anchor, the anchors are those its links lead to. */
  lemma SnippetIds(doc: Doc)
    requires Clean(doc) && !HasStray(doc) && NoId(Words(doc))
    ensures BodyIds(Show(doc)) == LinkIds(Links(doc))
  {
    assert "" + Words(doc) == Words(doc) && "" + (Show(doc) + BODY_END) == Show(doc) + BODY_END;
    DocIds(false, "", doc);
  }

  // ----- anchors of a page

  const SECTION_END := "</pre>"

  /** The anchors in front of a body: those of the text behind the section before, and of the header. */
  function FrameIds(text: string, captures: seq<string>): seq<string> {
    Ids(false, text + Header(captures))
  }

  /** The anchors of a page, given those in the body of each section. */
  function PageIds(before: string, page: Page, inBodies: seq<seq<string>>): seq<string>
    decreases page
  {
    match page
    case Last(text) => Ids(false, before + text)
    case Part(text, section, rest) =>
      if inBodies == [] then []
      else FrameIds(before + text, section.captures) + inBodies[0] + PageIds(SECTION_END, rest, inBodies[1..])
  }

  function AllBodyIds(bodies: seq<string>): (r: seq<seq<string>>)
    ensures |r| == |bodies|
  {
    if bodies == [] then [] else [BodyIds(bodies[0])] + AllBodyIds(bodies[1..])
  }

  lemma IdsInPart(before: string, captures: seq<string>, body: string, rest: string)
    requires Fits(HEADER, captures)
    ensures Ids(false, before + Header(captures) + (body + (FOOTER + rest))) ==
            FrameIds(before, captures) + BodyIds(body) + Ids(false, SECTION_END + rest)
  {
    var front := HeaderEnds(captures);
    var header := before + front + BODY_OPEN;
    assert CODE == BODY_OPEN + ['>'];
    assert before + Header(captures) == header + ['>'];
    assert FOOTER == BODY_END + ['>'] + SECTION_END;
    var tail := SECTION_END + rest;
    assert body + (FOOTER + rest) == (body + BODY_END) + ['>'] + tail;
    assert header + ['>'] + "" == header + ['>'];
    IdsApart(false, header, '>', "");
    IdsApart(false, header, '>', (body + BODY_END) + ['>'] + tail);
    IdsApart(false, body + BODY_END, '>', tail);
    ThreeLists(Ids(false, header), BodyIds(body), Ids(false, tail));
  }

  const BODY_OPEN := "<code"

  lemma IdChunk(id: string)
    requires id != "" && AllOf(id, IdChar)
    ensures Ids(false, "id=" + id) == [id]
  {
    var s := "id=" + id;
    RunIs("id=" + id, "", IdChar);
    assert s + "" == s;
    assert forall j :: 3 <= j < |s| ==> IdChar(s[j]);
    assert IdEnd(s) == |s| && s[3..|s|] == id && s[|s|..] == "";
    IdsFound(s);
  }

  const SNIPPET_OPEN := "<pre class=ada-code-snippet><code>"

  lemma SnippetOpenHasNoId()
    ensures Ids(false, SNIPPET_OPEN) == []
  {
    assert SNIPPET_OPEN == "<pre class" + "=ada-code-snippet><code>";
    NoIdWithout("<pre class");
    assert NoId("=ada-code-snippet><code>");
    var a, b := "<pre class", "=ada-code-snippet><code>";
    forall i | 0 <= i < |a + b|
      ensures !IdHere(a + b, i)
    {
      if i >= |a| {
        assert !IdHere(b, i - |a|);
      } else {
        assert a[8] == 's' && a[9] == 's';
      }
    }
    NoIds(false, SNIPPET_OPEN);
  }

  lemma HeaderChunks(text: string, id: string, heading: string, behind: string)
    ensures text + ("<h4" + [' '] + "id=" + id + ">" + heading + ("</h4" + ['>'] + behind)) ==
            (text + "<h4") + [' '] + (("id=" + id) + ['>'] + ((heading + "</h4") + ['>'] + behind))
  {
  }

  lemma FourLists(a: seq<string>, b: seq<string>, c: seq<string>)
    ensures a + (b + (c + [])) == a + b + c
  {
  }

  lemma ChunksApart(a: string, b: string, c: string, d: string)
    ensures Ids(false, a + [' '] + (b + ['>'] + (c + ['>'] + d))) ==
            Ids(false, a) + (Ids(false, b) + (Ids(false, c) + Ids(false, d)))
  {
    IdsApart(false, c, '>', d);
    IdsApart(false, b, '>', c + ['>'] + d);
    IdsApart(false, a, ' ', b + ['>'] + (c + ['>'] + d));
  }

  lemma OpenLiterals()
    ensures ID_OPEN == "<h4" + [' '] + "id=" && CODE_OPEN == "</h4" + ['>'] + SNIPPET_OPEN
  {
    CodeOpens();
  }

  lemma CodeOpens()
    ensures CODE_OPEN == "</h4" + ['>'] + SNIPPET_OPEN
  {
    CloseOpens(SNIPPET_OPEN);
    assert CODE_OPEN == "</h4>" + SNIPPET_OPEN;
  }

  lemma CloseOpens(behind: string)
    ensures "</h4" + ['>'] + behind == "</h4>" + behind
  {
  }

  lemma HeaderShape(text: string, captures: seq<string>)
    requires Fits(HEADER, captures)
    ensures |captures| == 2 && captures[0] != "" && AllOf(captures[0], IdChar)
    ensures text + Header(captures) ==
            (text + "<h4") + [' '] + (("id=" + captures[0]) + ['>'] + ((captures[1] + "</h4") + ['>'] + SNIPPET_OPEN))
  {
    HeaderParts(captures);
    OpenLiterals();
    HeaderChunks(text, captures[0], captures[1], SNIPPET_OPEN);
  }

  /** A header has its own anchor, behind those of the text in front and before those of its heading. */
  lemma HeaderAnchors(text: string, captures: seq<string>)
    requires Fits(HEADER, captures)
    ensures |captures| == 2
    ensures FrameIds(text, captures) == Ids(false, text + "<h4") + [captures[0]] + Ids(false, captures[1] + "</h4")
  {
    HeaderShape(text, captures);
    SnippetOpenHasNoId();
    ChunksApart(text + "<h4", "id=" + captures[0], captures[1] + "</h4", SNIPPET_OPEN);
    IdChunk(captures[0]);
    FourLists(Ids(false, text + "<h4"), [captures[0]], Ids(false, captures[1] + "</h4"));
  }

  lemma ThreeLists(a: seq<string>, b: seq<string>, c: seq<string>)
    ensures a + (b + c) == a + b + c && a + [] == a
  {
  }

  /** The anchors findall captures on a page. */
  lemma {:induction false} IdsOnPage(before: string, page: Page)
    requires SectionsFit(page)
    ensures Ids(false, before + ShowPage(page)) == PageIds(before, page, AllBodyIds(BodiesIn(Sections(page))))
    decreases page
  {
    match page
    case Last(_) =>
    case Part(text, section, rest) =>
      assert section in Sections(page) && forall s :: s in Sections(rest) ==> s in Sections(page);
      IdsOnPage(SECTION_END, rest);
      ShownPart(before, text, section, ShowPage(rest));
      IdsInPart(before + text, section.captures, section.body, ShowPage(rest));
      assert Sections(page)[1..] == Sections(rest) && BodiesIn(Sections(page))[1..] == BodiesIn(Sections(rest));
  }

  lemma {:induction false} IdsElsewhere(before: string, page: Page, bodies: seq<string>, inBodies: seq<seq<string>>)
    requires |bodies| == |Sections(page)|
    ensures PageIds(before, WithBodies(page, bodies), inBodies) == PageIds(before, page, inBodies)
    ensures BodiesIn(Sections(WithBodies(page, bodies))) == bodies
    decreases page
  {
    match page
    case Last(_) =>
    case Part(text, section, rest) =>
      IdsElsewhere(SECTION_END, rest, bodies[1..], if inBodies == [] then [] else inBodies[1..]);
      var all := Sections(WithBodies(page, bodies));
      assert all[1..] == Sections(WithBodies(rest, bodies[1..]));
      assert [bodies[0]] + bodies[1..] == bodies;
  }

  /** The test for duplicate anchors. */
  predicate DistinctAnchors(text: string) {
    NoRepeat(Ids(false, text))
  }
}
