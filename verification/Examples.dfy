/** Guide examples with reviewed links: a forward sweep over sorted positions that escapes, colours
    and anchors an Ada text, and what a reader gets back from it. */
module Examples {
  import opened Texts
  import opened Patterns
  import opened Markup
  import opened Documents
  import opened Offsets
  import opened Lexemes
  import H = Highlight
  import S = Spans

  // ----- html.escape(text, quote=False) and back

  /** s.replace(c, text) */
  function Replace(s: string, c: char, text: string): string {
    if s == "" then "" else (if s[0] == c then text else [s[0]]) + Replace(s[1..], c, text)
  }

  function Escape(text: string): string {
    Replace(Replace(Replace(text, '&', "&amp;"), '<', "&lt;"), '>', "&gt;")
  }

  function EscapeChar(c: char): string {
    if c == '&' then "&amp;" else if c == '<' then "&lt;" else if c == '>' then "&gt;" else [c]
  }

  /** The same, character by character. */
  function Escaped(text: string): string {
    if text == "" then "" else EscapeChar(text[0]) + Escaped(text[1..])
  }

  lemma {:induction false} ReplaceJoin(a: string, b: string, c: char, text: string)
    ensures Replace(a + b, c, text) == Replace(a, c, text) + Replace(b, c, text)
  {
    if a == "" {
      assert a + b == b;
    } else {
      ReplaceJoin(a[1..], b, c, text);
      assert (a + b)[0] == a[0] && (a + b)[1..] == a[1..] + b;
      Associate(if a[0] == c then text else [a[0]], Replace(a[1..], c, text), Replace(b, c, text));
    }
  }

  lemma {:induction false} ReplaceNothing(s: string, c: char, text: string)
    requires c !in s
    ensures Replace(s, c, text) == s
  {
    if s != "" {
      ReplaceNothing(s[1..], c, text);
      assert s == [s[0]] + s[1..];
    }
  }

  lemma ReplaceOne(c: char, text: string)
    ensures Replace([c], c, text) == text
  {
    assert [c][1..] == "" && text + "" == text;
  }

  lemma EscapeOne(c: char)
    ensures Escape([c]) == EscapeChar(c)
  {
    if c == '&' {
      ReplaceOne(c, "&amp;");
      ReplaceNothing("&amp;", '<', "&lt;");
      ReplaceNothing("&amp;", '>', "&gt;");
    } else {
      ReplaceNothing([c], '&', "&amp;");
      if c == '<' {
        ReplaceOne(c, "&lt;");
        ReplaceNothing("&lt;", '>', "&gt;");
      } else {
        ReplaceNothing([c], '<', "&lt;");
        if c == '>' {
          ReplaceOne(c, "&gt;");
        } else {
          ReplaceNothing([c], '>', "&gt;");
        }
      }
    }
  }

  lemma EscapeJoin(a: string, b: string)
    ensures Escape(a + b) == Escape(a) + Escape(b)
  {
    ReplaceJoin(a, b, '&', "&amp;");
    var a1, b1 := Replace(a, '&', "&amp;"), Replace(b, '&', "&amp;");
    ReplaceJoin(a1, b1, '<', "&lt;");
    ReplaceJoin(Replace(a1, '<', "&lt;"), Replace(b1, '<', "&lt;"), '>', "&gt;");
  }

  /** Replacing in turn never touches what an earlier replacement wrote. */
  lemma {:induction false} EscapeIsCharwise(text: string)
    ensures Escape(text) == Escaped(text)
  {
    if text == "" {
    } else {
      EscapeIsCharwise(text[1..]);
      EscapeOne(text[0]);
      EscapeJoin([text[0]], text[1..]);
      assert [text[0]] + text[1..] == text;
    }
  }

  lemma {:induction false} EscapedHasNoBracket(text: string)
    ensures '<' !in Escaped(text) && '>' !in Escaped(text)
  {
    if text != "" {
      EscapedHasNoBracket(text[1..]);
    }
  }

  /** The three references and plain characters read as they should. */
  ghost predicate Basic(unescape: Unescape) {
    unescape("&amp;") == "&" && unescape("&lt;") == "<" && unescape("&gt;") == ">" && forall c :: unescape([c]) == [c]
  }

  lemma NamedUnit(name: string, rest: string)
    requires name != "" && AllOf(name, LetterOrDigit)
    ensures UnitLength("&" + name + ";" + rest) == |name| + 2
  {
    var s := "&" + name + ";" + rest;
    NamedPrinted(name);
    MatchPrinted(NAMED, [name], rest);
    assert s[1] == name[0] && s[..2][1] == s[1] && s[..3][1] == s[1];
  }

  lemma NamedPrinted(name: string)
    requires name != "" && AllOf(name, LetterOrDigit)
    ensures Fits(NAMED, [name]) && Print(NAMED, [name]) == "&" + name + ";" && Separated(NAMED)
  {
    assert Print(SEMICOLON, []) == ";" + "" == ";";
    assert [name][1..] == [];
    FitsStep(NAMED, [name]);
    PrintStep(NAMED, [name]);
    assert Fits(SEMICOLON, []);
    Associate("&", name, ";");
  }

  lemma PlainUnit(c: char, rest: string)
    requires c != '&'
    ensures UnitLength([c] + rest) == 1
  {
    var s := [c] + rest;
    assert forall n :: 0 < n <= |s| ==> s[..n][0] == c;
  }

  /** One escaped character is one unit of the decoder. */
  lemma EscapedUnit(c: char, rest: string)
    ensures UnitLength(EscapeChar(c) + rest) == |EscapeChar(c)|
  {
    if c == '&' {
      NamedUnit("amp", rest);
      assert "&" + "amp" + ";" == "&amp;";
    } else if c == '<' {
      NamedUnit("lt", rest);
      assert "&" + "lt" + ";" == "&lt;";
    } else if c == '>' {
      NamedUnit("gt", rest);
      assert "&" + "gt" + ";" == "&gt;";
    } else {
      PlainUnit(c, rest);
    }
  }

  /** What raw holds from i on is this text, escaped. */
  predicate HoldsEscaped(raw: string, i: nat, text: string) {
    i <= |raw| && raw[i..] == Escaped(text)
  }

  lemma CutUnit(raw: string, i: nat, unit: string, rest: string)
    requires i <= |raw| && raw[i..] == unit + rest
    ensures i + |unit| <= |raw| && raw[i..i + |unit|] == unit && raw[i + |unit|..] == rest
  {
    var n := |unit|;
    assert raw[i..][..n] == unit && raw[i..][n..] == rest;
    assert raw[i..i + n] == raw[i..][..n] && raw[i + n..] == raw[i..][n..];
  }

  /** The first unit of raw from i on is the first character, escaped. */
  lemma EscapedStep(raw: string, i: nat, text: string) returns (n: nat)
    requires HoldsEscaped(raw, i, text) && text != ""
    ensures i < i + n <= |raw| && n == UnitLength(raw[i..]) && raw[i..i + n] == EscapeChar(text[0])
    ensures HoldsEscaped(raw, i + n, text[1..])
  {
    n := |EscapeChar(text[0])|;
    EscapedUnit(text[0], Escaped(text[1..]));
    CutUnit(raw, i, EscapeChar(text[0]), Escaped(text[1..]));
  }

  lemma UnescapedChar(unescape: Unescape, c: char)
    requires Basic(unescape)
    ensures unescape(EscapeChar(c)) == [c]
  {
  }

  lemma SingleStep(unescape: Unescape, raw: string, i: nat, text: string) returns (n: nat)
    requires Basic(unescape) && HoldsEscaped(raw, i, text) && text != ""
    ensures i < i + n <= |raw| && HoldsEscaped(raw, i + n, text[1..])
    ensures SingleCharacters(unescape, raw, i + n) ==> SingleCharacters(unescape, raw, i)
  {
    n := EscapedStep(raw, i, text);
    UnescapedChar(unescape, text[0]);
  }

  lemma {:induction false} EscapedSingle(unescape: Unescape, raw: string, i: nat, text: string)
    requires Basic(unescape) && HoldsEscaped(raw, i, text)
    ensures SingleCharacters(unescape, raw, i)
    decreases |text|
  {
    if text == "" {
      assert i == |raw|;
    } else {
      var n := SingleStep(unescape, raw, i, text);
      EscapedSingle(unescape, raw, i + n, text[1..]);
    }
  }

  lemma DecodeStep(unescape: Unescape, raw: string, i: nat, text: string) returns (n: nat)
    requires Basic(unescape) && HoldsEscaped(raw, i, text) && text != ""
    ensures i < i + n <= |raw| && HoldsEscaped(raw, i + n, text[1..])
    ensures Decoded(Cells(unescape, raw, i + n)) == text[1..] ==> Decoded(Cells(unescape, raw, i)) == text
  {
    n := EscapedStep(raw, i, text);
    UnescapedChar(unescape, text[0]);
    if Decoded(Cells(unescape, raw, i + n)) == text[1..] {
      UnitDecoded(unescape, raw, i, n, text);
    }
  }

  lemma NothingEscaped(unescape: Unescape, raw: string, i: nat)
    requires HoldsEscaped(raw, i, "")
    ensures Decoded(Cells(unescape, raw, i)) == ""
  {
    assert i == |raw|;
  }

  lemma {:induction false} EscapedDecodes(unescape: Unescape, raw: string, i: nat, text: string)
    requires Basic(unescape) && HoldsEscaped(raw, i, text)
    ensures Decoded(Cells(unescape, raw, i)) == text
    decreases |text|
  {
    if text == "" {
      NothingEscaped(unescape, raw, i);
    } else {
      var n := DecodeStep(unescape, raw, i, text);
      EscapedDecodes(unescape, raw, i + n, text[1..]);
    }
  }

  lemma UnitDecoded(unescape: Unescape, raw: string, i: nat, n: nat, text: string)
    requires text != "" && i < i + n <= |raw| && n == UnitLength(raw[i..])
    requires unescape(raw[i..i + n]) == [text[0]] && Decoded(Cells(unescape, raw, i + n)) == text[1..]
    ensures Decoded(Cells(unescape, raw, i)) == text
  {
    FirstDecoded(UnitCells(unescape(raw[i..i + n]), i, i + n), Cells(unescape, raw, i + n), text);
  }

  lemma FirstDecoded(unit: seq<Cell>, rest: seq<Cell>, text: string)
    requires text != "" && Decoded(unit) == [text[0]] && Decoded(rest) == text[1..]
    ensures Decoded(unit + rest) == text
  {
    assert Decoded(unit + rest) == Decoded(unit) + Decoded(rest);
  }

  /** Decoding an escaped text gives the text back. */
  lemma DecodeEscaped(unescape: Unescape, text: string)
    requires Basic(unescape)
    ensures Decoded(Cells(unescape, Escaped(text), 0)) == text
  {
    EscapedDecodes(unescape, Escaped(text), 0, text);
  }

  // ----- taking every tag off

  /** What stands outside angle brackets, begun inside a tag or not. */
  function Outside(s: string, inside: bool): string {
    if s == "" then ""
    else if s[0] == '<' then Outside(s[1..], true)
    else if inside then Outside(s[1..], s[0] != '>')
    else [s[0]] + Outside(s[1..], false)
  }

  /** Whether s leaves a tag open. */
  predicate OpenAfter(s: string, inside: bool) {
    if s == "" then inside
    else if s[0] == '<' then OpenAfter(s[1..], true)
    else OpenAfter(s[1..], inside && s[0] != '>')
  }

  lemma {:induction false} OutsideJoin(a: string, b: string, inside: bool)
    ensures Outside(a + b, inside) == Outside(a, inside) + Outside(b, OpenAfter(a, inside))
    ensures OpenAfter(a + b, inside) == OpenAfter(b, OpenAfter(a, inside))
    decreases |a|
  {
    if a == "" {
      assert a + b == b;
    } else {
      assert (a + b)[0] == a[0] && (a + b)[1..] == a[1..] + b;
      if a[0] == '<' {
        OutsideJoin(a[1..], b, true);
      } else if inside {
        OutsideJoin(a[1..], b, a[0] != '>');
      } else {
        OutsideJoin(a[1..], b, false);
      }
    }
  }

  /** Without its tags s reads as the text, escaped. */
  predicate Reads(s: string, text: string) {
    Outside(s, false) == Escaped(text) && !OpenAfter(s, false)
  }

  lemma {:induction false} EscapedJoin(a: string, b: string)
    ensures Escaped(a + b) == Escaped(a) + Escaped(b)
  {
    if a == "" {
      assert a + b == b;
    } else {
      EscapedJoin(a[1..], b);
      assert (a + b)[0] == a[0] && (a + b)[1..] == a[1..] + b;
      Associate(EscapeChar(a[0]), Escaped(a[1..]), Escaped(b));
    }
  }

  lemma ReadsJoin(a: string, b: string, text: string, text': string)
    requires Reads(a, text) && Reads(b, text')
    ensures Reads(a + b, text + text')
  {
    OutsideJoin(a, b, false);
    EscapedJoin(text, text');
  }

  lemma {:induction false} TextReads(s: string)
    requires '<' !in s
    ensures Outside(s, false) == s && !OpenAfter(s, false)
  {
    if s != "" {
      TextReads(s[1..]);
      assert s == [s[0]] + s[1..];
    }
  }

  lemma {:induction false} InTag(s: string)
    requires '<' !in s && '>' !in s
    ensures Outside(s, true) == "" && OpenAfter(s, true)
  {
    if s != "" {
      InTag(s[1..]);
    }
  }

  /** A tag adds nothing. */
  lemma TagReads(tag: string, content: string)
    requires tag == "<" + content + ">" && '<' !in content && '>' !in content
    ensures Reads(tag, "")
  {
    var open := "<" + content;
    assert open[1..] == content;
    InTag(content);
    OutsideJoin(open, ">", false);
  }

  /** Nor do tags around a text. */
  lemma EnclosedReads(open: string, content: string, close: string)
    requires Reads(open, "") && Reads(close, "") && '<' !in content
    ensures Outside(open + content + close, false) == content && !OpenAfter(open + content + close, false)
  {
    TextReads(content);
    OutsideJoin(open, content, false);
    OutsideJoin(open + content, close, false);
    assert "" + content + "" == content;
  }

  // ----- one coloured piece

  /** highlight_text(html.escape(text, quote=False)) */
  ghost function Piece(lexer: Lexer, unescape: Unescape, text: string): string
    requires LexerFits(lexer)
  {
    H.Coloured(lexer, unescape, Escape(text))
  }

  /** Both ends of an opening tag with something between them. */
  lemma TagAround(front: string, middle: string, front': string, back: string, back': string)
    requires front == "<" + front' && back == back' + ">"
    ensures front + middle + back == "<" + (front' + middle + back') + ">"
  {
  }

  lemma SpanOpenReads(category: string)
    requires category in CLASSES
    ensures Reads(SpanOpen(category), "") && Reads(SPAN_CLOSE, "")
  {
    assert AllOf(category, LowerLetter);
    TagAround("<span class=\"ada-", category, "span class=\"ada-", "\">", "\"");
    TagReads(SpanOpen(category), "span class=\"ada-" + category + "\"");
    TagReads(SPAN_CLOSE, "/span");
  }

  lemma SpanReads(category: string, content: string)
    requires category in CLASSES && '<' !in content
    ensures Outside(PrintSpan(category, content), false) == content && !OpenAfter(PrintSpan(category, content), false)
  {
    SpanOpenReads(category);
    EnclosedReads(SpanOpen(category), content, SPAN_CLOSE);
  }

  lemma {:induction false} DocReads(doc: Doc)
    requires Clean(doc) && !HasStray(doc) && Links(doc) == []
    ensures Outside(Show(doc), false) == Words(doc) && !OpenAfter(Show(doc), false)
  {
    match doc
    case Nothing =>
    case Text(text, next) =>
      DocReads(next);
      TextReads(text);
      OutsideJoin(text, Show(next), false);
    case Colour(category, content, next) =>
      DocReads(next);
      SpanReads(category, content);
      OutsideJoin(PrintSpan(category, content), Show(next), false);
    case _ =>
      assert false;
  }

  /** A coloured piece reads as its text. */
  lemma PieceReads(lexer: Lexer, unescape: Unescape, text: string)
    requires LexerFits(lexer) && Basic(unescape)
    ensures Reads(Piece(lexer, unescape, text), text)
  {
    var raw := Escaped(text);
    EscapeIsCharwise(text);
    EscapedHasNoBracket(text);
    EscapedSingle(unescape, raw, 0, text);
    var cells := OrderedCells(unescape, raw);
    SingleCells(unescape, raw, 0);
    H.SingleMarks(lexer, cells, Decoded(cells), 0, 0, |raw|);
    var doc := H.ColouredIsDoc(lexer, unescape, raw);
    DocReads(doc);
  }

  // ----- the sweep

  const ANCHOR := "<a class=\"ada-api-reference\" href=\""
  const END_CLASS := "ada-example-end"

  function EmptySpan(name: string): string {
    "<span class=\"" + name + "\">" + "</span>"
  }

  function AnchorOpen(href: string): string {
    ANCHOR + href + "\">"
  }

  function Prefix(landing: bool): string {
    if landing then "api/" else "../api/"
  }

  predicate Inside(text: string, positions: seq<S.Span>) {
    forall p :: p in positions ==> p.start < p.end <= |text|
  }

  ghost function Anchored(lexer: Lexer, unescape: Unescape, prefix: string, text: string, p: S.Span): string
    requires LexerFits(lexer) && p.start < p.end <= |text|
  {
    AnchorOpen(prefix + p.note) + Piece(lexer, unescape, text[p.start..p.end]) + LINK_CLOSE
  }

  function Put(front: string, rest: Option<string>): Option<string> {
    if rest.Some? then Some(front + rest.value) else None
  }

  /** The text from end on with its positions anchored; None if a position begins before end. */
  ghost function Sweep(lexer: Lexer, unescape: Unescape, prefix: string, text: string, positions: seq<S.Span>, end: nat)
    : Option<string>
    requires LexerFits(lexer) && Inside(text, positions) && end <= |text|
    decreases |positions|
  {
    if positions == [] then Some(Piece(lexer, unescape, text[end..]))
    else
      var p := positions[0];
      if p.start < end then None
      else
        Put(Piece(lexer, unescape, text[end..p.start]) + Anchored(lexer, unescape, prefix, text, p),
            Sweep(lexer, unescape, prefix, text, positions[1..], p.end))
  }

  function EndOf(text: string): string {
    if text != "" && text[|text| - 1] == '\n' then EmptySpan(END_CLASS) else ""
  }

  function Concat(parts: seq<string>): string {
    if parts == [] then "" else Concat(parts[..|parts| - 1]) + parts[|parts| - 1]
  }

  lemma ConcatSnoc(parts: seq<string>, part: string)
    ensures Concat(parts + [part]) == Concat(parts) + part
  {
    assert (parts + [part])[..|parts|] == parts;
  }

  method ColourPiece(lexer: Lexer, unescape: Unescape, text: string) returns (piece: string)
    requires LexerFits(lexer)
    ensures piece == Piece(lexer, unescape, text)
  {
    piece := H.HighlightText(lexer, unescape, Escape(text));
  }

  lemma PutTwice(front: string, more: string, rest: Option<string>)
    ensures Put(front, Put(more, rest)) == Put(front + more, rest)
  {
    if rest.Some? {
      Associate(front, more, rest.value);
    }
  }

  /** example_code, on positions already found: accepted exactly if no two of them overlap. */
  method ExampleCode(lexer: Lexer, unescape: Unescape, text: string, positions: seq<S.Span>, landing: bool)
    returns (result: Option<string>)
    requires LexerFits(lexer) && Inside(text, positions)
    ensures result.Some? <==> S.PairwiseDisjoint(positions)
    ensures result == Example(lexer, unescape, text, positions, landing)
  {
    var sorted := S.SortByStart(positions);
    SortedInside(text, positions);
    ExampleAccepts(lexer, unescape, text, positions, landing);
    var parts := SweepParts(lexer, unescape, Prefix(landing), text, sorted);
    if parts.None? {
      return None;
    }
    if text != "" && text[|text| - 1] == '\n' {
      ConcatSnoc(parts.value, EmptySpan(END_CLASS));
      return Some(Concat(parts.value + [EmptySpan(END_CLASS)]));
    }
    assert Concat(parts.value) + "" == Concat(parts.value);
    result := Some(Concat(parts.value));
  }

  /** The loop over the sorted positions. */
  method SweepParts(lexer: Lexer, unescape: Unescape, prefix: string, text: string, sorted: seq<S.Span>)
    returns (parts: Option<seq<string>>)
    requires LexerFits(lexer) && Inside(text, sorted)
    ensures var swept := Sweep(lexer, unescape, prefix, text, sorted, 0);
            swept == if parts.Some? then Some(Concat(parts.value)) else None
  {
    var found: seq<string>, end: nat, rest := [], 0, sorted;
    ghost var goal := Sweep(lexer, unescape, prefix, text, sorted, 0);
    PutNothing(goal);
    while rest != []
      invariant Inside(text, rest) && end <= |text|
      invariant Put(Concat(found), Sweep(lexer, unescape, prefix, text, rest, end)) == goal
      decreases |rest|
    {
      var p := rest[0];
      if p.start < end {
        return None;
      }
      var gap := ColourPiece(lexer, unescape, text[end..p.start]);
      var anchor := AnchorPiece(lexer, unescape, prefix, text, p);
      SweepNext(lexer, unescape, prefix, text, rest, end, found, gap, anchor);
      found, end, rest := found + [gap, anchor], p.end, rest[1..];
    }
    var last := ColourPiece(lexer, unescape, text[end..]);
    ConcatSnoc(found, last);
    parts := Some(found + [last]);
  }

  method AnchorPiece(lexer: Lexer, unescape: Unescape, prefix: string, text: string, p: S.Span) returns (anchor: string)
    requires LexerFits(lexer) && p.start < p.end <= |text|
    ensures anchor == Anchored(lexer, unescape, prefix, text, p)
  {
    var shown := ColourPiece(lexer, unescape, text[p.start..p.end]);
    anchor := AnchorOpen(prefix + p.note) + shown + LINK_CLOSE;
  }

  lemma SweepNext(lexer: Lexer, unescape: Unescape, prefix: string, text: string, rest: seq<S.Span>, end: nat,
                  found: seq<string>, gap: string, anchor: string)
    requires LexerFits(lexer) && Inside(text, rest) && rest != [] && end <= rest[0].start
    requires gap == Piece(lexer, unescape, text[end..rest[0].start]) && anchor == Anchored(lexer, unescape, prefix, text, rest[0])
    ensures Put(Concat(found), Sweep(lexer, unescape, prefix, text, rest, end)) ==
            Put(Concat(found + [gap, anchor]), Sweep(lexer, unescape, prefix, text, rest[1..], rest[0].end))
  {
    TwoMore(found, gap, anchor);
    PutTwice(Concat(found), gap + anchor, Sweep(lexer, unescape, prefix, text, rest[1..], rest[0].end));
  }

  lemma PutNothing(rest: Option<string>)
    ensures Put(Concat([]), rest) == rest
  {
    if rest.Some? {
      assert "" + rest.value == rest.value;
    }
  }

  lemma TwoMore(parts: seq<string>, a: string, b: string)
    ensures Concat(parts + [a, b]) == Concat(parts) + (a + b)
  {
    ConcatSnoc(parts, a);
    ConcatSnoc(parts + [a], b);
    assert parts + [a, b] == parts + [a] + [b];
    Associate(Concat(parts), a, b);
  }

  // ----- what comes out

  lemma SortedInside(text: string, positions: seq<S.Span>)
    requires Inside(text, positions)
    ensures Inside(text, S.SortByStart(positions))
  {
    S.SortKeeps(positions);
  }

  ghost function Swept(lexer: Lexer, unescape: Unescape, text: string, positions: seq<S.Span>, landing: bool): Option<string>
    requires LexerFits(lexer) && Inside(text, positions)
  {
    SortedInside(text, positions);
    Sweep(lexer, unescape, Prefix(landing), text, S.SortByStart(positions), 0)
  }

  ghost function Example(lexer: Lexer, unescape: Unescape, text: string, positions: seq<S.Span>, landing: bool): Option<string>
    requires LexerFits(lexer) && Inside(text, positions)
  {
    match Swept(lexer, unescape, text, positions, landing)
    case None => None
    case Some(swept) => Some(swept + EndOf(text))
  }

  lemma ApartTail(positions: seq<S.Span>, end: nat)
    requires positions != [] && S.Solid(positions)
    ensures S.Apart(positions) && S.From(positions, end) <==>
            end <= positions[0].start && S.Apart(positions[1..]) && S.From(positions[1..], positions[0].end)
  {
    var p, rest := positions[0], positions[1..];
    assert positions == [p] + rest;
    if S.Apart(positions) {
      S.TailOf(positions);
    }
    if S.Apart(rest) && S.From(rest, p.end) {
      S.ApartCons(p, rest);
      assert p in positions;
    }
  }

  /** The sweep goes through exactly if the positions stand apart behind end. */
  lemma {:induction false} SweepAccepts(lexer: Lexer, unescape: Unescape, prefix: string, text: string,
                                        positions: seq<S.Span>, end: nat)
    requires LexerFits(lexer) && Inside(text, positions) && end <= |text|
    ensures Sweep(lexer, unescape, prefix, text, positions, end).Some? <==> S.Apart(positions) && S.From(positions, end)
    decreases |positions|
  {
    if positions == [] {
    } else {
      ApartTail(positions, end);
      SweepAccepts(lexer, unescape, prefix, text, positions[1..], positions[0].end);
    }
  }

  lemma ExampleAccepts(lexer: Lexer, unescape: Unescape, text: string, positions: seq<S.Span>, landing: bool)
    requires LexerFits(lexer) && Inside(text, positions)
    ensures Example(lexer, unescape, text, positions, landing).Some? <==> S.PairwiseDisjoint(positions)
  {
    SortedInside(text, positions);
    S.SortedApart(positions);
    SweepAccepts(lexer, unescape, Prefix(landing), text, S.SortByStart(positions), 0);
  }

  /** An address that ends no tag. */
  predicate HrefsFit(positions: seq<S.Span>) {
    forall p :: p in positions ==> '<' !in p.note && '>' !in p.note
  }

  lemma AnchorOpenReads(href: string)
    requires '<' !in href && '>' !in href
    ensures Reads(AnchorOpen(href), "") && Reads(LINK_CLOSE, "")
  {
    var front := "a class=\"ada-api-reference\" href=\"";
    AnchorFront(front);
    TagAround(ANCHOR, href, front, "\">", "\"");
    TagReads(AnchorOpen(href), front + href + "\"");
    TagReads(LINK_CLOSE, "/a");
  }

  lemma AnchorFront(front: string)
    requires front == "a class=\"ada-api-reference\" href=\""
    ensures ANCHOR == "<" + front && '<' !in front && '>' !in front
  {
  }

  lemma AnchoredReads(lexer: Lexer, unescape: Unescape, prefix: string, text: string, p: S.Span)
    requires LexerFits(lexer) && Basic(unescape) && p.start < p.end <= |text|
    requires '<' !in prefix + p.note && '>' !in prefix + p.note
    ensures Reads(Anchored(lexer, unescape, prefix, text, p), text[p.start..p.end])
  {
    var shown := text[p.start..p.end];
    AnchorOpenReads(prefix + p.note);
    PieceReads(lexer, unescape, shown);
    AroundReads(AnchorOpen(prefix + p.note), Piece(lexer, unescape, shown), LINK_CLOSE, shown);
  }

  lemma AroundReads(open: string, inner: string, close: string, text: string)
    requires Reads(open, "") && Reads(inner, text) && Reads(close, "")
    ensures Reads(open + inner + close, text)
  {
    ReadsJoin(open, inner, "", text);
    ReadsJoin(open + inner, close, "" + text, "");
    assert "" + text + "" == text;
  }

  /** The swept text reads as the text. */
  lemma {:induction false} SweepReads(lexer: Lexer, unescape: Unescape, prefix: string, text: string,
                                      positions: seq<S.Span>, end: nat)
    requires LexerFits(lexer) && Basic(unescape) && Inside(text, positions) && end <= |text| && HrefsFit(positions)
    requires '<' !in prefix && '>' !in prefix
    requires Sweep(lexer, unescape, prefix, text, positions, end).Some?
    ensures Reads(Sweep(lexer, unescape, prefix, text, positions, end).value, text[end..])
    decreases |positions|
  {
    if positions == [] {
      PieceReads(lexer, unescape, text[end..]);
    } else {
      var p := positions[0];
      SweepReads(lexer, unescape, prefix, text, positions[1..], p.end);
      PieceReads(lexer, unescape, text[end..p.start]);
      AnchoredReads(lexer, unescape, prefix, text, p);
      ThreeRead(Piece(lexer, unescape, text[end..p.start]), Anchored(lexer, unescape, prefix, text, p),
                Sweep(lexer, unescape, prefix, text, positions[1..], p.end).value, text, end, p.start, p.end);
    }
  }

  lemma SlicesJoin(text: string, i: nat, j: nat, k: nat)
    requires i <= j <= k <= |text|
    ensures text[i..j] + text[j..k] == text[i..k]
  {
  }

  lemma ReadsTwo(a: string, b: string, text: string, i: nat, j: nat, k: nat)
    requires i <= j <= k <= |text| && Reads(a, text[i..j]) && Reads(b, text[j..k])
    ensures Reads(a + b, text[i..k])
  {
    ReadsJoin(a, b, text[i..j], text[j..k]);
    SlicesJoin(text, i, j, k);
  }

  lemma ThreeRead(a: string, b: string, c: string, text: string, i: nat, j: nat, k: nat)
    requires i <= j <= k <= |text|
    requires Reads(a, text[i..j]) && Reads(b, text[j..k]) && Reads(c, text[k..])
    ensures Reads(a + b + c, text[i..])
  {
    ReadsTwo(a, b, text, i, j, k);
    assert text[k..|text|] == text[k..] && text[i..|text|] == text[i..];
    ReadsTwo(a + b, c, text, i, k, |text|);
  }

  lemma EndReads(text: string)
    ensures Reads(EndOf(text), "")
  {
    EmptySpanReads(END_CLASS);
  }

  lemma EmptySpanReads(name: string)
    requires '<' !in name && '>' !in name
    ensures Reads(EmptySpan(name), "")
  {
    var open := "<span class=\"" + name + "\">";
    TagAround("<span class=\"", name, "span class=\"", "\">", "\"");
    TagReads(open, "span class=\"" + name + "\"");
    TagReads("</span>", "/span");
    JoinedSilent(open, "</span>");
  }

  lemma JoinedSilent(a: string, b: string)
    requires Reads(a, "") && Reads(b, "")
    ensures Reads(a + b, "")
  {
    ReadsJoin(a, b, "", "");
    assert "" + "" == "";
  }

  /** Taking all tags off an example and decoding its character references gives exactly the text. */
  lemma ExampleKeepsText(lexer: Lexer, unescape: Unescape, text: string, positions: seq<S.Span>, landing: bool)
    requires LexerFits(lexer) && Basic(unescape) && Inside(text, positions) && HrefsFit(positions)
    requires Example(lexer, unescape, text, positions, landing).Some?
    ensures Decoded(Cells(unescape, Outside(Example(lexer, unescape, text, positions, landing).value, false), 0)) == text
  {
    var example := Example(lexer, unescape, text, positions, landing).value;
    ExampleReads(lexer, unescape, text, positions, landing);
    DecodeEscaped(unescape, text);
  }

  lemma SweptReads(lexer: Lexer, unescape: Unescape, text: string, positions: seq<S.Span>, landing: bool)
    requires LexerFits(lexer) && Basic(unescape) && Inside(text, positions) && HrefsFit(positions)
    requires Swept(lexer, unescape, text, positions, landing).Some?
    ensures Reads(Swept(lexer, unescape, text, positions, landing).value, text[0..])
  {
    SortedInside(text, positions);
    S.SortKeeps(positions);
    SweepReads(lexer, unescape, Prefix(landing), text, S.SortByStart(positions), 0);
  }

  lemma ExampleReads(lexer: Lexer, unescape: Unescape, text: string, positions: seq<S.Span>, landing: bool)
    requires LexerFits(lexer) && Basic(unescape) && Inside(text, positions) && HrefsFit(positions)
    requires Example(lexer, unescape, text, positions, landing).Some?
    ensures Reads(Example(lexer, unescape, text, positions, landing).value, text)
  {
    SweptReads(lexer, unescape, text, positions, landing);
    WithEnd(Swept(lexer, unescape, text, positions, landing).value, text);
  }

  lemma WithEnd(swept: string, text: string)
    requires Reads(swept, text[0..])
    ensures Reads(swept + EndOf(text), text)
  {
    EndReads(text);
    ReadsJoin(swept, EndOf(text), text[0..], "");
    assert text[0..] + "" == text;
  }

  /** Somewhere in the result this position is anchored, and the anchor covers exactly its span: what
      stands in front, inside and behind reads as the text in front, inside and behind. */
  ghost predicate Covers(lexer: Lexer, unescape: Unescape, prefix: string, text: string, p: S.Span, result: string, end: nat)
    requires LexerFits(lexer) && end <= p.start < p.end <= |text|
  {
    exists front, back :: CoversWith(lexer, unescape, prefix, text, p, result, end, front, back)
  }

  ghost predicate CoversWith(lexer: Lexer, unescape: Unescape, prefix: string, text: string, p: S.Span, result: string, end: nat,
                             front: string, back: string)
    requires LexerFits(lexer) && end <= p.start < p.end <= |text|
  {
    result == front + (Anchored(lexer, unescape, prefix, text, p) + back) &&
    Reads(front, text[end..p.start]) && Reads(back, text[p.end..])
  }

  lemma {:induction false} AnchorsCover(lexer: Lexer, unescape: Unescape, prefix: string, text: string,
                                        positions: seq<S.Span>, end: nat, k: nat)
    requires LexerFits(lexer) && Basic(unescape) && Inside(text, positions) && end <= |text| && HrefsFit(positions)
    requires '<' !in prefix && '>' !in prefix && k < |positions|
    requires Sweep(lexer, unescape, prefix, text, positions, end).Some?
    ensures end <= positions[k].start
    ensures Covers(lexer, unescape, prefix, text, positions[k], Sweep(lexer, unescape, prefix, text, positions, end).value, end)
    decreases |positions|
  {
    SweepAccepts(lexer, unescape, prefix, text, positions, end);
    if k == 0 {
      assert positions[0] in positions;
      FirstCovered(lexer, unescape, prefix, text, positions, end);
    } else {
      var rest, p := positions[1..], positions[0];
      assert rest[k - 1] == positions[k] && positions[k] in positions;
      AnchorsCover(lexer, unescape, prefix, text, rest, p.end, k - 1);
      LaterCovered(lexer, unescape, prefix, text, positions, end, positions[k]);
    }
  }

  lemma FirstCovered(lexer: Lexer, unescape: Unescape, prefix: string, text: string, positions: seq<S.Span>, end: nat)
    requires LexerFits(lexer) && Basic(unescape) && Inside(text, positions) && end <= |text| && HrefsFit(positions)
    requires '<' !in prefix && '>' !in prefix && positions != []
    requires Sweep(lexer, unescape, prefix, text, positions, end).Some?
    ensures Covers(lexer, unescape, prefix, text, positions[0], Sweep(lexer, unescape, prefix, text, positions, end).value, end)
  {
    var p, rest := positions[0], positions[1..];
    var gap, anchor := Piece(lexer, unescape, text[end..p.start]), Anchored(lexer, unescape, prefix, text, p);
    var swept := Sweep(lexer, unescape, prefix, text, rest, p.end).value;
    PieceReads(lexer, unescape, text[end..p.start]);
    SweepReads(lexer, unescape, prefix, text, rest, p.end);
    Associate(gap, anchor, swept);
    assert CoversWith(lexer, unescape, prefix, text, p, gap + anchor + swept, end, gap, swept);
  }

  lemma LaterCovered(lexer: Lexer, unescape: Unescape, prefix: string, text: string, positions: seq<S.Span>, end: nat, q: S.Span)
    requires LexerFits(lexer) && Basic(unescape) && Inside(text, positions) && end <= |text| && HrefsFit(positions)
    requires '<' !in prefix && '>' !in prefix && positions != [] && positions[0].end <= q.start < q.end <= |text|
    requires Sweep(lexer, unescape, prefix, text, positions, end).Some?
    requires Covers(lexer, unescape, prefix, text, q,
                    Sweep(lexer, unescape, prefix, text, positions[1..], positions[0].end).value, positions[0].end)
    ensures end <= q.start
    ensures Covers(lexer, unescape, prefix, text, q, Sweep(lexer, unescape, prefix, text, positions, end).value, end)
  {
    var p := positions[0];
    var gap, anchor := Piece(lexer, unescape, text[end..p.start]), Anchored(lexer, unescape, prefix, text, p);
    var swept := Sweep(lexer, unescape, prefix, text, positions[1..], p.end).value;
    PieceReads(lexer, unescape, text[end..p.start]);
    AnchoredReads(lexer, unescape, prefix, text, p);
    ReadsTwo(gap, anchor, text, end, p.start, p.end);
    CoveredFurther(lexer, unescape, prefix, text, q, gap + anchor, swept, end, p.end);
  }

  /** What is put in front only moves the front. */
  lemma CoveredFurther(lexer: Lexer, unescape: Unescape, prefix: string, text: string, q: S.Span, before: string, swept: string,
                       end: nat, middle: nat)
    requires LexerFits(lexer) && end <= middle <= q.start < q.end <= |text|
    requires Reads(before, text[end..middle]) && Covers(lexer, unescape, prefix, text, q, swept, middle)
    ensures Covers(lexer, unescape, prefix, text, q, before + swept, end)
  {
    var front, back :| CoversWith(lexer, unescape, prefix, text, q, swept, middle, front, back);
    ReadsTwo(before, front, text, end, middle, q.start);
    Associate(before, front, Anchored(lexer, unescape, prefix, text, q) + back);
    assert CoversWith(lexer, unescape, prefix, text, q, before + swept, end, before + front, back);
  }

  /** In an accepted example every position is anchored, and its anchor reads as exactly its span. */
  lemma ExampleCovers(lexer: Lexer, unescape: Unescape, text: string, positions: seq<S.Span>, landing: bool, p: S.Span)
    requires LexerFits(lexer) && Basic(unescape) && Inside(text, positions) && HrefsFit(positions) && p in positions
    requires Swept(lexer, unescape, text, positions, landing).Some?
    ensures Covers(lexer, unescape, Prefix(landing), text, p, Swept(lexer, unescape, text, positions, landing).value, 0)
  {
    SortedInside(text, positions);
    SortedFits(positions, p);
    PrefixPlain(landing);
    AnchorCovers(lexer, unescape, Prefix(landing), text, S.SortByStart(positions), p);
  }

  lemma SortedFits(positions: seq<S.Span>, p: S.Span)
    requires HrefsFit(positions) && p in positions
    ensures HrefsFit(S.SortByStart(positions)) && p in S.SortByStart(positions)
  {
    S.SortKeeps(positions);
  }

  lemma PrefixPlain(landing: bool)
    ensures '<' !in Prefix(landing) && '>' !in Prefix(landing)
  {
  }

  lemma AnchorCovers(lexer: Lexer, unescape: Unescape, prefix: string, text: string, sorted: seq<S.Span>, p: S.Span)
    requires LexerFits(lexer) && Basic(unescape) && Inside(text, sorted) && HrefsFit(sorted) && p in sorted
    requires '<' !in prefix && '>' !in prefix && Sweep(lexer, unescape, prefix, text, sorted, 0).Some?
    ensures Covers(lexer, unescape, prefix, text, p, Sweep(lexer, unescape, prefix, text, sorted, 0).value, 0)
  {
    var k :| 0 <= k < |sorted| && sorted[k] == p;
    AnchorsCover(lexer, unescape, prefix, text, sorted, 0, k);
  }

  // ----- where references may be found

  /** Lexemes that grant no reference. */
  predicate Hidden(kind: Kind) {
    kind.Comment? || kind.StringLiteral? || kind.Character? || kind.Attribute?
  }

  function HiddenFrom(text: string, i: nat): seq<S.Span>
    decreases |text| - i
  {
    if i >= |text| then []
    else
      match LexemeAt(text, i)
      case None => HiddenFrom(text, i + 1)
      case Some(l) =>
        if Hidden(l.kind) then [S.Span(i, l.end, "")] + HiddenFrom(text, l.end) else HiddenFrom(text, l.end)
  }

  predicate Hides(spans: seq<S.Span>, i: int) {
    exists e :: e in spans && e.start <= i < e.end
  }

  /** The text with its hidden lexemes replaced by blanks. */
  function Masked(text: string, spans: seq<S.Span>): (r: string)
    ensures |r| == |text|
  {
    seq(|text|, i requires 0 <= i < |text| => if Hides(spans, i) then ' ' else text[i])
  }

  /** The masking loop of example_code. */
  method MaskText(text: string) returns (masked: string)
    ensures masked == Masked(text, HiddenFrom(text, 0))
  {
    masked := "";
    ghost var found: seq<S.Span> := [];
    ghost var goal := HiddenFrom(text, 0);
    var i := 0;
    while i < |text|
      invariant found + HiddenFrom(text, i) == goal && MaskedTo(text, masked, found, i)
    {
      var lexeme := LexemeAt(text, i);
      if lexeme.Some? && Hidden(lexeme.value.kind) {
        HiddenStep(text, i, found);
        MaskStep(text, masked, found, i, lexeme.value.end, true);
        masked := masked + Blanks(lexeme.value.end - i);
        found := found + [S.Span(i, lexeme.value.end, "")];
        i := lexeme.value.end;
      } else {
        var end := if lexeme.Some? then lexeme.value.end else i + 1;
        MaskStep(text, masked, found, i, end, false);
        masked := masked + text[i..end];
        i := end;
      }
    }
    assert masked == Masked(text, found);
  }

  function Blanks(n: nat): (r: string)
    ensures |r| == n && forall j :: 0 <= j < n ==> r[j] == ' '
  {
    seq(n, _ => ' ')
  }

  ghost predicate MaskedTo(text: string, masked: string, found: seq<S.Span>, i: nat) {
    i <= |text| && |masked| == i && (forall e :: e in found ==> e.end <= i) &&
    forall j :: 0 <= j < i ==> masked[j] == if Hides(found, j) then ' ' else text[j]
  }

  lemma MaskStep(text: string, masked: string, found: seq<S.Span>, i: nat, end: nat, hidden: bool)
    requires MaskedTo(text, masked, found, i) && i < end <= |text|
    ensures hidden ==> MaskedTo(text, masked + Blanks(end - i), found + [S.Span(i, end, "")], end)
    ensures !hidden ==> MaskedTo(text, masked + text[i..end], found, end)
  {
    HidesMore(found, i, end);
  }

  lemma HiddenStep(text: string, i: nat, found: seq<S.Span>)
    requires i < |text| && LexemeAt(text, i).Some? && Hidden(LexemeAt(text, i).value.kind)
    ensures var end := LexemeAt(text, i).value.end;
            found + HiddenFrom(text, i) == found + [S.Span(i, end, "")] + HiddenFrom(text, end)
  {
  }

  lemma HidesMore(found: seq<S.Span>, i: nat, end: nat)
    requires i < end && forall e :: e in found ==> e.end <= i
    ensures forall j :: 0 <= j < i ==> (Hides(found + [S.Span(i, end, "")], j) <==> Hides(found, j))
    ensures forall j :: i <= j < end ==> Hides(found + [S.Span(i, end, "")], j) && !Hides(found, j)
  {
    var span := S.Span(i, end, "");
    assert span in found + [span];
    forall j | 0 <= j < i
      ensures Hides(found + [span], j) <==> Hides(found, j)
    {
      if Hides(found, j) {
        var e :| e in found && e.start <= j < e.end;
        assert e in found + [span];
      }
    }
  }

  /** A spelling without blanks found in the masked text stands in the text and in no hidden lexeme. */
  lemma FoundOutsideHidden(text: string, i: nat, spelling: string)
    requires ' ' !in spelling && At(Masked(text, HiddenFrom(text, 0)), i, spelling)
    ensures At(text, i, spelling)
    ensures forall j :: i <= j < i + |spelling| ==> !Hides(HiddenFrom(text, 0), j)
  {
    var spans := HiddenFrom(text, 0);
    var masked := Masked(text, spans);
    forall j | i <= j < i + |spelling|
      ensures !Hides(spans, j) && text[j] == masked[j]
    {
      assert masked[i..i + |spelling|][j - i] == masked[j];
    }
    assert text[i..i + |spelling|] == masked[i..i + |spelling|];
  }
}
