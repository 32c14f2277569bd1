/** Type links: from the type marks of a profile to spliced anchors. */
module Links {
  import opened Texts
  import opened Patterns
  import opened Markup
  import opened Documents
  import opened Offsets
  import opened Weaving
  import opened Tokens
  import opened Resolution

  /** How names of a snippet are looked up, and where its links may lead. */
  datatype Context = Context(resolve: string -> Outcome, targets: Targets, filename: string)

  ghost predicate ContextFits(c: Context) {
    forall word :: Known(c, c.resolve(word))
  }

  predicate Known(c: Context, outcome: Outcome) {
    outcome.Linked? ==> outcome.identity in c.targets
  }

  /** Lookup as Resolution defines it, for a snippet that declares declaration in package. */
  function ContextOf(sources: Sources, targets: Targets, package: string, declaration: Declaration, filename: string): Context
    requires package in sources
  {
    Context(word => Resolve(sources, targets, word, package, declaration), targets, filename)
  }

  lemma ContextOfFits(sources: Sources, targets: Targets, package: string, declaration: Declaration, filename: string)
    requires package in sources
    ensures ContextFits(ContextOf(sources, targets, package, declaration, filename))
  {
    var c := ContextOf(sources, targets, package, declaration, filename);
    forall word
      ensures Known(c, c.resolve(word))
    {
      LinkedInTargets(sources, targets, word, package, declaration);
    }
  }

  function Href(target: Target, filename: string): string {
    (if target.file == filename then "" else target.file) + "#" + target.anchor
  }

  lemma LinkedInTargets(sources: Sources, targets: Targets, name: string, package: string, declaration: Declaration)
    requires package in sources
    ensures var r := Resolve(sources, targets, name, package, declaration);
            r.Linked? ==> r.identity in targets
  {
    var r := Resolve(sources, targets, name, package, declaration);
    if r.Linked? && '.' !in name {
      ScopesExact(sources, targets, name, Site(package, declaration.start), Scopes(package), r.identity);
    }
  }

  function WordMark(c: Context, cells: seq<Cell>, word: Term): seq<Mark> {
    var outcome := c.resolve(word.text);
    if outcome.Linked? && outcome.identity in c.targets && word.start < word.end <= |cells|
    then [Mark(cells[word.start].start, cells[word.end - 1].end,
               Reference(Href(c.targets[outcome.identity], c.filename), outcome.identity))]
    else []
  }

  /** The resolved type marks as raw spans with their links. */
  function LinkMarks(c: Context, cells: seq<Cell>, words: seq<Term>): seq<Mark> {
    if words == [] then [] else WordMark(c, cells, words[0]) + LinkMarks(c, cells, words[1..])
  }

  /** How many names were linked or left alone, and how often each type name was linked. */
  datatype Tally = Tally(linked: nat, ambiguous: nat, unsupported: nat, families: multiset<string>) {
    function Plus(other: Tally): Tally {
      Tally(linked + other.linked, ambiguous + other.ambiguous, unsupported + other.unsupported,
            families + other.families)
    }
  }

  const NOTHING_COUNTED := Tally(0, 0, 0, multiset{})

  function Counted(outcome: Outcome): Tally {
    match outcome
    case Linked(identity) => Tally(1, 0, 0, multiset{RPartitionAt(identity, '.').1})
    case Ambiguous => Tally(0, 1, 0, multiset{})
    case Unsupported => Tally(0, 0, 1, multiset{})
  }

  function TallyOf(c: Context, words: seq<Term>): Tally {
    if words == [] then NOTHING_COUNTED else Counted(c.resolve(words[0].text)).Plus(TallyOf(c, words[1..]))
  }

  lemma TallyStep(c: Context, words: seq<Term>, i: nat, before: Tally)
    requires i < |words|
    ensures before.Plus(TallyOf(c, words[i..])) ==
            before.Plus(Counted(c.resolve(words[i].text))).Plus(TallyOf(c, words[i + 1..]))
  {
    assert words[i..][0] == words[i] && words[i..][1..] == words[i + 1..];
  }

  // ----- the marks are in order and their captions are plain

  /** html.unescape leaves single characters alone. */
  ghost predicate Sane(unescape: Unescape) {
    forall c :: unescape([c]) == [c]
  }

  lemma UnitAvoids(s: string, c: char)
    requires s != "" && UnitLength(s) > 1 && c == '>'
    ensures c !in s[..UnitLength(s)]
  {
    var decimal, hexadecimal, named := Match(DECIMAL, s), Match(HEXADECIMAL, s), Match(NAMED, s);
    if decimal.Found? && decimal.length > 0 {
      PrintMatched(DECIMAL, s);
      PrintAvoids(DECIMAL, decimal.captures, c);
    } else if hexadecimal.Found? && hexadecimal.length > 0 {
      PrintMatched(HEXADECIMAL, s);
      PrintAvoids(HEXADECIMAL, hexadecimal.captures, c);
    } else {
      PrintMatched(NAMED, s);
      PrintAvoids(NAMED, named.captures, c);
    }
  }

  /** Cell k alone stands for the raw character at p. */
  predicate OwnCell(cells: seq<Cell>, k: nat, p: nat) {
    k < |cells| && cells[k] == Cell('>', p, p + 1) &&
    (forall j :: 0 <= j < k ==> cells[j].end <= p) && (forall j :: k < j < |cells| ==> p < cells[j].start)
  }

  lemma UnitInFront(chars: string, start: nat, end: nat, rest: seq<Cell>, k: nat, p: nat)
    requires start < end <= p && OwnCell(rest, k, p)
    ensures OwnCell(UnitCells(chars, start, end) + rest, |chars| + k, p)
  {
  }

  lemma BracketInFront(rest: seq<Cell>, p: nat, high: nat)
    requires CellsWithin(rest, p + 1, high)
    ensures OwnCell(UnitCells(['>'], p, p + 1) + rest, 0, p)
  {
  }

  lemma BracketHere(unescape: Unescape, raw: string, i: nat)
    requires Sane(unescape) && i < |raw| && raw[i] == '>' && UnitLength(raw[i..]) == 1
    ensures OwnCell(Cells(unescape, raw, i), 0, i)
  {
    assert raw[i..i + 1] == ['>'];
    var rest := Cells(unescape, raw, i + 1);
    CellsOrdered(unescape, raw, i + 1);
    BracketInFront(rest, i, |raw|);
  }

  lemma BracketThere(unescape: Unescape, raw: string, i: nat, n: nat, k: nat, p: nat)
    requires i < |raw| && n == UnitLength(raw[i..]) && i + n <= p && OwnCell(Cells(unescape, raw, i + n), k, p)
    ensures OwnCell(Cells(unescape, raw, i), |unescape(raw[i..i + n])| + k, p)
  {
    UnitInFront(unescape(raw[i..i + n]), i, i + n, Cells(unescape, raw, i + n), k, p);
  }

  /** A raw ">" is a character of the decoded text. */
  lemma {:induction false} BracketCell(unescape: Unescape, raw: string, i: nat, p: nat) returns (k: nat)
    requires Sane(unescape) && i <= p < |raw| && raw[p] == '>'
    ensures OwnCell(Cells(unescape, raw, i), k, p)
    decreases |raw| - i
  {
    var n := UnitLength(raw[i..]);
    if p < i + n {
      BracketUnit(raw, i, p);
      BracketHere(unescape, raw, i);
      k := 0;
    } else {
      k := BracketCell(unescape, raw, i + n, p);
      BracketThere(unescape, raw, i, n, k, p);
      k := |unescape(raw[i..i + n])| + k;
    }
  }

  lemma BracketUnit(raw: string, i: nat, p: nat)
    requires i <= p < |raw| && p < i + UnitLength(raw[i..]) && raw[p] == '>'
    ensures p == i && UnitLength(raw[i..]) == 1
  {
    assert raw[i..][p - i] == raw[p];
    BracketAlone(raw[i..], p - i);
  }

  lemma BracketAlone(s: string, q: nat)
    requires s != "" && q < UnitLength(s) && s[q] == '>'
    ensures UnitLength(s) == 1 && q == 0
  {
    if UnitLength(s) > 1 {
      UnitAvoids(s, '>');
    }
    assert s[..UnitLength(s)][q] == '>';
  }

  /** The raw span of decoded characters other than ">" holds no ">". */
  lemma SpanPlain(unescape: Unescape, raw: string, cells: seq<Cell>, a: nat, b: nat)
    requires Sane(unescape) && cells == Cells(unescape, raw, 0)
    requires a < b <= |cells| && forall k :: a <= k < b ==> cells[k].ch != '>'
    requires cells[a].start <= cells[b - 1].end <= |raw|
    ensures '>' !in raw[cells[a].start..cells[b - 1].end]
  {
    forall p | cells[a].start <= p < cells[b - 1].end
      ensures raw[p] != '>'
    {
      if raw[p] == '>' {
        var k := BracketCell(unescape, raw, 0, p);
        OwnCellInside(cells, a, b, k, p);
      }
    }
  }

  ghost predicate NoBracket(cells: seq<Cell>, a: nat, b: nat)
    requires b <= |cells|
  {
    forall k :: a <= k < b ==> cells[k].ch != '>'
  }

  /** Cells of raw, in order, such that characters other than ">" come from text without ">". */
  ghost predicate PlainCells(raw: string, cells: seq<Cell>) {
    CellsWithin(cells, 0, |raw|) && CellsRise(cells) &&
    forall a, b :: 0 <= a < b <= |cells| && NoBracket(cells, a, b) ==>
                     cells[a].start <= cells[b - 1].end <= |raw| && '>' !in raw[cells[a].start..cells[b - 1].end]
  }

  lemma CellsPlain(unescape: Unescape, raw: string) returns (cells: seq<Cell>)
    requires Sane(unescape)
    ensures cells == Cells(unescape, raw, 0) && PlainCells(raw, cells)
  {
    cells := OrderedCells(unescape, raw);
    forall a, b | 0 <= a < b <= |cells| && NoBracket(cells, a, b)
      ensures cells[a].start <= cells[b - 1].end <= |raw| && '>' !in raw[cells[a].start..cells[b - 1].end]
    {
      SpanPlain(unescape, raw, cells, a, b);
    }
  }

  lemma OwnCellInside(cells: seq<Cell>, a: nat, b: nat, k: nat, p: nat)
    requires a < b <= |cells| && cells[a].start <= p < cells[b - 1].end && OwnCell(cells, k, p)
    ensures a <= k < b && cells[k].ch == '>'
  {
  }

  // ----- the marks of a profile

  /** Identities are dotted names, page names can stand in an address, and anchors are what a page
      can hold: not all of these can stand in an address. */
  predicate TargetsFit(targets: Targets) {
    forall identity :: identity in targets ==>
                         identity != "" && AllOf(identity, TargetChar) &&
                         AllOf(targets[identity].file, HrefChar) && AllOf(targets[identity].anchor, IdChar)
  }

  /** From the first character on that no address can hold, there is no blank. */
  predicate HalfFits(href: string) {
    href != "" && forall i, j :: 0 <= i <= j < |href| && !HrefChar(href[i]) ==> IdChar(href[j])
  }

  /** A link that is well formed but for its address. */
  predicate LinkMark(raw: string, m: Mark) {
    m.start < m.end <= |raw| && m.wrap.Reference? && HalfFits(m.wrap.href) &&
    m.wrap.target != "" && AllOf(m.wrap.target, TargetChar) && '>' !in raw[m.start..m.end]
  }

  predicate AllLinkMarks(raw: string, marks: seq<Mark>) {
    forall m :: m in marks ==> LinkMark(raw, m)
  }

  /** Every address can stand in a link. */
  predicate AddressesFit(marks: seq<Mark>) {
    forall m :: m in marks && m.wrap.Reference? ==> AllOf(m.wrap.href, HrefChar)
  }

  lemma LinkMarkFits(raw: string, m: Mark)
    requires LinkMark(raw, m)
    ensures MarkFits(raw, m) <==> AllOf(m.wrap.href, HrefChar)
  {
  }

  lemma NameChars(word: Term, text: string, low: nat)
    requires MarkOfText(word, text, low)
    ensures forall k :: word.start <= k < word.end ==> text[k] != '>'
  {
    forall k | word.start <= k < word.end
      ensures text[k] != '>'
    {
      assert word.text[k - word.start] == LowerChar(text[k]);
      assert WordOrDot(word.text[k - word.start]);
    }
  }

  lemma HrefFits(target: Target, filename: string)
    requires AllOf(target.file, HrefChar) && AllOf(target.anchor, IdChar)
    ensures HalfFits(Href(target, filename))
  {
  }

  lemma WordMarkFits(raw: string, cells: seq<Cell>, word: Term, low: nat)
    requires PlainCells(raw, cells) && MarkOfText(word, Decoded(cells), low)
    ensures word.start < word.end <= |cells|
    ensures var start, end := cells[word.start].start, cells[word.end - 1].end;
            start < end <= |raw| && '>' !in raw[start..end]
  {
    NameChars(word, Decoded(cells), low);
    assert NoBracket(cells, word.start, word.end);
    assert cells[word.start].start < cells[word.start].end <= cells[word.end - 1].end;
  }

  lemma WordLinkFits(c: Context, raw: string, cells: seq<Cell>, word: Term)
    requires ContextFits(c) && TargetsFit(c.targets) && word.start < word.end <= |cells|
    requires var start, end := cells[word.start].start, cells[word.end - 1].end;
             start < end <= |raw| && '>' !in raw[start..end]
    ensures var here := WordMark(c, cells, word);
            |here| <= 1 && forall m :: m in here ==>
              m.start == cells[word.start].start && m.end == cells[word.end - 1].end && LinkMark(raw, m)
  {
    var outcome := c.resolve(word.text);
    assert Known(c, outcome);
    if outcome.Linked? {
      HrefFits(c.targets[outcome.identity], c.filename);
    }
  }

  lemma {:induction false} LinksInOrder(c: Context, raw: string, cells: seq<Cell>, words: seq<Term>,
                                        low: nat, a: nat, b: nat)
    requires ContextFits(c) && TargetsFit(c.targets) && PlainCells(raw, cells)
    requires MarksOfText(words, Decoded(cells), low)
    requires low < |cells| ==> a <= cells[low].start && b <= cells[low].end
    ensures MarksPlaced(raw, LinkMarks(c, cells, words), a, b) && AllLinkMarks(raw, LinkMarks(c, cells, words))
  {
    if words == [] {
    } else {
      var word := words[0];
      var here, rest := WordMark(c, cells, word), LinkMarks(c, cells, words[1..]);
      WordMarkFits(raw, cells, word, low);
      WordLinkFits(c, raw, cells, word);
      if here == [] {
        LinksInOrder(c, raw, cells, words[1..], word.end, a, b);
        assert here + rest == rest;
      } else {
        LinksInOrder(c, raw, cells, words[1..], word.end, here[0].start, here[0].end);
        PlacedCons(raw, here[0], rest, a, b);
        assert here[0] in here && here + rest == [here[0]] + rest;
      }
    }
  }

  lemma PlacedCons(raw: string, m: Mark, rest: seq<Mark>, a: nat, b: nat)
    requires a <= m.start < m.end <= |raw| && b <= m.end && LinkMark(raw, m)
    requires MarksPlaced(raw, rest, m.start, m.end) && AllLinkMarks(raw, rest)
    ensures MarksPlaced(raw, [m] + rest, a, b) && AllLinkMarks(raw, [m] + rest)
  {
    assert ([m] + rest)[1..] == rest;
  }

  // ----- rendering

  /** The type marks of a raw snippet; None where type_positions raises. */
  ghost function WordsOf(unescape: Unescape, raw: string): Option<seq<Term>> {
    PositionsOf(TokensFrom(Decoded(Cells(unescape, raw, 0)), 0))
  }

  ghost function MarksOf(c: Context, unescape: Unescape, raw: string): seq<Mark> {
    LinkMarks(c, Cells(unescape, raw, 0), WordsOf(unescape, raw).GetOr([]))
  }

  lemma MarksOrdered(c: Context, unescape: Unescape, raw: string)
    requires ContextFits(c) && TargetsFit(c.targets) && Sane(unescape)
    ensures MarksPlaced(raw, MarksOf(c, unescape, raw), 0, 0) && AllLinkMarks(raw, MarksOf(c, unescape, raw))
    ensures Inside(raw, Edits(MarksOf(c, unescape, raw)))
  {
    var cells := CellsPlain(unescape, raw);
    var text := Decoded(cells);
    PositionsInText(text);
    var words := PositionsOf(TokensFrom(text, 0)).GetOr([]);
    LinksInOrder(c, raw, cells, words, 0, 0, 0);
    EditsPlaced(raw, LinkMarks(c, cells, words), 0, 0);
  }

  /** render; None stands for a raised CrossReferenceError. */
  ghost function Linking(c: Context, unescape: Unescape, raw: string): Option<string>
    requires ContextFits(c) && TargetsFit(c.targets) && Sane(unescape)
  {
    MarksOrdered(c, unescape, raw);
    var result := Splice(raw, Edits(MarksOf(c, unescape, raw)));
    if WordsOf(unescape, raw).None? || Plain(result) != Some(raw) then None else Some(result)
  }

  /** The insert for one name, if it is linked. */
  method WordInserts(c: Context, starts: seq<nat>, ends: seq<nat>, word: Term, outcome: Outcome, ghost cells: seq<Cell>)
    returns (inserts: seq<Edit>)
    requires starts == Starts(cells) && ends == Ends(cells) && outcome == c.resolve(word.text)
    ensures inserts == Edits(WordMark(c, cells, word))
  {
    if outcome.Linked? && outcome.identity in c.targets && word.start < word.end <= |starts| {
      var open := LinkOpen(Href(c.targets[outcome.identity], c.filename), outcome.identity);
      inserts := [Edit(starts[word.start], ends[word.end - 1], open, LINK_CLOSE)];
    } else {
      inserts := [];
    }
  }

  /** Inserts and counts of the names in front of name i. */
  ghost predicate CollectedTo(c: Context, cells: seq<Cell>, words: seq<Term>, i: nat, inserts: seq<Edit>, tally: Tally)
    requires i <= |words|
  {
    Edits(LinkMarks(c, cells, words)) == inserts + Edits(LinkMarks(c, cells, words[i..])) &&
    TallyOf(c, words) == tally.Plus(TallyOf(c, words[i..]))
  }

  lemma CollectedNext(c: Context, cells: seq<Cell>, words: seq<Term>, i: nat, inserts: seq<Edit>, tally: Tally, more: seq<Edit>)
    requires i < |words| && CollectedTo(c, cells, words, i, inserts, tally) && more == Edits(WordMark(c, cells, words[i]))
    ensures CollectedTo(c, cells, words, i + 1, inserts + more, tally.Plus(Counted(c.resolve(words[i].text))))
  {
    assert words[i..][0] == words[i] && words[i..][1..] == words[i + 1..];
    var rest := LinkMarks(c, cells, words[i + 1..]);
    EditsJoin(WordMark(c, cells, words[i]), rest);
    assert inserts + (more + Edits(rest)) == (inserts + more) + Edits(rest);
    TallyStep(c, words, i, tally);
  }

  /** The loop of render over the type marks. */
  method CollectLinks(c: Context, starts: seq<nat>, ends: seq<nat>, words: seq<Term>, ghost cells: seq<Cell>)
    returns (inserts: seq<Edit>, tally: Tally)
    requires starts == Starts(cells) && ends == Ends(cells)
    ensures inserts == Edits(LinkMarks(c, cells, words)) && tally == TallyOf(c, words)
  {
    inserts, tally := [], NOTHING_COUNTED;
    assert words[0..] == words;
    for i := 0 to |words|
      invariant CollectedTo(c, cells, words, i, inserts, tally)
    {
      var outcome := c.resolve(words[i].text);
      var more := WordInserts(c, starts, ends, words[i], outcome, cells);
      CollectedNext(c, cells, words, i, inserts, tally, more);
      inserts, tally := inserts + more, tally.Plus(Counted(outcome));
    }
    assert words[|words|..] == [];
  }

  ghost function CountsOf(c: Context, unescape: Unescape, raw: string): Tally {
    TallyOf(c, WordsOf(unescape, raw).GetOr([]))
  }

  /** render, and what it counts. */
  method RenderLinks(c: Context, unescape: Unescape, raw: string) returns (r: Option<string>, tally: Tally)
    requires ContextFits(c) && TargetsFit(c.targets) && Sane(unescape)
    ensures r == Linking(c, unescape, raw) && tally == CountsOf(c, unescape, raw)
  {
    var text, starts, ends := DecodedOffsets(unescape, raw);
    var words := TypePositions(text);
    if words.None? {
      return None, NOTHING_COUNTED;
    }
    ghost var cells := Cells(unescape, raw, 0);
    var inserts, counts := CollectLinks(c, starts, ends, words.value, cells);
    MarksOrdered(c, unescape, raw);
    var result := SpliceReversed(raw, inserts);
    return if Plain(result) != Some(raw) then None else Some(result), counts;
  }

  /** Every name counted as linked has its mark. */
  lemma {:induction false} LinkedCounted(c: Context, cells: seq<Cell>, words: seq<Term>, low: nat)
    requires ContextFits(c) && MarksOfText(words, Decoded(cells), low)
    ensures |LinkMarks(c, cells, words)| == TallyOf(c, words).linked
  {
    if words == [] {
    } else {
      assert Known(c, c.resolve(words[0].text));
      LinkedCounted(c, cells, words[1..], words[0].end);
    }
  }

  lemma CountsAreMarks(c: Context, unescape: Unescape, raw: string)
    requires ContextFits(c)
    ensures CountsOf(c, unescape, raw).linked == |MarksOf(c, unescape, raw)|
  {
    var cells := Cells(unescape, raw, 0);
    PositionsInText(Decoded(cells));
    LinkedCounted(c, cells, WordsOf(unescape, raw).GetOr([]), 0);
  }

  // ----- what is left of markup when a link is not well formed

  lemma {:induction false} FirstUnfit(href: string) returns (k: nat)
    requires !AllOf(href, HrefChar)
    ensures k < |href| && !HrefChar(href[k]) && AllOf(href[..k], HrefChar)
  {
    if !HrefChar(href[0]) {
      k := 0;
    } else {
      assert forall i :: 1 <= i < |href| ==> href[1..][i - 1] == href[i];
      k := FirstUnfit(href[1..]);
      k := k + 1;
      assert forall i :: 0 < i < k ==> href[..k][i] == href[1..][..k - 1][i - 1];
    }
  }

  /** Behind the address, no link goes on like this. */
  lemma NoData(href: string, k: nat, rest: string)
    requires HalfFits(href) && k < |href| && !HrefChar(href[k])
    ensures !StartsWith(href[k..] + ("\"" + rest), LINK_DATA.text)
  {
    var s := href[k..] + ("\"" + rest);
    if StartsWith(s, LINK_DATA.text) {
      StartsAt(s, LINK_DATA.text, 0);
      StartsAt(s, LINK_DATA.text, 1);
    }
  }

  lemma UnfitMissed(href: string, target: string, rest: string)
    requires HalfFits(href) && !AllOf(href, HrefChar)
    ensures Match(LINK, LinkOpen(href, target) + rest).Missing?
  {
    var k := FirstUnfit(href);
    var behind := "\"" + (" data-type=\"" + target + "\">" + rest);
    assert LinkOpen(href, target) + rest == LINK.text + (href[..k] + (href[k..] + behind));
    NoData(href, k, " data-type=\"" + target + "\">" + rest);
    MissedBehind(LINK, href[..k], href[k..] + behind);
  }

  /** Where the first "<" begins no link, it stays. */
  lemma BracketKept(x: string, rest: string)
    requires '<' !in x && rest != "" && rest[0] == '<' && Match(LINK, rest).Missing?
    ensures '<' in Keep(LINK, CAPTION, x + rest)
  {
    LinkPattern();
    TextHasNoTag(x, 'a');
    Copied(LINK, 'a', CAPTION, x, rest);
    assert Keep(LINK, CAPTION, rest)[0] == '<';
  }

  lemma NoMatchWithout(pattern: Pattern, s: string)
    requires pattern.Literal? && |pattern.text| > 2 && pattern.text[1] == 'a' && pattern.text[2] == ' '
    requires |s| < 3 || s[1] != 'a' || s[2] != ' '
    ensures Match(pattern, s).Missing?
  {
    if Match(pattern, s).Found? {
      LiteralFirst(pattern, s);
    }
  }

  /** Only the beginning of s may begin a link. */
  predicate OneLinkStart(s: string) {
    forall i :: 0 < i < |s| ==> NoLinkStart(s, i)
  }

  predicate NoLinkStart(s: string, i: nat)
    requires i < |s|
  {
    s[i] == '<' ==> i + 2 < |s| && !(s[i + 1] == 'a' && s[i + 2] == ' ')
  }

  lemma {:induction false} FirstBracket(s: string) returns (k: nat)
    requires '<' in s
    ensures k < |s| && s[k] == '<' && '<' !in s[..k]
  {
    if s[0] == '<' {
      k := 0;
    } else {
      k := FirstBracket(s[1..]);
      k := k + 1;
      assert s[..k] == [s[0]] + s[1..][..k - 1];
    }
  }

  lemma InAddress(front: string, href: string, behind: string, i: nat)
    requires HalfFits(href) && |behind| >= 2 && behind[0] == '"' && behind[1] == ' '
    requires |front| <= i < |front| + |href|
    ensures NoLinkStart(front + href + behind, i)
  {
    var s := front + href + behind;
    assert forall j :: |front| <= j < |front| + |href| ==> s[j] == href[j - |front|];
    assert s[|front| + |href|] == '"' && s[|front| + |href| + 1] == ' ';
  }

  lemma BehindAll(front: string, behind: string, i: nat)
    requires |front| <= i < |front| + |behind| && NoLinkStart(behind, i - |front|)
    ensures NoLinkStart(front + behind, i)
  {
  }

  lemma InLiteral(literal: string, behind: string, i: nat)
    requires 0 < i < |literal| && '<' !in literal[1..]
    ensures NoLinkStart(literal + behind, i)
  {
    assert (literal + behind)[i] == literal[1..][i - 1];
  }

  lemma StartsOnce(open: string, href: string, behind: string)
    requires open != "" && '<' !in open[1..] && HalfFits(href)
    requires |behind| >= 2 && behind[0] == '"' && behind[1] == ' ' && forall i :: 0 <= i < |behind| ==> NoLinkStart(behind, i)
    ensures OneLinkStart(open + href + behind)
  {
    var s := open + href + behind;
    forall i | 0 < i < |s|
      ensures NoLinkStart(s, i)
    {
      if i < |open| {
        assert s == open + (href + behind);
        InLiteral(open, href + behind, i);
      } else if i < |open| + |href| {
        InAddress(open, href, behind, i);
      } else {
        BehindAll(open + href, behind, i);
      }
    }
  }

  /** A link, whatever its address, begins a link at its first character only. */
  lemma LinkStartsOnce(href: string, target: string, content: string)
    requires HalfFits(href) && AllOf(target, TargetChar) && '<' !in content
    ensures OneLinkStart(LinkOpen(href, target) + content + LINK_CLOSE)
  {
    var open := "<a class=\"type-reference\" href=\"";
    var behind := "\" data-type=\"" + target + "\">" + content + LINK_CLOSE;
    forall i | 0 <= i < |behind|
      ensures NoLinkStart(behind, i)
    {
      BehindAddress(target, content, i);
    }
    StartsOnce(open, href, behind);
    assert LinkOpen(href, target) + content + LINK_CLOSE == open + href + behind;
  }

  lemma BehindAddress(target: string, content: string, i: nat)
    requires AllOf(target, TargetChar) && '<' !in content
    requires i < |"\" data-type=\"" + target + "\">" + content + LINK_CLOSE|
    ensures NoLinkStart("\" data-type=\"" + target + "\">" + content + LINK_CLOSE, i)
  {
    var front := "\" data-type=\"" + target + "\">" + content;
    NoBracketIn("\" data-type=\"", target);
    NoBracketIn("\" data-type=\"" + target, "\">");
    NoBracketIn("\" data-type=\"" + target + "\">", content);
    if i < |front| {
      assert (front + LINK_CLOSE)[i] == front[i];
    } else {
      assert NoLinkStart(LINK_CLOSE, i - |front|);
      BehindAll(front, LINK_CLOSE, i);
    }
  }

  lemma NoBracketIn(a: string, b: string)
    requires '<' !in a && '<' !in b
    ensures '<' !in a + b
  {
  }

  /** A text that has lost the only place where a link may begin keeps its first "<". */
  lemma TailKept(s: string, k: nat, rest: string)
    requires OneLinkStart(s) && 0 < k <= |s| && '<' in s[k..]
    ensures '<' in Keep(LINK, CAPTION, s[k..] + rest)
  {
    var j := FirstBracket(s[k..]);
    assert NoLinkStart(s, k + j);
    var tail := s[k..][j..] + rest;
    assert tail[0] == s[k + j] && tail[1] == s[k + j + 1] && tail[2] == s[k + j + 2];
    assert s[k..] + rest == s[k..][..j] + tail;
    NoMatchWithout(LINK, tail);
    BracketKept(s[k..][..j], tail);
  }

  lemma StrayKept(href: string, target: string, content: string, k: nat, rest: string)
    requires HalfFits(href) && AllOf(target, TargetChar) && '<' !in content && 0 < k <= |content|
    ensures '<' in Keep(LINK, CAPTION, (LinkOpen(href, target) + content)[k..] + LINK_CLOSE + rest)
  {
    LinkStartsOnce(href, target, content);
    CutFront(LinkOpen(href, target), content, LINK_CLOSE, k);
    TailKept(LinkOpen(href, target) + content + LINK_CLOSE, k, rest);
  }

  lemma CutFront(open: string, content: string, close: string, k: nat)
    requires k <= |content| && close != "" && close[0] == '<'
    ensures (open + content)[k..] + close == (open + content + close)[k..]
    ensures '<' in (open + content + close)[k..]
  {
    var s := (open + content)[k..] + close;
    assert s[|s| - |close|] == '<';
  }

  lemma KeptBehind(gap: string, link: seq<string>, rest: string)
    requires '<' !in gap && ValidLink(link) && '<' in Keep(LINK, CAPTION, rest)
    ensures '<' in Keep(LINK, CAPTION, gap + (Print(LINK, link) + rest))
  {
    LinkPattern();
    TextHasNoTag(gap, 'a');
    Copied(LINK, 'a', CAPTION, gap, Print(LINK, link) + rest);
    PrintedFound(LINK, 'a', CAPTION, link, rest);
  }

  /** A gap and a whole link: "<" is left if the link is not well formed, or behind it. */
  lemma WholeKept(gap: string, href: string, target: string, content: string, rest: string)
    requires '<' !in gap && '<' !in content && '>' !in content && content != ""
    requires HalfFits(href) && target != "" && AllOf(target, TargetChar)
    requires !AllOf(href, HrefChar) || '<' in Keep(LINK, CAPTION, rest)
    ensures '<' in Keep(LINK, CAPTION, gap + (LinkOpen(href, target) + content + LINK_CLOSE) + rest)
  {
    var open := LinkOpen(href, target);
    if !AllOf(href, HrefChar) {
      UnfitMissed(href, target, content + LINK_CLOSE + rest);
      assert gap + (open + content + LINK_CLOSE) + rest == gap + (open + (content + LINK_CLOSE + rest));
      BracketKept(gap, open + (content + LINK_CLOSE + rest));
    } else {
      LinkPrinted(href, target, content);
      LinkFits([href, target, content]);
      KeptBehind(gap, [href, target, content], rest);
      Associate(gap, open + content + LINK_CLOSE, rest);
    }
  }

  /** Unless all marks are apart and well formed, a "<" is left when links are taken off. */
  lemma {:induction false} BracketLeft(raw: string, pos: nat, marks: seq<Mark>)
    requires pos <= |raw| && '<' !in raw && MarksPlaced(raw, marks, 0, pos) && AllLinkMarks(raw, marks)
    requires !MarksApart(marks, pos) || !AddressesFit(marks)
    ensures Inside(raw, Edits(marks)) && '<' in Keep(LINK, CAPTION, Woven(raw, pos, Edits(marks)))
    decreases |marks|
  {
    var m := marks[0];
    assert m in marks && forall n :: n in marks <==> n == m || n in marks[1..];
    EditsPlaced(raw, marks, 0, pos);
    PlacedLower(raw, marks[1..], m.start, m.end);
    EditsPlaced(raw, marks[1..], 0, m.end);
    if pos <= m.start && AllOf(m.wrap.href, HrefChar) {
      BracketLeft(raw, m.end, marks[1..]);
    }
    FirstMarkKept(raw, pos, marks);
  }

  lemma PlacedLower(raw: string, marks: seq<Mark>, a: nat, b: nat)
    requires MarksPlaced(raw, marks, a, b)
    ensures MarksPlaced(raw, marks, 0, b)
  {
  }

  lemma FirstMarkKept(raw: string, pos: nat, marks: seq<Mark>)
    requires pos <= |raw| && '<' !in raw && marks != [] && LinkMark(raw, marks[0]) && pos <= marks[0].end
    requires Inside(raw, Edits(marks)) && Inside(raw, Edits(marks[1..]))
    requires pos <= marks[0].start && AllOf(marks[0].wrap.href, HrefChar) ==>
               '<' in Keep(LINK, CAPTION, Woven(raw, marks[0].end, Edits(marks[1..])))
    ensures '<' in Keep(LINK, CAPTION, Woven(raw, pos, Edits(marks)))
  {
    EditsTail(marks);
    var rest := Woven(raw, marks[0].end, Edits(marks[1..]));
    WovenUnfold(raw, Edits(marks), pos, rest);
    MarkKept(raw, pos, marks[0], rest, Woven(raw, pos, Edits(marks)));
  }

  lemma MarkKept(raw: string, pos: nat, m: Mark, rest: string, woven: string)
    requires pos <= m.end && LinkMark(raw, m) && '<' !in raw
    requires pos <= m.start && AllOf(m.wrap.href, HrefChar) ==> '<' in Keep(LINK, CAPTION, rest)
    requires var e := EditOf(m);
             woven == (if pos <= m.start then raw[pos..m.start] + Wrapped(raw, e)
                       else (e.open + raw[m.start..m.end])[pos - m.start..] + e.close) + rest
    ensures '<' in Keep(LINK, CAPTION, woven)
  {
    if m.start < pos {
      StrayKept(m.wrap.href, m.wrap.target, raw[m.start..m.end], pos - m.start, rest);
    } else {
      WholeKept(raw[pos..m.start], m.wrap.href, m.wrap.target, raw[m.start..m.end], rest);
    }
  }

  // ----- when linking succeeds

  /** Linking succeeds exactly when the snippet is free of markup, its profile is balanced, no two
      linked names touch the same character reference, and every address can stand in a link. Then
      the text without links is the snippet, and the links found are the intended ones, in order, and
      no others. */
  lemma LinkingExact(c: Context, unescape: Unescape, raw: string)
    requires ContextFits(c) && TargetsFit(c.targets) && Sane(unescape)
    ensures var r, marks := Linking(c, unescape, raw), MarksOf(c, unescape, raw);
            (r.Some? <==> '<' !in raw && WordsOf(unescape, raw).Some? && MarksApart(marks, 0) && AddressesFit(marks)) &&
            (r.Some? ==> Plain(r.value) == Some(raw) && FindLinks(r.value) == MarkLinks(raw, marks))
  {
    MarksOrdered(c, unescape, raw);
    if '<' !in raw {
      LinkedText(raw, MarksOf(c, unescape, raw));
    }
  }

  lemma LinkedText(raw: string, marks: seq<Mark>)
    requires MarksPlaced(raw, marks, 0, 0) && AllLinkMarks(raw, marks) && Inside(raw, Edits(marks)) && '<' !in raw
    ensures var result := Splice(raw, Edits(marks));
            (Plain(result) == Some(raw) <==> MarksApart(marks, 0) && AddressesFit(marks)) &&
            (MarksApart(marks, 0) && AddressesFit(marks) ==> FindLinks(result) == MarkLinks(raw, marks))
  {
    if MarksApart(marks, 0) && AddressesFit(marks) {
      LinkMarksChain(raw, marks);
      var doc := SpliceIsDoc(raw, marks);
      PlainShow(doc);
      LinksShow(doc);
    } else {
      EditsPlaced(raw, marks, 0, 0);
      SpliceWoven(raw, Edits(marks), 0, 0);
      BracketLeft(raw, 0, marks);
      assert Splice(raw, Edits(marks))[0..] == Splice(raw, Edits(marks));
    }
  }

  lemma LinkMarksChain(raw: string, marks: seq<Mark>)
    requires MarksPlaced(raw, marks, 0, 0) && AllLinkMarks(raw, marks) && AddressesFit(marks)
    ensures MarksChain(raw, marks, 0, 0)
  {
    forall m | m in marks
      ensures MarkFits(raw, m)
    {
      LinkMarkFits(raw, m);
    }
    ChainIsPlaced(raw, marks, 0, 0);
  }

  /** A linked snippet as a document: text and links, no colour. */
  lemma LinkingDoc(c: Context, unescape: Unescape, raw: string) returns (doc: Doc)
    requires ContextFits(c) && TargetsFit(c.targets) && Sane(unescape)
    requires Linking(c, unescape, raw).Some?
    ensures Linking(c, unescape, raw) == Some(Show(doc)) && Plain(Show(doc)) == Some(raw)
    ensures Clean(doc) && !HasColour(doc) && !HasStray(doc)
    ensures Words(doc) == raw && Documents.Links(doc) == MarkLinks(raw, MarksOf(c, unescape, raw))
    ensures Parse("", Show(doc)) == doc
    ensures SingleCharacters(unescape, raw, 0) ==> TextsSingle(unescape, doc)
  {
    var marks := MarksOf(c, unescape, raw);
    LinkingExact(c, unescape, raw);
    MarksOrdered(c, unescape, raw);
    LinkMarksChain(raw, marks);
    LinkMarksAtEdges(c, unescape, raw, WordsOf(unescape, raw).GetOr([]));
    doc := SpliceIsDoc(raw, marks);
    WeaveDocSingle(unescape, raw, 0, marks);
    ParseShown(doc);
  }

  lemma {:induction false} LinkMarksAtEdges(c: Context, unescape: Unescape, raw: string, words: seq<Term>)
    ensures MarksAtEdges(raw, LinkMarks(c, Cells(unescape, raw, 0), words))
  {
    if words == [] {
    } else {
      var cells := Cells(unescape, raw, 0);
      CellEdges(unescape, raw, 0);
      LinkMarksAtEdges(c, unescape, raw, words[1..]);
      EdgesCons(raw, cells, WordMark(c, cells, words[0]), LinkMarks(c, cells, words[1..]));
    }
  }

  lemma EdgesCons(raw: string, cells: seq<Cell>, here: seq<Mark>, rest: seq<Mark>)
    requires |here| <= 1 && MarksAtEdges(raw, rest)
    requires forall m :: m in here ==> UnitEdge(raw, 0, m.start) && UnitEdge(raw, 0, m.end)
    ensures MarksAtEdges(raw, here + rest)
  {
    if here == [] {
      assert here + rest == rest;
    } else {
      assert here[0] in here;
      assert (here + rest)[1..] == rest;
    }
  }

  // ----- when every reference stands for one character

  lemma {:induction false} LinkMarksApart(c: Context, cells: seq<Cell>, words: seq<Term>, low: nat, pos: nat, high: nat)
    requires MarksOfText(words, Decoded(cells), low) && CellsApart(cells) && CellsWithin(cells, 0, high)
    requires low < |cells| ==> pos <= cells[low].start
    ensures MarksApart(LinkMarks(c, cells, words), pos)
  {
    if words == [] {
    } else {
      var word := words[0];
      var here, rest := WordMark(c, cells, word), LinkMarks(c, cells, words[1..]);
      assert word.start < word.end <= |cells| && pos <= cells[word.start].start < cells[word.end - 1].end;
      if here == [] {
        LinkMarksApart(c, cells, words[1..], word.end, pos, high);
        assert here + rest == rest;
      } else {
        LinkMarksApart(c, cells, words[1..], word.end, here[0].end, high);
        assert (here + rest)[1..] == rest;
      }
    }
  }

  /** A snippet with a readable profile is linked if each of its references stands for one character
      and its addresses fit, and then the texts between its links are of the same kind. */
  lemma SingleCharactersLink(c: Context, unescape: Unescape, raw: string)
    requires ContextFits(c) && TargetsFit(c.targets) && Sane(unescape)
    requires '<' !in raw && SingleCharacters(unescape, raw, 0) && WordsOf(unescape, raw).Some?
    requires AddressesFit(MarksOf(c, unescape, raw))
    ensures Linking(c, unescape, raw).Some? && TextsSingle(unescape, Parse("", Linking(c, unescape, raw).value))
  {
    var cells := OrderedCells(unescape, raw);
    SingleCells(unescape, raw, 0);
    PositionsInText(Decoded(cells));
    LinkMarksApart(c, cells, WordsOf(unescape, raw).value, 0, 0, |raw|);
    LinkingExact(c, unescape, raw);
    var doc := LinkingDoc(c, unescape, raw);
  }
}
