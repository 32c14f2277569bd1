/** Marks on a raw text, the edits that put them in, and the document that results. */
module Weaving {
  import opened Patterns
  import opened Markup
  import opened Documents
  import opened Offsets

  datatype Wrap = Span(category: string) | Reference(href: string, target: string)

  /** A raw span and what to put around it. */
  datatype Mark = Mark(start: nat, end: nat, wrap: Wrap)

  function OpenTag(wrap: Wrap): string {
    match wrap
    case Span(category) => SpanOpen(category)
    case Reference(href, target) => LinkOpen(href, target)
  }

  function CloseTag(wrap: Wrap): string {
    if wrap.Span? then SPAN_CLOSE else LINK_CLOSE
  }

  predicate WrapFits(wrap: Wrap, content: string) {
    match wrap
    case Span(category) => category in CLASSES
    case Reference(href, target) =>
      href != "" && AllOf(href, HrefChar) && target != "" && AllOf(target, TargetChar) &&
      content != "" && '>' !in content
  }

  function EditOf(m: Mark): Edit {
    Edit(m.start, m.end, OpenTag(m.wrap), CloseTag(m.wrap))
  }

  function Edits(marks: seq<Mark>): (edits: seq<Edit>)
    ensures |edits| == |marks|
    ensures forall k :: 0 <= k < |edits| ==> edits[k] == EditOf(marks[k])
  {
    seq(|marks|, k requires 0 <= k < |marks| => EditOf(marks[k]))
  }

  /** Marks lie in raw, with starts and ends that do not decrease. */
  predicate MarksChain(raw: string, marks: seq<Mark>, a: nat, b: nat) {
    marks == [] ||
    (a <= marks[0].start < marks[0].end <= |raw| && b <= marks[0].end &&
     WrapFits(marks[0].wrap, raw[marks[0].start..marks[0].end]) &&
     MarksChain(raw, marks[1..], marks[0].start, marks[0].end))
  }

  /** No two marks touch the same part of raw. */
  predicate MarksApart(marks: seq<Mark>, pos: nat) {
    marks == [] || (pos <= marks[0].start && MarksApart(marks[1..], marks[0].end))
  }

  lemma EditsTail(marks: seq<Mark>)
    requires marks != []
    ensures Edits(marks)[0] == EditOf(marks[0]) && Edits(marks)[1..] == Edits(marks[1..])
  {
  }

  lemma EditsSnoc(marks: seq<Mark>, m: Mark)
    ensures Edits(marks + [m]) == Edits(marks) + [EditOf(m)]
  {
  }

  lemma EditsJoin(a: seq<Mark>, b: seq<Mark>)
    ensures Edits(a + b) == Edits(a) + Edits(b)
  {
  }

  lemma JoinMarks(a: seq<Mark>, b: seq<Mark>, c: seq<Mark>)
    ensures a + (b + c) == (a + b) + c && a + [] == a
  {
  }

  /** The same, whatever the marks put in. */
  predicate MarksPlaced(raw: string, marks: seq<Mark>, a: nat, b: nat) {
    marks == [] ||
    (a <= marks[0].start < marks[0].end <= |raw| && b <= marks[0].end &&
     MarksPlaced(raw, marks[1..], marks[0].start, marks[0].end))
  }

  predicate MarkFits(raw: string, m: Mark) {
    m.start < m.end <= |raw| && WrapFits(m.wrap, raw[m.start..m.end])
  }

  lemma {:induction false} ChainIsPlaced(raw: string, marks: seq<Mark>, a: nat, b: nat)
    ensures MarksChain(raw, marks, a, b) <==> MarksPlaced(raw, marks, a, b) && forall m :: m in marks ==> MarkFits(raw, m)
  {
    if marks == [] {
    } else {
      ChainIsPlaced(raw, marks[1..], marks[0].start, marks[0].end);
      var m := marks[0];
      assert m in marks && forall n :: n in marks <==> n == m || n in marks[1..];
      if m.start < m.end <= |raw| {
        assert MarkFits(raw, m) <==> WrapFits(m.wrap, raw[m.start..m.end]);
      }
    }
  }

  lemma {:induction false} EditsPlaced(raw: string, marks: seq<Mark>, a: nat, b: nat)
    requires MarksPlaced(raw, marks, a, b)
    ensures Chain(Edits(marks), a, b) && Inside(raw, Edits(marks))
  {
    if marks == [] {
    } else {
      EditsPlaced(raw, marks[1..], marks[0].start, marks[0].end);
      EditsTail(marks);
      forall k | 0 <= k < |marks|
        ensures Edits(marks)[k].start < Edits(marks)[k].end <= |raw|
      {
        if k > 0 {
          assert Edits(marks)[k] == Edits(marks[1..])[k - 1];
        }
      }
    }
  }

  lemma EditsChain(raw: string, marks: seq<Mark>, a: nat, b: nat)
    requires MarksChain(raw, marks, a, b)
    ensures Chain(Edits(marks), a, b) && Inside(raw, Edits(marks))
  {
    ChainIsPlaced(raw, marks, a, b);
    EditsPlaced(raw, marks, a, b);
  }

  // ----- the document that results from the splices

  function Wrapping(wrap: Wrap, content: string, next: Doc): Doc {
    match wrap
    case Span(category) => Colour(category, content, next)
    case Reference(href, target) => Anchor([href, target, content], next)
  }

  lemma WrappingShown(wrap: Wrap, content: string, next: Doc)
    ensures Show(Wrapping(wrap, content, next)) == OpenTag(wrap) + content + CloseTag(wrap) + Show(next)
  {
    if wrap.Reference? {
      LinkPrinted(wrap.href, wrap.target, content);
    }
  }

  lemma WrappingClean(wrap: Wrap, content: string, next: Doc)
    requires WrapFits(wrap, content) && '<' !in content
    ensures Clean(Wrapping(wrap, content, next)) == Clean(next)
    ensures Words(Wrapping(wrap, content, next)) == content + Words(next)
    ensures HasStray(Wrapping(wrap, content, next)) == HasStray(next)
  {
    if wrap.Reference? {
      LinkFits([wrap.href, wrap.target, content]);
    }
  }

  /** The gap in front of a mark and the wrapped span; or, if the mark begins before pos, what is
      left of it. */
  function Piece(raw: string, pos: nat, m: Mark, next: Doc): Doc
    requires pos <= m.end && m.start < m.end <= |raw|
  {
    if pos <= m.start then Text(raw[pos..m.start], Wrapping(m.wrap, raw[m.start..m.end], next))
    else Stray((OpenTag(m.wrap) + raw[m.start..m.end])[pos - m.start..], CloseTag(m.wrap), next)
  }

  lemma MarksWeaken(raw: string, marks: seq<Mark>, a: nat, b: nat)
    requires MarksChain(raw, marks, a, b)
    ensures MarksChain(raw, marks, 0, b)
  {
  }

  ghost function WeaveDoc(raw: string, pos: nat, marks: seq<Mark>): Doc
    requires pos <= |raw| && MarksChain(raw, marks, 0, pos)
    decreases |marks|
  {
    if marks == [] then Text(raw[pos..], Nothing)
    else
      var m := marks[0];
      MarksWeaken(raw, marks[1..], m.start, m.end);
      Piece(raw, pos, m, WeaveDoc(raw, m.end, marks[1..]))
  }

  lemma PieceShown(raw: string, pos: nat, m: Mark, next: Doc)
    requires pos <= m.end && m.start < m.end <= |raw|
    ensures var open, body, close := OpenTag(m.wrap), raw[m.start..m.end], CloseTag(m.wrap);
            Show(Piece(raw, pos, m, next)) ==
            (if pos <= m.start then raw[pos..m.start] + (open + body + close)
             else (open + body)[pos - m.start..] + close) + Show(next)
  {
    if pos <= m.start {
      WrappingShown(m.wrap, raw[m.start..m.end], next);
      Associate(raw[pos..m.start], OpenTag(m.wrap) + raw[m.start..m.end] + CloseTag(m.wrap), Show(next));
    }
  }

  lemma WovenStep(raw: string, pos: nat, edits: seq<Edit>, rest: string)
    requires Inside(raw, edits) && pos <= |raw| && edits != []
    requires Woven(raw, edits[0].end, edits[1..]) == rest
    ensures var e := edits[0];
            pos <= e.start ==> Woven(raw, pos, edits) == raw[pos..e.start] + Wrapped(raw, e) + rest
    ensures var e := edits[0];
            e.start < pos <= e.end ==>
              Woven(raw, pos, edits) == (e.open + raw[e.start..e.end])[pos - e.start..] + e.close + rest
  {
  }

  lemma {:induction false} WeaveDocShown(raw: string, pos: nat, marks: seq<Mark>)
    requires pos <= |raw| && MarksChain(raw, marks, 0, pos)
    ensures Inside(raw, Edits(marks)) && Woven(raw, pos, Edits(marks)) == Show(WeaveDoc(raw, pos, marks))
    decreases |marks|
  {
    EditsChain(raw, marks, 0, pos);
    if marks == [] {
      assert raw[pos..] + "" == raw[pos..];
    } else {
      MarksWeaken(raw, marks[1..], marks[0].start, marks[0].end);
      WeaveDocShown(raw, marks[0].end, marks[1..]);
      WeaveDocStep(raw, pos, marks);
    }
  }

  lemma WeaveDocStep(raw: string, pos: nat, marks: seq<Mark>)
    requires pos <= |raw| && marks != [] && MarksChain(raw, marks, 0, pos) && MarksChain(raw, marks[1..], 0, marks[0].end)
    requires Inside(raw, Edits(marks)) && Inside(raw, Edits(marks[1..]))
    requires Woven(raw, marks[0].end, Edits(marks[1..])) == Show(WeaveDoc(raw, marks[0].end, marks[1..]))
    ensures Woven(raw, pos, Edits(marks)) == Show(WeaveDoc(raw, pos, marks))
  {
    var m, next := marks[0], WeaveDoc(raw, marks[0].end, marks[1..]);
    assert WeaveDoc(raw, pos, marks) == Piece(raw, pos, m, next);
    EditsTail(marks);
    WovenStep(raw, pos, Edits(marks), Show(next));
    PieceShown(raw, pos, m, next);
  }

  /** The links among the marks. */
  function MarkLinks(raw: string, marks: seq<Mark>): seq<seq<string>> {
    if marks == [] then []
    else
      var m := marks[0];
      (if m.wrap.Reference? && m.start <= m.end <= |raw|
       then [[m.wrap.href, m.wrap.target, raw[m.start..m.end]]] else []) + MarkLinks(raw, marks[1..])
  }

  lemma {:induction false} WeaveDocClean(raw: string, pos: nat, marks: seq<Mark>)
    requires pos <= |raw| && MarksChain(raw, marks, 0, pos) && '<' !in raw
    ensures Clean(WeaveDoc(raw, pos, marks))
    ensures HasStray(WeaveDoc(raw, pos, marks)) <==> !MarksApart(marks, pos)
    ensures MarksApart(marks, pos) ==> Words(WeaveDoc(raw, pos, marks)) == raw[pos..]
    decreases |marks|
  {
    if marks == [] {
      assert raw[pos..] + "" == raw[pos..];
    } else {
      var m := marks[0];
      MarksWeaken(raw, marks[1..], m.start, m.end);
      WeaveDocClean(raw, m.end, marks[1..]);
      PieceClean(raw, pos, m, WeaveDoc(raw, m.end, marks[1..]));
    }
  }

  lemma PieceClean(raw: string, pos: nat, m: Mark, next: Doc)
    requires pos <= m.end && m.start < m.end <= |raw| && '<' !in raw
    requires WrapFits(m.wrap, raw[m.start..m.end]) && Clean(next)
    ensures Clean(Piece(raw, pos, m, next))
    ensures HasStray(Piece(raw, pos, m, next)) <==> HasStray(next) || m.start < pos
    ensures pos <= m.start && Words(next) == raw[m.end..] ==> Words(Piece(raw, pos, m, next)) == raw[pos..]
  {
    if pos <= m.start {
      WrappingClean(m.wrap, raw[m.start..m.end], next);
      Rejoin(raw, pos, m.start, m.end);
    } else {
      OpenTail(m.wrap, raw[m.start..m.end], pos - m.start);
    }
  }

  lemma {:induction false} WeaveDocLinks(raw: string, pos: nat, marks: seq<Mark>)
    requires pos <= |raw| && MarksChain(raw, marks, 0, pos) && MarksApart(marks, pos)
    ensures Links(WeaveDoc(raw, pos, marks)) == MarkLinks(raw, marks)
    decreases |marks|
  {
    if marks == [] {
    } else {
      var m := marks[0];
      MarksWeaken(raw, marks[1..], m.start, m.end);
      WeaveDocLinks(raw, m.end, marks[1..]);
      var next := WeaveDoc(raw, m.end, marks[1..]);
      assert WeaveDoc(raw, pos, marks) == Piece(raw, pos, m, next);
      assert [] + MarkLinks(raw, marks[1..]) == MarkLinks(raw, marks[1..]);
    }
  }

  lemma Rejoin(raw: string, pos: nat, start: nat, end: nat)
    requires pos <= start <= end <= |raw|
    ensures raw[pos..] == raw[pos..start] + (raw[start..end] + raw[end..])
  {
  }

  /** A tag that has lost its first characters shows no opening bracket. */
  lemma OpenTail(wrap: Wrap, content: string, k: nat)
    requires WrapFits(wrap, content) && '<' !in content && 0 < k <= |content|
    ensures '<' !in (OpenTag(wrap) + content)[k..]
  {
    OpenBracket(wrap, content);
    var open := OpenTag(wrap);
    assert forall i :: k <= i < |open + content| ==>
        (open + content)[i] == if i < |open| then open[i] else content[i - |open|];
  }

  lemma OpenBracket(wrap: Wrap, content: string)
    requires WrapFits(wrap, content)
    ensures forall i :: 0 < i < |OpenTag(wrap)| ==> OpenTag(wrap)[i] != '<'
  {
    match wrap
    case Span(category) =>
      assert AllOf(category, LowerLetter);
    case Reference(href, target) =>
      LinkBracket(href, target);
  }

  lemma BracketFront(x: string, y: string)
    requires x != "" && '<' !in x[1..] && '<' !in y
    ensures '<' !in (x + y)[1..]
  {
    assert (x + y)[1..] == x[1..] + y;
  }

  lemma LinkBracket(href: string, target: string)
    requires AllOf(href, HrefChar) && AllOf(target, TargetChar)
    ensures forall i :: 0 < i < |LinkOpen(href, target)| ==> LinkOpen(href, target)[i] != '<'
  {
    var a, b := "<a class=\"type-reference\" href=\"", "\" data-type=\"";
    BracketFront(a, href);
    BracketFront(a + href, b);
    BracketFront(a + href + b, target);
    BracketFront(a + href + b + target, "\">");
    assert forall i :: 0 < i < |LinkOpen(href, target)| ==> LinkOpen(href, target)[i] == LinkOpen(href, target)[1..][i - 1];
  }

  lemma {:induction false} OnlyLinks(marks: seq<Mark>, raw: string, pos: nat)
    requires pos <= |raw| && MarksChain(raw, marks, 0, pos) && forall m :: m in marks ==> m.wrap.Reference?
    ensures !HasColour(WeaveDoc(raw, pos, marks))
    decreases |marks|
  {
    if marks == [] {
    } else {
      MarksWeaken(raw, marks[1..], marks[0].start, marks[0].end);
      assert marks[0] in marks && forall m :: m in marks[1..] ==> m in marks;
      OnlyLinks(marks[1..], raw, marks[0].end);
    }
  }

  // ----- the texts between marks

  /** No reference in a text stands for several characters. */
  predicate TextsSingle(unescape: Unescape, doc: Doc) {
    match doc
    case Nothing => true
    case Text(text, next) => SingleCharacters(unescape, text, 0) && TextsSingle(unescape, next)
    case _ => TextsSingle(unescape, doc.next)
  }

  ghost predicate MarksAtEdges(raw: string, marks: seq<Mark>) {
    marks == [] ||
    (UnitEdge(raw, 0, marks[0].start) && UnitEdge(raw, 0, marks[0].end) && MarksAtEdges(raw, marks[1..]))
  }

  lemma GapSingle(unescape: Unescape, raw: string, pos: nat, end: nat)
    requires UnitEdge(raw, 0, pos) && UnitEdge(raw, 0, end) && pos <= end && SingleCharacters(unescape, raw, 0)
    ensures end <= |raw| && SingleCharacters(unescape, raw[pos..end], 0)
  {
    EdgeAhead(raw, 0, end);
    EdgeBetween(raw, 0, pos, end);
    SingleBehind(unescape, raw, 0, pos);
    SingleFront(unescape, raw, pos, end);
    SingleTake(unescape, raw, end, pos);
    assert raw[..end] == raw[..pos] + raw[pos..end];
    SingleDrop(unescape, raw[..pos], raw[pos..end], 0);
  }

  /** What links leave of a text in which every reference stands for one character is such texts. */
  lemma {:induction false} WeaveDocSingle(unescape: Unescape, raw: string, pos: nat, marks: seq<Mark>)
    requires pos <= |raw| && MarksChain(raw, marks, 0, pos) && MarksApart(marks, pos)
    requires forall m :: m in marks ==> m.wrap.Reference?
    ensures Alternating(WeaveDoc(raw, pos, marks))
    ensures SingleCharacters(unescape, raw, 0) && UnitEdge(raw, 0, pos) && MarksAtEdges(raw, marks) ==>
              TextsSingle(unescape, WeaveDoc(raw, pos, marks))
    decreases |marks|
  {
    EndIsEdge(raw, 0);
    var single := SingleCharacters(unescape, raw, 0) && UnitEdge(raw, 0, pos) && MarksAtEdges(raw, marks);
    if marks == [] {
      if single {
        GapSingle(unescape, raw, pos, |raw|);
        assert raw[pos..|raw|] == raw[pos..];
      }
    } else {
      var m := marks[0];
      MarksWeaken(raw, marks[1..], m.start, m.end);
      assert m in marks && forall m :: m in marks[1..] ==> m in marks;
      WeaveDocSingle(unescape, raw, m.end, marks[1..]);
      if single {
        GapSingle(unescape, raw, pos, m.start);
      }
      assert WeaveDoc(raw, pos, marks) == Piece(raw, pos, m, WeaveDoc(raw, m.end, marks[1..]));
    }
  }

  /** Everything the splices of marks in order do to a text without tags. */
  lemma SpliceIsDoc(raw: string, marks: seq<Mark>) returns (doc: Doc)
    requires MarksChain(raw, marks, 0, 0) && '<' !in raw
    ensures Inside(raw, Edits(marks)) && Splice(raw, Edits(marks)) == Show(doc)
    ensures Clean(doc)
    ensures HasStray(doc) <==> !MarksApart(marks, 0)
    ensures MarksApart(marks, 0) ==> Words(doc) == raw && Links(doc) == MarkLinks(raw, marks)
    ensures (forall m :: m in marks ==> m.wrap.Reference?) ==> !HasColour(doc)
    ensures doc == WeaveDoc(raw, 0, marks)
  {
    EditsChain(raw, marks, 0, 0);
    doc := WeaveDoc(raw, 0, marks);
    SpliceWoven(raw, Edits(marks), 0, 0);
    WeaveDocShown(raw, 0, marks);
    WeaveDocClean(raw, 0, marks);
    if MarksApart(marks, 0) {
      WeaveDocLinks(raw, 0, marks);
    }
    if forall m :: m in marks ==> m.wrap.Reference? {
      OnlyLinks(marks, raw, 0);
    }
    assert Splice(raw, Edits(marks))[0..] == Splice(raw, Edits(marks)) && raw[0..] == raw;
  }
}
