/** Decoded text with the raw span of every character, and the reverse-order splicing of markup
    around raw spans. */
module Offsets {
  import opened Texts
  import opened Patterns

  /** html.unescape */
  type Unescape = string -> string

  predicate HexDigit(c: char) {
    Digit(c) || 'a' <= c <= 'f' || 'A' <= c <= 'F'
  }

  const SEMICOLON: Pattern := Literal(";", Done)
  const DECIMAL: Pattern := Literal("&#", Run(Digit, 1, SEMICOLON))
  const HEXADECIMAL: Pattern := Literal("&#x", Run(HexDigit, 1, SEMICOLON))
  const NAMED: Pattern := Literal("&", Run(LetterOrDigit, 1, SEMICOLON))

  /** Length of the character reference or single character at the start of s. */
  function UnitLength(s: string): (n: nat)
    requires s != ""
    ensures 0 < n <= |s|
  {
    var decimal, hexadecimal, named := Match(DECIMAL, s), Match(HEXADECIMAL, s), Match(NAMED, s);
    if decimal.Found? && decimal.length > 0 then decimal.length
    else if hexadecimal.Found? && hexadecimal.length > 0 then hexadecimal.length
    else if named.Found? && named.length > 0 then named.length
    else 1
  }

  /** A decoded character and the raw span that stands for it. */
  datatype Cell = Cell(ch: char, start: nat, end: nat)

  function UnitCells(chars: string, start: nat, end: nat): (cells: seq<Cell>)
    ensures |cells| == |chars|
    ensures forall k :: 0 <= k < |cells| ==> cells[k] == Cell(chars[k], start, end)
  {
    seq(|chars|, k requires 0 <= k < |chars| => Cell(chars[k], start, end))
  }

  function Cells(unescape: Unescape, raw: string, i: nat): seq<Cell>
    requires i <= |raw|
    decreases |raw| - i
  {
    if i == |raw| then []
    else
      var n := UnitLength(raw[i..]);
      UnitCells(unescape(raw[i..i + n]), i, i + n) + Cells(unescape, raw, i + n)
  }

  function Decoded(cells: seq<Cell>): (text: string)
    ensures |text| == |cells|
    ensures forall k :: 0 <= k < |text| ==> text[k] == cells[k].ch
  {
    seq(|cells|, k requires 0 <= k < |cells| => cells[k].ch)
  }

  function Starts(cells: seq<Cell>): (starts: seq<nat>)
    ensures |starts| == |cells|
    ensures forall k :: 0 <= k < |starts| ==> starts[k] == cells[k].start
  {
    seq(|cells|, k requires 0 <= k < |cells| => cells[k].start)
  }

  function Ends(cells: seq<Cell>): (ends: seq<nat>)
    ensures |ends| == |cells|
    ensures forall k :: 0 <= k < |ends| ==> ends[k] == cells[k].end
  {
    seq(|cells|, k requires 0 <= k < |cells| => cells[k].end)
  }

  function Repeat(n: nat, value: nat): (r: seq<nat>)
    ensures |r| == n && forall k :: 0 <= k < n ==> r[k] == value
  {
    seq(n, _ => value)
  }

  lemma CellsJoined(cells: seq<Cell>, chars: string, start: nat, end: nat)
    ensures var all := cells + UnitCells(chars, start, end);
            Decoded(all) == Decoded(cells) + chars &&
            Starts(all) == Starts(cells) + Repeat(|chars|, start) &&
            Ends(all) == Ends(cells) + Repeat(|chars|, end)
  {
  }

  /** text, starts and ends of the cells in front of i. */
  ghost predicate DecodedTo(unescape: Unescape, raw: string, i: nat, cells: seq<Cell>, text: string, starts: seq<nat>, ends: seq<nat>)
    requires i <= |raw|
  {
    Cells(unescape, raw, 0) == cells + Cells(unescape, raw, i) &&
    text == Decoded(cells) && starts == Starts(cells) && ends == Ends(cells)
  }

  lemma DecodedNext(unescape: Unescape, raw: string, i: nat, cells: seq<Cell>, text: string, starts: seq<nat>, ends: seq<nat>,
                    n: nat, chars: string)
    requires i < |raw| && n == UnitLength(raw[i..]) && chars == unescape(raw[i..i + n])
    requires DecodedTo(unescape, raw, i, cells, text, starts, ends)
    ensures DecodedTo(unescape, raw, i + n, cells + UnitCells(chars, i, i + n), text + chars,
                      starts + Repeat(|chars|, i), ends + Repeat(|chars|, i + n))
  {
    CellsJoined(cells, chars, i, i + n);
    var unit, rest := UnitCells(chars, i, i + n), Cells(unescape, raw, i + n);
    assert cells + (unit + rest) == (cells + unit) + rest;
  }

  lemma DecodedEnds(unescape: Unescape, raw: string, cells: seq<Cell>)
    ensures DecodedTo(unescape, raw, 0, [], "", [], [])
    ensures Cells(unescape, raw, 0) == cells + Cells(unescape, raw, |raw|) ==> Cells(unescape, raw, 0) == cells
  {
    assert [] + Cells(unescape, raw, 0) == Cells(unescape, raw, 0);
    assert cells + [] == cells;
  }

  /** One turn of the loop: the unit at i and its characters. */
  method ReadUnit(unescape: Unescape, raw: string, i: nat, ghost cells: seq<Cell>, text: string, starts: seq<nat>, ends: seq<nat>)
    returns (n: nat, chars: string)
    requires i < |raw| && DecodedTo(unescape, raw, i, cells, text, starts, ends)
    ensures 0 < n && i + n <= |raw|
    ensures DecodedTo(unescape, raw, i + n, cells + UnitCells(chars, i, i + n), text + chars,
                      starts + Repeat(|chars|, i), ends + Repeat(|chars|, i + n))
  {
    n := UnitLength(raw[i..]);
    chars := unescape(raw[i..i + n]);
    DecodedNext(unescape, raw, i, cells, text, starts, ends, n, chars);
  }

  /** decoded_offsets */
  method DecodedOffsets(unescape: Unescape, raw: string) returns (text: string, starts: seq<nat>, ends: seq<nat>)
    ensures var cells := Cells(unescape, raw, 0);
            text == Decoded(cells) && starts == Starts(cells) && ends == Ends(cells)
  {
    text, starts, ends := "", [], [];
    var i := 0;
    ghost var cells: seq<Cell> := [];
    DecodedEnds(unescape, raw, cells);
    while i < |raw|
      invariant i <= |raw| && DecodedTo(unescape, raw, i, cells, text, starts, ends)
    {
      var n, chars := ReadUnit(unescape, raw, i, cells, text, starts, ends);
      text, starts, ends := text + chars, starts + Repeat(|chars|, i), ends + Repeat(|chars|, i + n);
      cells := cells + UnitCells(chars, i, i + n);
      i := i + n;
    }
    DecodedEnds(unescape, raw, cells);
  }

  predicate CellsWithin(cells: seq<Cell>, low: nat, high: nat) {
    forall k :: 0 <= k < |cells| ==> low <= cells[k].start < cells[k].end <= high
  }

  predicate CellsRise(cells: seq<Cell>) {
    forall j, k :: 0 <= j < k < |cells| ==> cells[j].start <= cells[k].start && cells[j].end <= cells[k].end
  }

  predicate CellsApart(cells: seq<Cell>) {
    forall j, k :: 0 <= j < k < |cells| ==> cells[j].end <= cells[k].start
  }

  lemma UnitBefore(chars: string, start: nat, end: nat, rest: seq<Cell>, high: nat)
    requires start < end <= high && CellsWithin(rest, end, high)
    ensures CellsWithin(UnitCells(chars, start, end) + rest, start, high)
    ensures CellsRise(rest) ==> CellsRise(UnitCells(chars, start, end) + rest)
    ensures CellsApart(rest) && |chars| <= 1 ==> CellsApart(UnitCells(chars, start, end) + rest)
  {
  }

  /** Cells lie in raw behind i, one unit after the other. */
  lemma {:induction false} CellsOrdered(unescape: Unescape, raw: string, i: nat)
    requires i <= |raw|
    ensures CellsWithin(Cells(unescape, raw, i), i, |raw|) && CellsRise(Cells(unescape, raw, i))
    decreases |raw| - i
  {
    if i < |raw| {
      var n := UnitLength(raw[i..]);
      CellsOrdered(unescape, raw, i + n);
      UnitBefore(unescape(raw[i..i + n]), i, i + n, Cells(unescape, raw, i + n), |raw|);
    }
  }

  lemma OrderedCells(unescape: Unescape, raw: string) returns (cells: seq<Cell>)
    ensures cells == Cells(unescape, raw, 0) && CellsWithin(cells, 0, |raw|) && CellsRise(cells)
  {
    cells := Cells(unescape, raw, 0);
    CellsOrdered(unescape, raw, 0);
  }

  /** Every reference stands for at most one character. */
  predicate SingleCharacters(unescape: Unescape, raw: string, i: nat)
    requires i <= |raw|
    decreases |raw| - i
  {
    i == |raw| ||
    var n := UnitLength(raw[i..]);
    |unescape(raw[i..i + n])| <= 1 && SingleCharacters(unescape, raw, i + n)
  }

  lemma {:induction false} SingleCells(unescape: Unescape, raw: string, i: nat)
    requires i <= |raw| && SingleCharacters(unescape, raw, i)
    ensures CellsApart(Cells(unescape, raw, i))
    decreases |raw| - i
  {
    if i < |raw| {
      var n := UnitLength(raw[i..]);
      CellsOrdered(unescape, raw, i + n);
      SingleCells(unescape, raw, i + n);
      UnitBefore(unescape(raw[i..i + n]), i, i + n, Cells(unescape, raw, i + n), |raw|);
    }
  }

  // ----- a text between two unit boundaries

  lemma ReferencePatterns(s: string)
    ensures Separated(DECIMAL) && Separated(HEXADECIMAL) && Separated(NAMED)
    ensures Match(DECIMAL, s).Found? ==> Match(DECIMAL, s).length > 0
    ensures Match(HEXADECIMAL, s).Found? ==> Match(HEXADECIMAL, s).length > 0
    ensures Match(NAMED, s).Found? ==> Match(NAMED, s).length > 0
  {
  }

  /** The first unit of a text is the same when the text ends somewhere behind it. */
  lemma UnitOfFront(s: string, more: string)
    requires s != "" && UnitLength(s + more) <= |s|
    ensures UnitLength(s) == UnitLength(s + more)
  {
    ReferencePatterns(s);
    ReferencePatterns(s + more);
    SameMatch(DECIMAL, s, more);
    if Match(DECIMAL, s).Missing? {
      SameMatch(HEXADECIMAL, s, more);
      if Match(HEXADECIMAL, s).Missing? {
        SameMatch(NAMED, s, more);
      }
    }
  }

  /** A unit of raw begins or ends at p. */
  ghost predicate UnitEdge(raw: string, i: nat, p: nat)
    requires i <= |raw|
    decreases |raw| - i
  {
    p == i || (i < |raw| && UnitEdge(raw, i + UnitLength(raw[i..]), p))
  }

  lemma {:induction false} EdgeAhead(raw: string, i: nat, p: nat)
    requires i <= |raw| && UnitEdge(raw, i, p)
    ensures i <= p <= |raw|
    decreases |raw| - i
  {
    if p != i {
      EdgeAhead(raw, i + UnitLength(raw[i..]), p);
    }
  }

  lemma {:induction false} EdgeBetween(raw: string, i: nat, p: nat, q: nat)
    requires i <= |raw| && UnitEdge(raw, i, p) && UnitEdge(raw, i, q) && p <= q
    ensures p <= |raw| && UnitEdge(raw, p, q)
    decreases |raw| - i
  {
    if p != i {
      EdgeAhead(raw, i, q);
      if q != i {
        EdgeBetween(raw, i + UnitLength(raw[i..]), p, q);
      } else {
        EdgeAhead(raw, i + UnitLength(raw[i..]), p);
      }
    }
  }

  lemma {:induction false} SingleBehind(unescape: Unescape, raw: string, i: nat, p: nat)
    requires i <= |raw| && UnitEdge(raw, i, p) && SingleCharacters(unescape, raw, i)
    ensures p <= |raw| && SingleCharacters(unescape, raw, p)
    decreases |raw| - i
  {
    if p != i {
      SingleBehind(unescape, raw, i + UnitLength(raw[i..]), p);
    }
  }

  /** The units from i to q stand for one character each, and q is the end of the last. */
  ghost predicate SingleUntil(unescape: Unescape, raw: string, i: nat, q: nat)
    decreases q - i
  {
    i <= q <= |raw| &&
    (i == q ||
     (var n := UnitLength(raw[i..]);
      i + n <= q && |unescape(raw[i..i + n])| <= 1 && SingleUntil(unescape, raw, i + n, q)))
  }

  lemma UntilStep(unescape: Unescape, raw: string, i: nat, q: nat) returns (next: nat)
    requires i < q && i < |raw| && UnitEdge(raw, i, q) && SingleCharacters(unescape, raw, i)
    ensures i < next <= |raw| && UnitEdge(raw, next, q) && SingleCharacters(unescape, raw, next)
    ensures SingleUntil(unescape, raw, next, q) ==> SingleUntil(unescape, raw, i, q)
  {
    next := i + UnitLength(raw[i..]);
    EdgeAhead(raw, next, q);
  }

  lemma {:induction false} SingleFront(unescape: Unescape, raw: string, i: nat, q: nat)
    requires i <= |raw| && UnitEdge(raw, i, q) && SingleCharacters(unescape, raw, i)
    ensures SingleUntil(unescape, raw, i, q)
    decreases |raw| - i
  {
    EdgeAhead(raw, i, q);
    if i < q {
      var next := UntilStep(unescape, raw, i, q);
      SingleFront(unescape, raw, next, q);
    }
  }

  lemma SingleStep(unescape: Unescape, s: string, k: nat, n: nat)
    requires k < |s| && UnitLength(s[k..]) == n && |unescape(s[k..k + n])| <= 1 && SingleCharacters(unescape, s, k + n)
    ensures SingleCharacters(unescape, s, k)
  {
  }

  lemma UnitTaken(raw: string, q: nat, i: nat)
    requires i < q <= |raw| && i + UnitLength(raw[i..]) <= q
    ensures UnitLength(raw[..q][i..]) == UnitLength(raw[i..])
    ensures raw[..q][i..i + UnitLength(raw[i..])] == raw[i..i + UnitLength(raw[i..])]
  {
    assert raw[i..] == raw[..q][i..] + raw[q..];
    UnitOfFront(raw[..q][i..], raw[q..]);
  }

  /** A text cut off at a unit boundary has the units it has in the whole. */
  lemma {:induction false} SingleTake(unescape: Unescape, raw: string, q: nat, i: nat)
    requires SingleUntil(unescape, raw, i, q)
    ensures SingleCharacters(unescape, raw[..q], i)
    decreases q - i
  {
    if i < q {
      var n := UnitLength(raw[i..]);
      SingleTake(unescape, raw, q, i + n);
      UnitTaken(raw, q, i);
      SingleStep(unescape, raw[..q], i, n);
    }
  }

  lemma BehindFront(front: string, s: string, k: nat, n: nat)
    requires k + n <= |s|
    ensures (front + s)[|front| + k..] == s[k..]
    ensures (front + s)[|front| + k..|front| + k + n] == s[k..k + n]
  {
  }

  /** And so has what stands behind one. */
  lemma {:induction false} SingleDrop(unescape: Unescape, front: string, s: string, k: nat)
    requires k <= |s| && SingleCharacters(unescape, front + s, |front| + k)
    ensures SingleCharacters(unescape, s, k)
    decreases |s| - k
  {
    if k < |s| {
      var n := UnitLength(s[k..]);
      BehindFront(front, s, k, n);
      SingleDrop(unescape, front, s, k + n);
      SingleStep(unescape, s, k, n);
    }
  }

  lemma {:induction false} EndIsEdge(raw: string, i: nat)
    requires i <= |raw|
    ensures UnitEdge(raw, i, |raw|)
    decreases |raw| - i
  {
    if i < |raw| {
      EndIsEdge(raw, i + UnitLength(raw[i..]));
    }
  }

  ghost predicate AtEdges(raw: string, i: nat, cells: seq<Cell>)
    requires i <= |raw|
  {
    forall k :: 0 <= k < |cells| ==> UnitEdge(raw, i, cells[k].start) && UnitEdge(raw, i, cells[k].end)
  }

  lemma {:induction false} CellEdges(unescape: Unescape, raw: string, i: nat)
    requires i <= |raw|
    ensures AtEdges(raw, i, Cells(unescape, raw, i))
    decreases |raw| - i
  {
    if i < |raw| {
      var n := UnitLength(raw[i..]);
      CellEdges(unescape, raw, i + n);
      UnitEdges(raw, i, n, unescape(raw[i..i + n]), Cells(unescape, raw, i + n));
    }
  }

  lemma UnitEdges(raw: string, i: nat, n: nat, chars: string, rest: seq<Cell>)
    requires i < |raw| && n == UnitLength(raw[i..]) && AtEdges(raw, i + n, rest)
    ensures AtEdges(raw, i, UnitCells(chars, i, i + n) + rest)
  {
    var cells := UnitCells(chars, i, i + n) + rest;
    forall k | 0 <= k < |cells|
      ensures UnitEdge(raw, i, cells[k].start) && UnitEdge(raw, i, cells[k].end)
    {
      if k < |chars| {
        assert UnitEdge(raw, i + n, i + n);
      } else {
        assert cells[k] == rest[k - |chars|];
        EdgeAhead(raw, i + n, rest[k - |chars|].start);
      }
    }
  }

  // ----- splicing

  /** Markup to be put around raw[start..end]. */
  datatype Edit = Edit(start: nat, end: nat, open: string, close: string)

  function Wrapped(raw: string, e: Edit): string
    requires e.start <= e.end <= |raw|
  {
    e.open + raw[e.start..e.end] + e.close
  }

  predicate Inside(raw: string, edits: seq<Edit>) {
    forall k :: 0 <= k < |edits| ==> edits[k].start < edits[k].end <= |raw|
  }

  /** The last edit is spliced in first: result[:start] + markup + result[end:]. */
  function Splice(raw: string, edits: seq<Edit>): (r: string)
    requires Inside(raw, edits)
    ensures |r| >= |raw|
  {
    if edits == [] then raw
    else
      var e, r := edits[0], Splice(raw, edits[1..]);
      r[..e.start] + Wrapped(raw, e) + r[e.end..]
  }

  lemma {:induction false} SpliceGrows(raw: string, edits: seq<Edit>)
    requires Inside(raw, edits) && forall e :: e in edits ==> e.open != ""
    ensures |Splice(raw, edits)| >= |raw| + |edits|
    ensures edits == [] ==> Splice(raw, edits) == raw
  {
    if edits == [] {
    } else {
      assert edits[0] in edits;
      SpliceGrows(raw, edits[1..]);
    }
  }

  method SpliceReversed(raw: string, edits: seq<Edit>) returns (result: string)
    requires Inside(raw, edits)
    ensures result == Splice(raw, edits)
  {
    result := raw;
    var k := |edits|;
    while k > 0
      invariant 0 <= k <= |edits|
      invariant result == Splice(raw, edits[k..])
    {
      k := k - 1;
      var e := edits[k];
      assert edits[k..][0] == e && edits[k..][1..] == edits[k + 1..];
      result := result[..e.start] + Wrapped(raw, e) + result[e.end..];
    }
    assert edits[0..] == edits;
  }

  /** Starts and ends do not decrease, from a and b on. */
  predicate Chain(edits: seq<Edit>, a: nat, b: nat) {
    edits == [] || (a <= edits[0].start && b <= edits[0].end && Chain(edits[1..], edits[0].start, edits[0].end))
  }

  /** No edit begins before the one in front of it has ended. */
  predicate Separate(edits: seq<Edit>, pos: nat) {
    edits == [] || (pos <= edits[0].start && Separate(edits[1..], edits[0].end))
  }

  /** What the splices leave behind pos: gaps and wrapped spans, front to back. An edit that begins
      before pos has lost the front of its markup. */
  function Woven(raw: string, pos: nat, edits: seq<Edit>): string
    requires Inside(raw, edits) && pos <= |raw|
    decreases |edits|
  {
    if edits == [] then raw[pos..]
    else
      var e := edits[0];
      (if pos <= e.start then raw[pos..e.start] + Wrapped(raw, e)
       else if pos - e.start <= |e.open| + (e.end - e.start)
       then (e.open + raw[e.start..e.end])[pos - e.start..] + e.close
       else "") + Woven(raw, e.end, edits[1..])
  }

  lemma {:induction false} FrontUntouched(raw: string, edits: seq<Edit>, a: nat, b: nat)
    requires Inside(raw, edits) && Chain(edits, a, b) && a <= |raw|
    ensures Splice(raw, edits)[..a] == raw[..a]
  {
    if edits != [] {
      var e := edits[0];
      FrontUntouched(raw, edits[1..], e.start, e.end);
      var r := Splice(raw, edits[1..]);
      assert r[..e.start] == raw[..e.start];
      assert Splice(raw, edits)[..a] == r[..e.start][..a] == raw[..e.start][..a] == raw[..a];
    }
  }

  lemma WovenUnfold(raw: string, edits: seq<Edit>, pos: nat, rest: string)
    requires Inside(raw, edits) && pos <= |raw| && edits != [] && pos <= edits[0].end
    requires Woven(raw, edits[0].end, edits[1..]) == rest
    ensures var e := edits[0];
            Woven(raw, pos, edits) ==
            (if pos <= e.start then raw[pos..e.start] + Wrapped(raw, e)
             else (e.open + raw[e.start..e.end])[pos - e.start..] + e.close) + rest
  {
  }

  lemma SpliceUnfold(raw: string, edits: seq<Edit>, rest: string)
    requires Inside(raw, edits) && edits != [] && |rest| == |Splice(raw, edits[1..])| - edits[0].end
    requires Splice(raw, edits[1..])[edits[0].end..] == rest && Splice(raw, edits[1..])[..edits[0].start] == raw[..edits[0].start]
    ensures Splice(raw, edits) == raw[..edits[0].start] + Wrapped(raw, edits[0]) + rest
  {
  }

  /** Reverse-order splicing never disturbs an edit still pending: the result reads front to back
      as gaps and wrapped spans. */
  lemma {:induction false} SpliceWoven(raw: string, edits: seq<Edit>, a: nat, pos: nat)
    requires Inside(raw, edits) && Chain(edits, a, pos) && pos <= |raw|
    ensures Splice(raw, edits)[pos..] == Woven(raw, pos, edits)
  {
    if edits == [] {
    } else {
      var e := edits[0];
      FrontUntouched(raw, edits[1..], e.start, e.end);
      SpliceWoven(raw, edits[1..], e.start, e.end);
      var rest := Splice(raw, edits[1..])[e.end..];
      SpliceUnfold(raw, edits, rest);
      WovenUnfold(raw, edits, pos, rest);
      CutWrapped(raw[..e.start], e.open, raw[e.start..e.end], e.close, rest, pos);
      if pos <= e.start {
        assert raw[..e.start][pos..] == raw[pos..e.start];
      }
    }
  }

  lemma CutWrapped(front: string, open: string, body: string, close: string, tail: string, pos: nat)
    requires pos <= |front| + |body|
    ensures var whole := front + (open + body + close) + tail;
            whole[pos..] == (if pos <= |front| then front[pos..] + (open + body + close)
                             else (open + body)[pos - |front|..] + close) + tail
  {
  }
}
