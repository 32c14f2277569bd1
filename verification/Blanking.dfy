/** Removal of binding annotations from a header without moving anything: two scanning passes that
    replace what they find by blanks, and the sorted record of what was replaced. An edit is a span
    whose note is what stood there. */
module Blanking {
  import opened Texts
  import opened Spans

  /** Calls are annotations with an argument list, Words are annotations standing alone. */
  datatype Pass = Calls | Words

  const CALLS := ["CV_EXPORTS_AS", "CV_EXPORTS_W_SIMPLE", "CV_WRAP_AS", "CV_WRAP_DEFAULT",
                  "CV_DEPRECATED_EXTERNAL", "CV_DEPRECATED_INTERNAL"]

  const EXPORTS := ["CV_EXPORTS_W_SIMPLE", "CV_EXPORTS_W_MAP", "CV_EXPORTS_W", "CV_EXPORTS"]
  const WRAPS := ["CV_WRAP_PHANTOM", "CV_WRAP_MAPPABLE", "CV_WRAP", "CV_OUT", "CV_IN_OUT"]
  const PROPERTIES := ["CV_PROP_RW", "CV_PROP", "CV_NODISCARD_STD", "CV_NODISCARD", "CV_NOEXCEPT"]
  const MODIFIERS := ["CV_OVERRIDE", "CV_FINAL", "CV_INLINE", "CV_DEPRECATED", "CV_NORETURN"]
  const WORDS := EXPORTS + WRAPS + PROPERTIES + MODIFIERS

  predicate NoParenthesis(c: char) {
    c != '(' && c != ')'
  }

  /** \s*\([^()]*\) */
  function Arguments(s: string, i: nat): (r: Option<nat>)
    requires i <= |s|
    ensures r.Some? ==> i < r.value <= |s|
  {
    var open := RunEnd(s, i, AsciiSpace);
    if open == |s| || s[open] != '(' then None
    else
      var close := RunEnd(s, open + 1, NoParenthesis);
      if close == |s| || s[close] != ')' then None else Some(close + 1)
  }

  /** The end of a match of the pass's expression at i. */
  function EndAt(pass: Pass, s: string, i: nat): (r: Option<nat>)
    requires i <= |s|
    ensures r.Some? ==> i < r.value <= |s|
  {
    if !Boundary(s, i) then None
    else
      match pass
      case Words => Longer(i, FirstName(s, i, WORDS, true))
      case Calls =>
        match FirstName(s, i, CALLS, false)
        case None => None
        case Some(k) => Longer(i, Arguments(s, k))
  }

  /** No name is empty, so a match is never empty. */
  function Longer(i: nat, end: Option<nat>): (r: Option<nat>)
    ensures r.Some? ==> i < r.value && r == end
  {
    if end.Some? && i < end.value then end else None
  }

  /** re.finditer from i on */
  function Scan(pass: Pass, s: string, i: nat): seq<Span>
    requires i <= |s|
    decreases |s| - i
  {
    if i == |s| then []
    else
      match EndAt(pass, s, i)
      case Some(k) => [Span(i, k, s[i..k])] + Scan(pass, s, k)
      case None => Scan(pass, s, i + 1)
  }

  function BlankChar(c: char): char {
    if c == '\n' then c else ' '
  }

  function BlankText(s: string): string {
    seq(|s|, i requires 0 <= i < |s| => BlankChar(s[i]))
  }

  predicate Within(e: Span, i: int) {
    e.start <= i < e.end
  }

  predicate Covered(edits: seq<Span>, i: int) {
    exists e :: e in edits && Within(e, i)
  }

  function CharAt(s: string, edits: seq<Span>, i: nat): char
    requires i < |s|
  {
    if Covered(edits, i) then BlankChar(s[i]) else s[i]
  }

  /** The text with everything the edits cover blanked, line ends excepted. */
  function Blanked(s: string, edits: seq<Span>): (r: string)
    ensures |r| == |s|
  {
    seq(|s|, i requires 0 <= i < |s| => CharAt(s, edits, i))
  }

  // ----- one pass

  /** The edits say truly what stands in the text. */
  predicate Sound(s: string, edits: seq<Span>) {
    forall e :: e in edits ==> e.start < e.end <= |s| && e.note == s[e.start..e.end]
  }

  predicate Before(edits: seq<Span>, i: nat) {
    forall e :: e in edits ==> e.end <= i
  }

  lemma {:induction false} ScanSound(pass: Pass, s: string, i: nat)
    requires i <= |s|
    ensures Sound(s, Scan(pass, s, i)) && From(Scan(pass, s, i), i) && Apart(Scan(pass, s, i))
    decreases |s| - i
  {
    if i == |s| {
    } else {
      match EndAt(pass, s, i)
      case None =>
        ScanSound(pass, s, i + 1);
      case Some(k) =>
        ScanSound(pass, s, k);
        ApartCons(Span(i, k, s[i..k]), Scan(pass, s, k));
    }
  }

  /** The text up to i is written out, blanked where the edits found so far say so. */
  predicate Progress(s: string, result: string, edits: seq<Span>, i: nat) {
    i <= |s| && |result| == i && Before(edits, i) && forall j :: 0 <= j < i ==> result[j] == CharAt(s, edits, j)
  }

  /** One pass of the loop in prepare: the matches and the text without them. */
  method BlankPass(pass: Pass, s: string) returns (result: string, edits: seq<Span>)
    ensures edits == Scan(pass, s, 0) && result == Blanked(s, edits)
  {
    var i := 0;
    result, edits := "", [];
    ghost var goal := Scan(pass, s, 0);
    while i < |s|
      invariant i <= |s| && Recorded(pass, s, edits, i) == goal
      invariant Progress(s, result, edits, i)
    {
      match EndAt(pass, s, i) {
        case Some(k) =>
          var found := Span(i, k, s[i..k]);
          TakeMatch(s, result, edits, found);
          TakeScan(pass, s, edits, found);
          edits := edits + [found];
          result := result + BlankText(s[i..k]);
          i := k;
        case None =>
          TakeCharacter(s, result, edits, i);
          result := result + [s[i]];
          i := i + 1;
      }
    }
    AllWritten(s, result, edits);
  }

  /** What the loop will have recorded, from a place on. */
  function Recorded(pass: Pass, s: string, edits: seq<Span>, i: nat): seq<Span>
    requires i <= |s|
  {
    edits + Scan(pass, s, i)
  }

  lemma AllWritten(s: string, result: string, edits: seq<Span>)
    requires Progress(s, result, edits, |s|)
    ensures result == Blanked(s, edits)
  {
  }

  lemma FirstScanned(pass: Pass, s: string, i: nat, k: nat)
    requires i < |s| && EndAt(pass, s, i) == Some(k)
    ensures Scan(pass, s, i) == [Span(i, k, s[i..k])] + Scan(pass, s, k)
  {
  }

  lemma EditsInOrder(a: seq<Span>, b: seq<Span>, c: seq<Span>)
    ensures a + (b + c) == a + b + c
  {
  }

  lemma TakeScan(pass: Pass, s: string, edits: seq<Span>, found: Span)
    requires found.start < |s| && EndAt(pass, s, found.start) == Some(found.end) && found.note == s[found.start..found.end]
    ensures Recorded(pass, s, edits, found.start) == Recorded(pass, s, edits + [found], found.end)
  {
    FirstScanned(pass, s, found.start, found.end);
    EditsInOrder(edits, [found], Scan(pass, s, found.end));
  }

  lemma TakeMatch(s: string, result: string, edits: seq<Span>, found: Span)
    requires Progress(s, result, edits, found.start) && found.start < found.end <= |s|
    ensures Progress(s, result + BlankText(s[found.start..found.end]), edits + [found], found.end)
  {
    var i, k := found.start, found.end;
    var result' := result + BlankText(s[i..k]);
    CoverMore(edits, found, i);
    forall j | 0 <= j < k
      ensures result'[j] == CharAt(s, edits + [found], j)
    {
      if j >= i {
        assert found in edits + [found] && Within(found, j);
        assert result'[j] == BlankChar(s[i..k][j - i]);
      }
    }
  }

  lemma CoverMore(edits: seq<Span>, e: Span, i: nat)
    requires e.start == i
    ensures forall j :: 0 <= j < i ==> (Covered(edits + [e], j) <==> Covered(edits, j))
  {
    forall j | 0 <= j < i
      ensures Covered(edits + [e], j) <==> Covered(edits, j)
    {
      if Covered(edits, j) {
        var f :| f in edits && Within(f, j);
        assert f in edits + [e];
      }
    }
  }

  lemma TakeCharacter(s: string, result: string, edits: seq<Span>, i: nat)
    requires Progress(s, result, edits, i) && i < |s|
    ensures Progress(s, result + [s[i]], edits, i + 1)
  {
    assert !Covered(edits, i);
  }

  // ----- the two passes do not meet

  lemma {:induction false} ScanWords(s: string, i: nat)
    requires i <= |s|
    ensures forall e, j :: e in Scan(Words, s, i) && Within(e, j) ==> WordAt(s, j)
    decreases |s| - i
  {
    if i == |s| {
    } else {
      match EndAt(Words, s, i)
      case None =>
        ScanWords(s, i + 1);
      case Some(k) =>
        ScanWords(s, k);
        NamesAreWords(s[i..k]);
        forall j | i <= j < k
          ensures WordAt(s, j)
        {
          assert s[i..k][j - i] == s[j];
        }
    }
  }

  lemma NamesAreWords(name: string)
    requires name in WORDS
    ensures forall j :: 0 <= j < |name| ==> Alphanumeric(name[j])
  {
    if name in EXPORTS {
      ExportsAreWords(name);
    } else if name in WRAPS {
      WrapsAreWords(name);
    } else if name in PROPERTIES {
      PropertiesAreWords(name);
    } else {
      ModifiersAreWords(name);
    }
  }

  lemma ExportsAreWords(name: string)
    requires name in EXPORTS
    ensures forall j :: 0 <= j < |name| ==> Alphanumeric(name[j])
  {
  }

  lemma WrapsAreWords(name: string)
    requires name in WRAPS
    ensures forall j :: 0 <= j < |name| ==> Alphanumeric(name[j])
  {
  }

  lemma PropertiesAreWords(name: string)
    requires name in PROPERTIES
    ensures forall j :: 0 <= j < |name| ==> Alphanumeric(name[j])
  {
  }

  lemma ModifiersAreWords(name: string)
    requires name in MODIFIERS
    ensures forall j :: 0 <= j < |name| ==> Alphanumeric(name[j])
  {
  }

  lemma NeverBoth(s: string, first: seq<Span>, second: seq<Span>, j: int)
    requires Sound(s, first) && second == Scan(Words, Blanked(s, first), 0)
    ensures !(Covered(first, j) && Covered(second, j))
  {
    ScanWords(Blanked(s, first), 0);
    if Covered(second, j) {
      assert WordAt(Blanked(s, first), j);
    }
  }

  lemma Disjoined(s: string, first: seq<Span>, second: seq<Span>, a: Span, b: Span)
    requires Sound(s, first) && second == Scan(Words, Blanked(s, first), 0)
    requires a in first && b in second
    ensures Disjoint(a, b)
  {
    ScanSound(Words, Blanked(s, first), 0);
    var j := if a.start <= b.start then b.start else a.start;
    NeverBoth(s, first, second, j);
    assert Within(a, j) && Within(b, j) ==> Covered(first, j) && Covered(second, j);
  }

  /** What the second pass records stood in the original text, too. */
  lemma SecondSound(s: string, first: seq<Span>, second: seq<Span>)
    requires Sound(s, first) && second == Scan(Words, Blanked(s, first), 0)
    ensures Sound(s, second)
  {
    var t := Blanked(s, first);
    ScanSound(Words, t, 0);
    forall e | e in second
      ensures e.start < e.end <= |s| && e.note == s[e.start..e.end]
    {
      forall j | e.start <= j < e.end
        ensures t[j] == s[j]
      {
        assert Within(e, j);
        NeverBoth(s, first, second, j);
      }
      SameSlice(t, s, e.start, e.end);
    }
  }

  lemma SameSlice(s: string, t: string, i: nat, k: nat)
    requires i <= k <= |s| == |t| && forall j :: i <= j < k ==> s[j] == t[j]
    ensures s[i..k] == t[i..k]
  {
  }

  // ----- prepare

  function First(data: string): seq<Span> {
    Scan(Calls, data, 0)
  }

  function Second(data: string): seq<Span> {
    Scan(Words, Blanked(data, First(data)), 0)
  }

  /** The prepared text. */
  function Prepared(data: string): (r: string)
    ensures |r| == |data|
  {
    Blanked(Blanked(data, First(data)), Second(data))
  }

  function Edits(data: string): seq<Span> {
    SortByStart(First(data) + Second(data))
  }

  method Prepare(data: string) returns (result: string, edits: seq<Span>)
    ensures result == Prepared(data) && edits == Edits(data)
    ensures |result| == |data| && Apart(edits) && Sound(data, edits)
    ensures forall i :: 0 <= i < |data| ==> result[i] == CharAt(data, edits, i)
    ensures Restore(result, edits) == data
  {
    var calls, words;
    result, calls := BlankPass(Calls, data);
    result, words := BlankPass(Words, result);
    edits := SortByStart(calls + words);
    EditsApart(data);
    EditsSound(data);
    PreparedExactly(data);
    PrepareReversible(data);
  }

  /** The edits of both passes are disjoint and in the order of the text. */
  lemma EditsApart(data: string)
    ensures Apart(Edits(data))
  {
    var a, b := First(data), Second(data);
    ScanSound(Calls, data, 0);
    ScanSound(Words, Blanked(data, a), 0);
    forall i, j | 0 <= i < j < |a + b|
      ensures Disjoint((a + b)[i], (a + b)[j])
    {
      if i < |a| <= j {
        Disjoined(data, a, b, a[i], b[j - |a|]);
      }
    }
    SortApart(a + b);
  }

  lemma EditsSound(data: string)
    ensures Sound(data, Edits(data))
  {
    ScanSound(Calls, data, 0);
    SecondSound(data, First(data), Second(data));
    SortKeeps(First(data) + Second(data));
  }

  lemma CoveredBy(data: string, i: nat)
    ensures Covered(Edits(data), i) <==> Covered(First(data), i) || Covered(Second(data), i)
  {
    var both := First(data) + Second(data);
    SortKeeps(both);
    if Covered(First(data), i) {
      var e :| e in First(data) && Within(e, i);
      assert e in both;
    }
    if Covered(Second(data), i) {
      var e :| e in Second(data) && Within(e, i);
      assert e in both;
    }
  }

  /** Exactly the recorded ranges are blank in the result; all else, every line end included, is as
      it was. */
  lemma PreparedExactly(data: string)
    ensures forall i :: 0 <= i < |data| ==> Prepared(data)[i] == CharAt(data, Edits(data), i)
    ensures forall i :: 0 <= i < |data| ==> (Prepared(data)[i] == '\n' <==> data[i] == '\n')
  {
    forall i | 0 <= i < |data|
      ensures Prepared(data)[i] == CharAt(data, Edits(data), i)
    {
      CoveredBy(data, i);
      assert Blanked(data, First(data))[i] == CharAt(data, First(data), i);
      assert Prepared(data)[i] == CharAt(Blanked(data, First(data)), Second(data), i);
    }
  }

  // ----- writing the annotations back

  function Write(s: string, e: Span): (r: string)
    requires e.start <= e.end <= |s| && |e.note| == e.end - e.start
    ensures |r| == |s|
  {
    s[..e.start] + e.note + s[e.end..]
  }

  function Restore(s: string, edits: seq<Span>): string
    requires Writable(|s|, edits)
    decreases |edits|
  {
    if edits == [] then s else Restore(Write(s, edits[0]), edits[1..])
  }

  predicate Writable(length: nat, edits: seq<Span>) {
    forall e :: e in edits ==> e.start <= e.end <= length && |e.note| == e.end - e.start
  }

  lemma {:induction false} RestoreData(data: string, s: string, edits: seq<Span>)
    requires |s| == |data| && Sound(data, edits)
    requires forall j :: 0 <= j < |s| && !Covered(edits, j) ==> s[j] == data[j]
    ensures Restore(s, edits) == data
    decreases |edits|
  {
    if edits == [] {
    } else {
      var e, s' := edits[0], Write(s, edits[0]);
      forall j | 0 <= j < |s'| && !Covered(edits[1..], j)
        ensures s'[j] == data[j]
      {
        if Within(e, j) {
          assert s'[j] == e.note[j - e.start];
        } else {
          assert s'[j] == s[j];
          StillNotCovered(edits, j);
        }
      }
      RestoreData(data, s', edits[1..]);
    }
  }

  lemma StillNotCovered(edits: seq<Span>, j: nat)
    requires edits != []
    ensures Covered(edits, j) ==> Within(edits[0], j) || Covered(edits[1..], j)
  {
    assert edits == [edits[0]] + edits[1..];
  }

  /** Writing each recorded annotation back at its place gives the input. */
  lemma PrepareReversible(data: string)
    ensures Writable(|data|, Edits(data)) && Restore(Prepared(data), Edits(data)) == data
  {
    EditsSound(data);
    PreparedExactly(data);
    RestoreData(data, Prepared(data), Edits(data));
  }

  // ----- nothing is missed: no annotation word stands in the result

  lemma {:induction false} FirstNameFound(s: string, i: nat, names: seq<string>, name: string)
    requires name in names && At(s, i, name) && Boundary(s, i + |name|)
    ensures FirstName(s, i, names, true).Some?
  {
    if names == [] {
      assert false;
    } else if names[0] != name {
      assert name in names[1..];
      FirstNameFound(s, i, names[1..], name);
    }
  }

  lemma NoNameIsEmpty()
    ensures "" !in WORDS
  {
  }

  lemma {:induction false} ScanCovers(pass: Pass, s: string, i: nat, j: nat)
    requires i <= j < |s| && EndAt(pass, s, j).Some?
    ensures Covered(Scan(pass, s, i), j)
    decreases |s| - i
  {
    match EndAt(pass, s, i)
    case None =>
      ScanCovers(pass, s, i + 1, j);
    case Some(k) =>
      var e, others := Span(i, k, s[i..k]), Scan(pass, s, k);
      assert Scan(pass, s, i) == [e] + others;
      if j < k {
        assert e in [e] + others && Within(e, j);
      } else {
        ScanCovers(pass, s, k, j);
        var f :| f in others && Within(f, j);
        assert f in [e] + others;
      }
  }

  /** The edits begin and end at word boundaries. */
  predicate Bounded(s: string, edits: seq<Span>) {
    forall e :: e in edits ==> Boundary(s, e.start) && Boundary(s, e.end)
  }

  lemma {:induction false} ScanBounded(s: string, i: nat)
    requires i <= |s|
    ensures Bounded(s, Scan(Words, s, i))
    decreases |s| - i
  {
    if i == |s| {
    } else {
      match EndAt(Words, s, i)
      case None =>
        ScanBounded(s, i + 1);
      case Some(k) =>
        ScanBounded(s, k);
    }
  }

  lemma Uncovered(t: string, edits: seq<Span>, j: nat)
    requires WordAt(Blanked(t, edits), j)
    ensures !Covered(edits, j) && WordAt(t, j) && Blanked(t, edits)[j] == t[j]
  {
    assert Blanked(t, edits)[j] == CharAt(t, edits, j);
  }

  lemma EdgeIsNoWord(t: string, e: Span, j: nat, beside: int)
    requires WordAt(t, j) && !Within(e, j) && Within(e, beside) && (beside == j - 1 || beside == j + 1)
    requires Boundary(t, e.start) && Boundary(t, e.end)
    ensures !WordAt(t, beside)
  {
    if beside < j {
      assert e.end == j;
    } else {
      assert e.start == beside;
    }
  }

  /** A character next to a word that stayed was not blanked. */
  lemma NeighbourKept(t: string, edits: seq<Span>, j: nat, beside: int)
    requires Bounded(t, edits) && WordAt(Blanked(t, edits), j) && (beside == j - 1 || beside == j + 1)
    ensures WordAt(t, beside) ==> !Covered(edits, beside)
  {
    Uncovered(t, edits, j);
    if Covered(edits, beside) {
      var e :| e in edits && Within(e, beside);
      EdgeIsNoWord(t, e, j, beside);
    }
  }

  lemma SameWordAt(t: string, edits: seq<Span>, j: int)
    requires WordAt(t, j) ==> !Covered(edits, j)
    ensures WordAt(Blanked(t, edits), j) <==> WordAt(t, j)
  {
    if 0 <= j < |t| {
      assert Blanked(t, edits)[j] == CharAt(t, edits, j);
    }
  }

  lemma EdgeStays(t: string, edits: seq<Span>, j: nat, beside: int)
    requires Bounded(t, edits) && WordAt(Blanked(t, edits), j) && (beside == j - 1 || beside == j + 1)
    ensures WordAt(t, j) && (WordAt(t, beside) <==> WordAt(Blanked(t, edits), beside))
  {
    Uncovered(t, edits, j);
    NeighbourKept(t, edits, j, beside);
    SameWordAt(t, edits, beside);
  }

  lemma TextStays(t: string, edits: seq<Span>, i: nat, k: nat)
    requires i < k <= |t| && forall j :: i <= j < k ==> WordAt(Blanked(t, edits), j)
    ensures t[i..k] == Blanked(t, edits)[i..k]
  {
    forall j | i <= j < k
      ensures t[j] == Blanked(t, edits)[j]
    {
      Uncovered(t, edits, j);
    }
    SameSlice(t, Blanked(t, edits), i, k);
  }

  lemma WordStays(t: string, edits: seq<Span>, i: nat, k: nat)
    requires Bounded(t, edits) && i < k <= |t|
    requires forall j :: i <= j < k ==> WordAt(Blanked(t, edits), j)
    requires Boundary(Blanked(t, edits), i) && Boundary(Blanked(t, edits), k)
    ensures Boundary(t, i) && Boundary(t, k) && t[i..k] == Blanked(t, edits)[i..k]
  {
    EdgeStays(t, edits, i, i - 1);
    EdgeStays(t, edits, k - 1, k);
    TextStays(t, edits, i, k);
  }

  lemma NameHere(s: string, i: nat)
    requires i <= |s| && EndAt(Words, s, i).Some?
    ensures var k := EndAt(Words, s, i).value;
            s[i..k] in WORDS && Boundary(s, i) && Boundary(s, k) && forall j :: i <= j < k ==> WordAt(s, j)
  {
    var k := EndAt(Words, s, i).value;
    NamesAreWords(s[i..k]);
    forall j | i <= j < k
      ensures WordAt(s, j)
    {
      assert s[i..k][j - i] == s[j];
    }
  }

  lemma WordFound(s: string, i: nat, name: string)
    requires name in WORDS && At(s, i, name) && Boundary(s, i) && Boundary(s, i + |name|)
    ensures EndAt(Words, s, i).Some?
  {
    FirstNameFound(s, i, WORDS, name);
    NoNameIsEmpty();
    var end := FirstName(s, i, WORDS, true).value;
    assert s[i..end] != "";
  }

  lemma WordMissed(t: string, edits: seq<Span>, i: nat)
    requires Bounded(t, edits) && i <= |t| && EndAt(Words, Blanked(t, edits), i).Some?
    ensures i < |t| && EndAt(Words, t, i).Some? && !Covered(edits, i)
  {
    var u := Blanked(t, edits);
    NameHere(u, i);
    WordThere(t, edits, i, EndAt(Words, u, i).value);
  }

  lemma WordThere(t: string, edits: seq<Span>, i: nat, k: nat)
    requires Bounded(t, edits) && i < k <= |t| && Blanked(t, edits)[i..k] in WORDS
    requires forall j :: i <= j < k ==> WordAt(Blanked(t, edits), j)
    requires Boundary(Blanked(t, edits), i) && Boundary(Blanked(t, edits), k)
    ensures EndAt(Words, t, i).Some? && !Covered(edits, i)
  {
    WordStays(t, edits, i, k);
    Uncovered(t, edits, i);
    WordFound(t, i, t[i..k]);
  }

  lemma NoWordAt(t: string, edits: seq<Span>, i: nat)
    requires Bounded(t, edits) && i <= |t|
    requires forall j :: 0 <= j < |t| && EndAt(Words, t, j).Some? ==> Covered(edits, j)
    ensures EndAt(Words, Blanked(t, edits), i).None?
  {
    if EndAt(Words, Blanked(t, edits), i).Some? {
      WordMissed(t, edits, i);
    }
  }

  /** Scanning the result for annotation words again finds nothing. */
  lemma NoWordLeft(data: string)
    ensures Scan(Words, Prepared(data), 0) == []
  {
    var t, edits := Blanked(data, First(data)), Second(data);
    ScanBounded(t, 0);
    forall j | 0 <= j < |t| && EndAt(Words, t, j).Some?
      ensures Covered(edits, j)
    {
      ScanCovers(Words, t, 0, j);
    }
    forall i | 0 <= i <= |data|
      ensures EndAt(Words, Prepared(data), i).None?
    {
      NoWordAt(t, edits, i);
    }
    NoneScanned(Words, Prepared(data), 0);
  }

  lemma {:induction false} NoneScanned(pass: Pass, s: string, i: nat)
    requires i <= |s| && forall j: nat :: j < |s| ==> EndAt(pass, s, j).None?
    ensures Scan(pass, s, i) == []
    decreases |s| - i
  {
    if i < |s| {
      NoneScanned(pass, s, i + 1);
    }
  }

  // ----- preparing twice

  predicate Gone(data: string, j: int) {
    Covered(Edits(data), j)
  }

  /** An annotation call that the first preparation leaves behind: its name stands, and what parts the
      name from the parentheses or nests in them is white space or gone. */
  predicate CallLeft(data: string, i: nat, name: string, open: nat, close: nat) {
    name in CALLS && At(data, i, name) && i + |name| <= open < close < |data| &&
    (WordAt(data, i - 1) ==> Gone(data, i - 1)) &&
    (forall j :: i <= j < i + |name| ==> !Gone(data, j)) &&
    (forall j :: i + |name| <= j < open ==> Gone(data, j) || AsciiSpace(data[j])) &&
    data[open] == '(' && !Gone(data, open) &&
    (forall j :: open < j < close ==> Gone(data, j) || NoParenthesis(data[j])) &&
    data[close] == ')' && !Gone(data, close)
  }

  ghost predicate LeavesCall(data: string) {
    exists i: nat, name, open: nat, close: nat :: CallLeft(data, i, name, open, close)
  }

  /** The same of a text as it stands. */
  predicate CallAt(s: string, i: nat, name: string, open: nat, close: nat) {
    At(s, i, name) && i + |name| <= open < close < |s| && !WordAt(s, i - 1) &&
    (forall j :: i + |name| <= j < open ==> AsciiSpace(s[j])) && s[open] == '(' &&
    (forall j :: open < j < close ==> NoParenthesis(s[j])) && s[close] == ')'
  }

  lemma CallsAreWords(name: string)
    requires name in CALLS
    ensures |name| > 9 && name[0] == 'C' && forall j :: 0 <= j < |name| ==> Alphanumeric(name[j])
  {
  }

  /** No name of a call begins another. */
  lemma {:induction false} NameOfCall(s: string, i: nat, names: seq<string>, name: string)
    requires name in names && At(s, i, name)
    requires forall a, b :: a in names && b in names && At(s, i, a) && At(s, i, b) ==> a == b
    ensures FirstName(s, i, names, false) == Some(i + |name|)
  {
    if names[0] != name {
      assert name in names[1..];
      NameOfCall(s, i, names[1..], name);
    }
  }

  lemma FewCharactersDecide(a: string, b: string)
    requires a in CALLS && b in CALLS && a[3] == b[3] && a[8] == b[8]
    requires |a| > 11 && |b| > 11 ==> a[11] == b[11]
    requires |a| > 14 && |b| > 14 ==> a[14] == b[14]
    ensures a == b
  {
  }

  lemma CallsDiffer(a: string, b: string, s: string, i: nat)
    requires a in CALLS && b in CALLS && At(s, i, a) && At(s, i, b)
    ensures a == b
  {
    CallsAreWords(a);
    CallsAreWords(b);
    forall j | 0 <= j < |a| && j < |b|
      ensures a[j] == b[j]
    {
      assert s[i..i + |a|][j] == s[i + j] == s[i..i + |b|][j];
    }
    FewCharactersDecide(a, b);
  }

  lemma RunTo(s: string, i: nat, k: nat, p: char -> bool)
    requires i <= k < |s| && (forall j :: i <= j < k ==> p(s[j])) && !p(s[k])
    ensures RunEnd(s, i, p) == k
  {
  }

  lemma CallNamed(s: string, i: nat, name: string)
    requires name in CALLS && At(s, i, name) && !WordAt(s, i - 1)
    ensures FirstName(s, i, CALLS, false) == Some(i + |name|) && Boundary(s, i)
  {
    CallsAreWords(name);
    assert s[i] == s[i..i + |name|][0];
    forall a, b | a in CALLS && b in CALLS && At(s, i, a) && At(s, i, b)
      ensures a == b
    {
      CallsDiffer(a, b, s, i);
    }
    NameOfCall(s, i, CALLS, name);
  }

  lemma ArgumentsFound(s: string, i: nat, open: nat, close: nat)
    requires i <= open < close < |s| && s[open] == '(' && s[close] == ')'
    requires (forall j :: i <= j < open ==> AsciiSpace(s[j])) && (forall j :: open < j < close ==> NoParenthesis(s[j]))
    ensures Arguments(s, i) == Some(close + 1)
  {
    RunTo(s, i, open, AsciiSpace);
    RunTo(s, open + 1, close, NoParenthesis);
  }

  lemma CallFound(s: string, i: nat, name: string, open: nat, close: nat)
    requires name in CALLS && CallAt(s, i, name, open, close)
    ensures EndAt(Calls, s, i) == Some(close + 1)
  {
    CallNamed(s, i, name);
    ArgumentsFound(s, i + |name|, open, close);
  }

  /** Every match of the expression for calls is such a call. */
  lemma CallMatched(s: string, i: nat) returns (name: string, open: nat, close: nat)
    requires i <= |s| && EndAt(Calls, s, i).Some?
    ensures name in CALLS && CallAt(s, i, name, open, close) && s[i] == 'C'
  {
    var e := FirstName(s, i, CALLS, false).value;
    name := s[i..e];
    CallsAreWords(name);
    open := RunEnd(s, e, AsciiSpace);
    close := RunEnd(s, open + 1, NoParenthesis);
    assert s[i] == name[0];
  }

  /** What a character of the result says of the input. */
  lemma ResultAt(data: string, j: nat)
    requires j < |data|
    ensures var p := Prepared(data);
            (Alphanumeric(p[j]) <==> !Gone(data, j) && Alphanumeric(data[j])) &&
            (AsciiSpace(p[j]) <==> Gone(data, j) || AsciiSpace(data[j])) &&
            (NoParenthesis(p[j]) <==> Gone(data, j) || NoParenthesis(data[j])) &&
            (!Gone(data, j) ==> p[j] == data[j])
  {
    PreparedExactly(data);
    assert Prepared(data)[j] == CharAt(data, Edits(data), j);
  }

  lemma NameKept(data: string, i: nat, name: string)
    requires name in CALLS && i + |name| <= |data|
    ensures At(Prepared(data), i, name) <==> At(data, i, name) && forall j :: i <= j < i + |name| ==> !Gone(data, j)
  {
    var p := Prepared(data);
    CallsAreWords(name);
    if At(p, i, name) {
      forall j | i <= j < i + |name|
        ensures !Gone(data, j) && data[j] == name[j - i]
      {
        assert p[j] == p[i..i + |name|][j - i];
        ResultAt(data, j);
      }
      assert data[i..i + |name|] == name;
    }
    if At(data, i, name) && forall j :: i <= j < i + |name| ==> !Gone(data, j) {
      forall j | i <= j < i + |name|
        ensures p[j] == name[j - i]
      {
        assert data[j] == data[i..i + |name|][j - i];
        ResultAt(data, j);
      }
      assert p[i..i + |name|] == name;
    }
  }

  lemma CallKept(data: string, i: nat, name: string, open: nat, close: nat)
    requires name in CALLS && i + |name| <= |data|
    ensures CallAt(Prepared(data), i, name, open, close) <==> CallLeft(data, i, name, open, close)
  {
    NameKept(data, i, name);
    forall j: nat | j < |data|
      ensures var p := Prepared(data);
              (Alphanumeric(p[j]) <==> !Gone(data, j) && Alphanumeric(data[j])) &&
              (AsciiSpace(p[j]) <==> Gone(data, j) || AsciiSpace(data[j])) &&
              (NoParenthesis(p[j]) <==> Gone(data, j) || NoParenthesis(data[j])) &&
              (!Gone(data, j) ==> p[j] == data[j])
    {
      ResultAt(data, j);
    }
  }

  /** A second preparation finds a call exactly where the first leaves one. */
  lemma CallsFoundAgain(data: string)
    ensures LeavesCall(data) <==> exists i: nat :: i < |data| && EndAt(Calls, Prepared(data), i).Some?
  {
    var p := Prepared(data);
    if LeavesCall(data) {
      var i: nat, name, open: nat, close: nat :| CallLeft(data, i, name, open, close);
      CallKept(data, i, name, open, close);
      CallFound(p, i, name, open, close);
    }
    if i: nat :| i < |data| && EndAt(Calls, p, i).Some? {
      var name, open, close := CallMatched(p, i);
      CallKept(data, i, name, open, close);
    }
  }

  lemma NothingBlanked(s: string)
    ensures Blanked(s, []) == s
  {
  }

  lemma CallBlanked(s: string, i: nat)
    requires i < |s| && EndAt(Calls, s, i).Some?
    ensures Prepared(s)[i] != s[i]
  {
    var name, open, close := CallMatched(s, i);
    CallsAreWords(name);
    assert s[i] == s[i..i + |name|][0];
    ScanCovers(Calls, s, 0, i);
    CoveredBy(s, i);
    PreparedExactly(s);
    assert Prepared(s)[i] == CharAt(s, Edits(s), i);
  }

  /** Preparing a prepared text changes nothing, exactly if no call was left behind. */
  lemma PreparedTwice(data: string)
    ensures Prepared(Prepared(data)) == Prepared(data) <==> !LeavesCall(data)
  {
    var p := Prepared(data);
    CallsFoundAgain(data);
    if LeavesCall(data) {
      var i: nat :| i < |data| && EndAt(Calls, p, i).Some?;
      CallBlanked(p, i);
    } else {
      NoneScanned(Calls, p, 0);
      NothingBlanked(p);
      NoWordLeft(data);
    }
  }

  // ----- an instance: one call in the arguments of another

  const NESTED := "CV_WRAP_AS(CV_WRAP_AS(x))"

  ghost predicate Nested(s: string) {
    |s| == 25 && At(s, 0, "CV_WRAP_AS") && s[10] == '(' && At(s, 11, "CV_WRAP_AS") && s[21] == '(' && s[22] == 'x' &&
    s[23] == ')' && s[24] == ')'
  }

  lemma NestedIs()
    ensures Nested(NESTED)
  {
    assert NESTED[0..10] == "CV_WRAP_AS" && NESTED[11..21] == "CV_WRAP_AS";
  }

  lemma NestedCharacters(s: string)
    requires Nested(s)
    ensures forall j :: 0 <= j < 10 ==> Alphanumeric(s[j]) && (j > 0 ==> s[j] != 'C')
    ensures forall j :: 11 <= j < 21 ==> Alphanumeric(s[j])
  {
    var name := "CV_WRAP_AS";
    forall j | 0 <= j < 10
      ensures s[j] == name[j]
    {
      assert s[0..10][j] == s[j];
    }
    forall j | 11 <= j < 21
      ensures s[j] == name[j - 11]
    {
      assert s[11..21][j - 11] == s[j];
    }
  }

  lemma {:induction false} ScanFrom(pass: Pass, s: string, i: nat, k: nat)
    requires i <= k <= |s| && forall j: nat :: i <= j < k ==> EndAt(pass, s, j).None?
    ensures Scan(pass, s, i) == Scan(pass, s, k)
    decreases k - i
  {
    if i < k {
      ScanFrom(pass, s, i + 1, k);
    }
  }

  lemma NoCallWithoutC(s: string, i: nat)
    requires i < |s| && s[i] != 'C'
    ensures EndAt(Calls, s, i).None?
  {
    if EndAt(Calls, s, i).Some? {
      var _, _, _ := CallMatched(s, i);
    }
  }

  lemma WrapIsCall()
    ensures "CV_WRAP_AS" in CALLS
  {
  }

  /** No argument list: another parenthesis opens before the first closes. */
  lemma NestedOpens(s: string, i: nat, k: nat)
    requires i < k < |s| && s[i] == '(' && s[k] == '(' && forall j :: i < j < k ==> NoParenthesis(s[j])
    ensures Arguments(s, i).None?
  {
    RunTo(s, i, i, AsciiSpace);
    RunTo(s, i + 1, k, NoParenthesis);
  }

  lemma OuterUnmatched(s: string, name: string)
    requires Nested(s) && name in CALLS && |name| == 10 && At(s, 0, name)
    ensures EndAt(Calls, s, 0).None?
  {
    NestedCharacters(s);
    NamedFirst(s, name);
    NestedOpens(s, 10, 21);
  }

  lemma NamedFirst(s: string, name: string)
    requires name in CALLS && At(s, 0, name)
    ensures FirstName(s, 0, CALLS, false) == Some(|name|)
    ensures Arguments(s, |name|).None? ==> EndAt(Calls, s, 0).None?
  {
    CallNamed(s, 0, name);
  }

  /** The first pass takes the inner call alone. */
  lemma InnerTaken(s: string)
    requires Nested(s)
    ensures First(s) == [Span(11, 24, s[11..24])]
  {
    NestedCharacters(s);
    forall j: nat | j < 11
      ensures EndAt(Calls, s, j).None?
    {
      if j == 0 {
        WrapIsCall();
        OuterUnmatched(s, s[0..10]);
      } else {
        NoCallWithoutC(s, j);
      }
    }
    ScanFrom(Calls, s, 0, 11);
    CallFound(s, 11, "CV_WRAP_AS", 21, 23);
    FirstScanned(Calls, s, 11, 24);
    NoCallWithoutC(s, 24);
    ScanFrom(Calls, s, 24, 25);
  }

  lemma BetweenBounds(t: string, i: nat)
    requires i + 1 < |t| && Alphanumeric(t[i]) && Alphanumeric(t[i + 1])
    ensures EndAt(Words, t, i + 1).None?
  {
  }

  /** A name that is no annotation word, and a parenthesis behind it. */
  lemma NoWordFirst(t: string)
    requires |t| > 10 && At(t, 0, "CV_WRAP_AS") && t[10] == '(' && forall j :: 0 <= j < 10 ==> Alphanumeric(t[j])
    ensures EndAt(Words, t, 0).None?
  {
    if EndAt(Words, t, 0).Some? {
      NameHere(t, 0);
      WordUpTo(t, 10, EndAt(Words, t, 0).value);
      NoSuchWord(t[0..10]);
    }
  }

  lemma WordUpTo(t: string, n: nat, k: nat)
    requires 0 < k && (forall j :: 0 <= j < n ==> WordAt(t, j)) && !WordAt(t, n)
    requires Boundary(t, k) && forall j :: 0 <= j < k ==> WordAt(t, j)
    ensures k == n
  {
  }

  lemma NoSuchWord(name: string)
    requires name == "CV_WRAP_AS"
    ensures name !in WORDS
  {
    assert |name| == 10 && name[8] == 'A' && name[3] == 'W';
    assert name !in EXPORTS;
    assert name !in WRAPS;
    assert name !in PROPERTIES;
    assert name !in MODIFIERS;
  }

  lemma NoWordOutside(t: string, i: nat)
    requires i < |t| && !Alphanumeric(t[i])
    ensures EndAt(Words, t, i).None?
  {
    if EndAt(Words, t, i).Some? {
      NameHere(t, i);
    }
  }

  /** The second pass takes nothing more. */
  lemma NothingElseTaken(s: string)
    requires Nested(s)
    ensures Second(s) == []
  {
    InnerTaken(s);
    NestedCharacters(s);
    var e := Span(11, 24, s[11..24]);
    var t := Blanked(s, [e]);
    assert forall j: nat :: j < 25 ==> (Covered([e], j) <==> Within(e, j));
    assert forall j: nat :: j < 11 ==> t[j] == s[j];
    SameSlice(t, s, 0, 10);
    forall j: nat | j < 25
      ensures EndAt(Words, t, j).None?
    {
      if j == 0 {
        NoWordFirst(t);
      } else if j < 10 {
        BetweenBounds(t, j - 1);
      } else {
        NoWordOutside(t, j);
      }
    }
    NoneScanned(Words, t, 0);
  }

  /** Preparing "CV_WRAP_AS(CV_WRAP_AS(x))" a second time removes the outer call as well. */
  lemma NestedPreparedTwice()
    ensures LeavesCall(NESTED) && Prepared(Prepared(NESTED)) != Prepared(NESTED)
  {
    NestedIs();
    NestedLeft(NESTED);
    PreparedTwice(NESTED);
  }

  lemma NestedLeft(s: string)
    requires Nested(s)
    ensures CallLeft(s, 0, "CV_WRAP_AS", 10, 24)
  {
    InnerTaken(s);
    NothingElseTaken(s);
    NestedCharacters(s);
    var e := Span(11, 24, s[11..24]);
    forall j: nat | j < 25
      ensures Gone(s, j) <==> Within(e, j)
    {
      CoveredBy(s, j);
      assert Covered([e], j) <==> Within(e, j);
    }
  }
}