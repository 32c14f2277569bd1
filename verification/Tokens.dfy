/** The words of an Ada profile and the type marks among them. */
module Tokens {
  import opened Texts
  import opened Lexemes

  /** A token in lower case with its span in the decoded text. */
  datatype Term = Term(text: string, start: nat, end: nat)

  /** [A-Za-z][A-Za-z0-9_]*(\.[A-Za-z][A-Za-z0-9_]*)* */
  function NameEnd(text: string, i: nat): (e: Option<nat>)
    ensures e.Some? ==> i < e.value <= |text|
    ensures e.Some? ==> forall k :: i <= k < e.value ==> WordOrDot(text[k])
    decreases |text| - i
  {
    match IdentifierEnd(text, i)
    case None => None
    case Some(e) =>
      if Has(text, e, '.') && e + 1 < |text| && NameEnd(text, e + 1).Some? then NameEnd(text, e + 1) else Some(e)
  }

  predicate PairToken(a: char, b: char) {
    (a == ':' && b == '=') || (a == '=' && b == '>') || (a == '.' && b == '.') || (a == '<' && b == '>')
  }

  /** TOKEN.match(text, i): comment, string, name, compound delimiter, number, any other character. */
  function TokenEnd(text: string, i: nat): (e: Option<nat>)
    ensures e.Some? ==> i < e.value <= |text|
  {
    if CommentEnd(text, i).Some? then CommentEnd(text, i)
    else if StringEnd(text, i).Some? then StringEnd(text, i)
    else if NameEnd(text, i).Some? then NameEnd(text, i)
    else if i + 1 < |text| && PairToken(text[i], text[i + 1]) then Some(i + 2)
    else if i < |text| && Digit(text[i]) then Some(RunEnd(text, i, WordOrDot))
    else if i < |text| && !Space(text[i]) then Some(i + 1)
    else None
  }

  /** Comments and string literals are no words of the profile. */
  predicate Dropped(text: string, i: nat, e: nat)
    requires i < e <= |text|
  {
    text[i] == '"' || (text[i] == '-' && i + 1 < e && text[i + 1] == '-')
  }

  /** tokens(text), from position i on. */
  function TokensFrom(text: string, i: nat): seq<Term>
    decreases |text| - i
  {
    if i >= |text| then []
    else
      match TokenEnd(text, i)
      case None => TokensFrom(text, i + 1)
      case Some(e) =>
        (if Dropped(text, i, e) then [] else [Term(LowerCase(text[i..e]), i, e)]) + TokensFrom(text, e)
  }

  predicate IsName(word: string) {
    NameEnd(word, 0) == Some(|word|)
  }

  const MODIFIERS: set<string> := {"aliased", "in", "out", "not", "null", "access", "constant"}
  const NO_MARKS: set<string> := {"procedure", "function", "array", "record", "range", "digits", "delta"}
  const HEADS: set<string> := {"function", "procedure", "type", "subtype"}

  function Depth(ts: seq<Term>): int {
    if ts == [] then 0
    else
      var last := ts[|ts| - 1].text;
      Depth(ts[..|ts| - 1]) + (if last == "(" then 1 else if last == ")" then -1 else 0)
  }

  /** Parentheses never close too early and are all closed. */
  predicate Balanced(ts: seq<Term>) {
    (forall n :: 0 <= n <= |ts| ==> Depth(ts[..n]) >= 0) && Depth(ts) == 0
  }

  predicate ArrayBefore(ts: seq<Term>, i: nat)
    requires i <= |ts|
  {
    exists k :: 0 <= k < i && ts[k].text == "array"
  }

  /** Is a type mark expected behind token i? */
  predicate Candidate(ts: seq<Term>, i: nat)
    requires i < |ts|
  {
    var word, head := ts[i].text, ts[0].text;
    word == ":" || word == "return" ||
    ((head == "type" || head == "subtype") &&
     ((word == "of" && ArrayBefore(ts, i)) ||
      (word == "is" && head == "subtype") ||
      (word == "new" && i > 1 && ts[i - 1].text == "is") ||
      (word == "is" && head == "type" && i + 1 < |ts| && ts[i + 1].text == "access")))
  }

  /** Token j is a type mark: the first word that is no modifier behind a place expecting one. */
  ghost predicate TypeMark(ts: seq<Term>, j: nat)
    requires j < |ts|
  {
    IsName(ts[j].text) && ts[j].text !in NO_MARKS && ts[j].text !in MODIFIERS &&
    exists i :: 0 <= i < j && Candidate(ts, i) && forall m :: i < m < j ==> ts[m].text in MODIFIERS
  }

  /** The type marks from token j on, in order. */
  ghost function TypeMarks(ts: seq<Term>, j: nat): seq<Term>
    decreases |ts| - j
  {
    if j >= |ts| then [] else (if TypeMark(ts, j) then [ts[j]] else []) + TypeMarks(ts, j + 1)
  }

  /** type_positions on a token list; None stands for a raised CrossReferenceError. */
  ghost function PositionsOf(ts: seq<Term>): Option<seq<Term>> {
    if ts == [] || !Balanced(ts) then None
    else if ts[0].text !in HEADS then Some([])
    else Some(TypeMarks(ts, 0))
  }

  method CheckBalanced(ts: seq<Term>) returns (balanced: bool)
    ensures balanced == Balanced(ts)
  {
    var depth := 0;
    for n := 0 to |ts|
      invariant depth == Depth(ts[..n])
      invariant forall k :: 0 <= k <= n ==> Depth(ts[..k]) >= 0
    {
      assert ts[..n + 1][..n] == ts[..n];
      depth := depth + (if ts[n].text == "(" then 1 else if ts[n].text == ")" then -1 else 0);
      if depth < 0 {
        return false;
      }
    }
    assert ts[..|ts|] == ts;
    return depth == 0;
  }

  method SkipModifiers(ts: seq<Term>, i: nat) returns (j: nat)
    requires i < |ts|
    ensures i < j <= |ts|
    ensures forall m :: i < m < j ==> ts[m].text in MODIFIERS
    ensures j < |ts| ==> ts[j].text !in MODIFIERS
  {
    j := i + 1;
    while j < |ts| && ts[j].text in MODIFIERS
      invariant i < j <= |ts|
      invariant forall m :: i < m < j ==> ts[m].text in MODIFIERS
    {
      j := j + 1;
    }
  }

  method CollectPositions(ts: seq<Term>) returns (positions: set<nat>)
    ensures forall j: nat :: j in positions <==> j < |ts| && TypeMark(ts, j)
  {
    positions := {};
    for i := 0 to |ts|
      invariant forall j :: j in positions ==> j < |ts| && TypeMark(ts, j)
      invariant forall j :: 0 <= j < |ts| && TypeMark(ts, j) ==> j in positions || MarkFrom(ts, j, i)
    {
      var j := SkipModifiers(ts, i);
      if Candidate(ts, i) && j < |ts| && IsName(ts[j].text) && ts[j].text !in NO_MARKS {
        assert TypeMark(ts, j);
        positions := positions + {j};
      }
      forall k | 0 <= k < |ts| && MarkFrom(ts, k, i) && TypeMark(ts, k)
        ensures k in positions || MarkFrom(ts, k, i + 1)
      {
        OnlyFrom(ts, k, i, j);
      }
    }
  }

  lemma OnlyFrom(ts: seq<Term>, k: nat, i: nat, j: nat)
    requires i < j <= |ts| && k < |ts| && MarkFrom(ts, k, i) && ts[k].text !in MODIFIERS
    requires forall m :: i < m < j ==> ts[m].text in MODIFIERS
    requires j < |ts| ==> ts[j].text !in MODIFIERS
    ensures MarkFrom(ts, k, i + 1) || (k == j && Candidate(ts, i))
  {
    var c :| i <= c < k && Candidate(ts, c) && forall m :: c < m < k ==> ts[m].text in MODIFIERS;
    assert c == i ==> k == j;
  }

  method TypePositions(text: string) returns (r: Option<seq<Term>>)
    ensures r == PositionsOf(TokensFrom(text, 0))
  {
    var ts := TokensFrom(text, 0);
    var balanced := CheckBalanced(ts);
    if ts == [] || !balanced {
      return None;
    }
    if ts[0].text !in HEADS {
      return Some([]);
    }
    var positions := CollectPositions(ts);
    var marks := PickPositions(ts, positions);
    return Some(marks);
  }

  /** [ts[i] for i in sorted(positions)] */
  method PickPositions(ts: seq<Term>, positions: set<nat>) returns (marks: seq<Term>)
    requires forall j: nat :: j in positions <==> j < |ts| && TypeMark(ts, j)
    ensures marks == TypeMarks(ts, 0)
  {
    marks := [];
    assert [] + TypeMarks(ts, 0) == TypeMarks(ts, 0);
    for j := 0 to |ts|
      invariant TypeMarks(ts, 0) == marks + TypeMarks(ts, j)
    {
      MarksNext(ts, j, marks);
      if j in positions {
        marks := marks + [ts[j]];
      }
    }
    assert marks + [] == marks;
  }

  lemma MarksNext(ts: seq<Term>, j: nat, marks: seq<Term>)
    requires j < |ts|
    ensures marks + TypeMarks(ts, j) == (if TypeMark(ts, j) then marks + [ts[j]] else marks) + TypeMarks(ts, j + 1)
  {
    if TypeMark(ts, j) {
      assert marks + ([ts[j]] + TypeMarks(ts, j + 1)) == (marks + [ts[j]]) + TypeMarks(ts, j + 1);
    } else {
      assert [] + TypeMarks(ts, j + 1) == TypeMarks(ts, j + 1);
    }
  }

  /** Token j is a type mark expected by a token at or behind i. */
  ghost predicate MarkFrom(ts: seq<Term>, j: nat, i: nat)
    requires j < |ts|
  {
    exists k :: i <= k < j && Candidate(ts, k) && forall m :: k < m < j ==> ts[m].text in MODIFIERS
  }

  // ----- type marks are names at increasing, disjoint places of the text

  ghost predicate TokenIn(t: Term, text: string, low: nat) {
    low <= t.start < t.end <= |text| && t.text == LowerCase(text[t.start..t.end])
  }

  /** Tokens lie in text behind low, one after the other. */
  ghost predicate InOrder(ts: seq<Term>, text: string, low: nat) {
    ts == [] || (TokenIn(ts[0], text, low) && InOrder(ts[1..], text, ts[0].end))
  }

  lemma {:induction false} TokensInOrder(text: string, i: nat)
    ensures InOrder(TokensFrom(text, i), text, i)
    decreases |text| - i
  {
    if i < |text| {
      match TokenEnd(text, i)
      case None =>
        TokensInOrder(text, i + 1);
        InOrderLower(TokensFrom(text, i + 1), text, i + 1, i);
      case Some(e) =>
        TokensInOrder(text, e);
        var rest := TokensFrom(text, e);
        if Dropped(text, i, e) {
          assert [] + rest == rest;
          InOrderLower(rest, text, e, i);
        } else {
          var t := Term(LowerCase(text[i..e]), i, e);
          assert ([t] + rest)[1..] == rest;
        }
    }
  }

  lemma InOrderLower(ts: seq<Term>, text: string, low: nat, lower: nat)
    requires InOrder(ts, text, low) && lower <= low
    ensures InOrder(ts, text, lower)
  {
  }

  /** A type mark of this text. */
  ghost predicate MarkOfText(word: Term, text: string, low: nat) {
    TokenIn(word, text, low) && IsName(word.text)
  }

  ghost predicate MarksOfText(words: seq<Term>, text: string, low: nat) {
    words == [] || (MarkOfText(words[0], text, low) && MarksOfText(words[1..], text, words[0].end))
  }

  lemma {:induction false} MarksInText(ts: seq<Term>, text: string, j: nat, low: nat)
    requires j <= |ts| && InOrder(ts[j..], text, low)
    ensures MarksOfText(TypeMarks(ts, j), text, low)
    decreases |ts| - j
  {
    if j < |ts| {
      assert ts[j..][1..] == ts[j + 1..] && ts[j..][0] == ts[j];
      MarksInText(ts, text, j + 1, ts[j].end);
      MarksNext(ts, j, []);
      var rest := TypeMarks(ts, j + 1);
      assert [] + TypeMarks(ts, j) == TypeMarks(ts, j) && [] + rest == rest;
      if TypeMark(ts, j) {
        assert ([] + [ts[j]] + rest)[1..] == rest;
      } else {
        MarksLower(rest, text, ts[j].end, low);
      }
    }
  }

  lemma MarksLower(words: seq<Term>, text: string, low: nat, lower: nat)
    requires MarksOfText(words, text, low) && lower <= low
    ensures MarksOfText(words, text, lower)
  {
  }

  /** type_positions finds names at increasing, disjoint places of the text. */
  lemma PositionsInText(text: string)
    ensures var r := PositionsOf(TokensFrom(text, 0));
            r.Some? ==> MarksOfText(r.value, text, 0)
  {
    var ts := TokensFrom(text, 0);
    TokensInOrder(text, 0);
    assert ts[0..] == ts;
    MarksInText(ts, text, 0, 0);
  }
}
