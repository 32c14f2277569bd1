/** Two declarations, word by word: a private type U, and a function whose profile names it twice. */
module Sample {
  import opened Texts
  import opened Tokens

  // ----- the words of a text put together from names, delimiters and blanks

  lemma NothingLeft(text: string)
    ensures TokensFrom(text, |text|) == []
  {
  }

  lemma BlankNext(text: string, i: nat)
    requires i < |text| && text[i] == ' '
    ensures TokensFrom(text, i) == TokensFrom(text, i + 1)
  {
  }

  lemma TokenNext(text: string, i: nat, e: nat)
    requires i < e <= |text| && TokenEnd(text, i) == Some(e) && !Dropped(text, i, e)
    ensures TokensFrom(text, i) == [Term(LowerCase(text[i..e]), i, e)] + TokensFrom(text, e)
  {
  }

  lemma NameNext(text: string, i: nat, e: nat)
    requires i < e <= |text| && Letter(text[i]) && forall k :: i <= k < e ==> Alphanumeric(text[k])
    requires e < |text| ==> !WordOrDot(text[e])
    ensures TokensFrom(text, i) == [Term(LowerCase(text[i..e]), i, e)] + TokensFrom(text, e)
  {
    assert RunEnd(text, i, Alphanumeric) == e;
    TokenNext(text, i, e);
  }

  lemma DelimiterNext(text: string, i: nat)
    requires i < |text| && text[i] in {'(', ')', ':', ';'} && (i + 1 < |text| ==> text[i + 1] != '=')
    ensures TokensFrom(text, i) == [Term([text[i]], i, i + 1)] + TokensFrom(text, i + 1)
  {
    TokenNext(text, i, i + 1);
    assert LowerCase(text[i..i + 1]) == [text[i]];
  }

  /** A name comes with its spelling in lower case. */
  datatype Pieces = End | Blank(next: Pieces) | Delimiter(c: char, next: Pieces) | Name(text: string, word: string, next: Pieces)

  predicate NameFits(text: string, word: string) {
    text != "" && |word| == |text| && Letter(text[0]) &&
    forall k :: 0 <= k < |text| ==> Alphanumeric(text[k]) && word[k] == LowerChar(text[k])
  }

  /** No two names touch. */
  predicate PiecesFit(pieces: Pieces) {
    match pieces
    case End => true
    case Blank(next) => PiecesFit(next)
    case Delimiter(c, next) => c in {'(', ')', ':', ';'} && PiecesFit(next)
    case Name(text, word, next) => NameFits(text, word) && !next.Name? && PiecesFit(next)
  }

  function Spelled(pieces: Pieces): string {
    match pieces
    case End => ""
    case Blank(next) => " " + Spelled(next)
    case Delimiter(c, next) => [c] + Spelled(next)
    case Name(text, _, next) => text + Spelled(next)
  }

  function Terms(pieces: Pieces, i: nat): seq<Term> {
    match pieces
    case End => []
    case Blank(next) => Terms(next, i + 1)
    case Delimiter(c, next) => [Term([c], i, i + 1)] + Terms(next, i + 1)
    case Name(text, word, next) => [Term(word, i, i + |text|)] + Terms(next, i + |text|)
  }

  lemma FirstOfText(pieces: Pieces)
    requires PiecesFit(pieces) && !pieces.End?
    ensures Spelled(pieces) != "" && Spelled(pieces)[0] != '='
    ensures !pieces.Name? ==> !WordOrDot(Spelled(pieces)[0])
  {
  }

  lemma NamePlaced(front: string, name: string, rest: string)
    ensures front + (name + rest) == front + name + rest
    ensures (front + name + rest)[|front|..|front + name|] == name
    ensures forall k :: |front| <= k < |front + name| ==> (front + name + rest)[k] == name[k - |front|]
    ensures rest != "" ==> (front + name + rest)[|front + name|] == rest[0]
  {
  }

  lemma NameRead(front: string, name: string, word: string, rest: string)
    requires NameFits(name, word) && (rest != "" ==> !WordOrDot(rest[0]))
    ensures TokensFrom(front + (name + rest), |front|) ==
            [Term(word, |front|, |front| + |name|)] + TokensFrom(front + name + rest, |front + name|)
  {
    NamePlaced(front, name, rest);
    NameNext(front + name + rest, |front|, |front + name|);
    LowerIs(name, word);
  }

  lemma LowerIs(name: string, word: string)
    requires NameFits(name, word)
    ensures LowerCase(name) == word
  {
  }

  lemma DelimiterRead(front: string, c: char, rest: string)
    requires c in {'(', ')', ':', ';'} && (rest != "" ==> rest[0] != '=')
    ensures TokensFrom(front + ([c] + rest), |front|) ==
            [Term([c], |front|, |front| + 1)] + TokensFrom(front + [c] + rest, |front + [c]|)
  {
    assert front + ([c] + rest) == front + [c] + rest;
    DelimiterNext(front + [c] + rest, |front|);
  }

  lemma BlankRead(front: string, rest: string)
    ensures TokensFrom(front + (" " + rest), |front|) == TokensFrom(front + " " + rest, |front + " "|)
  {
    assert front + (" " + rest) == front + " " + rest;
    BlankNext(front + " " + rest, |front|);
  }

  /** The words of the pieces, read behind some other text. */
  ghost predicate Reads(front: string, pieces: Pieces) {
    TokensFrom(front + Spelled(pieces), |front|) == Terms(pieces, |front|)
  }

  lemma EndStep(front: string)
    ensures Reads(front, End)
  {
    assert front + "" == front;
    NothingLeft(front);
  }

  lemma BlankStep(front: string, next: Pieces)
    requires Reads(front + " ", next)
    ensures Reads(front, Blank(next))
  {
    BlankRead(front, Spelled(next));
  }

  lemma RestFits(next: Pieces)
    requires PiecesFit(next)
    ensures Spelled(next) != "" ==> Spelled(next)[0] != '=' && (!next.Name? ==> !WordOrDot(Spelled(next)[0]))
  {
    if !next.End? {
      FirstOfText(next);
    }
  }

  lemma DelimiterStep(front: string, c: char, next: Pieces)
    requires c in {'(', ')', ':', ';'} && PiecesFit(next) && Reads(front + [c], next)
    ensures Reads(front, Delimiter(c, next))
  {
    RestFits(next);
    DelimiterRead(front, c, Spelled(next));
  }

  lemma NameStep(front: string, name: string, word: string, next: Pieces)
    requires NameFits(name, word) && PiecesFit(next) && !next.Name? && Reads(front + name, next)
    ensures Reads(front, Name(name, word, next))
  {
    RestFits(next);
    NameRead(front, name, word, Spelled(next));
  }

  /** The words of such a text are the names and delimiters it is put together from. */
  lemma {:induction false} PiecesRead(front: string, pieces: Pieces)
    requires PiecesFit(pieces)
    ensures Reads(front, pieces)
    decreases pieces
  {
    match pieces
    case End =>
      EndStep(front);
    case Blank(next) =>
      PiecesRead(front + " ", next);
      BlankStep(front, next);
    case Delimiter(c, next) =>
      PiecesRead(front + [c], next);
      DelimiterStep(front, c, next);
    case Name(name, word, next) =>
      PiecesRead(front + name, next);
      NameStep(front, name, word, next);
  }

  // ----- the two declarations

  /** type U is private; */
  const TYPE_PIECES :=
    Name("type", "type", Blank(Name("U", "u", Blank(Name("is", "is", Blank(Name("private", "private", Delimiter(';', End))))))))

  /** function F (A : U) return U; */
  const CALL_PIECES := Name("function", "function", Blank(Name("F", "f", Blank(Delimiter('(', PARAMETER)))))
  const PARAMETER := Name("A", "a", Blank(Delimiter(':', Blank(Name("U", "u", Delimiter(')', RESULT))))))
  const RESULT := Blank(Name("return", "return", Blank(Name("U", "u", Delimiter(';', End)))))

  const TYPE_TERMS := [Term("type", 0, 4), Term("u", 5, 6), Term("is", 7, 9), Term("private", 10, 17), Term(";", 17, 18)]
  const CALL_TERMS := CALL_FRONT + CALL_BACK
  const CALL_FRONT := [Term("function", 0, 8), Term("f", 9, 10), Term("(", 11, 12), Term("a", 12, 13), Term(":", 14, 15)]
  const CALL_BACK := [Term("u", 16, 17), Term(")", 17, 18), Term("return", 19, 25), Term("u", 26, 27), Term(";", 27, 28)]

  const TYPE := Spelled(TYPE_PIECES)
  const CALL := Spelled(CALL_PIECES)

  lemma TypePieces()
    ensures PiecesFit(TYPE_PIECES) && Terms(TYPE_PIECES, 0) == TYPE_TERMS
  {
  }

  lemma TypeTerms()
    ensures TokensFrom(TYPE, 0) == TYPE_TERMS
  {
    assert "" + TYPE == TYPE;
    TypePieces();
    PiecesRead("", TYPE_PIECES);
  }

  lemma ResultTerms()
    ensures PiecesFit(RESULT) && Terms(RESULT, 18) == [Term("return", 19, 25), Term("u", 26, 27), Term(";", 27, 28)]
  {
  }

  lemma ParameterTerms()
    ensures PiecesFit(PARAMETER) && Terms(PARAMETER, 12) == [Term("a", 12, 13), Term(":", 14, 15)] + CALL_BACK
  {
    ResultTerms();
    assert Terms(Delimiter(')', RESULT), 17) == [Term(")", 17, 18)] + Terms(RESULT, 18);
  }

  lemma CallPieces()
    ensures PiecesFit(CALL_PIECES) && Terms(CALL_PIECES, 0) == CALL_TERMS
  {
    ParameterTerms();
    assert Terms(Delimiter('(', PARAMETER), 11) == [Term("(", 11, 12)] + Terms(PARAMETER, 12);
  }

  lemma CallTerms()
    ensures TokensFrom(CALL, 0) == CALL_TERMS
  {
    assert "" + CALL == CALL;
    CallPieces();
    PiecesRead("", CALL_PIECES);
  }

  // ----- their type marks

  function Step(word: string): int {
    if word == "(" then 1 else if word == ")" then -1 else 0
  }

  lemma DepthNext(ts: seq<Term>, n: nat)
    requires n < |ts|
    ensures Depth(ts[..n + 1]) == Depth(ts[..n]) + Step(ts[n].text)
  {
    assert ts[..n + 1][..n] == ts[..n];
  }

  lemma MarksFrom(ts: seq<Term>, j: nat)
    requires j < |ts|
    ensures TypeMark(ts, j) ==> TypeMarks(ts, j) == [ts[j]] + TypeMarks(ts, j + 1)
    ensures !TypeMark(ts, j) ==> TypeMarks(ts, j) == TypeMarks(ts, j + 1)
  {
    assert [] + TypeMarks(ts, j + 1) == TypeMarks(ts, j + 1);
  }

  ghost predicate CallWords(ts: seq<Term>) {
    |ts| == 10 && ts[0].text == "function" && ts[1].text == "f" && ts[2].text == "(" && ts[3].text == "a" &&
    ts[4].text == ":" && ts[5].text == "u" && ts[6].text == ")" && ts[7].text == "return" && ts[8].text == "u" &&
    ts[9].text == ";"
  }

  lemma CallBalanced(ts: seq<Term>)
    requires CallWords(ts)
    ensures Balanced(ts)
  {
    DepthNext(ts, 0);
    DepthNext(ts, 1);
    DepthNext(ts, 2);
    DepthNext(ts, 3);
    DepthNext(ts, 4);
    DepthNext(ts, 5);
    DepthNext(ts, 6);
    DepthNext(ts, 7);
    DepthNext(ts, 8);
    DepthNext(ts, 9);
    assert ts[..0] == [] && ts[..10] == ts;
    assert forall n :: 0 <= n <= 10 ==> Depth(ts[..n]) == if 3 <= n <= 6 then 1 else 0;
  }

  lemma CallCandidates(ts: seq<Term>, i: nat)
    requires CallWords(ts) && i < 10
    ensures Candidate(ts, i) <==> i == 4 || i == 7
  {
  }

  lemma CallMark(ts: seq<Term>, j: nat)
    requires CallWords(ts) && j < 10
    ensures TypeMark(ts, j) <==> j == 5 || j == 8
  {
    assert forall i :: 0 <= i < 10 ==> (Candidate(ts, i) <==> i == 4 || i == 7) by {
      forall i | 0 <= i < 10
        ensures Candidate(ts, i) <==> i == 4 || i == 7
      {
        CallCandidates(ts, i);
      }
    }
    if j == 5 || j == 8 {
      assert Candidate(ts, j - 1);
      assert IsName("u");
    } else if j == 9 {
      assert !IsName(";");
    } else if j == 6 {
      assert !IsName(")");
    } else if j == 7 {
      assert ts[5].text !in MODIFIERS;
    }
  }

  lemma MarkAt(ts: seq<Term>, j: nat)
    requires CallWords(ts) && j < 10
    ensures TypeMarks(ts, j) == (if j == 5 || j == 8 then [ts[j]] else []) + TypeMarks(ts, j + 1)
  {
    CallMark(ts, j);
    MarksFrom(ts, j);
    assert [] + TypeMarks(ts, j + 1) == TypeMarks(ts, j + 1);
  }

  lemma {:induction false} MarksBehind(ts: seq<Term>, j: nat)
    requires CallWords(ts) && j <= 10
    ensures TypeMarks(ts, j) == if j <= 5 then [ts[5], ts[8]] else if j <= 8 then [ts[8]] else []
    decreases 10 - j
  {
    if j < 10 {
      MarkAt(ts, j);
      MarksBehind(ts, j + 1);
    }
  }

  lemma CallMarks(ts: seq<Term>)
    requires CallWords(ts)
    ensures PositionsOf(ts) == Some([ts[5], ts[8]])
  {
    CallBalanced(ts);
    MarksBehind(ts, 0);
  }

  ghost predicate TypeWords(ts: seq<Term>) {
    |ts| == 5 && ts[0].text == "type" && ts[1].text == "u" && ts[2].text == "is" && ts[3].text == "private" && ts[4].text == ";"
  }

  lemma TypeHasNoMark(ts: seq<Term>, j: nat)
    requires TypeWords(ts) && j < 5
    ensures !TypeMark(ts, j)
  {
    assert forall i :: 0 <= i < 5 ==> !Candidate(ts, i);
  }

  lemma TypeBalanced(ts: seq<Term>)
    requires TypeWords(ts)
    ensures Balanced(ts)
  {
    DepthNext(ts, 0);
    DepthNext(ts, 1);
    DepthNext(ts, 2);
    DepthNext(ts, 3);
    DepthNext(ts, 4);
    assert ts[..0] == [] && ts[..5] == ts;
    assert forall n :: 0 <= n <= 5 ==> Depth(ts[..n]) == 0;
  }

  lemma {:induction false} NoMarksBehind(ts: seq<Term>, j: nat)
    requires TypeWords(ts) && j <= 5
    ensures TypeMarks(ts, j) == []
    decreases 5 - j
  {
    if j < 5 {
      TypeHasNoMark(ts, j);
      MarksFrom(ts, j);
      NoMarksBehind(ts, j + 1);
    }
  }

  lemma TypeHasNoMarks(ts: seq<Term>)
    requires TypeWords(ts)
    ensures PositionsOf(ts) == Some([])
  {
    TypeBalanced(ts);
    NoMarksBehind(ts, 0);
  }
}
