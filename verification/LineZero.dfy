/** A warning for line 0 that comes to nothing, and to a declaration once a comment is put in front of
    its source. */
module LineZero {
  import opened Texts
  import opened AdaCode
  import opened AdaIndex
  import opened AdaRules
  import opened Tokens
  import opened Warnings

  const LINE := "package X is new Y;"

  // ----- text that is already normal

  /** Words of visible characters, one blank between them. */
  predicate SingleSpaced(s: string) {
    forall i: nat :: i < |s| && Space(s[i]) ==> s[i] == ' ' && InnerBlank(s, i)
  }

  predicate InnerBlank(s: string, i: nat) {
    0 < i < |s| - 1 && !Space(s[i + 1])
  }

  lemma SpacedFrom(s: string, n: nat)
    requires SingleSpaced(s) && n < |s| && !Space(s[n])
    ensures SingleSpaced(s[n..]) && s[n..] != "" && !Space(s[n..][0])
  {
    var rest := s[n..];
    forall i: nat | i < |rest| && Space(rest[i])
      ensures rest[i] == ' ' && InnerBlank(rest, i)
    {
      assert rest[i] == s[i + n];
      assert InnerBlank(s, i + n);
    }
  }

  lemma {:induction false} OneBlankAlready(s: string)
    requires SingleSpaced(s) && (s != "" ==> !Space(s[0]))
    ensures OneBlank(s) == s
    decreases |s|
  {
    if |s| <= 1 {
    } else if Space(s[1]) {
      assert InnerBlank(s, 1);
      SpacedFrom(s, 2);
      OneBlankAlready(s[2..]);
      assert RunEnd(s[1..], 0, Space) == 1;
      assert s[1..][1..] == s[2..];
      assert s == [s[0]] + (" " + s[2..]);
    } else {
      SpacedFrom(s, 1);
      OneBlankAlready(s[1..]);
    }
  }

  lemma WordsBehindBlank(rest: string)
    requires rest != "" && !Space(rest[0])
    ensures Words(" " + rest) == Words(rest)
  {
    var s := " " + rest;
    assert RunEnd(s, 1, Space) == 1 && RunEnd(s, 0, Space) == 1;
    assert RunEnd(rest, 0, Space) == 0;
    var j, k := RunEnd(s, 1, NotSpace), RunEnd(rest, 0, NotSpace);
    assert forall i :: 1 <= i < |s| ==> s[i] == rest[i - 1];
    assert k < |rest| ==> s[k + 1] == rest[k];
    assert j < |s| ==> s[j] == rest[j - 1];
    assert j == k + 1;
    assert s[1..j] == rest[0..k] && s[j..] == rest[k..];
  }

  /** The first word of such a text, and what is behind the blank that ends it. */
  lemma FirstWord(s: string, j: nat)
    requires SingleSpaced(s) && s != "" && !Space(s[0]) && j == RunEnd(s, 0, NotSpace)
    ensures 0 < j && Words(s) == [s[..j]] + Words(s[j..])
    ensures j < |s| ==> s[j] == ' ' && j + 1 < |s| && !Space(s[j + 1]) && SingleSpaced(s[j + 1..])
  {
    assert RunEnd(s, 0, Space) == 0;
    assert s[0..j] == s[..j];
    if j < |s| {
      assert InnerBlank(s, j);
      SpacedFrom(s, j + 1);
    }
  }

  lemma JoinFirst(word: string, words: seq<string>)
    requires words != []
    ensures Join(" ", [word] + words) == word + " " + Join(" ", words)
  {
    assert ([word] + words)[1..] == words;
  }

  lemma BlankBetween(s: string, j: nat)
    requires j < |s| && s[j] == ' '
    ensures s[j..] == " " + s[j + 1..] && s == s[..j] + " " + s[j + 1..]
  {
  }

  lemma LaterWords(s: string, j: nat)
    requires SingleSpaced(s) && s != "" && !Space(s[0]) && j == RunEnd(s, 0, NotSpace) && j < |s|
    ensures 0 < j && j + 1 < |s| && SingleSpaced(s[j + 1..]) && !Space(s[j + 1])
    ensures s == s[..j] + " " + s[j + 1..] && Words(s) == [s[..j]] + Words(s[j + 1..])
  {
    FirstWord(s, j);
    BlankBetween(s, j);
    WordsBehindBlank(s[j + 1..]);
  }

  lemma OneWord(s: string)
    requires s != "" && RunEnd(s, 0, NotSpace) == |s|
    ensures Words(s) == [s]
  {
    assert NotSpace(s[0]);
    assert RunEnd(s, 0, Space) == 0;
    assert s[0..|s|] == s && s[|s|..] == "";
    assert Words("") == [];
  }

  lemma {:induction false} SquashedAlready(s: string)
    requires SingleSpaced(s) && s != "" && !Space(s[0])
    ensures Squash(s) == s && Words(s) != []
    decreases |s|
  {
    var j := RunEnd(s, 0, NotSpace);
    if j < |s| {
      LaterWords(s, j);
      SquashedAlready(s[j + 1..]);
      JoinFirst(s[..j], Words(s[j + 1..]));
    } else {
      OneWord(s);
    }
  }

  lemma {:induction false} NothingAround(s: string, front: bool, c: char, back: bool, put: string)
    requires c !in s
    ensures Around(s, front, c, back, put) == s
  {
    if s != "" {
      NothingAround(s[1..], front, c, back, put);
    }
  }

  /** The only semicolon of the text is its last character, right behind a word. */
  lemma {:induction false} LastSemicolon(s: string)
    requires s != "" && s[|s| - 1] == ';' && (forall i :: 0 <= i < |s| - 1 ==> s[i] != ';')
    requires |s| > 1 ==> !Space(s[|s| - 2])
    ensures Around(s, true, ';', false, ";") == s
  {
    if |s| == 1 {
      assert s[1..] == "";
      assert RunEnd(s, 0, Space) == 0;
    } else {
      LastSemicolon(s[1..]);
      var i := RunEnd(s, 0, Space);
    }
  }

  lemma {:induction false} StrippedAlready(s: string)
    requires s != "" && !Space(s[0]) && !Space(s[|s| - 1])
    ensures Strip(s) == s
  {
  }

  lemma {:induction false} AllCode(s: string)
    requires forall i :: 0 <= i < |s| ==> s[i] != '"' && s[i] != '-'
    ensures Code(s) == Some(s)
  {
    if s != "" {
      AllCode(s[1..]);
      assert s == [s[0]] + s[1..];
    }
  }

  // ----- the line of an instance

  lemma {:induction false} NoName(s: string, i: nat, names: seq<string>, boundary: bool)
    requires forall n :: 0 <= n < |names| ==> !At(s, i, names[n])
    ensures FirstName(s, i, names, boundary).None?
  {
    if names != [] {
      NoName(s, i, names[1..], boundary);
    }
  }

  lemma NameSkipped(s: string, i: nat, name: string, names: seq<string>, boundary: bool)
    requires !At(s, i, name)
    ensures FirstName(s, i, [name] + names, boundary) == FirstName(s, i, names, boundary)
  {
    assert ([name] + names)[1..] == names;
  }

  predicate PackageLine(code: string) {
    |code| > 9 && At(code, 0, "package ") && code[8] == 'X' && code[9] == ' '
  }

  lemma Keyword(code: string)
    requires PackageLine(code)
    ensures FirstName(code, 0, KEYWORDS, true) == Some(7) && code[0..7] == "package" && code[7] == ' '
  {
    assert code[..8] == "package ";
    assert code[0] == 'p' && code[1] == 'a' && code[6] == 'e' && code[7] == ' ';
    assert code[0..7] == "package";
    var names := ["package", "type", "subtype"];
    assert !At(code, 0, "procedure") && !At(code, 0, "function");
    NameSkipped(code, 0, "procedure", ["function"] + names, true);
    NameSkipped(code, 0, "function", names, true);
    assert KEYWORDS == ["procedure"] + (["function"] + names);
    assert At(code, 0, names[0]) && Boundary(code, 7);
  }

  lemma NoModifier(code: string)
    requires PackageLine(code)
    ensures RunEnd(code, 0, Space) == 0 && PastModifiers(code, 0) == 0
  {
    assert code[..8] == "package ";
    assert code[0] == 'p' && code[1] == 'a';
    assert !At(code, 0, "overriding") && !At(code, 0, "not") && !At(code, 0, "abstract") && !At(code, 0, "private");
    NoName(code, 0, PREFIXES, false);
  }

  lemma NameX(code: string)
    requires PackageLine(code) && code[7] == ' '
    ensures NameBehind(code, 7) == Some("X")
  {
    assert RunEnd(code, 7, Space) == 8;
    assert RunEnd(code, 8, Alphanumeric) == 9;
    assert NameEnd(code, 8) == Some(9);
    assert code[8..9] == "X";
  }

  lemma PackageHeader(code: string)
    requires PackageLine(code)
    ensures HeaderOn(code) == Some(Header(7, PackageKind, Some("X")))
  {
    NoModifier(code);
    Keyword(code);
    NameX(code);
  }

  /** Text that is left as it is by normalization, squashing and the removal of comments and literals. */
  predicate Plain(line: string) {
    line != "" && SingleSpaced(line) && !Space(line[0]) &&
    (forall i: nat :: i < |line| ==> line[i] !in {'(', ')', ',', ':', '"', '-'}) &&
    line[|line| - 1] == ';' && (forall i: nat :: i < |line| - 1 ==> line[i] != ';') &&
    (|line| > 1 ==> !Space(line[|line| - 2]))
  }

  lemma PlainNormal(line: string)
    requires Plain(line)
    ensures Normalize(line) == line
  {
    OneBlankAlready(line);
    StrippedAlready(line);
    NothingAround(line, false, '(', true, "(");
    NothingAround(line, true, ')', false, ")");
    NothingAround(line, true, ',', true, ", ");
    NothingAround(line, true, ':', true, " : ");
    LastSemicolon(line);
  }

  lemma LineRead()
    ensures PackageLine(LINE) && At(LINE, 9, " is new ")
  {
    assert LINE[..8] == "package ";
    assert LINE[9..17] == " is new ";
  }

  lemma LineSpaced()
    ensures SingleSpaced(LINE)
  {
    assert forall i: nat :: i < |LINE| && Space(LINE[i]) ==> i == 7 || i == 9 || i == 12 || i == 16;
  }

  lemma LinePlain()
    ensures Plain(LINE)
  {
    LineSpaced();
  }

  // ----- its index

  lemma {:induction false} NoParentheses(code: string, i: nat, depth: int)
    requires i <= |code| && forall k: nat :: k < |code| ==> code[k] != '(' && code[k] != ')'
    ensures Depths(code, i, depth, false) == Still(depth)
    decreases |code| - i
  {
    if i < |code| {
      NoParentheses(code, i + 1, depth);
    }
  }

  lemma OutcomeRead(line: string)
    requires Plain(line)
    ensures Reading(PROGRAM_RULES, true)(line, 0) == Finishes(line, 0)
  {
    AllCode(line);
    SquashedAlready(line);
    NoParentheses(line, 0, 0);
    assert line[|line| - 1] == ';';
  }

  lemma SpanRead(line: string)
    requires Plain(line)
    ensures SpanOf(PROGRAM_RULES, [line], true) == Some(Span(0, [line], 0)) && Text([line]) == line
  {
    OutcomeRead(line);
    assert [line][0] == line;
    assert NonEmpty([line]) == [line] + NonEmpty([]);
  }

  lemma SameReplaced(line: string, name: string)
    ensures ReplaceFirst(line, name, name) == line
  {
    var k := FindText(line, 0, name);
    if k.Some? {
      assert line[..k.value] + name + line[k.value + |name|..] == line;
    }
  }

  lemma ColumnRead(line: string)
    requires PackageLine(line)
    ensures Column(line, "X", 7) == 9
  {
    assert line[..8] == "package " && line[7] == ' ';
    assert line[8..9] == "X" && line[7..8] == " ";
    assert FindText(line, 8, "X") == Some(8);
  }

  predicate InstanceLine(line: string) {
    Plain(line) && PackageLine(line) && At(line, 9, " is new ")
  }

  lemma DraftRead(line: string)
    requires InstanceLine(line)
    ensures PackageDraft(PROGRAM_RULES, [line], [], Header(7, PackageKind, Some("X")), "X") ==
            Some((Draft(0, 9, "X", "X", line), true))
  {
    SpanRead(line);
    PlainNormal(line);
    SameReplaced(line, "X");
    ColumnRead(line);
    assert Contains(line, " is new ");
    assert PackageNames([]) == [] && Join(".", []) == "";
  }

  lemma HeaderSeen(rules: Rules, line: string, end: nat, name: string)
    requires Code(line) == Some(line) && rules.header(line) == Some(Header(end, PackageKind, Some(name)))
    ensures Look(rules, [line], [], false) == PackageSight(rules, [line], [], Header(end, PackageKind, Some(name)), name)
  {
    assert [line][0] == line;
  }

  lemma SightRead(line: string)
    requires InstanceLine(line)
    ensures Look(PROGRAM_RULES, [line], [], false) == Packages(Draft(0, 9, "X", "X", line), true)
  {
    AllCode(line);
    PackageHeader(line);
    HeaderSeen(PROGRAM_RULES, line, 7, "X");
    DraftRead(line);
  }

  function Unit(line: string): IndexEntry {
    IndexEntry(1, 1, 9, "X", "X", line)
  }

  lemma IndexOne(see: Seeing, look: Formalizing, line: string)
    requires see([line], [], false) == Packages(Draft(0, 9, "X", "X", line), true)
    ensures IndexRest(see, look, [line], 0, EMPTY) == Some([Unit(line)])
  {
    assert Drop([line], 0) == [line];
    var turn := StepAt(see, look, [line], 0, EMPTY);
    assert [] + [] + [Unit(line)] == [Unit(line)];
    assert turn == Some(Turn(State([], [], [Unit(line)]), 1));
  }

  /** The program's index of the line: the instance X, at column 9 of line 1. */
  lemma IndexOfLine(line: string)
    requires InstanceLine(line)
    ensures Index(PROGRAM_RULES, [line]) == Some([Unit(line)])
  {
    SightRead(line);
    IndexOne(SeeingOf(PROGRAM_RULES), FormalizingOf(PROGRAM_RULES), line);
  }

  // ----- the two identities

  lemma NameThere(line: string)
    requires InstanceLine(line)
    ensures NameAt(line, 9) == Some("X") && !BlankOrComment(line)
  {
    assert line[..8] == "package " && line[0] == 'p' && line[7] == ' ';
    assert StripFront(line) == line;
    assert RunEnd(line, 8, WordOrDot) == 9;
    assert line[8..9] == "X";
    StrippedAlready(line);
  }

  lemma JudgedThere(line: string)
    requires InstanceLine(line)
    ensures JudgingOf([Unit(line)], 9)([], line, 1) == Stop(Some(Unit(line)))
  {
    var d := Unit(line);
    NameThere(line);
    assert Hits([d], 1, 9, "X") == [d] + Hits([], 1, 9, "X");
    assert CountKey([d], d) == 1;
  }

  lemma TopOfLine(tools: Tools, line: string, w: Warning)
    requires InstanceLine(line) && w.column == 9 && w.subject.NoSubject?
    requires tools.index([line]) == Some([Unit(line)])
    requires tools.judging([Unit(line)], 9)([], line, 1) == Stop(Some(Unit(line)))
    ensures KeyFromTop(tools, [line], w) == Some(("X", line))
  {
    var judge := tools.judging([Unit(line)], 9);
    assert [line][0] == line;
    assert LocateFrom(judge, [], [line], 0, 1, TRIES - 1) == Some(Unit(line));
  }

  /** A warning for line 0 of that one-line source names nothing; with a comment in front of the line,
      and the warning moved down with it, it names the package. */
  lemma LineZeroMisses(w: Warning, comment: string)
    requires w.line == 0 && w.column == 9 && w.subject.NoSubject? && BlankOrComment(comment)
    ensures IdentityIn(ToolsOf(PROGRAM_RULES), [LINE], w).None?
    ensures IdentityIn(ToolsOf(PROGRAM_RULES), [comment, LINE], w.(line := 1)) == Some(Identity(w.file, ("X", LINE), w.message))
  {
    LineRead();
    LinePlain();
    ProgramRulesSane();
    ZeroOfLine(LINE, w, comment);
    assert [comment] + [LINE] == [comment, LINE];
  }

  lemma ZeroOfLine(line: string, w: Warning, comment: string)
    requires InstanceLine(line) && Sane(PROGRAM_RULES)
    requires w.line == 0 && w.column == 9 && w.subject.NoSubject? && BlankOrComment(comment)
    ensures IdentityIn(ToolsOf(PROGRAM_RULES), [line], w).None?
    ensures IdentityIn(ToolsOf(PROGRAM_RULES), [comment] + [line], w.(line := 1)) ==
            Some(Identity(w.file, ("X", line), w.message))
  {
    var tools := ToolsOf(PROGRAM_RULES);
    IndexOfLine(line);
    JudgedThere(line);
    NameThere(line);
    TopOfLine(tools, line, w);
    LinesFollow(PROGRAM_RULES, [comment], [line]);
    ToolsOfRegular(PROGRAM_RULES);
    TopShifted(tools, [comment], [line], w);
  }
}
