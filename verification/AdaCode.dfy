/** The code of an Ada source line, without comments and string literals, and the reach of a
    declaration over lines, found by counting parentheses. */
module AdaCode {
  import opened Texts

  predicate Begins(s: string, c: char) {
    s != "" && s[0] == c
  }

  predicate BeginsComment(s: string) {
    Begins(s, '-') && Begins(s[1..], '-')
  }

  /** What follows the string literal whose opening quote was just read; a doubled quote is part of
      the literal. */
  function AfterQuote(s: string): (r: Option<string>)
    ensures r.Some? ==> |r.value| < |s|
  {
    if s == "" then None
    else if s[0] != '"' then AfterQuote(s[1..])
    else if Begins(s[1..], '"') then AfterQuote(s[2..])
    else Some(s[1..])
  }

  /** code_tokens; None for an unterminated string literal. */
  function Code(line: string): Option<string>
    decreases |line|
  {
    if line == "" || BeginsComment(line) then Some("")
    else if line[0] == '"' then
      match AfterQuote(line[1..])
      case None => None
      case Some(rest) => Behind(' ', Code(rest))
    else Behind(line[0], Code(line[1..]))
  }

  function Behind(c: char, code: Option<string>): Option<string> {
    if code.Some? then Some([c] + code.value) else None
  }

  function After(read: string, code: Option<string>): Option<string> {
    if code.Some? then Some(read + code.value) else None
  }

  method CodeTokens(line: string) returns (code: Option<string>)
    ensures code == Code(line)
  {
    var characters, index := "", 0;
    ReadNothing(line);
    while index < |line| && !BeginsComment(line[index..])
      invariant index <= |line| && After(characters, Code(line[index..])) == Code(line)
    {
      if line[index] == '"' {
        ghost var rest := line[index + 1..];
        ReadQuote(characters, line[index..]);
        characters := characters + " ";
        index := index + 1;
        var closed := false;
        while index < |line| && !closed
          invariant index <= |line|
          invariant AfterQuote(rest) == if closed then Some(line[index..]) else AfterQuote(line[index..])
          decreases |line| - index, closed
        {
          if line[index] == '"' {
            if index + 1 < |line| && line[index + 1] == '"' {
              index := index + 2;
            } else {
              index := index + 1;
              closed := true;
            }
          } else {
            index := index + 1;
          }
        }
        if !closed {
          return None;
        }
      } else {
        ReadPlain(characters, line[index..]);
        characters := characters + [line[index]];
        index := index + 1;
      }
    }
    code := Some(characters);
    assert characters + "" == characters;
  }

  lemma ReadNothing(line: string)
    ensures After("", Code(line[0..])) == Code(line)
  {
    assert line[0..] == line;
    if Code(line).Some? {
      assert "" + Code(line).value == Code(line).value;
    }
  }

  lemma ReadQuote(read: string, s: string)
    requires Begins(s, '"')
    ensures After(read, Code(s)) ==
            if AfterQuote(s[1..]).Some? then After(read + " ", Code(AfterQuote(s[1..]).value)) else None
  {
    if AfterQuote(s[1..]).Some? && Code(AfterQuote(s[1..]).value).Some? {
      var code := Code(AfterQuote(s[1..]).value).value;
      assert read + ([' '] + code) == read + " " + code;
    }
  }

  lemma ReadPlain(read: string, s: string)
    requires s != "" && !BeginsComment(s) && s[0] != '"'
    ensures After(read, Code(s)) == After(read + [s[0]], Code(s[1..]))
  {
    if Code(s[1..]).Some? {
      assert read + ([s[0]] + Code(s[1..]).value) == read + [s[0]] + Code(s[1..]).value;
    }
  }

  // ----- lines put together from code, literals and a comment

  datatype Piece =
    | End
    | Comment(text: string)
    | Open(content: string)                 // a literal never closed
    | Plain(c: char, next: Piece)
    | Quote(content: string, next: Piece)

  /** Quotes inside a literal are written twice. */
  function Doubled(content: string): string {
    if content == "" then ""
    else if content[0] == '"' then "\"\"" + Doubled(content[1..])
    else [content[0]] + Doubled(content[1..])
  }

  function Show(piece: Piece): string {
    match piece
    case End => ""
    case Comment(text) => "--" + text
    case Open(content) => "\"" + Doubled(content)
    case Plain(c, next) => [c] + Show(next)
    case Quote(content, next) => "\"" + (Doubled(content) + ("\"" + Show(next)))
  }

  function CodeOf(piece: Piece): Option<string> {
    match piece
    case End => Some("")
    case Comment(_) => Some("")
    case Open(_) => None
    case Plain(c, next) => Behind(c, CodeOf(next))
    case Quote(_, next) => Behind(' ', CodeOf(next))
  }

  /** Hyphens do not meet outside literals and comments, nor do two literals. */
  predicate Spelled(piece: Piece) {
    match piece
    case Plain(c, next) => c != '"' && !(c == '-' && Begins(Show(next), '-')) && Spelled(next)
    case Quote(_, next) => !Begins(Show(next), '"') && Spelled(next)
    case _ => true
  }

  lemma AfterPlain(c: char, s: string)
    requires c != '"'
    ensures AfterQuote([c] + s) == AfterQuote(s)
  {
    assert ([c] + s)[1..] == s;
  }

  lemma AfterPair(s: string)
    ensures AfterQuote("\"\"" + s) == AfterQuote(s)
  {
    assert ("\"\"" + s)[1..] == "\"" + s && ("\"\"" + s)[2..] == s;
  }

  lemma AfterLast(rest: string)
    requires !Begins(rest, '"')
    ensures AfterQuote("\"" + rest) == Some(rest)
  {
    assert ("\"" + rest)[1..] == rest;
  }

  lemma Regroup(a: string, b: string, c: string)
    ensures (a + b) + c == a + (b + c)
  {
  }

  lemma {:induction false} AfterDoubled(content: string, rest: string)
    requires !Begins(rest, '"')
    ensures AfterQuote(Doubled(content) + ("\"" + rest)) == Some(rest)
  {
    if content == "" {
      AfterLast(rest);
      assert "" + ("\"" + rest) == "\"" + rest;
    } else {
      AfterDoubled(content[1..], rest);
      var others := Doubled(content[1..]) + ("\"" + rest);
      if content[0] == '"' {
        Regroup("\"\"", Doubled(content[1..]), "\"" + rest);
        AfterPair(others);
      } else {
        Regroup([content[0]], Doubled(content[1..]), "\"" + rest);
        AfterPlain(content[0], others);
      }
    }
  }

  lemma {:induction false} NeverClosed(content: string)
    ensures AfterQuote(Doubled(content)).None?
  {
    if content == "" {
    } else {
      NeverClosed(content[1..]);
      var s, others := Doubled(content), Doubled(content[1..]);
      if content[0] == '"' {
        assert s == "\"\"" + others && s[2..] == others && s[1..] == "\"" + others;
      } else {
        assert s == [content[0]] + others && s[1..] == others;
      }
    }
  }

  /** The code of a line is its plain characters, with a blank for every literal. */
  lemma {:induction false} CodeOfShown(piece: Piece)
    requires Spelled(piece)
    ensures Code(Show(piece)) == CodeOf(piece)
  {
    var s := Show(piece);
    match piece
    case End =>
    case Comment(text) =>
      assert s[1..] == "-" + text;
    case Open(content) =>
      NeverClosed(content);
      assert s[1..] == Doubled(content);
    case Plain(c, next) =>
      CodeOfShown(next);
      assert s[1..] == Show(next);
    case Quote(content, next) =>
      CodeOfShown(next);
      AfterDoubled(content, Show(next));
      assert s[1..] == Doubled(content) + ("\"" + Show(next));
  }

  /** The content of the literal whose opening quote was just read. */
  function Content(s: string): string {
    if s == "" then ""
    else if s[0] != '"' then [s[0]] + Content(s[1..])
    else if Begins(s[1..], '"') then "\"" + Content(s[2..])
    else ""
  }

  function Pieces(line: string): Piece
    decreases |line|
  {
    if line == "" then End
    else if BeginsComment(line) then Comment(line[2..])
    else if line[0] == '"' then
      match AfterQuote(line[1..])
      case None => Open(Content(line[1..]))
      case Some(rest) => Quote(Content(line[1..]), Pieces(rest))
    else Plain(line[0], Pieces(line[1..]))
  }

  ghost predicate WellRead(s: string, after: Option<string>, content: string) {
    match after
    case None => s == Doubled(content)
    case Some(rest) => !Begins(rest, '"') && s == Doubled(content) + ("\"" + rest)
  }

  lemma ReadMore(c: char, s: string, after: Option<string>, content: string)
    requires WellRead(s, after, content)
    ensures c != '"' ==> WellRead([c] + s, after, [c] + content)
    ensures c == '"' ==> WellRead("\"\"" + s, after, "\"" + content)
  {
    var more := [c] + content;
    assert more[0] == c && more[1..] == content;
    if after.Some? {
      Regroup(if c == '"' then "\"\"" else [c], Doubled(content), "\"" + after.value);
    }
  }

  lemma {:induction false} QuoteRead(s: string)
    ensures WellRead(s, AfterQuote(s), Content(s))
  {
    if s == "" {
    } else if s[0] != '"' {
      QuoteRead(s[1..]);
      ReadMore(s[0], s[1..], AfterQuote(s[1..]), Content(s[1..]));
      assert s == [s[0]] + s[1..];
    } else if Begins(s[1..], '"') {
      QuoteRead(s[2..]);
      ReadMore('"', s[2..], AfterQuote(s[2..]), Content(s[2..]));
      assert s == "\"\"" + s[2..];
    } else {
      assert "" + ("\"" + s[1..]) == s;
    }
  }

  /** Every line can be put together that way. */
  lemma {:induction false} EveryLineSpelled(line: string)
    ensures Spelled(Pieces(line)) && Show(Pieces(line)) == line
    decreases |line|
  {
    if line == "" {
    } else if BeginsComment(line) {
      assert line == "--" + line[2..];
    } else if line[0] == '"' {
      QuoteRead(line[1..]);
      assert line == "\"" + line[1..];
      if AfterQuote(line[1..]).Some? {
        EveryLineSpelled(AfterQuote(line[1..]).value);
      }
    } else {
      EveryLineSpelled(line[1..]);
      assert line == [line[0]] + line[1..];
    }
  }

  // ----- blank lines and comments

  predicate AllSpace(s: string) {
    forall i :: 0 <= i < |s| ==> Space(s[i])
  }

  /** A line that is empty or a comment once stripped. */
  predicate BlankOrComment(line: string) {
    Strip(line) == "" || BeginsComment(Strip(line))
  }

  lemma {:induction false} StripLeft(line: string)
    requires line != "" && Space(line[0])
    ensures Strip(line) == Strip(line[1..])
  {
  }

  lemma {:induction false} StripBeginsSame(line: string)
    requires line != "" && !Space(line[0])
    ensures Strip(line) != "" && Strip(line) == line[..|Strip(line)|]
    decreases |line|
  {
    if Space(line[|line| - 1]) {
      var shorter := line[..|line| - 1];
      StripBeginsSame(shorter);
      assert shorter[..|Strip(shorter)|] == line[..|Strip(shorter)|];
    }
  }

  /** A blank line or comment has no code. */
  lemma {:induction false} BlankHasNoCode(line: string)
    requires BlankOrComment(line)
    ensures Code(line).Some? && AllSpace(Code(line).value)
    decreases |line|
  {
    if line == "" {
    } else if Space(line[0]) {
      StripLeft(line);
      BlankHasNoCode(line[1..]);
    } else {
      StripBeginsSame(line);
      assert BeginsComment(line);
    }
  }

  // ----- parentheses

  /** Opening less closing parentheses in front of i. */
  function Net(code: string, i: nat): int
    requires i <= |code|
  {
    if i == 0 then 0
    else Net(code, i - 1) + if code[i - 1] == '(' then 1 else if code[i - 1] == ')' then -1 else 0
  }

  datatype Scan = Broken | Ended | Still(depth: int)

  /** The character loop over one line, from i on at some depth; semicolons end it if they may. */
  function Depths(code: string, i: nat, depth: int, stops: bool): Scan
    requires i <= |code|
    decreases |code| - i
  {
    if i == |code| then Still(depth)
    else if code[i] == '(' then Depths(code, i + 1, depth + 1, stops)
    else if code[i] == ')' then if depth - 1 < 0 then Broken else Depths(code, i + 1, depth - 1, stops)
    else if code[i] == ';' && depth == 0 && stops then Ended
    else Depths(code, i + 1, depth, stops)
  }

  /** Up to i no closing parenthesis is too many, and no semicolon outside parentheses. */
  predicate Goes(code: string, depth: int, stops: bool, i: nat)
    requires i <= |code|
  {
    forall j :: 0 <= j < i ==> !StopsAt(code, depth, stops, j) && !BreaksAt(code, depth, j)
  }

  predicate StopsAt(code: string, depth: int, stops: bool, j: nat)
    requires j < |code|
  {
    stops && code[j] == ';' && depth + Net(code, j) == 0
  }

  predicate BreaksAt(code: string, depth: int, j: nat)
    requires j < |code|
  {
    code[j] == ')' && depth + Net(code, j) <= 0
  }

  /** The loop ends at the first semicolon outside all parentheses, breaks at the first closing
      parenthesis too many, and otherwise carries on with the balance. */
  lemma {:induction false} DepthsMean(code: string, i: nat, depth: int, stops: bool)
    requires i <= |code| && Goes(code, depth, stops, i)
    ensures match Depths(code, i, depth + Net(code, i), stops)
            case Still(d) => Goes(code, depth, stops, |code|) && d == depth + Net(code, |code|)
            case Ended => exists j :: 0 <= j < |code| && Goes(code, depth, stops, j) && StopsAt(code, depth, stops, j)
            case Broken => exists j :: 0 <= j < |code| && Goes(code, depth, stops, j) && BreaksAt(code, depth, j)
    decreases |code| - i
  {
    if i == |code| {
    } else if StopsAt(code, depth, stops, i) || BreaksAt(code, depth, i) {
      assert Goes(code, depth, stops, i);
    } else {
      DepthsMean(code, i + 1, depth, stops);
    }
  }

  method ScanParentheses(code: string, depth: int, stops: bool) returns (scan: Scan)
    ensures scan == Depths(code, 0, depth, stops)
  {
    var level := depth;
    var i := 0;
    while i < |code|
      invariant i <= |code| && Depths(code, i, level, stops) == Depths(code, 0, depth, stops)
    {
      if code[i] == '(' {
        level := level + 1;
      } else if code[i] == ')' {
        level := level - 1;
        if level < 0 {
          return Broken;
        }
      } else if code[i] == ';' && level == 0 && stops {
        return Ended;
      }
      i := i + 1;
    }
    scan := Still(level);
  }
}
