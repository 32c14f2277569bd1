/** The conditional directives a line of a header stands under: the running stack of guard_lines,
    the rescan made for every declaration, and the nesting of blocks both must agree with. */
module Guards {
  import opened Texts

  /** #\s* followed by one of the names as a whole word */
  predicate Directive(line: string, names: seq<string>) {
    line != "" && line[0] == '#' && FirstName(line, RunEnd(line, 1, Space), names, true).Some?
  }

  datatype Kind = Opening | Turning | Closing | Other

  /** A stripped line and what it is to the preprocessor. */
  datatype Mark = Mark(kind: Kind, text: string)

  function KindOf(line: string): Kind {
    if Directive(line, ["if", "ifdef", "ifndef"]) then Opening
    else if Directive(line, ["elif", "else"]) then Turning
    else if Directive(line, ["endif"]) then Closing
    else Other
  }

  function MarkOf(line: string): Mark {
    Mark(KindOf(Strip(line)), Strip(line))
  }

  function Marks(lines: seq<string>): seq<Mark> {
    seq(|lines|, i requires 0 <= i < |lines| => MarkOf(lines[i]))
  }

  type Stack = seq<seq<string>>

  /** What a line does to the open groups. */
  function Step(stack: Stack, mark: Mark): Stack {
    match mark.kind
    case Opening => stack + [[mark.text]]
    case Turning => if stack == [] then stack else stack[..|stack| - 1] + [stack[|stack| - 1] + [mark.text]]
    case Closing => if stack == [] then stack else stack[..|stack| - 1]
    case Other => stack
  }

  function Run(stack: Stack, marks: seq<Mark>): Stack
    decreases |marks|
  {
    if marks == [] then stack else Run(Step(stack, marks[0]), marks[1..])
  }

  function Reported(stack: Stack): seq<string> {
    seq(|stack|, i requires 0 <= i < |stack| => Join(" / ", stack[i]))
  }

  lemma {:induction false} RunAppend(stack: Stack, a: seq<Mark>, b: seq<Mark>)
    ensures Run(stack, a + b) == Run(Run(stack, a), b)
    decreases |a|
  {
    if a == [] {
      assert a + b == b;
    } else {
      RunAppend(Step(stack, a[0]), a[1..], b);
      assert (a + b)[0] == a[0] && (a + b)[1..] == a[1..] + b;
    }
  }

  lemma RunSnoc(stack: Stack, marks: seq<Mark>, n: nat)
    requires n < |marks|
    ensures Run(stack, marks[..n + 1]) == Step(Run(stack, marks[..n]), marks[n])
  {
    assert marks[..n + 1] == marks[..n] + [marks[n]];
    RunAppend(stack, marks[..n], [marks[n]]);
  }

  /** The groups open behind the first n lines. */
  function After(lines: seq<string>, n: nat): Stack
    requires n <= |lines|
  {
    Run([], Marks(lines)[..n])
  }

  lemma AfterSnoc(lines: seq<string>, n: nat)
    requires n < |lines|
    ensures After(lines, n + 1) == Step(After(lines, n), MarkOf(lines[n]))
  {
    RunSnoc([], Marks(lines), n);
  }

  /** The lines before number are recorded, each with the groups open in front of it. */
  ghost predicate Recorded(result: map<nat, seq<string>>, lines: seq<string>, number: nat) {
    forall n :: (n in result <==> 1 <= n < number) &&
                (1 <= n < number && n <= |lines| ==> n in result && result[n] == Reported(After(lines, n - 1)))
  }

  lemma RecordNext(result: map<nat, seq<string>>, lines: seq<string>, number: nat)
    requires Recorded(result, lines, number) && 1 <= number <= |lines|
    ensures Recorded(result[number := Reported(After(lines, number - 1))], lines, number + 1)
  {
  }

  /** guard_lines: the groups open in front of every line, numbered from 1. */
  method GuardLines(lines: seq<string>) returns (result: map<nat, seq<string>>)
    ensures forall n :: n in result <==> 1 <= n <= |lines|
    ensures forall n :: 1 <= n <= |lines| ==> result[n] == Reported(After(lines, n - 1))
  {
    result := map[];
    var stack: Stack := [];
    var number := 1;
    while number <= |lines|
      invariant 1 <= number <= |lines| + 1 && stack == After(lines, number - 1)
      invariant Recorded(result, lines, number)
    {
      AfterSnoc(lines, number - 1);
      RecordNext(result, lines, number);
      result := result[number := Reported(stack)];
      stack := Guarded(stack, Strip(lines[number - 1]), ["elif", "else"]);
      number := number + 1;
    }
  }

  /** The chain of directive tests both programs spell out for a stripped line; they list the names
      of a turn in different order. */
  method Guarded(stack: Stack, line: string, turns: seq<string>) returns (stack': Stack)
    requires turns == ["elif", "else"] || turns == ["else", "elif"]
    ensures stack' == Step(stack, Mark(KindOf(line), line))
  {
    ElseOrElif(line);
    stack' := stack;
    if Directive(line, ["if", "ifdef", "ifndef"]) {
      stack' := stack + [[line]];
    } else if Directive(line, turns) {
      if stack != [] {
        stack' := stack[|stack| - 1 := stack[|stack| - 1] + [line]];
      }
    } else if Directive(line, ["endif"]) && stack != [] {
      stack' := stack[..|stack| - 1];
    }
  }

  /** The rescan of cpp_declarations for a declaration on the given line. */
  method RescanGuards(lines: seq<string>, line: nat) returns (guards: seq<string>)
    requires 1 <= line
    ensures guards == Reported(After(lines, if line - 1 <= |lines| then line - 1 else |lines|))
  {
    var groups: Stack := [];
    var count := if line - 1 <= |lines| then line - 1 else |lines|;
    var i := 0;
    while i < count
      invariant i <= count && groups == After(lines, i)
    {
      AfterSnoc(lines, i);
      groups := Guarded(groups, Strip(lines[i]), ["else", "elif"]);
      i := i + 1;
    }
    guards := Reported(groups);
  }

  lemma ElseOrElif(line: string)
    ensures Directive(line, ["else", "elif"]) <==> Directive(line, ["elif", "else"])
  {
    if line != "" {
      TwoNames(line, RunEnd(line, 1, Space), "else", "elif");
      TwoNames(line, RunEnd(line, 1, Space), "elif", "else");
    }
  }

  lemma TwoNames(s: string, i: nat, a: string, b: string)
    ensures FirstName(s, i, [a, b], true).Some? <==>
            (At(s, i, a) && Boundary(s, i + |a|)) || (At(s, i, b) && Boundary(s, i + |b|))
  {
    assert [a, b][1..] == [b] && [b][1..] == [];
  }

  /** The rescan finds for every line what the running stack recorded for it. */
  method CompareForms(lines: seq<string>, line: nat)
    returns (recorded: map<nat, seq<string>>, rescanned: seq<string>)
    requires 1 <= line <= |lines|
    ensures line in recorded && recorded[line] == rescanned
  {
    recorded := GuardLines(lines);
    rescanned := RescanGuards(lines, line);
  }

  // ----- nesting

  /** Lines with their blocks made out: a block's inner part holds the turns to its branches. */
  datatype Body =
    | End
    | Plain(line: string, rest: Body)
    | Turn(line: string, rest: Body)
    | Block(open: string, inner: Body, close: string, rest: Body)

  function Lines(body: Body): seq<Mark> {
    match body
    case End => []
    case Plain(line, rest) => [Mark(Other, line)] + Lines(rest)
    case Turn(line, rest) => [Mark(Turning, line)] + Lines(rest)
    case Block(open, inner, close, rest) =>
      [Mark(Opening, open)] + (Lines(inner) + ([Mark(Closing, close)] + Lines(rest)))
  }

  /** The turns of a body that do not belong to a block inside it. */
  function OwnTurns(body: Body): seq<string> {
    match body
    case End => []
    case Plain(_, rest) => OwnTurns(rest)
    case Turn(line, rest) => [line] + OwnTurns(rest)
    case Block(_, _, _, rest) => OwnTurns(rest)
  }

  datatype Place = Place(turns: seq<string>, inside: Stack)

  /** Where line n of the body stands: the own turns in front of it, and the blocks around it with
      their branches so far, outermost first. */
  function Enclosing(body: Body, n: nat): Place {
    match body
    case End => Place([], [])
    case Plain(_, rest) => if n == 0 then Place([], []) else Enclosing(rest, n - 1)
    case Turn(line, rest) =>
      if n == 0 then Place([], [])
      else
        var place := Enclosing(rest, n - 1);
        Place([line] + place.turns, place.inside)
    case Block(open, inner, close, rest) =>
      if n == 0 then Place([], [])
      else if n <= 1 + |Lines(inner)| then
        var place := Enclosing(inner, n - 1);
        Place([], [[open] + place.turns] + place.inside)
      else Enclosing(rest, n - 2 - |Lines(inner)|)
  }

  lemma StepTurn(base: Stack, group: seq<string>, line: string)
    ensures Step(base + [group], Mark(Turning, line)) == base + [group + [line]]
  {
    var stack := base + [group];
    assert stack[..|stack| - 1] == base && stack[|stack| - 1] == group;
  }

  lemma StepClose(base: Stack, group: seq<string>, line: string)
    ensures Step(base + [group], Mark(Closing, line)) == base
  {
    var stack := base + [group];
    assert stack[..|stack| - 1] == base;
  }

  lemma RunCons(stack: Stack, mark: Mark, marks: seq<Mark>)
    ensures Run(stack, [mark] + marks) == Run(Step(stack, mark), marks)
  {
    assert ([mark] + marks)[1..] == marks;
  }

  lemma BlockLines(stack: Stack, open: Mark, inner: seq<Mark>, close: Mark, rest: seq<Mark>)
    ensures Run(stack, [open] + (inner + ([close] + rest))) == Run(Step(Run(Step(stack, open), inner), close), rest)
  {
    RunCons(stack, open, inner + ([close] + rest));
    RunAppend(Step(stack, open), inner, [close] + rest);
    RunCons(Run(Step(stack, open), inner), close, rest);
  }

  lemma AppendTurn(base: Stack, group: seq<string>, line: string, turns: seq<string>)
    ensures base + [group + [line] + turns] == base + [group + ([line] + turns)]
  {
    assert group + [line] + turns == group + ([line] + turns);
  }

  /** A body inside a group only adds its own turns to that group. */
  lemma {:induction false} InsideGroup(base: Stack, group: seq<string>, body: Body)
    ensures Run(base + [group], Lines(body)) == base + [group + OwnTurns(body)]
    decreases body
  {
    match body
    case End =>
      assert group + [] == group;
    case Plain(line, rest) =>
      RunCons(base + [group], Mark(Other, line), Lines(rest));
      InsideGroup(base, group, rest);
    case Turn(line, rest) =>
      RunCons(base + [group], Mark(Turning, line), Lines(rest));
      StepTurn(base, group, line);
      InsideGroup(base, group + [line], rest);
      AppendTurn(base, group, line, OwnTurns(rest));
    case Block(open, inner, close, rest) =>
      InsideGroup(base + [group], [open], inner);
      BlockDone(base + [group], open, inner, close, Lines(rest));
      InsideGroup(base, group, rest);
  }

  lemma BlockDone(stack: Stack, open: string, inner: Body, close: string, rest: seq<Mark>)
    requires Run(stack + [[open]], Lines(inner)) == stack + [[open] + OwnTurns(inner)]
    ensures Run(stack, [Mark(Opening, open)] + (Lines(inner) + ([Mark(Closing, close)] + rest))) == Run(stack, rest)
  {
    BlockLines(stack, Mark(Opening, open), Lines(inner), Mark(Closing, close), rest);
    StepClose(stack, [open] + OwnTurns(inner), close);
  }

  /** A balanced block leaves the stack as it was, on any stack. */
  lemma BlockLeavesNothing(stack: Stack, open: string, inner: Body, close: string, rest: seq<Mark>)
    ensures Run(stack, [Mark(Opening, open)] + (Lines(inner) + ([Mark(Closing, close)] + rest))) == Run(stack, rest)
  {
    InsideGroup(stack, [open], inner);
    BlockDone(stack, open, inner, close, rest);
  }

  // ----- the place of every line

  lemma FirstOf(stack: Stack, first: Mark, others: seq<Mark>, n: nat)
    requires n <= |others|
    ensures Run(stack, ([first] + others)[..n + 1]) == Run(Step(stack, first), others[..n])
  {
    assert ([first] + others)[..n + 1] == [first] + others[..n];
    RunCons(stack, first, others[..n]);
  }

  lemma BlockFront(stack: Stack, open: Mark, inner: seq<Mark>, others: seq<Mark>, n: nat)
    requires n <= |inner|
    ensures Run(stack, ([open] + (inner + others))[..n + 1]) == Run(Step(stack, open), inner[..n])
  {
    FirstOf(stack, open, inner + others, n);
    assert (inner + others)[..n] == inner[..n];
  }

  lemma BlockBack(open: Mark, inner: seq<Mark>, close: Mark, rest: seq<Mark>, n: nat)
    requires n <= |rest|
    ensures ([open] + (inner + ([close] + rest)))[..n + 2 + |inner|] == [open] + (inner + ([close] + rest[..n]))
  {
    assert (inner + ([close] + rest))[..n + 1 + |inner|] == inner + ([close] + rest[..n]);
  }

  lemma BehindBlock(stack: Stack, open: string, inner: Body, close: string, rest: Body, n: nat)
    requires n <= |Lines(rest)|
    ensures Run(stack, Lines(Block(open, inner, close, rest))[..n + 2 + |Lines(inner)|]) == Run(stack, Lines(rest)[..n])
  {
    BlockBack(Mark(Opening, open), Lines(inner), Mark(Closing, close), Lines(rest), n);
    BlockLeavesNothing(stack, open, inner, close, Lines(rest)[..n]);
  }

  /** The stack in front of line n of a body, begun on some stack: inside a group and outside. */
  ghost predicate PlacedInside(base: Stack, group: seq<string>, body: Body, n: nat)
    requires n <= |Lines(body)|
  {
    Run(base + [group], Lines(body)[..n]) == base + [group + Enclosing(body, n).turns] + Enclosing(body, n).inside
  }

  ghost predicate PlacedOutside(stack: Stack, body: Body, n: nat)
    requires n <= |Lines(body)|
  {
    Run(stack, Lines(body)[..n]) == stack + Enclosing(body, n).inside
  }

  lemma WithinBlock(stack: Stack, open: string, inner: Body, close: string, rest: Body, n: nat)
    requires n <= |Lines(inner)| && PlacedInside(stack, [open], inner, n)
    ensures Enclosing(Block(open, inner, close, rest), n + 1).turns == []
    ensures PlacedOutside(stack, Block(open, inner, close, rest), n + 1)
  {
    var place := Enclosing(inner, n);
    BlockFront(stack, Mark(Opening, open), Lines(inner), [Mark(Closing, close)] + Lines(rest), n);
    assert stack + [[open] + place.turns] + place.inside == stack + ([[open] + place.turns] + place.inside);
  }

  lemma NoTurnsYet(base: Stack, group: seq<string>, body: Body, n: nat)
    requires n <= |Lines(body)| && Enclosing(body, n).turns == [] && PlacedOutside(base + [group], body, n)
    ensures PlacedInside(base, group, body, n)
  {
    assert group + [] == group;
  }

  lemma BehindPlain(base: Stack, group: seq<string>, line: string, rest: Body, n: nat)
    requires n <= |Lines(rest)| && PlacedInside(base, group, rest, n)
    ensures PlacedInside(base, group, Plain(line, rest), n + 1)
  {
    FirstOf(base + [group], Mark(Other, line), Lines(rest), n);
  }

  lemma BehindTurn(base: Stack, group: seq<string>, line: string, rest: Body, n: nat)
    requires n <= |Lines(rest)| && PlacedInside(base, group + [line], rest, n)
    ensures PlacedInside(base, group, Turn(line, rest), n + 1)
  {
    FirstOf(base + [group], Mark(Turning, line), Lines(rest), n);
    StepTurn(base, group, line);
    AppendTurn(base, group, line, Enclosing(rest, n).turns);
  }

  lemma InFront(base: Stack, group: seq<string>, body: Body)
    ensures PlacedInside(base, group, body, 0) && PlacedOutside(base, body, 0)
  {
    assert Lines(body)[..0] == [] && Enclosing(body, 0) == Place([], []);
    assert group + [] == group && base + [] == base;
    assert base + [group] + [] == base + [group];
  }

  lemma WithinInner(base: Stack, group: seq<string>, open: string, inner: Body, close: string, rest: Body, n: nat)
    requires n <= |Lines(inner)| && PlacedInside(base + [group], [open], inner, n)
    ensures PlacedInside(base, group, Block(open, inner, close, rest), n + 1)
  {
    WithinBlock(base + [group], open, inner, close, rest, n);
    NoTurnsYet(base, group, Block(open, inner, close, rest), n + 1);
  }

  lemma BehindInner(base: Stack, group: seq<string>, open: string, inner: Body, close: string, rest: Body, n: nat)
    requires n <= |Lines(rest)| && PlacedInside(base, group, rest, n)
    ensures PlacedInside(base, group, Block(open, inner, close, rest), n + 2 + |Lines(inner)|)
  {
    BehindBlock(base + [group], open, inner, close, rest, n);
    EnclosingBehind(open, inner, close, rest, n);
  }

  lemma EnclosingBehind(open: string, inner: Body, close: string, rest: Body, n: nat)
    ensures Enclosing(Block(open, inner, close, rest), n + 2 + |Lines(inner)|) == Enclosing(rest, n)
  {
  }

  /** The groups in force at each line inside a group are those of the blocks around it. */
  lemma {:induction false} PlaceInGroup(base: Stack, group: seq<string>, body: Body, n: nat)
    requires n <= |Lines(body)|
    ensures PlacedInside(base, group, body, n)
    decreases body, 1
  {
    if n == 0 {
      InFront(base, group, body);
    } else if body.Plain? {
      PlaceInGroup(base, group, body.rest, n - 1);
      BehindPlain(base, group, body.line, body.rest, n - 1);
    } else if body.Turn? {
      PlaceInGroup(base, group + [body.line], body.rest, n - 1);
      BehindTurn(base, group, body.line, body.rest, n - 1);
    } else {
      BlockSize(body);
      PlaceInBlock(base, group, body.open, body.inner, body.close, body.rest, n);
    }
  }

  lemma {:induction false} PlaceInBlock(base: Stack, group: seq<string>, open: string, inner: Body, close: string, rest: Body, n: nat)
    requires 0 < n <= 2 + |Lines(inner)| + |Lines(rest)|
    ensures n <= |Lines(Block(open, inner, close, rest))|
    ensures PlacedInside(base, group, Block(open, inner, close, rest), n)
    decreases Block(open, inner, close, rest), 0
  {
    BlockSize(Block(open, inner, close, rest));
    var k := 2 + |Lines(inner)|;
    if n < k {
      PlaceInGroup(base + [group], [open], inner, n - 1);
      WithinInner(base, group, open, inner, close, rest, n - 1);
    } else {
      PlaceInGroup(base, group, rest, n - k);
      BehindInner(base, group, open, inner, close, rest, n - k);
    }
  }

  lemma BlockSize(body: Body)
    requires body.Block?
    ensures |Lines(body)| == 2 + |Lines(body.inner)| + |Lines(body.rest)|
  {
  }

  /** No turn outside all blocks. */
  predicate Whole(body: Body) {
    match body
    case End => true
    case Plain(_, rest) => Whole(rest)
    case Turn(_, _) => false
    case Block(_, _, _, rest) => Whole(rest)
  }

  /** On a file whose blocks are balanced, every line is under exactly the blocks around it. */
  lemma {:induction false} PlaceInFile(stack: Stack, body: Body, n: nat)
    requires Whole(body) && n <= |Lines(body)|
    ensures PlacedOutside(stack, body, n)
    decreases body
  {
    if n == 0 {
      InFront(stack, [], body);
    } else if body.Plain? {
      PlaceInFile(stack, body.rest, n - 1);
      FirstOf(stack, Mark(Other, body.line), Lines(body.rest), n - 1);
    } else {
      var k := 2 + |Lines(body.inner)|;
      if n < k {
        PlaceInGroup(stack, [body.open], body.inner, n - 1);
        WithinBlock(stack, body.open, body.inner, body.close, body.rest, n - 1);
      } else {
        PlaceInFile(stack, body.rest, n - k);
        BehindBlock(stack, body.open, body.inner, body.close, body.rest, n - k);
      }
    }
  }

  /** What both programs report for a line of a balanced file: the blocks around it, outermost first,
      each with the branches up to that line. */
  lemma GuardsOfBalancedFile(lines: seq<string>, body: Body, n: nat)
    requires Marks(lines) == Lines(body) && Whole(body) && n <= |lines|
    ensures After(lines, n) == Enclosing(body, n).inside
    ensures After(lines, |lines|) == []
  {
    PlaceInFile([], body, n);
    PlaceInFile([], body, |lines|);
    assert [] + Enclosing(body, n).inside == Enclosing(body, n).inside;
    NothingAround(body);
  }

  lemma {:induction false} NothingAround(body: Body)
    requires Whole(body)
    ensures Enclosing(body, |Lines(body)|).inside == []
  {
    match body
    case End =>
    case Plain(_, rest) => NothingAround(rest);
    case Block(_, inner, _, rest) => NothingAround(rest);
  }

  // ----- line numbers: counted by line feeds, listed by splitlines

  /** A line boundary of str.splitlines. */
  predicate Break(c: char) {
    '\n' <= c <= '\r' || '\U{1C}' <= c <= '\U{1E}' || c == '\U{85}' || c == '\U{2028}' || c == '\U{2029}'
  }

  /** Does a line of splitlines end with character i? A carriage return waits for its line feed. */
  predicate EndsLine(s: string, i: nat)
    requires i < |s|
  {
    Break(s[i]) && !(s[i] == '\r' && i + 1 < |s| && s[i + 1] == '\n')
  }

  /** Index of the line of splitlines that character p stands on. */
  function LineIndex(s: string, p: nat): nat
    requires p <= |s|
  {
    if p == 0 then 0 else LineIndex(s, p - 1) + if EndsLine(s, p - 1) then 1 else 0
  }

  /** s.count("\n", 0, p) */
  function LineFeeds(s: string, p: nat): nat
    requires p <= |s|
  {
    if p == 0 then 0 else LineFeeds(s, p - 1) + if s[p - 1] == '\n' then 1 else 0
  }

  function BreakFrom(s: string, i: nat): (k: nat)
    requires i <= |s|
    ensures i <= k <= |s| && (k < |s| ==> Break(s[k])) && forall j :: i <= j < k ==> !Break(s[j])
    decreases |s| - i
  {
    if i == |s| || Break(s[i]) then i else BreakFrom(s, i + 1)
  }

  /** str.splitlines() */
  function SplitLines(s: string): seq<string>
    decreases |s|
  {
    if s == "" then []
    else
      var k := BreakFrom(s, 0);
      if k == |s| then [s] else [s[..k]] + SplitLines(s[if EndsLine(s, k) then k + 1 else k + 2..])
  }

  lemma {:induction false} NoLineEnded(s: string, p: nat)
    requires p <= |s| && forall j :: 0 <= j < p ==> !EndsLine(s, j)
    ensures LineIndex(s, p) == 0
  {
    if p > 0 {
      NoLineEnded(s, p - 1);
    }
  }

  lemma {:induction false} LineIndexBehind(s: string, n: nat, p: nat)
    requires n <= |s| && p <= |s| - n
    ensures LineIndex(s, n + p) == LineIndex(s, n) + LineIndex(s[n..], p)
  {
    if p > 0 {
      LineIndexBehind(s, n, p - 1);
      assert EndsLine(s[n..], p - 1) == EndsLine(s, n + p - 1);
    }
  }

  /** Where the line of character p begins. */
  function LineStart(s: string, p: nat): (a: nat)
    requires p <= |s|
    ensures a <= p
  {
    if p == 0 then 0 else if EndsLine(s, p - 1) then p else LineStart(s, p - 1)
  }

  lemma {:induction false} LineStartBehind(s: string, n: nat, p: nat)
    requires n <= |s| && p <= |s| - n && LineStart(s, n) == n
    ensures LineStart(s, n + p) == n + LineStart(s[n..], p)
  {
    if p > 0 {
      LineStartBehind(s, n, p - 1);
      assert EndsLine(s[n..], p - 1) == EndsLine(s, n + p - 1);
    }
  }

  lemma {:induction false} BreakBehind(s: string, n: nat, i: nat)
    requires n <= |s| && i <= |s| - n
    ensures BreakFrom(s, n + i) == n + BreakFrom(s[n..], i)
    decreases |s| - i
  {
    if i < |s| - n && !Break(s[n + i]) {
      BreakBehind(s, n, i + 1);
    }
  }

  /** The line listed under the index of p is the text around p, from the beginning of its line to the
      next line boundary. */
  ghost predicate Listed(s: string, p: nat, lines: seq<string>)
    requires p < |s|
  {
    var a := LineStart(s, p);
    LineIndex(s, p) < |lines| && p < BreakFrom(s, a) && lines[LineIndex(s, p)] == s[a..BreakFrom(s, a)]
  }

  /** LineIndex is right: the character stands on that line of the list, at its place. */
  lemma {:induction false} StandsOnLine(s: string, p: nat)
    requires p < |s| && !Break(s[p])
    ensures Listed(s, p, SplitLines(s))
    decreases |s|
  {
    var k := BreakFrom(s, 0);
    if p < k {
      OnFirstLine(s, p, k);
    } else {
      var n := if EndsLine(s, k) then k + 1 else k + 2;
      FirstLineEnds(s, k, n);
      StandsOnLine(s[n..], p - n);
      OnLaterLine(s, p, n, s[..k], SplitLines(s[n..]));
    }
  }

  lemma ListedPlace(s: string, p: nat, lines: seq<string>) returns (a: nat, b: nat, i: nat)
    requires p < |s| && Listed(s, p, lines)
    ensures a == LineStart(s, p) && b == BreakFrom(s, a) && i == LineIndex(s, p)
    ensures i < |lines| && a <= p < b <= |s| && lines[i] == s[a..b]
  {
    a, i := LineStart(s, p), LineIndex(s, p);
    b := BreakFrom(s, a);
  }

  lemma TailPlace(s: string, n: nat, q: nat, a: nat, b: nat, i: nat)
    requires n <= |s| && q < |s| - n && LineIndex(s, n) == 1 && LineStart(s, n) == n
    requires a == LineStart(s[n..], q) && b == BreakFrom(s[n..], a) && i == LineIndex(s[n..], q)
    ensures LineIndex(s, n + q) == i + 1 && LineStart(s, n + q) == n + a && BreakFrom(s, n + a) == n + b
    ensures s[n..][a..b] == s[n + a..n + b]
  {
    LineIndexBehind(s, n, q);
    LineStartBehind(s, n, q);
    BreakBehind(s, n, a);
    SliceBehind(s, n, a, b);
  }

  lemma OnLaterLine(s: string, p: nat, n: nat, first: string, others: seq<string>)
    requires n <= p < |s| && LineIndex(s, n) == 1 && LineStart(s, n) == n
    requires Listed(s[n..], p - n, others)
    ensures Listed(s, p, [first] + others)
  {
    var a, b, i := ListedPlace(s[n..], p - n, others);
    TailPlace(s, n, p - n, a, b, i);
    ListedBehind(s, p, n + a, n + b, i, first, others);
  }

  lemma ListedBehind(s: string, p: nat, a: nat, b: nat, i: nat, first: string, others: seq<string>)
    requires p < |s| && a == LineStart(s, p) && LineIndex(s, p) == i + 1 && BreakFrom(s, a) == b
    requires i < |others| && p < b && others[i] == s[a..b]
    ensures Listed(s, p, [first] + others)
  {
  }

  lemma SliceBehind(s: string, n: nat, a: nat, b: nat)
    requires n <= |s| && a <= b <= |s| - n
    ensures s[n..][a..b] == s[n + a..n + b]
  {
  }

  lemma FirstLineEnds(s: string, k: nat, n: nat)
    requires k == BreakFrom(s, 0) < |s| && n == if EndsLine(s, k) then k + 1 else k + 2
    ensures n <= |s| && LineIndex(s, n) == 1 && LineStart(s, n) == n
  {
    NoLineEnded(s, n - 1);
  }

  lemma {:induction false} NoLineStarted(s: string, p: nat)
    requires p <= |s| && forall j :: 0 <= j < p ==> !EndsLine(s, j)
    ensures LineStart(s, p) == 0
  {
    if p > 0 {
      NoLineStarted(s, p - 1);
    }
  }

  lemma OnFirstLine(s: string, p: nat, k: nat)
    requires p < k == BreakFrom(s, 0)
    ensures Listed(s, p, SplitLines(s))
  {
    NoLineEnded(s, p);
    NoLineStarted(s, p);
    assert s[..k] == s[0..k] && (k == |s| ==> s[..k] == s);
  }

  /** Counting line feeds never runs ahead of the list, and agrees with it exactly as long as every
      line so far ended in a line feed. */
  lemma {:induction false} LineFeedsCount(s: string, p: nat)
    requires p <= |s|
    ensures LineFeeds(s, p) <= LineIndex(s, p)
    ensures LineFeeds(s, p) == LineIndex(s, p) <==> forall i :: 0 <= i < p && EndsLine(s, i) ==> s[i] == '\n'
  {
    if p > 0 {
      LineFeedsCount(s, p - 1);
      if s[p - 1] == '\n' {
        assert EndsLine(s, p - 1);
      }
    }
  }

  /** The rescan for a declaration at p reports the groups open in front of the line counted by line
      feeds; guard_lines has recorded those open in front of the line the declaration is listed on. */
  method GuardsAt(text: string, p: nat) returns (recorded: map<nat, seq<string>>, rescanned: seq<string>)
    requires p < |text| && !Break(text[p])
    ensures var lines := SplitLines(text);
            LineFeeds(text, p) <= LineIndex(text, p) < |lines| && LineIndex(text, p) + 1 in recorded &&
            recorded[LineIndex(text, p) + 1] == Reported(After(lines, LineIndex(text, p))) &&
            rescanned == Reported(After(lines, LineFeeds(text, p)))
  {
    var lines := SplitLines(text);
    StandsOnLine(text, p);
    LineFeedsCount(text, p);
    recorded := GuardLines(lines);
    rescanned := RescanGuards(lines, LineFeeds(text, p) + 1);
  }

  // ----- when the two agree: the lines between the two numbers

  lemma AfterBetween(lines: seq<string>, a: nat, b: nat)
    requires a <= b <= |lines|
    ensures After(lines, b) == Run(After(lines, a), Marks(lines)[a..b])
  {
    assert Marks(lines)[..b] == Marks(lines)[..a] + Marks(lines)[a..b];
    RunAppend([], Marks(lines)[..a], Marks(lines)[a..b]);
  }

  lemma {:induction false} WholeBlocks(stack: Stack, body: Body)
    requires Whole(body)
    ensures Run(stack, Lines(body)) == stack
    decreases body
  {
    match body
    case End =>
    case Plain(line, rest) =>
      RunCons(stack, Mark(Other, line), Lines(rest));
      WholeBlocks(stack, rest);
    case Block(open, inner, close, rest) =>
      BlockLeavesNothing(stack, open, inner, close, Lines(rest));
      WholeBlocks(stack, rest);
  }

  /** Both numbers give the same guards where the lines between them are whole blocks and lines without
      a directive, in particular where they are one and the same number. */
  lemma WholeBlocksAgree(lines: seq<string>, a: nat, b: nat, body: Body)
    requires a <= b <= |lines| && Marks(lines)[a..b] == Lines(body) && Whole(body)
    ensures After(lines, b) == After(lines, a)
  {
    AfterBetween(lines, a, b);
    WholeBlocks(After(lines, a), body);
  }

  /** Lines of which none is a directive. */
  function Idle(lines: seq<string>): Body {
    if lines == [] then End else Plain(Strip(lines[0]), Idle(lines[1..]))
  }

  lemma {:induction false} IdleLines(lines: seq<string>)
    requires forall i :: 0 <= i < |lines| ==> KindOf(Strip(lines[i])) == Other
    ensures Marks(lines) == Lines(Idle(lines)) && Whole(Idle(lines))
  {
    if lines == [] {
    } else {
      IdleLines(lines[1..]);
      assert Marks(lines) == [MarkOf(lines[0])] + Marks(lines[1..]);
    }
  }

  lemma NoDirectiveAgrees(lines: seq<string>, a: nat, b: nat)
    requires a <= b <= |lines| && forall i :: a <= i < b ==> KindOf(Strip(lines[i])) == Other
    ensures After(lines, b) == After(lines, a)
  {
    IdleLines(lines[a..b]);
    assert Marks(lines[a..b]) == Marks(lines)[a..b];
    WholeBlocksAgree(lines, a, b, Idle(lines[a..b]));
  }

  /** The lines are the front of such a part of a file, and may end in the middle of its blocks. */
  ghost predicate BreaksOff(marks: seq<Mark>, body: Body, n: nat) {
    n <= |Lines(body)| && marks == Lines(body)[..n]
  }

  lemma JoinLonger(group: seq<string>, more: seq<string>)
    requires group != [] && more != []
    ensures |Join(" / ", group + more)| > |Join(" / ", group)|
  {
    if |group| == 1 {
      assert (group + more)[1..] == more;
    } else {
      assert (group + more)[1..] == group[1..] + more;
      JoinLonger(group[1..], more);
    }
  }

  /** Where the lines between begin in a group and break off in the middle of a block, or behind a turn of
      the group, the guards differ; otherwise they agree. */
  lemma BrokenOffDiffers(lines: seq<string>, a: nat, b: nat, base: Stack, group: seq<string>, body: Body, n: nat)
    requires a <= b <= |lines| && BreaksOff(Marks(lines)[a..b], body, n)
    requires group != [] && After(lines, a) == base + [group]
    ensures Reported(After(lines, b)) == Reported(After(lines, a)) <==> Enclosing(body, n) == Place([], [])
  {
    AfterBetween(lines, a, b);
    PlaceInGroup(base, group, body, n);
    var place := Enclosing(body, n);
    if place == Place([], []) {
      assert group + [] == group && base + [group] + [] == base + [group];
    } else if place.inside != [] {
      assert |Reported(After(lines, b))| != |Reported(After(lines, a))|;
    } else {
      assert After(lines, b) == base + [group + place.turns];
      JoinLonger(group, place.turns);
      assert Reported(After(lines, b))[|base|] == Join(" / ", group + place.turns);
      assert Reported(After(lines, a))[|base|] == Join(" / ", group);
    }
  }

  /** The same outside all groups. */
  lemma BrokenOffOutside(lines: seq<string>, a: nat, b: nat, body: Body, n: nat)
    requires a <= b <= |lines| && BreaksOff(Marks(lines)[a..b], body, n) && Whole(body) && After(lines, a) == []
    ensures Reported(After(lines, b)) == Reported(After(lines, a)) <==> Enclosing(body, n).inside == []
  {
    AfterBetween(lines, a, b);
    PlaceInFile([], body, n);
    assert [] + Enclosing(body, n).inside == Enclosing(body, n).inside;
  }

  // ----- an instance that does

  const FED := "\U{0C}#if A\nf();"

  lemma LineIndexStep(s: string, p: nat)
    requires p < |s|
    ensures LineIndex(s, p + 1) == LineIndex(s, p) + if EndsLine(s, p) then 1 else 0
    ensures LineFeeds(s, p + 1) == LineFeeds(s, p) + if s[p] == '\n' then 1 else 0
  {
  }

  lemma FedCounts()
    ensures LineFeeds(FED, 7) == 1 && LineIndex(FED, 7) == 2
  {
    var s := FED;
    assert s == ['\U{0C}', '#', 'i', 'f', ' ', 'A', '\n', 'f', '(', ')', ';'];
    LineIndexStep(s, 6);
    LineIndexStep(s, 5);
    LineIndexStep(s, 4);
    LineIndexStep(s, 3);
    LineIndexStep(s, 2);
    LineIndexStep(s, 1);
    LineIndexStep(s, 0);
  }

  lemma FedLines()
    ensures SplitLines(FED) == ["", "#if A", "f();"]
  {
    assert BreakFrom(FED, 0) == 0 && FED[1..] == "#if A\nf();";
    assert BreakFrom("#if A\nf();", 0) == 5;
    assert "#if A\nf();"[..5] == "#if A" && "#if A\nf();"[6..] == "f();";
    assert BreakFrom("f();", 0) == 4;
  }

  lemma FedDirective()
    ensures MarkOf("#if A") == Mark(Opening, "#if A") && MarkOf("").kind == Other
  {
    var line := "#if A";
    assert Strip(line) == line;
    assert RunEnd(line, 1, Space) == 1;
    assert line[1..3] == "if" && At(line, 1, "if") && Boundary(line, 3);
  }

  lemma FedStacks()
    ensures After(["", "#if A", "f();"], 1) == [] && After(["", "#if A", "f();"], 2) == [["#if A"]]
  {
    var lines := ["", "#if A", "f();"];
    FedDirective();
    AfterSnoc(lines, 0);
    AfterSnoc(lines, 1);
    assert After(lines, 0) == [];
    assert [] + [["#if A"]] == [["#if A"]];
  }

  /** A form feed in front of the directive: the program reports the declaration f(); without the guard
      that guard_lines records for its line. */
  lemma FormFeedMisleads()
    ensures SplitLines(FED) == ["", "#if A", "f();"] && LineIndex(FED, 7) == 2 && LineFeeds(FED, 7) == 1
    ensures Reported(After(SplitLines(FED), LineIndex(FED, 7))) == ["#if A"]
    ensures Reported(After(SplitLines(FED), LineFeeds(FED, 7))) == []
  {
    FedCounts();
    FedLines();
    FedStacks();
  }

  /** In a file whose blocks are balanced, both report the blocks around a line, each for its own number. */
  lemma BalancedGuards(text: string, p: nat, body: Body)
    requires p < |text| && !Break(text[p])
    requires Marks(SplitLines(text)) == Lines(body) && Whole(body)
    ensures LineFeeds(text, p) <= LineIndex(text, p) < |SplitLines(text)|
    ensures After(SplitLines(text), LineIndex(text, p)) == Enclosing(body, LineIndex(text, p)).inside
    ensures After(SplitLines(text), LineFeeds(text, p)) == Enclosing(body, LineFeeds(text, p)).inside
  {
    StandsOnLine(text, p);
    LineFeedsCount(text, p);
    GuardsOfBalancedFile(SplitLines(text), body, LineIndex(text, p));
    GuardsOfBalancedFile(SplitLines(text), body, LineFeeds(text, p));
  }
}
