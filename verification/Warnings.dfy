/** Warning identities: a warning is located by line and column, but its identity is the same however
    many blank lines and comments are put in front of the source. */
module Warnings {
  import opened Texts
  import opened AdaCode
  import opened AdaIndex

  // ----- locating a declaration

  /** Equal to _by_location's key; two declarations with one key are both ambiguous. */
  predicate SameKey(a: IndexEntry, b: IndexEntry) {
    a.column == b.column && a.name == b.name && a.scope == b.scope && a.signature == b.signature
  }

  function CountKey(found: seq<IndexEntry>, d: IndexEntry): nat {
    if found == [] then 0 else (if SameKey(found[0], d) then 1 else 0) + CountKey(found[1..], d)
  }

  /** name_at */
  function NameAt(line: string, column: nat): Option<string> {
    if BeginsComment(StripFront(line)) then None
    else if !(0 < column <= |line|) then None
    else if column > 1 && Alphanumeric(line[column - 2]) then None
    else if !(Letter(line[column - 1]) || line[column - 1] == '_') then None
    else Some(line[column - 1..RunEnd(line, column - 1, WordOrDot)])
  }

  /** line.lstrip() */
  function StripFront(line: string): string {
    if line != "" && Space(line[0]) then StripFront(line[1..]) else line
  }

  /** The declarations of that name and column whose lines include the given one. */
  function Hits(found: seq<IndexEntry>, line: int, column: nat, name: string): seq<IndexEntry> {
    if found == [] then []
    else
      var others := Hits(found[1..], line, column, name);
      var d := found[0];
      if d.column == column && d.name == name && d.start <= line <= d.end then [d] + others else others
  }

  /** What the search does about one line: look further, or stop with or without a declaration. */
  datatype Verdict = Further | Stop(found: Option<IndexEntry>)

  /** seen are the lines already passed. */
  function Judge(found: seq<IndexEntry>, column: nat, seen: seq<string>, source: string, line: int): Verdict {
    match NameAt(source, column)
    case Some(name) =>
      var hits := Hits(found, line, column, name);
      if |hits| != 1 || CountKey(found, hits[0]) > 1 then Stop(None)
      else if seen != [] && !CommentGap(seen) then Stop(None)
      else Stop(Some(hits[0]))
    case None => if BlankOrComment(source) then Further else Stop(None)
  }

  type Judging = (seq<string>, string, int) -> Verdict

  function JudgingOf(found: seq<IndexEntry>, column: nat): Judging {
    (seen, source, line) => Judge(found, column, seen, source, line)
  }

  /** The search from the line with index n on, with some lines left to try. */
  function LocateFrom(judge: Judging, seen: seq<string>, lines: seq<string>, n: nat, line: int, limit: nat): Option<IndexEntry>
    decreases limit
  {
    if n >= |lines| || limit == 0 then None
    else
      match judge(seen, lines[n], line)
      case Stop(found) => found
      case Further => LocateFrom(judge, seen + [lines[n]], lines, n + 1, line + 1, limit - 1)
  }

  /** _comment_gap */
  predicate CommentGap(lines: seq<string>) {
    forall i :: 0 <= i < |lines| ==> BlankOrComment(lines[i])
  }

  const TRIES := 81

  /** The lines as the search numbers them: line 0 is lines[-1], the last line once more. */
  function Numbered(lines: seq<string>, line: nat): seq<string> {
    if line > 0 || lines == [] then lines else [lines[|lines| - 1]] + lines
  }

  function First(line: nat): nat {
    if line > 0 then line - 1 else 0
  }

  function Search(judge: Judging, lines: seq<string>, line: nat): Option<IndexEntry> {
    LocateFrom(judge, [], Numbered(lines, line), First(line), line, TRIES)
  }

  function Locate(lines: seq<string>, found: seq<IndexEntry>, line: nat, column: nat): Option<IndexEntry> {
    Search(JudgingOf(found, column), lines, line)
  }

  /** locate_declaration */
  method LocateDeclaration(lines: seq<string>, found: seq<IndexEntry>, line: nat, column: nat)
    returns (declaration: Option<IndexEntry>)
    ensures declaration == Locate(lines, found, line, column)
  {
    declaration := SearchDown(JudgingOf(found, column), lines, line);
  }

  /** Its loop, for any way to judge a line; without lines the index -1 is an error. */
  method SearchDown(judge: Judging, lines: seq<string>, line: nat) returns (declaration: Option<IndexEntry>)
    ensures declaration == Search(judge, lines, line)
  {
    var delta: nat, passed := 0, [];
    ghost var limit: nat := TRIES;
    ghost var all, n := Numbered(lines, line), First(line);
    while line + delta <= |lines| && delta < TRIES
      invariant delta + limit == TRIES && n == First(line) + delta
      invariant LocateFrom(judge, passed, all, n, line + delta, limit) == Search(judge, lines, line)
    {
      if lines == [] {
        return None;
      }
      var index := line + delta - 1;
      var source := lines[if index < 0 then |lines| + index else index];
      assert source == all[n];
      var verdict := judge(passed, source, line + delta);
      if verdict.Stop? {
        return verdict.found;
      }
      passed, delta := passed + [source], delta + 1;
      limit, n := limit - 1, n + 1;
    }
    declaration := None;
  }

  /** What was passed does not matter once it is blank lines and comments, and nothing else is passed. */
  ghost predicate Uncrossed(judge: Judging) {
    forall seen, source, line {:trigger judge(seen, source, line)} ::
      CommentGap(seen) ==>
        judge(seen, source, line) == judge([], source, line) && (judge(seen, source, line).Further? ==> BlankOrComment(source))
  }

  lemma NothingCrossed(found: seq<IndexEntry>, column: nat)
    ensures Uncrossed(JudgingOf(found, column))
  {
  }

  /** The complaint about crossed code never comes up: only blank lines and comments are passed, so
      what was passed never matters. */
  lemma {:induction false} GapIsClear(judge: Judging, seen: seq<string>, lines: seq<string>, n: nat, line: int, limit: nat)
    requires CommentGap(seen) && Uncrossed(judge)
    ensures LocateFrom(judge, seen, lines, n, line, limit) == LocateFrom(judge, [], lines, n, line, limit)
    decreases limit
  {
    if n >= |lines| || limit == 0 {
    } else {
      assert judge(seen, lines[n], line) == judge([], lines[n], line);
      if judge(seen, lines[n], line).Further? {
        GapIsClear(judge, seen + [lines[n]], lines, n + 1, line + 1, limit - 1);
        GapIsClear(judge, [] + [lines[n]], lines, n + 1, line + 1, limit - 1);
      }
    }
  }

  // ----- identities

  /** What a warning is about besides its location: a component, a literal, a generic formal. */
  datatype Subject = NoSubject | Component(name: string) | Literal(name: string) | Formal(name: string)

  datatype Warning = Warning(file: string, line: nat, column: nat, message: string, subject: Subject)

  /** Scope and signature of a declaration: all an identity keeps of it. */
  type Key = (string, string)

  function KeyOf(d: IndexEntry): Key {
    (d.scope, d.signature)
  }

  predicate Matches(d: IndexEntry, owner: IndexEntry, subject: Subject)
    requires !subject.NoSubject?
  {
    d.name == subject.name && (if subject.Formal? then 1 else owner.start) <= d.start <= owner.end &&
    (subject.Component? ==> Contains(d.scope, owner.name))
  }

  function MatchKeys(found: seq<IndexEntry>, owner: IndexEntry, subject: Subject): set<Key>
    requires !subject.NoSubject?
  {
    set d | d in found && Matches(d, owner, subject) :: KeyOf(d)
  }

  /** The index, the judgement of lines, and the test for a discriminant of that name, as identities use them. */
  datatype Tools = Tools(
    index: seq<string> -> Option<seq<IndexEntry>>,
    judging: (seq<IndexEntry>, nat) -> Judging,
    inDiscriminants: (string, string) -> bool)

  function ToolsOf(rules: Rules): Tools {
    Tools(lines => Index(rules, lines), (found, column: nat) => JudgingOf(found, column), rules.inDiscriminants)
  }

  /** _subject_declaration */
  ghost function SubjectKey(tools: Tools, found: seq<IndexEntry>, owner: IndexEntry, subject: Subject): Option<Key>
    requires !subject.NoSubject?
  {
    if subject.Component? && tools.inDiscriminants(owner.signature, subject.name)
    then Some((owner.scope + "." + subject.name, owner.signature))
    else
      var keys := MatchKeys(found, owner, subject);
      if |keys| == 1 then (var key :| key in keys; Some(key)) else None
  }

  ghost function WarningKey(tools: Tools, found: seq<IndexEntry>, owner: Option<IndexEntry>, subject: Subject): Option<Key> {
    if owner.None? then None
    else if subject.NoSubject? then Some(KeyOf(owner.value))
    else SubjectKey(tools, found, owner.value, subject)
  }

  function Identity(file: string, key: Key, message: string): string {
    file + ": " + key.0 + ": " + key.1 + ": warning: " + message
  }

  ghost function IdentityIn(tools: Tools, lines: seq<string>, w: Warning): Option<string> {
    match tools.index(lines)
    case None => None
    case Some(found) =>
      var key := WarningKey(tools, found, Search(tools.judging(found, w.column), lines, w.line), w.subject);
      if key.Some? then Some(Identity(w.file, key.value, w.message)) else None
  }

  ghost function IdentityOf(tools: Tools, sources: map<string, seq<string>>, w: Warning): Option<string> {
    if w.file in sources then IdentityIn(tools, sources[w.file], w) else None
  }

  /** identities_from_log on the parsed log; None if any warning cannot be identified. */
  ghost function Identities(tools: Tools, sources: map<string, seq<string>>, log: seq<Warning>): Option<seq<string>> {
    if log == [] then Some([])
    else
      var first, others := IdentityOf(tools, sources, log[0]), Identities(tools, sources, log[1..]);
      if first.None? || others.None? then None else Some([first.value] + others.value)
  }

  /** compare_identities: what is new and what is gone, each with its multiplicity. */
  function Added(baseline: seq<string>, current: seq<string>): multiset<string> {
    multiset(current) - multiset(baseline)
  }

  function Removed(baseline: seq<string>, current: seq<string>): multiset<string> {
    multiset(baseline) - multiset(current)
  }

  // ----- the same declarations further down

  function Shift(d: IndexEntry, k: nat): IndexEntry {
    d.(start := d.start + k, end := d.end + k)
  }

  function ShiftAll(found: seq<IndexEntry>, k: nat): (r: seq<IndexEntry>)
    ensures |r| == |found|
  {
    seq(|found|, i requires 0 <= i < |found| => Shift(found[i], k))
  }

  function ShiftFound(found: Option<seq<IndexEntry>>, k: nat): Option<seq<IndexEntry>> {
    if found.Some? then Some(ShiftAll(found.value, k)) else None
  }

  function MoveNumbers(numbers: seq<nat>, k: nat): (r: seq<nat>)
    ensures |r| == |numbers|
  {
    seq(|numbers|, i requires 0 <= i < |numbers| => numbers[i] + k)
  }

  function Moved(s: State, k: nat): State {
    State(s.stack, MoveNumbers(s.pending, k), ShiftAll(s.found, k))
  }

  function MovedTurn(turn: Option<Turn>, k: nat): Option<Turn> {
    if turn.Some? then Some(Turn(Moved(turn.value.state, k), turn.value.next + k)) else None
  }

  lemma ShiftJoin(a: seq<IndexEntry>, b: seq<IndexEntry>, k: nat)
    ensures ShiftAll(a + b, k) == ShiftAll(a, k) + ShiftAll(b, k)
  {
  }

  lemma ShiftSnoc(a: seq<IndexEntry>, d: IndexEntry, k: nat)
    ensures ShiftAll(a + [d], k) == ShiftAll(a, k) + [Shift(d, k)]
  {
  }

  lemma ShiftCons(d: IndexEntry, a: seq<IndexEntry>, k: nat)
    ensures ShiftAll([d] + a, k) == [Shift(d, k)] + ShiftAll(a, k)
  {
  }

  lemma FormalThenMoved(draft: Draft, number: nat, others: Option<seq<IndexEntry>>, k: nat)
    ensures FormalThen(draft, number + k, ShiftFound(others, k)) == ShiftFound(FormalThen(draft, number, others), k)
  {
    if others.Some? {
      ShiftCons(Place(draft, number), others.value, k);
    }
  }

  lemma {:induction false} FormalsMoved(look: Formalizing, rest: seq<string>, number: nat, count: int, k: nat)
    ensures Formals(look, rest, number + k, count) == ShiftFound(Formals(look, rest, number, count), k)
    decreases |rest|
  {
    if rest == [] || count <= 0 {
    } else {
      match look(rest)
      case Unread =>
      case NoFormal => FormalsMoved(look, rest[1..], number + 1, count - 1, k);
      case Formal(draft) =>
        var n := draft.last + 1;
        FormalsMoved(look, Drop(rest, n), number + n, count - n, k);
        FormalThenMoved(draft, number, Formals(look, Drop(rest, n), number + n, count - n), k);
    }
  }

  lemma {:induction false} LiteralsMoved(rest: seq<string>, length: nat, number: nat, names: seq<string>, scope: string,
                                         signature: string, k: nat)
    ensures LiteralDeclarations(rest, length, number + k, names, scope, signature) ==
            ShiftAll(LiteralDeclarations(rest, length, number, names, scope, signature), k)
  {
    if names == [] {
    } else {
      LiteralsMoved(rest, length, number, names[1..], scope, signature, k);
      match FindLine(if length <= |rest| then rest[..length] else rest, names[0])
      case None =>
      case Some((n, c)) =>
        ShiftCons(IndexEntry(number + n + 1, number + n + 1, c + 1, names[0], scope + "." + names[0], signature),
                  LiteralDeclarations(rest, length, number, names[1..], scope, signature), k);
    }
  }

  lemma DropBehind(pre: seq<string>, lines: seq<string>, n: nat)
    ensures Drop(pre + lines, n + |pre|) == Drop(lines, n)
  {
    if n <= |lines| {
      assert (pre + lines)[n + |pre|..] == lines[n..];
    }
  }

  function MovedNumber(n: Option<nat>, k: nat): Option<nat> {
    if n.Some? then Some(n.value + k) else None
  }

  lemma FirstMoved(pending: seq<nat>, k: nat)
    ensures FirstFormal(MoveNumbers(pending, k)) == MovedNumber(FirstFormal(pending), k)
  {
  }

  lemma FormalsBehind(look: Formalizing, pre: seq<string>, lines: seq<string>, first: Option<nat>, number: nat)
    ensures FormalsFrom(look, pre + lines, MovedNumber(first, |pre|), number + |pre|) ==
            ShiftFound(FormalsFrom(look, lines, first, number), |pre|)
  {
    if first.Some? {
      DropBehind(pre, lines, first.value);
      FormalsMoved(look, Drop(lines, first.value), first.value, number - first.value, |pre|);
    }
  }

  lemma EnterPackageMoved(draft: Draft, instance: bool, formals: Option<seq<IndexEntry>>, number: nat, s: State, k: nat)
    ensures EnterPackage(draft, instance, ShiftFound(formals, k), number + k, Moved(s, k)) ==
            MovedTurn(EnterPackage(draft, instance, formals, number, s), k)
  {
    if formals.Some? {
      ShiftJoin(s.found, formals.value, k);
      ShiftSnoc(s.found + formals.value, Place(draft, number), k);
      if s.pending != [] {
        assert MoveNumbers(s.pending, k)[1..] == MoveNumbers(s.pending[1..], k);
      }
    }
  }

  lemma EnterMoved(lines: Option<nat>, number: nat, s: State, name: string, signature: string, next: nat, k: nat)
    ensures EnterRecord(lines, number + k, Moved(s, k), name, signature, next + k) ==
            MovedTurn(EnterRecord(lines, number, s, name, signature, next), k)
  {
    if lines.Some? {
      var end := number + 2 + lines.value + 1;
      assert UpdateLast(ShiftAll(s.found, k), signature, end + k) == ShiftAll(UpdateLast(s.found, signature, end), k);
    }
  }

  lemma RecordMoved(head: RecordHead, lines: Option<nat>, number: nat, s: State, name: string, last: nat, k: nat)
    ensures RecordTurn(head, lines, number + k, Moved(s, k), name, last) == MovedTurn(RecordTurn(head, lines, number, s, name, last), k)
  {
    match head
    case Inside(signature) => EnterMoved(lines, number, s, name, signature, number + 1, k);
    case Below(signature) => EnterMoved(lines, number, s, name, signature, number + 2, k);
    case _ =>
  }

  lemma FoundMoved(s: State, d: IndexEntry, literals: seq<IndexEntry>, k: nat)
    ensures Moved(s.(found := s.found + [d] + literals), k) ==
            Moved(s, k).(found := ShiftAll(s.found, k) + [Shift(d, k)] + ShiftAll(literals, k))
  {
    ShiftSnoc(s.found, d, k);
    ShiftJoin(s.found + [d], literals, k);
  }

  lemma TypesMoved(draft: Draft, literals: seq<IndexEntry>, head: RecordHead, length: Option<nat>, number: nat, s: State, k: nat)
    ensures var moved := ShiftAll(s.found, k) + [Place(draft, number + k)] + ShiftAll(literals, k);
            RecordTurn(head, length, number + k, Moved(s, k).(found := moved), draft.name, draft.last) ==
            MovedTurn(RecordTurn(head, length, number, s.(found := s.found + [Place(draft, number)] + literals), draft.name,
                                 draft.last), k)
  {
    FoundMoved(s, Place(draft, number), literals, k);
    RecordMoved(head, length, number, s.(found := s.found + [Place(draft, number)] + literals), draft.name, draft.last, k);
  }

  lemma ActMoved(sight: Sight, look: Formalizing, pre: seq<string>, lines: seq<string>, number: nat, s: State)
    ensures Act(sight, look, pre + lines, number + |pre|, Moved(s, |pre|)) == MovedTurn(Act(sight, look, lines, number, s), |pre|)
  {
    var k := |pre|;
    DropBehind(pre, lines, number);
    match sight
    case Generic =>
      assert MoveNumbers(s.pending + [number], k) == MoveNumbers(s.pending, k) + [number + k];
    case Declares(draft) =>
      ShiftSnoc(s.found, Place(draft, number), k);
    case Packages(draft, instance) =>
      var first := FirstFormal(s.pending);
      FirstMoved(s.pending, k);
      FormalsBehind(look, pre, lines, first, number);
      EnterPackageMoved(draft, instance, FormalsFrom(look, lines, first, number), number, s, k);
    case Types(draft, names, head, length) =>
      var literals := LiteralDeclarations(Drop(lines, number), draft.last + 1, number, names, draft.scope, draft.signature);
      LiteralsMoved(Drop(lines, number), draft.last + 1, number, names, draft.scope, draft.signature, k);
      TypesMoved(draft, literals, head, length, number, s, k);
    case _ =>
  }

  lemma StepMoved(see: Seeing, look: Formalizing, pre: seq<string>, lines: seq<string>, number: nat, s: State)
    ensures StepAt(see, look, pre + lines, number + |pre|, Moved(s, |pre|)) == MovedTurn(StepAt(see, look, lines, number, s), |pre|)
  {
    DropBehind(pre, lines, number);
    ActMoved(see(Drop(lines, number), s.stack, s.pending != []), look, pre, lines, number, s);
  }

  lemma IndexTurn(see: Seeing, look: Formalizing, lines: seq<string>, number: nat, s: State, turn: Option<Turn>)
    requires number < |lines| && turn == StepAt(see, look, lines, number, s)
    ensures IndexRest(see, look, lines, number, s) ==
            if turn.None? then None else IndexRest(see, look, lines, turn.value.next, turn.value.state)
  {
  }

  lemma {:induction false} IndexMoved(see: Seeing, look: Formalizing, pre: seq<string>, lines: seq<string>, number: nat, s: State)
    ensures IndexRest(see, look, pre + lines, number + |pre|, Moved(s, |pre|)) ==
            ShiftFound(IndexRest(see, look, lines, number, s), |pre|)
    decreases |lines| - number
  {
    if number >= |lines| {
    } else {
      StepMoved(see, look, pre, lines, number, s);
      var turn := StepAt(see, look, lines, number, s);
      if turn.Some? {
        IndexMoved(see, look, pre, lines, turn.value.next, turn.value.state);
      }
    }
  }

  /** What blank lines and comments show of themselves. */
  ghost predicate PassesBlanks(see: Seeing) {
    forall rest, pending :: rest != [] && BlankOrComment(rest[0]) ==> see(rest, [], pending) == Closes(EndsNothing)
  }

  lemma {:induction false} WordsOfSpace(s: string)
    requires AllSpace(s)
    ensures Squash(s) == "" && Strip(s) == ""
    decreases |s|
  {
    if s != "" {
      WordsOfSpace(s[1..]);
    }
  }

  lemma SaneSees(rules: Rules)
    requires Sane(rules)
    ensures PassesBlanks(SeeingOf(rules))
  {
    forall rest: seq<string>, pending | rest != [] && BlankOrComment(rest[0])
      ensures Look(rules, rest, [], pending) == Closes(EndsNothing)
    {
      BlankHasNoCode(rest[0]);
      WordsOfSpace(Code(rest[0]).value);
    }
  }

  lemma BlankStep(see: Seeing, look: Formalizing, pre: seq<string>, lines: seq<string>, n: nat)
    requires PassesBlanks(see) && CommentGap(pre) && n < |pre|
    ensures StepAt(see, look, pre + lines, n, EMPTY) == Some(Turn(EMPTY, n + 1))
  {
    var rest := Drop(pre + lines, n);
    assert rest[0] == pre[n];
    var sight := see(rest, EMPTY.stack, EMPTY.pending != []);
    assert sight == Closes(EndsNothing);
  }

  lemma {:induction false} BlanksSkipped(see: Seeing, look: Formalizing, pre: seq<string>, lines: seq<string>, n: nat)
    requires PassesBlanks(see) && CommentGap(pre) && n <= |pre|
    ensures IndexRest(see, look, pre + lines, n, EMPTY) == IndexRest(see, look, pre + lines, |pre|, EMPTY)
    decreases |pre| - n
  {
    if n < |pre| {
      BlankStep(see, look, pre, lines, n);
      IndexTurn(see, look, pre + lines, n, EMPTY, Some(Turn(EMPTY, n + 1)));
      BlanksSkipped(see, look, pre, lines, n + 1);
    }
  }

  lemma SeenShifted(see: Seeing, look: Formalizing, pre: seq<string>, lines: seq<string>)
    requires PassesBlanks(see) && CommentGap(pre)
    ensures IndexRest(see, look, pre + lines, 0, EMPTY) == ShiftFound(IndexRest(see, look, lines, 0, EMPTY), |pre|)
  {
    BlanksSkipped(see, look, pre, lines, 0);
    assert Moved(EMPTY, |pre|) == EMPTY;
    IndexMoved(see, look, pre, lines, 0, EMPTY);
  }

  /** Blank lines and comments in front shift every start and end, and keep all else. */
  lemma IndexShifted(rules: Rules, pre: seq<string>, lines: seq<string>)
    requires Sane(rules) && CommentGap(pre)
    ensures Index(rules, pre + lines) == ShiftFound(Index(rules, lines), |pre|)
  {
    SaneSees(rules);
    SeenShifted(SeeingOf(rules), FormalizingOf(rules), pre, lines);
  }

  // ----- the same identities

  function ShiftOne(d: Option<IndexEntry>, k: nat): Option<IndexEntry> {
    if d.Some? then Some(Shift(d.value, k)) else None
  }

  lemma ShiftTail(found: seq<IndexEntry>, k: nat)
    requires found != []
    ensures ShiftAll(found, k)[0] == Shift(found[0], k) && ShiftAll(found, k)[1..] == ShiftAll(found[1..], k)
  {
  }

  lemma {:induction false} HitsShifted(found: seq<IndexEntry>, line: int, column: nat, name: string, k: nat)
    ensures Hits(ShiftAll(found, k), line + k, column, name) == ShiftAll(Hits(found, line, column, name), k)
  {
    if found == [] {
    } else {
      ShiftTail(found, k);
      HitsShifted(found[1..], line, column, name, k);
      ShiftCons(found[0], Hits(found[1..], line, column, name), k);
    }
  }

  lemma {:induction false} CountShifted(found: seq<IndexEntry>, d: IndexEntry, k: nat)
    ensures CountKey(ShiftAll(found, k), Shift(d, k)) == CountKey(found, d)
  {
    if found == [] {
    } else {
      ShiftTail(found, k);
      CountShifted(found[1..], d, k);
    }
  }

  function ShiftVerdict(verdict: Verdict, k: nat): Verdict {
    match verdict
    case Further => Further
    case Stop(found) => Stop(ShiftOne(found, k))
  }

  /** The second way to judge gives further down what the first gives. */
  ghost predicate JudgesAlike(judge: Judging, judge': Judging, k: nat) {
    forall seen, source, line {:trigger judge(seen, source, line)} ::
      judge'(seen, source, line + k) == ShiftVerdict(judge(seen, source, line), k)
  }

  lemma JudgeShifted(found: seq<IndexEntry>, column: nat, seen: seq<string>, source: string, line: int, k: nat)
    ensures Judge(ShiftAll(found, k), column, seen, source, line + k) == ShiftVerdict(Judge(found, column, seen, source, line), k)
  {
    var name := NameAt(source, column);
    if name.Some? {
      HitsShifted(found, line, column, name.value, k);
      var hits := Hits(found, line, column, name.value);
      if |hits| == 1 {
        CountShifted(found, hits[0], k);
      }
    }
  }

  lemma JudgingShifted(found: seq<IndexEntry>, column: nat, k: nat)
    ensures JudgesAlike(JudgingOf(found, column), JudgingOf(ShiftAll(found, k), column), k)
  {
    forall seen, source, line
      ensures Judge(ShiftAll(found, k), column, seen, source, line + k) == ShiftVerdict(Judge(found, column, seen, source, line), k)
    {
      JudgeShifted(found, column, seen, source, line, k);
    }
  }

  lemma {:induction false} LocateShifted(judge: Judging, judge': Judging, seen: seq<string>, pre: seq<string>,
                                         lines: seq<string>, n: nat, line: int, limit: nat)
    requires JudgesAlike(judge, judge', |pre|)
    ensures LocateFrom(judge', seen, pre + lines, n + |pre|, line + |pre|, limit) ==
            ShiftOne(LocateFrom(judge, seen, lines, n, line, limit), |pre|)
    decreases limit
  {
    if n >= |lines| || limit == 0 {
    } else {
      assert (pre + lines)[n + |pre|] == lines[n];
      assert judge'(seen, lines[n], line + |pre|) == ShiftVerdict(judge(seen, lines[n], line), |pre|);
      LocateShifted(judge, judge', seen + [lines[n]], pre, lines, n + 1, line + 1, limit - 1);
    }
  }

  lemma KeysShifted(found: seq<IndexEntry>, owner: IndexEntry, subject: Subject, k: nat)
    requires !subject.NoSubject?
    ensures MatchKeys(ShiftAll(found, k), Shift(owner, k), subject) == MatchKeys(found, owner, subject)
  {
    var a, b := MatchKeys(found, owner, subject), MatchKeys(ShiftAll(found, k), Shift(owner, k), subject);
    forall key | key in a
      ensures key in b
    {
      var d :| d in found && Matches(d, owner, subject) && KeyOf(d) == key;
      var i :| 0 <= i < |found| && found[i] == d;
      assert ShiftAll(found, k)[i] == Shift(d, k) && Matches(Shift(d, k), Shift(owner, k), subject);
    }
    forall key | key in b
      ensures key in a
    {
      var d :| d in ShiftAll(found, k) && Matches(d, Shift(owner, k), subject) && KeyOf(d) == key;
      var i :| 0 <= i < |found| && ShiftAll(found, k)[i] == d;
      assert found[i] in found && Matches(found[i], owner, subject);
    }
  }

  lemma SubjectShifted(tools: Tools, found: seq<IndexEntry>, owner: IndexEntry, subject: Subject, k: nat)
    requires !subject.NoSubject?
    ensures SubjectKey(tools, ShiftAll(found, k), Shift(owner, k), subject) == SubjectKey(tools, found, owner, subject)
  {
    KeysShifted(found, owner, subject, k);
    OnlyKey(MatchKeys(found, owner, subject));
  }

  lemma OnlyKey(keys: set<Key>)
    ensures |keys| == 1 ==> exists key :: keys == {key}
  {
    if |keys| == 1 {
      var key :| key in keys;
      assert |keys - {key}| == 0;
      assert keys == {key};
    }
  }

  /** The sources with blank lines and comments put in front of one file. */
  function Prepended(sources: map<string, seq<string>>, file: string, pre: seq<string>): map<string, seq<string>>
    requires file in sources
  {
    sources[file := pre + sources[file]]
  }

  function ShiftWarning(w: Warning, file: string, k: nat): Warning {
    if w.file == file then w.(line := w.line + k) else w
  }

  function ShiftLog(log: seq<Warning>, file: string, k: nat): seq<Warning> {
    if log == [] then [] else [ShiftWarning(log[0], file, k)] + ShiftLog(log[1..], file, k)
  }

  lemma SearchFromOne(judge: Judging, lines: seq<string>, line: nat, tries: nat)
    requires line >= 1
    ensures LocateFrom(judge, [], Numbered(lines, line), First(line), line, tries) == LocateFrom(judge, [], lines, line - 1, line, tries)
  {
  }

  lemma SearchShifted(judge: Judging, judge': Judging, pre: seq<string>, lines: seq<string>, line: nat)
    requires JudgesAlike(judge, judge', |pre|) && line >= 1
    ensures Search(judge', pre + lines, line + |pre|) == ShiftOne(Search(judge, lines, line), |pre|)
  {
    SearchFromOne(judge, lines, line, TRIES);
    SearchFromOne(judge', pre + lines, line + |pre|, TRIES);
    LocateShifted(judge, judge', [], pre, lines, line - 1, line, TRIES);
  }

  /** Tools whose index and search follow the lines down. */
  ghost predicate ToolsFollow(tools: Tools, pre: seq<string>) {
    forall lines :: Follows(tools, pre, lines)
  }

  ghost predicate Follows(tools: Tools, pre: seq<string>, lines: seq<string>) {
    tools.index(pre + lines) == ShiftFound(tools.index(lines), |pre|) && forall found, column: nat :: Judged(tools, found, column, |pre|)
  }

  ghost predicate Judged(tools: Tools, found: seq<IndexEntry>, column: nat, k: nat) {
    JudgesAlike(tools.judging(found, column), tools.judging(ShiftAll(found, k), column), k)
  }

  lemma ToolsOfFollow(rules: Rules, pre: seq<string>)
    requires Sane(rules) && CommentGap(pre)
    ensures ToolsFollow(ToolsOf(rules), pre)
  {
    forall lines
      ensures Follows(ToolsOf(rules), pre, lines)
    {
      LinesFollow(rules, pre, lines);
    }
  }

  lemma LinesFollow(rules: Rules, pre: seq<string>, lines: seq<string>)
    requires Sane(rules) && CommentGap(pre)
    ensures Follows(ToolsOf(rules), pre, lines)
  {
    IndexShifted(rules, pre, lines);
    forall found, column: nat
      ensures Judged(ToolsOf(rules), found, column, |pre|)
    {
      JudgingShifted(found, column, |pre|);
    }
  }

  lemma WarningKeyShifted(tools: Tools, found: seq<IndexEntry>, owner: Option<IndexEntry>, subject: Subject, k: nat)
    ensures WarningKey(tools, ShiftAll(found, k), ShiftOne(owner, k), subject) == WarningKey(tools, found, owner, subject)
  {
    if owner.Some? && !subject.NoSubject? {
      SubjectShifted(tools, found, owner.value, subject, k);
    }
  }

  lemma IdentityBelow(tools: Tools, pre: seq<string>, lines: seq<string>, w: Warning)
    requires Follows(tools, pre, lines) && w.line >= 1
    ensures IdentityIn(tools, pre + lines, w.(line := w.line + |pre|)) == IdentityIn(tools, lines, w)
  {
    var index := tools.index(lines);
    if index.Some? {
      var judge, judge' := tools.judging(index.value, w.column), tools.judging(ShiftAll(index.value, |pre|), w.column);
      assert Judged(tools, index.value, w.column, |pre|);
      SearchShifted(judge, judge', pre, lines, w.line);
      WarningKeyShifted(tools, index.value, Search(judge, lines, w.line), w.subject, |pre|);
    }
  }

  // ----- line 0

  lemma {:induction false} NoNameInBlank(line: string, column: nat)
    requires BlankOrComment(line)
    ensures NameAt(line, column).None?
  {
    if Strip(line) == "" {
      AllStripped(line);
    } else {
      FrontOfComment(line);
    }
  }

  lemma {:induction false} AllStripped(line: string)
    requires Strip(line) == ""
    ensures AllSpace(line)
    decreases |line|
  {
    if line == "" {
    } else if Space(line[0]) {
      AllStripped(line[1..]);
    } else {
      StripBeginsSame(line);
    }
  }

  lemma {:induction false} FrontOfComment(line: string)
    requires BeginsComment(Strip(line))
    ensures BeginsComment(StripFront(line))
  {
    if line == "" {
    } else if Space(line[0]) {
      FrontOfComment(line[1..]);
    } else {
      StripBeginsSame(line);
    }
  }

  lemma BlankPassed(found: seq<IndexEntry>, column: nat, seen: seq<string>, source: string, line: int)
    requires BlankOrComment(source)
    ensures JudgingOf(found, column)(seen, source, line).Further?
  {
    NoNameInBlank(source, column);
  }

  lemma {:induction false} NoHitAtZero(found: seq<IndexEntry>, column: nat, name: string)
    ensures Hits(found, 0, column, name) == []
  {
    if found != [] {
      NoHitAtZero(found[1..], column, name);
    }
  }

  /** The search from line 1 with one try used up: what a warning for line 0 comes to after blanks. */
  function FromTop(judge: Judging, lines: seq<string>, tries: nat): Option<IndexEntry> {
    LocateFrom(judge, [], lines, 0, 1, tries)
  }

  /** A judgement as locate_declaration makes it: crossing is checked, blank lines are passed, and no
      declaration begins at line 0. */
  ghost predicate Regular(judge: Judging) {
    Uncrossed(judge) &&
    (forall seen, source, line :: BlankOrComment(source) ==> judge(seen, source, line).Further?) &&
    (forall seen, source :: !BlankOrComment(source) ==> judge(seen, source, 0) == Stop(None))
  }

  lemma JudgingRegular(found: seq<IndexEntry>, column: nat)
    ensures Regular(JudgingOf(found, column))
  {
    NothingCrossed(found, column);
    forall seen, source, line | BlankOrComment(source)
      ensures Judge(found, column, seen, source, line).Further?
    {
      BlankPassed(found, column, seen, source, line);
    }
    forall seen, source | !BlankOrComment(source)
      ensures Judge(found, column, seen, source, 0) == Stop(None)
    {
      if NameAt(source, column).Some? {
        NoHitAtZero(found, column, NameAt(source, column).value);
      }
    }
  }

  lemma SearchZero(judge: Judging, lines: seq<string>, tries: nat)
    requires lines != [] && Regular(judge)
    ensures LocateFrom(judge, [], [lines[|lines| - 1]] + lines, 0, 0, tries + 1) ==
            if BlankOrComment(lines[|lines| - 1]) then FromTop(judge, lines, tries) else None
  {
    var last := lines[|lines| - 1];
    var verdict := judge([], last, 0);
    if BlankOrComment(last) {
      LinePassed(judge, [last] + lines, 0, 0, tries + 1);
      SkipFrom(judge, [], [last], lines, 0, 1, tries);
    }
  }

  lemma LinePassed(judge: Judging, lines: seq<string>, n: nat, line: int, limit: nat)
    requires Regular(judge) && n < |lines| && limit > 0 && BlankOrComment(lines[n])
    ensures LocateFrom(judge, [], lines, n, line, limit) == LocateFrom(judge, [], lines, n + 1, line + 1, limit - 1)
  {
    var seen := [] + [lines[n]];
    assert judge([], lines[n], line).Further?;
    GapIsClear(judge, seen, lines, n + 1, line + 1, limit - 1);
  }

  lemma {:induction false} SkipFrom(judge: Judging, seen: seq<string>, pre: seq<string>, lines: seq<string>, n: nat, line: int, limit: nat)
    ensures LocateFrom(judge, seen, pre + lines, n + |pre|, line, limit) == LocateFrom(judge, seen, lines, n, line, limit)
    decreases limit
  {
    if n < |lines| && limit > 0 {
      assert (pre + lines)[n + |pre|] == lines[n];
      SkipFrom(judge, seen + [lines[n]], pre, lines, n + 1, line + 1, limit - 1);
    }
  }

  lemma SearchBelow(judge: Judging, judge': Judging, lines: seq<string>, pre: seq<string>, tries: nat)
    requires pre != [] && CommentGap(pre) && Regular(judge') && JudgesAlike(judge, judge', |pre|)
    ensures LocateFrom(judge', [], pre + lines, |pre| - 1, |pre|, tries + 1) == ShiftOne(FromTop(judge, lines, tries), |pre|)
  {
    var k := |pre|;
    assert (pre + lines)[k - 1] == pre[k - 1];
    LinePassed(judge', pre + lines, k - 1, k, tries + 1);
    LocateShifted(judge, judge', [], pre, lines, 0, 1, tries);
  }

  lemma ZeroShifted(judge: Judging, judge': Judging, lines: seq<string>, pre: seq<string>)
    requires lines != [] && pre != [] && CommentGap(pre)
    requires Regular(judge) && Regular(judge') && JudgesAlike(judge, judge', |pre|)
    ensures Search(judge', pre + lines, |pre|) == ShiftOne(FromTop(judge, lines, TRIES - 1), |pre|)
    ensures Search(judge, lines, 0) == if BlankOrComment(lines[|lines| - 1]) then FromTop(judge, lines, TRIES - 1) else None
  {
    SearchZero(judge, lines, TRIES - 1);
    SearchBelow(judge, judge', lines, pre, TRIES - 1);
  }

  /** The key that a warning for line 0 comes to once anything stands in front of the source. */
  ghost function KeyFromTop(tools: Tools, lines: seq<string>, w: Warning): Option<Key> {
    match tools.index(lines)
    case None => None
    case Some(found) => WarningKey(tools, found, FromTop(tools.judging(found, w.column), lines, TRIES - 1), w.subject)
  }

  /** A warning for line 0 is looked up from the last line on; that makes no difference if the last
      line is blank or a comment, or if the search from the top identifies nothing either. */
  ghost predicate Survives(tools: Tools, lines: seq<string>, w: Warning) {
    w.line >= 1 || lines == [] || BlankOrComment(lines[|lines| - 1]) || KeyFromTop(tools, lines, w).None?
  }

  ghost predicate ToolsRegular(tools: Tools) {
    forall found, column: nat :: Regular(tools.judging(found, column))
  }

  lemma ToolsOfRegular(rules: Rules)
    ensures ToolsRegular(ToolsOf(rules))
  {
    forall found, column: nat
      ensures Regular(ToolsOf(rules).judging(found, column))
    {
      JudgingRegular(found, column);
    }
  }

  lemma {:induction false} NothingInBlanks(judge: Judging, lines: seq<string>, n: nat, line: int, limit: nat)
    requires CommentGap(lines) && Regular(judge)
    ensures LocateFrom(judge, [], lines, n, line, limit).None?
    decreases limit
  {
    if n < |lines| && limit > 0 {
      LinePassed(judge, lines, n, line, limit);
      NothingInBlanks(judge, lines, n + 1, line + 1, limit - 1);
    }
  }

  /** No line at all: line 0 is an error, and below blank lines nothing is found. */
  lemma EmptyShifted(tools: Tools, pre: seq<string>, w: Warning)
    requires ToolsRegular(tools) && CommentGap(pre) && w.line == 0
    ensures IdentityIn(tools, pre + [], w.(line := |pre|)).None? && IdentityIn(tools, [], w).None?
  {
    assert pre + [] == pre;
    if tools.index(pre).Some? {
      var judge := tools.judging(tools.index(pre).value, w.column);
      assert Regular(judge);
      NothingInBlanks(judge, Numbered(pre, |pre|), First(|pre|), |pre|, TRIES);
    }
  }

  /** Line 0 of a source with lines: what both searches come to. */
  lemma TopShifted(tools: Tools, pre: seq<string>, lines: seq<string>, w: Warning)
    requires Follows(tools, pre, lines) && ToolsRegular(tools) && CommentGap(pre)
    requires w.line == 0 && lines != [] && pre != []
    ensures var key := KeyFromTop(tools, lines, w);
            var identity := if key.Some? then Some(Identity(w.file, key.value, w.message)) else None;
            IdentityIn(tools, pre + lines, w.(line := |pre|)) == identity &&
            IdentityIn(tools, lines, w) == if BlankOrComment(lines[|lines| - 1]) then identity else None
  {
    var index := tools.index(lines);
    if index.Some? {
      var judge, judge' := tools.judging(index.value, w.column), tools.judging(ShiftAll(index.value, |pre|), w.column);
      assert Judged(tools, index.value, w.column, |pre|);
      assert Regular(judge) && Regular(judge');
      ZeroShifted(judge, judge', lines, pre);
      WarningKeyShifted(tools, index.value, FromTop(judge, lines, TRIES - 1), w.subject, |pre|);
    }
  }

  /** What becomes of an identity further down. */
  ghost predicate MovedAs(shifted: Option<string>, before: Option<string>, survives: bool) {
    if survives then shifted == before else shifted.Some? && before.None?
  }

  lemma ZeroMoved(tools: Tools, pre: seq<string>, lines: seq<string>, w: Warning)
    requires Follows(tools, pre, lines) && ToolsRegular(tools) && CommentGap(pre) && pre != [] && w.line == 0
    ensures MovedAs(IdentityIn(tools, pre + lines, w.(line := |pre|)), IdentityIn(tools, lines, w), Survives(tools, lines, w))
  {
    if lines == [] {
      EmptyShifted(tools, pre, w);
    } else {
      TopShifted(tools, pre, lines, w);
    }
  }

  /** The identity of one warning further down: the same exactly if it survives. */
  lemma IdentityInShifted(tools: Tools, pre: seq<string>, lines: seq<string>, w: Warning)
    requires Follows(tools, pre, lines) && ToolsRegular(tools) && CommentGap(pre) && pre != []
    ensures MovedAs(IdentityIn(tools, pre + lines, w.(line := w.line + |pre|)), IdentityIn(tools, lines, w),
                    Survives(tools, lines, w))
  {
    if w.line >= 1 {
      IdentityBelow(tools, pre, lines, w);
    } else {
      assert w.(line := w.line + |pre|) == w.(line := |pre|);
      ZeroMoved(tools, pre, lines, w);
    }
  }

  /** Line 0 of the program's own search: exactly when blank lines and comments in front of the source
      leave the identity alone. */
  lemma LineZeroShifted(rules: Rules, pre: seq<string>, lines: seq<string>, w: Warning)
    requires Sane(rules) && CommentGap(pre) && pre != []
    ensures IdentityIn(ToolsOf(rules), pre + lines, w.(line := w.line + |pre|)) == IdentityIn(ToolsOf(rules), lines, w) <==>
            Survives(ToolsOf(rules), lines, w)
  {
    LinesFollow(rules, pre, lines);
    ToolsOfRegular(rules);
    IdentityInShifted(ToolsOf(rules), pre, lines, w);
  }

  // ----- whole logs

  /** All warnings that name the file survive being moved down. */
  ghost predicate SurvivesIn(tools: Tools, sources: map<string, seq<string>>, file: string, w: Warning) {
    w.file == file && file in sources ==> Survives(tools, sources[file], w)
  }

  ghost predicate AllSurvive(tools: Tools, sources: map<string, seq<string>>, file: string, log: seq<Warning>) {
    forall i :: 0 <= i < |log| ==> SurvivesIn(tools, sources, file, log[i])
  }

  /** A warning without an identity, moved or not. */
  ghost predicate NeverIdentified(tools: Tools, sources: map<string, seq<string>>, file: string, w: Warning) {
    SurvivesIn(tools, sources, file, w) && IdentityOf(tools, sources, w).None?
  }

  ghost predicate SomeNeverIdentified(tools: Tools, sources: map<string, seq<string>>, file: string, log: seq<Warning>) {
    exists i :: 0 <= i < |log| && NeverIdentified(tools, sources, file, log[i])
  }

  lemma FileMoved(tools: Tools, sources: map<string, seq<string>>, file: string, pre: seq<string>, w: Warning)
    requires file in sources && w.file == file
    ensures IdentityOf(tools, Prepended(sources, file, pre), ShiftWarning(w, file, |pre|)) ==
            IdentityIn(tools, pre + sources[file], w.(line := w.line + |pre|))
    ensures IdentityOf(tools, sources, w) == IdentityIn(tools, sources[file], w)
  {
  }

  lemma OtherKept(tools: Tools, sources: map<string, seq<string>>, file: string, pre: seq<string>, w: Warning)
    requires file in sources && w.file != file
    ensures IdentityOf(tools, Prepended(sources, file, pre), ShiftWarning(w, file, |pre|)) == IdentityOf(tools, sources, w)
  {
  }

  lemma IdentityShifted(tools: Tools, sources: map<string, seq<string>>, file: string, pre: seq<string>, w: Warning)
    requires ToolsFollow(tools, pre) && ToolsRegular(tools) && CommentGap(pre) && pre != [] && file in sources
    ensures MovedAs(IdentityOf(tools, Prepended(sources, file, pre), ShiftWarning(w, file, |pre|)), IdentityOf(tools, sources, w),
                    SurvivesIn(tools, sources, file, w))
  {
    if w.file == file {
      FileMoved(tools, sources, file, pre, w);
      assert Follows(tools, pre, sources[file]);
      IdentityInShifted(tools, pre, sources[file], w);
    } else {
      OtherKept(tools, sources, file, pre, w);
    }
  }

  lemma AllFirst(tools: Tools, sources: map<string, seq<string>>, file: string, log: seq<Warning>)
    requires log != []
    ensures AllSurvive(tools, sources, file, log) <==>
            SurvivesIn(tools, sources, file, log[0]) && AllSurvive(tools, sources, file, log[1..])
    ensures SomeNeverIdentified(tools, sources, file, log) <==>
            NeverIdentified(tools, sources, file, log[0]) || SomeNeverIdentified(tools, sources, file, log[1..])
  {
    assert log == [log[0]] + log[1..];
    assert forall i :: 0 <= i < |log[1..]| ==> log[1..][i] == log[i + 1];
    if SomeNeverIdentified(tools, sources, file, log[1..]) {
      var i :| 0 <= i < |log[1..]| && NeverIdentified(tools, sources, file, log[1..][i]);
      assert NeverIdentified(tools, sources, file, log[i + 1]);
    }
    if SomeNeverIdentified(tools, sources, file, log) {
      var i :| 0 <= i < |log| && NeverIdentified(tools, sources, file, log[i]);
      assert i > 0 ==> log[i] == log[1..][i - 1];
    }
  }

  lemma {:induction false} LogShifted(tools: Tools, sources: map<string, seq<string>>, file: string, pre: seq<string>, log: seq<Warning>)
    requires ToolsFollow(tools, pre) && ToolsRegular(tools) && CommentGap(pre) && pre != [] && file in sources
    ensures var shifted := Identities(tools, Prepended(sources, file, pre), ShiftLog(log, file, |pre|));
            var before := Identities(tools, sources, log);
            (shifted.None? <==> SomeNeverIdentified(tools, sources, file, log)) &&
            (before.Some? ==> AllSurvive(tools, sources, file, log)) &&
            (AllSurvive(tools, sources, file, log) ==> shifted == before)
  {
    if log == [] {
    } else {
      IdentityShifted(tools, sources, file, pre, log[0]);
      LogShifted(tools, sources, file, pre, log[1..]);
      AllFirst(tools, sources, file, log);
      var shifted := ShiftLog(log, file, |pre|);
      assert shifted[0] == ShiftWarning(log[0], file, |pre|) && shifted[1..] == ShiftLog(log[1..], file, |pre|);
    }
  }

  /** Line numbers are no part of an identity: moving a source down by blank lines and comments, and
      the warnings with it, gives the same list of identities, or fails the same, exactly if every
      warning survives or one of the others cannot be identified anyway. */
  lemma IdentitiesShifted(rules: Rules, sources: map<string, seq<string>>, file: string, pre: seq<string>, log: seq<Warning>)
    requires Sane(rules) && CommentGap(pre) && file in sources && pre != []
    ensures Identities(ToolsOf(rules), Prepended(sources, file, pre), ShiftLog(log, file, |pre|)) ==
            Identities(ToolsOf(rules), sources, log) <==>
            AllSurvive(ToolsOf(rules), sources, file, log) || SomeNeverIdentified(ToolsOf(rules), sources, file, log)
  {
    ToolsOfFollow(rules, pre);
    ToolsOfRegular(rules);
    LogShifted(ToolsOf(rules), sources, file, pre, log);
  }

  lemma {:induction false} NothingMoved(log: seq<Warning>, file: string)
    ensures ShiftLog(log, file, 0) == log
  {
    if log != [] {
      NothingMoved(log[1..], file);
    }
  }

  /** Once every warning of a log is identified, for line 0 or not, the comparison with the log of the
      source moved down finds nothing new and nothing gone. */
  lemma NoDelta(rules: Rules, sources: map<string, seq<string>>, file: string, pre: seq<string>, log: seq<Warning>)
    requires Sane(rules) && CommentGap(pre) && file in sources
    requires Identities(ToolsOf(rules), sources, log).Some?
    ensures var current := Identities(ToolsOf(rules), Prepended(sources, file, pre), ShiftLog(log, file, |pre|));
            current.Some? &&
            Added(Identities(ToolsOf(rules), sources, log).value, current.value) == multiset{} &&
            Removed(Identities(ToolsOf(rules), sources, log).value, current.value) == multiset{}
  {
    if pre == [] {
      NothingMoved(log, file);
      assert pre + sources[file] == sources[file];
      assert Prepended(sources, file, pre) == sources;
    } else {
      ToolsOfFollow(rules, pre);
      ToolsOfRegular(rules);
      LogShifted(ToolsOf(rules), sources, file, pre, log);
    }
  }
}
