/** The index of Ada declarations that gives every warning an identity, and its independence of line
    numbers. Lines are classified by rules; what counts lines and parentheses is spelled out. */
module AdaIndex {
  import opened Texts
  import opened AdaCode

  datatype Kind = PackageKind | TypeKind | OtherKind

  /** HEADER_RE on a line: where it ends, its keyword, and the name behind it. */
  datatype Header = Header(end: nat, kind: Kind, name: Option<string>)

  datatype Closing = EndsRecord | EndsPackage | EndsNothing

  /** The regular expressions on the code of single lines and on signatures. */
  datatype Rules = Rules(
    header: string -> Option<Header>, component: string -> Option<string>, closing: string -> Closing,
    normalize: string -> string, hasIs: string -> bool,
    opensRecord: string -> bool, closesRecord: string -> bool,
    listsLiterals: string -> bool, literals: string -> seq<string>,
    recordHead: string -> Option<string>, announcesRecord: string -> Option<string>,
    inDiscriminants: (string, string) -> bool)

  /** On a line without code nothing matches. */
  ghost predicate Sane(rules: Rules) {
    (forall code :: AllSpace(code) ==> rules.header(code).None? && rules.component(code).None?) &&
    rules.closing("") == EndsNothing
  }

  type Line = n: int | n >= 1 witness 1

  datatype IndexEntry = IndexEntry(start: Line, end: Line, column: nat, name: string, scope: string, signature: string)

  predicate NotSpace(c: char) {
    !Space(c)
  }

  /** s.split() */
  function Words(s: string): seq<string>
    decreases |s|
  {
    var i := RunEnd(s, 0, Space);
    if i == |s| then []
    else
      var j := RunEnd(s, i, NotSpace);
      [s[i..j]] + Words(s[j..])
  }

  function Squash(s: string): string {
    Join(" ", Words(s))
  }

  function NonEmpty(parts: seq<string>): seq<string> {
    if parts == [] then []
    else if parts[0] == "" then NonEmpty(parts[1..])
    else [parts[0]] + NonEmpty(parts[1..])
  }

  function Drop(lines: seq<string>, n: nat): (r: seq<string>)
    ensures n > 0 && lines != [] ==> |r| < |lines|
  {
    if n <= |lines| then lines[n..] else []
  }

  /** s.find(sub, from) + 1 */
  function Column(s: string, sub: string, from: nat): nat {
    var found := FindText(s, from, sub);
    if found.Some? then found.value + 1 else 0
  }

  function ReplaceFirst(s: string, old_: string, new_: string): string {
    match FindText(s, 0, old_)
    case None => s
    case Some(k) => s[..k] + new_ + s[k + |old_|..]
  }

  // ----- the reach of a declaration

  /** The offset of the last line, the code of the lines, and the depth at the end. */
  datatype Span = Span(last: nat, parts: seq<string>, depth: int)

  predicate EndsPackageHeader(rules: Rules, code: string, depth: int) {
    depth == 0 && (';' in code || (rules.hasIs(code) && !Contains(Squash(code), "is new")))
  }

  function Further(part: string, span: Option<Span>): Option<Span> {
    match span
    case None => None
    case Some(span) => Some(Span(span.last + 1, [part] + span.parts, span.depth))
  }

  /** What one line, entered at some depth, does to the search for the end. */
  datatype Outcome = Fails | Finishes(part: string, depth: int) | Continues(part: string, depth: int)

  function LineOutcome(rules: Rules, line: string, package: bool, depth: int): Outcome {
    match Code(line)
    case None => Fails
    case Some(code) =>
      match Depths(code, 0, depth, !package)
      case Broken => Fails
      case Ended => Finishes(Squash(code), 0)
      case Still(depth') =>
        if package && EndsPackageHeader(rules, code, depth') then Finishes(Squash(code), depth')
        else Continues(Squash(code), depth')
  }

  type Reader = (string, int) -> Outcome

  function Reading(rules: Rules, package: bool): Reader {
    (line, depth) => LineOutcome(rules, line, package, depth)
  }

  ghost predicate Reads(read: Reader, rules: Rules, package: bool) {
    forall line, depth {:trigger LineOutcome(rules, line, package, depth)} :: read(line, depth) == LineOutcome(rules, line, package, depth)
  }

  /** One line of the search, in the terms of the reader it belongs to. */
  method ReadLine(rules: Rules, line: string, package: bool, depth: int, ghost read: Reader) returns (outcome: Outcome)
    requires Reads(read, rules, package)
    ensures outcome == read(line, depth)
  {
    assert read(line, depth) == LineOutcome(rules, line, package, depth);
    var code := CodeTokens(line);
    if code.None? {
      return Fails;
    }
    var part := Squash(code.value);
    var scan := ScanParentheses(code.value, depth, !package);
    match scan {
      case Broken => outcome := Fails;
      case Ended => outcome := Finishes(part, 0);
      case Still(level) =>
        outcome := if package && EndsPackageHeader(rules, code.value, level) then Finishes(part, level) else Continues(part, level);
    }
  }

  /** The rest of the lines, entered at some depth with some lines allowed. */
  function Reach(read: Reader, rest: seq<string>, depth: int, limit: nat): (r: Option<Span>)
    ensures r.Some? ==> r.value.last < |rest|
    decreases limit
  {
    if rest == [] || limit == 0 then None
    else
      match read(rest[0], depth)
      case Fails => None
      case Finishes(part, depth') => Some(Span(0, [part], depth'))
      case Continues(part, depth') => Further(part, Reach(read, rest[1..], depth', limit - 1))
  }

  const REACH := 80

  function SpanOf(rules: Rules, rest: seq<string>, package: bool): (r: Option<Span>)
    ensures r.Some? ==> r.value.last < |rest|
  {
    Reach(Reading(rules, package), rest, 0, REACH)
  }

  function Text(parts: seq<string>): string {
    Join(" ", NonEmpty(parts))
  }

  function Prefixed(cursor: nat, parts: seq<string>, span: Option<Span>): Option<Span> {
    match span
    case None => None
    case Some(span) => Some(Span(cursor + span.last, parts + span.parts, span.depth))
  }

  lemma PrefixedFurther(cursor: nat, parts: seq<string>, part: string, span: Option<Span>)
    ensures Prefixed(cursor, parts, Further(part, span)) == Prefixed(cursor + 1, parts + [part], span)
  {
    if span.Some? {
      assert parts + ([part] + span.value.parts) == parts + [part] + span.value.parts;
    }
  }

  /** What one more line makes of the search. */
  lemma ReachLine(read: Reader, rest: seq<string>, depth: int, limit: nat, cursor: nat, parts: seq<string>)
    requires rest != [] && limit > 0
    ensures var whole := Prefixed(cursor, parts, Reach(read, rest, depth, limit));
            match read(rest[0], depth)
            case Fails => whole.None?
            case Finishes(part, depth') => whole == Some(Span(cursor, parts + [part], depth'))
            case Continues(part, depth') =>
              whole == Prefixed(cursor + 1, parts + [part], Reach(read, rest[1..], depth', limit - 1))
  {
    var outcome := read(rest[0], depth);
    if outcome.Continues? {
      PrefixedFurther(cursor, parts, outcome.part, Reach(read, rest[1..], outcome.depth, limit - 1));
    }
  }

  lemma PrefixedNothing(start: nat, span: Option<Span>)
    ensures Prefixed(start, [], span) == if span.Some? then Some(span.value.(last := start + span.value.last)) else None
  {
    if span.Some? {
      assert [] + span.value.parts == span.value.parts;
    }
  }

  /** _declaration_span, with the absolute index of the last line. */
  method DeclarationSpan(rules: Rules, lines: seq<string>, start: nat, package: bool) returns (span: Option<Span>)
    requires start < |lines|
    ensures var found := SpanOf(rules, lines[start..], package);
            span == if found.Some? then Some(found.value.(last := start + found.value.last)) else None
  {
    PrefixedNothing(start, SpanOf(rules, lines[start..], package));
    span := SearchEnd(rules, package, Reading(rules, package), lines, start, REACH);
  }

  /** Its loop. */
  method SearchEnd(rules: Rules, package: bool, ghost read: Reader, lines: seq<string>, start: nat, reach: nat)
    returns (span: Option<Span>)
    requires start < |lines| && Reads(read, rules, package)
    ensures span == Prefixed(start, [], Reach(read, lines[start..], 0, reach))
  {
    var depth, parts := 0, [];
    var cursor := start;
    ghost var rest, limit: nat := lines[start..], reach;
    ghost var goal := Prefixed(start, [], Reach(read, rest, 0, reach));
    while cursor < |lines| && cursor < start + reach
      invariant start <= cursor <= |lines| && rest == lines[cursor..] && cursor + limit == start + reach
      invariant Prefixed(cursor, parts, Reach(read, rest, depth, limit)) == goal
    {
      ReachLine(read, rest, depth, limit, cursor, parts);
      var outcome := ReadLine(rules, lines[cursor], package, depth, read);
      match outcome {
        case Fails => return None;
        case Finishes(part, level) => return Some(Span(cursor, parts + [part], level));
        case Continues(part, level) => depth, parts := level, parts + [part];
      }
      cursor, rest, limit := cursor + 1, rest[1..], limit - 1;
    }
    span := None;
  }

  /** What one line does to the search for the end of a record, nested records counted. */
  datatype RecordStep = Unclear | Closed | Inner(depth: int)

  function RecordLine(rules: Rules, line: string, depth: int): RecordStep {
    match Code(line)
    case None => Unclear
    case Some(code) =>
      var closes := rules.closesRecord(Squash(code));
      var level := depth + if rules.opensRecord(Squash(code)) && !closes then 1 else 0;
      if closes then (if level == 1 then Closed else Inner(level - 1)) else Inner(level)
  }

  function Later(n: nat, count: Option<nat>): Option<nat> {
    if count.Some? then Some(n + count.value) else None
  }

  type Recording = (string, int) -> RecordStep

  function RecordingOf(rules: Rules): Recording {
    (line, depth) => RecordLine(rules, line, depth)
  }

  /** _record_end: how many lines on the record is closed. */
  function RecordEnd(record_: Recording, rest: seq<string>, depth: int): Option<nat> {
    if rest == [] then None
    else
      match record_(rest[0], depth)
      case Unclear => None
      case Closed => Some(0)
      case Inner(level) => Later(1, RecordEnd(record_, rest[1..], level))
  }

  // ----- generic formals and enumeration literals

  /** A declaration found on a line, still without line numbers: last counts from that line. */
  datatype Draft = Draft(last: nat, column: nat, name: string, scope: string, signature: string)

  function Place(draft: Draft, number: nat): IndexEntry {
    IndexEntry(number + 1, number + draft.last + 1, draft.column, draft.name, draft.scope, draft.signature)
  }

  function DraftOf(rules: Rules, rest: seq<string>, name: string, from: nat, scope: string): (r: Option<Draft>)
    requires rest != []
    ensures r.Some? ==> r.value.last < |rest|
  {
    match SpanOf(rules, rest, false)
    case None => None
    case Some(span) => Some(Draft(span.last, Column(rest[0], name, from), name, scope, rules.normalize(Text(span.parts))))
  }

  /** What a line between generic and its package declares. */
  datatype Formal = Unread | NoFormal | Formal(draft: Draft)

  function FormalOn(rules: Rules, rest: seq<string>): (r: Formal)
    ensures r.Formal? ==> r.draft.last < |rest|
  {
    if rest == [] then NoFormal
    else
      match Code(rest[0])
      case None => Unread
      case Some(code) =>
        match FormalName(rules, code)
        case None => NoFormal
        case Some((name, from)) =>
          match DraftOf(rules, rest, name, from, "generic " + name)
          case None => Unread
          case Some(draft) => Formal(draft)
  }

  /** The name a formal line declares, and from where on to look for it. */
  function FormalName(rules: Rules, code: string): Option<(string, nat)> {
    match rules.header(code)
    case Some(header) => if header.name.Some? then Some((header.name.value, header.end)) else None
    case None => if rules.component(code).Some? then Some((rules.component(code).value, 0)) else None
  }

  /** _generic_formals: count lines are looked at, though a declaration may reach beyond them. */
  function Formals(look: Formalizing, rest: seq<string>, number: nat, count: int): Option<seq<IndexEntry>>
    decreases |rest|
  {
    if rest == [] || count <= 0 then Some([])
    else
      match look(rest)
      case Unread => None
      case NoFormal => Formals(look, rest[1..], number + 1, count - 1)
      case Formal(draft) =>
        var n := draft.last + 1;
        FormalThen(draft, number, Formals(look, Drop(rest, n), number + n, count - n))
  }

  function FormalThen(draft: Draft, number: nat, others: Option<seq<IndexEntry>>): Option<seq<IndexEntry>> {
    if others.None? then None else Some([Place(draft, number)] + others.value)
  }

  function Codes(window: seq<string>): Option<seq<string>> {
    if window == [] then Some([])
    else if Code(window[0]).None? || Codes(window[1..]).None? then None
    else Some([Code(window[0]).value] + Codes(window[1..]).value)
  }

  /** The first line of the window that holds the text, and where. */
  function FindLine(window: seq<string>, text: string): Option<(nat, nat)> {
    if window == [] then None
    else
      match FindText(window[0], 0, text)
      case Some(k) => Some((0, k))
      case None =>
        match FindLine(window[1..], text)
        case None => None
        case Some((n, k)) => Some((n + 1, k))
  }

  /** _enumeration_literals: each name at its first occurrence in the first length lines of rest. */
  function LiteralDeclarations(rest: seq<string>, length: nat, number: nat, names: seq<string>, scope: string, signature: string)
    : seq<IndexEntry>
  {
    if names == [] then []
    else
      var others := LiteralDeclarations(rest, length, number, names[1..], scope, signature);
      match FindLine(if length <= |rest| then rest[..length] else rest, names[0])
      case None => others
      case Some((n, k)) =>
        [IndexEntry(number + n + 1, number + n + 1, k + 1, names[0], scope + "." + names[0], signature)] + others
  }

  // ----- the main loop

  datatype Scope = Package(name: string) | Record(name: string)

  datatype State = State(stack: seq<Scope>, pending: seq<nat>, found: seq<IndexEntry>)

  /** The state behind a step, and the line the next step starts on. */
  datatype Turn = Turn(state: State, next: nat)

  predicate InPackage(stack: seq<Scope>) {
    exists i :: 0 <= i < |stack| && stack[i].Package?
  }

  function PackageNames(stack: seq<Scope>): seq<string> {
    if stack == [] then []
    else if stack[0].Package? then [stack[0].name] + PackageNames(stack[1..])
    else PackageNames(stack[1..])
  }

  function ScopeNames(stack: seq<Scope>): seq<string> {
    if stack == [] then [] else [stack[0].name] + ScopeNames(stack[1..])
  }

  function ScopeName(stack: seq<Scope>): string {
    Join(".", ScopeNames(stack))
  }

  predicate InRecord(stack: seq<Scope>) {
    exists i :: 0 <= i < |stack| && stack[i].Record?
  }

  /** _close_scopes */
  function CloseScopes(stack: seq<Scope>, closing: Closing): Option<seq<Scope>> {
    match closing
    case EndsNothing => Some(stack)
    case EndsRecord => if stack != [] && stack[|stack| - 1].Record? then Some(stack[..|stack| - 1]) else None
    case EndsPackage => if stack != [] && stack[|stack| - 1].Package? then Some(stack[..|stack| - 1]) else None
  }

  predicate IsInstance(rules: Rules, text: string) {
    Contains(rules.normalize(text), " is new ")
  }

  /** The package with a header of some lines, and whether it is an instance, which opens no scope. */
  function PackageOf(rules: Rules, line: string, stack: seq<Scope>, header: Header, name: string, span: Span): (Draft, bool) {
    var scope, text := Join(".", PackageNames(stack)), Text(span.parts);
    var qualified := if scope == "" then name else scope + "." + name;
    var signature := if IsInstance(rules, text) then rules.normalize(ReplaceFirst(text, name, qualified))
                     else rules.normalize("package " + qualified + " is");
    (Draft(span.last, Column(line, name, header.end), name, qualified, signature), IsInstance(rules, text))
  }

  function PackageDraft(rules: Rules, rest: seq<string>, stack: seq<Scope>, header: Header, name: string): Option<(Draft, bool)>
    requires rest != []
  {
    match SpanOf(rules, rest, true)
    case None => None
    case Some(span) => Some(PackageOf(rules, rest[0], stack, header, name, span))
  }

  /** The line behind the first pending generic. */
  function FirstFormal(pending: seq<nat>): Option<nat> {
    if pending == [] then None else Some(pending[0] + 1)
  }

  /** The formals from there up to a package header. */
  function FormalsFrom(look: Formalizing, lines: seq<string>, first: Option<nat>, stop: nat): Option<seq<IndexEntry>> {
    match first
    case None => Some([])
    case Some(n) => Formals(look, Drop(lines, n), n, stop - n)
  }

  function EnterPackage(package: Draft, instance: bool, formals: Option<seq<IndexEntry>>, number: nat, s: State): Option<Turn> {
    if formals.None? then None
    else
      Some(Turn(State(if instance then s.stack else s.stack + [Package(package.name)],
                      if s.pending == [] then [] else s.pending[1..],
                      s.found + formals.value + [Place(package, number)]),
                number + package.last + 1))
  }

  function UpdateLast(found: seq<IndexEntry>, signature: string, end: Line): seq<IndexEntry> {
    if found == [] then [] else found[..|found| - 1] + [found[|found| - 1].(signature := signature, end := end)]
  }

  /** What a type declaration says about a record: none, one that begins in its lines, or one that
      begins on the next line; with the short signature. */
  datatype RecordHead = NoRecord | Unreadable | Inside(signature: string) | Below(signature: string)

  function RecordOf(rules: Rules, rest: seq<string>, kind: Kind, signature: string): RecordHead {
    if !kind.TypeKind? then NoRecord
    else
      match rules.recordHead(signature)
      case Some(head) => Inside(head)
      case None =>
        match rules.announcesRecord(signature)
        case None => NoRecord
        case Some(head) =>
          if |rest| <= 1 then NoRecord
          else if Code(rest[1]).None? then Unreadable
          else if Strip(Code(rest[1]).value) == "record" then Below(head)
          else NoRecord
  }

  /** A record is entered: its declaration, the last one found, gets the short signature and reaches
      to the end of the record, lines further on from two lines down. */
  function EnterRecord(lines: Option<nat>, number: nat, s: State, name: string, signature: string, next: nat): Option<Turn> {
    match lines
    case None => None
    case Some(n) =>
      Some(Turn(s.(found := UpdateLast(s.found, signature, number + 2 + n + 1), stack := s.stack + [Record(name)]), next))
  }

  function RecordTurn(head: RecordHead, lines: Option<nat>, number: nat, s: State, name: string, last: nat): Option<Turn> {
    match head
    case NoRecord => Some(Turn(s, number + last + 1))
    case Unreadable => None
    case Inside(signature) => EnterRecord(lines, number, s, name, signature, number + 1)
    case Below(signature) => EnterRecord(lines, number, s, name, signature, number + 2)
  }

  /** The names a type declaration may list as literals; None if they cannot be read. */
  function LiteralNames(rules: Rules, rest: seq<string>, kind: Kind, draft: Draft): Option<seq<string>>
    requires draft.last < |rest|
  {
    if !(kind.TypeKind? && rules.listsLiterals(draft.signature)) then Some([])
    else
      match Codes(rest[..draft.last + 1])
      case None => None
      case Some(codes) => Some(rules.literals(Join(" ", codes)))
  }

  /** All that the lines from one on say, given the open scopes and whether a generic is pending. */
  datatype Sight =
    | Error
    | Skipped
    | Generic
    | Closes(closing: Closing)
    | Declares(draft: Draft)                              // a component or a formal type
    | Packages(package: Draft, instance: bool)
    | Types(draft: Draft, literals: seq<string>, record_: RecordHead, length: Option<nat>)

  function Declaring(draft: Option<Draft>): Sight {
    if draft.Some? then Declares(draft.value) else Error
  }

  function PlainSight(rules: Rules, code: string): Sight {
    if Strip(code) == "generic" then Generic else Closes(rules.closing(Squash(code)))
  }

  function ComponentSight(rules: Rules, rest: seq<string>, stack: seq<Scope>, name: string): Sight
    requires rest != []
  {
    if !InPackage(stack) then Skipped
    else
      var scope := if InRecord(stack) then ScopeName(stack) else Join(".", PackageNames(stack));
      Declaring(DraftOf(rules, rest, name, 0, scope + "." + name))
  }

  function PackageSight(rules: Rules, rest: seq<string>, stack: seq<Scope>, header: Header, name: string): Sight
    requires rest != []
  {
    match PackageDraft(rules, rest, stack, header, name)
    case None => Error
    case Some((draft, instance)) => Packages(draft, instance)
  }

  function DeclarationSight(rules: Rules, rest: seq<string>, stack: seq<Scope>, header: Header, name: string): Sight
    requires rest != []
  {
    if !InPackage(stack) then Error
    else
      match DraftOf(rules, rest, name, header.end, ScopeName(stack) + "." + name)
      case None => Error
      case Some(draft) =>
        match LiteralNames(rules, rest, header.kind, draft)
        case None => Error
        case Some(literals) =>
          var head := RecordOf(rules, rest, header.kind, draft.signature);
          Types(draft, literals, head, if head.Inside? || head.Below? then RecordEnd(RecordingOf(rules), Drop(rest, 2), 1) else None)
  }

  function Look(rules: Rules, rest: seq<string>, stack: seq<Scope>, pending: bool): Sight {
    if rest == [] || Code(rest[0]).None? then Error
    else
      var code := Code(rest[0]).value;
      match rules.header(code)
      case None =>
        (match rules.component(code)
         case None => PlainSight(rules, code)
         case Some(name) => ComponentSight(rules, rest, stack, name))
      case Some(header) =>
        match header.name
        case None => Skipped
        case Some(name) =>
          if header.kind.PackageKind? then PackageSight(rules, rest, stack, header, name)
          else if header.kind.TypeKind? && pending && !InPackage(stack)
               then Declaring(DraftOf(rules, rest, name, header.end, "generic " + name))
          else DeclarationSight(rules, rest, stack, header, name)
  }

  /** What is done about the line with the given index. */
  function Act(sight: Sight, look: Formalizing, lines: seq<string>, number: nat, s: State): (r: Option<Turn>)
    ensures r.Some? ==> number < r.value.next
  {
    match sight
    case Error => None
    case Skipped => Some(Turn(s, number + 1))
    case Generic => Some(Turn(s.(pending := s.pending + [number]), number + 1))
    case Closes(closing) =>
      (match CloseScopes(s.stack, closing)
       case None => None
       case Some(stack) => Some(Turn(s.(stack := stack), number + 1)))
    case Declares(draft) => Some(Turn(s.(found := s.found + [Place(draft, number)]), number + draft.last + 1))
    case Packages(draft, instance) => EnterPackage(draft, instance, FormalsFrom(look, lines, FirstFormal(s.pending), number), number, s)
    case Types(draft, names, head, length) =>
      var literals := LiteralDeclarations(Drop(lines, number), draft.last + 1, number, names, draft.scope, draft.signature);
      RecordTurn(head, length, number, s.(found := s.found + [Place(draft, number)] + literals), draft.name, draft.last)
  }

  type Seeing = (seq<string>, seq<Scope>, bool) -> Sight
  type Formalizing = seq<string> -> Formal

  function SeeingOf(rules: Rules): Seeing {
    (rest, stack, pending) => Look(rules, rest, stack, pending)
  }

  function FormalizingOf(rules: Rules): Formalizing {
    rest => FormalOn(rules, rest)
  }

  /** One turn of the loop in declaration_index. */
  function StepAt(see: Seeing, look: Formalizing, lines: seq<string>, n: nat, s: State): (r: Option<Turn>)
    ensures r.Some? ==> n < r.value.next
  {
    Act(see(Drop(lines, n), s.stack, s.pending != []), look, lines, n, s)
  }

  /** The loop from some line on. */
  function IndexRest(see: Seeing, look: Formalizing, lines: seq<string>, number: nat, s: State): Option<seq<IndexEntry>>
    decreases |lines| - number
  {
    if number >= |lines| then (if s.stack == [] then Some(s.found) else None)
    else
      match StepAt(see, look, lines, number, s)
      case None => None
      case Some(turn) => IndexRest(see, look, lines, turn.next, turn.state)
  }

  const EMPTY := State([], [], [])

  /** declaration_index, before grouping by location. */
  function Index(rules: Rules, lines: seq<string>): Option<seq<IndexEntry>> {
    IndexRest(SeeingOf(rules), FormalizingOf(rules), lines, 0, EMPTY)
  }

  // ----- the loops

  lemma RecordStepped(record_: Recording, rest: seq<string>, depth: int, n: nat)
    requires rest != []
    ensures var whole := Later(n, RecordEnd(record_, rest, depth));
            match record_(rest[0], depth)
            case Unclear => whole.None?
            case Closed => whole == Some(n)
            case Inner(level) => whole == Later(n + 1, RecordEnd(record_, rest[1..], level))
  {
    var step := record_(rest[0], depth);
    if step.Inner? {
      LaterTwice(n, 1, RecordEnd(record_, rest[1..], step.depth));
    }
  }

  lemma LaterTwice(n: nat, m: nat, count: Option<nat>)
    ensures Later(n, Later(m, count)) == Later(n + m, count)
  {
  }

  ghost predicate Records(record_: Recording, rules: Rules) {
    forall line, depth {:trigger RecordLine(rules, line, depth)} :: record_(line, depth) == RecordLine(rules, line, depth)
  }

  method StepRecord(rules: Rules, line: string, depth: int, ghost record_: Recording) returns (step: RecordStep)
    requires Records(record_, rules)
    ensures step == record_(line, depth)
  {
    assert record_(line, depth) == RecordLine(rules, line, depth);
    var code := CodeTokens(line);
    if code.None? {
      return Unclear;
    }
    var stripped, level := Squash(code.value), depth;
    if rules.opensRecord(stripped) && !rules.closesRecord(stripped) {
      level := level + 1;
    }
    if rules.closesRecord(stripped) {
      level := level - 1;
      if level == 0 {
        return Closed;
      }
    }
    step := Inner(level);
  }

  /** _record_end, with the number of lines in front of the end. */
  method FindRecordEnd(rules: Rules, lines: seq<string>, start: nat) returns (end: Option<nat>)
    ensures end == RecordEnd(RecordingOf(rules), Drop(lines, start), 1)
    ensures forall n: nat :: end == Some(n) <==> CatchesUp(ChangingOf(rules), Drop(lines, start), 1, n)
  {
    end := SearchRecordEnd(rules, RecordingOf(rules), lines, start);
    ChangesOf(rules);
    forall n: nat
      ensures end == Some(n) <==> CatchesUp(ChangingOf(rules), Drop(lines, start), 1, n)
    {
      EndCatchesUp(RecordingOf(rules), ChangingOf(rules), Drop(lines, start), 1, n);
    }
  }

  /** Its loop. */
  method SearchRecordEnd(rules: Rules, ghost record_: Recording, lines: seq<string>, start: nat) returns (end: Option<nat>)
    requires Records(record_, rules)
    ensures end == RecordEnd(record_, Drop(lines, start), 1)
  {
    var depth, cursor := 1, start;
    ghost var goal := RecordEnd(record_, Drop(lines, start), 1);
    while cursor < |lines|
      invariant start <= cursor && EndFrom(record_, lines, start, cursor, depth) == goal
    {
      var step := StepRecord(rules, lines[cursor], depth, record_);
      OneRecordLine(record_, lines, start, cursor, depth);
      match step {
        case Unclear => return None;
        case Closed => return Some(cursor - start);
        case Inner(level) => depth := level;
      }
      cursor := cursor + 1;
    }
    end := None;
  }

  /** What the loop comes to from a line on. */
  function EndFrom(record_: Recording, lines: seq<string>, start: nat, cursor: nat, depth: int): Option<nat>
    requires start <= cursor
  {
    Later(cursor - start, RecordEnd(record_, Drop(lines, cursor), depth))
  }

  lemma OneRecordLine(record_: Recording, lines: seq<string>, start: nat, cursor: nat, depth: int)
    requires start <= cursor < |lines|
    ensures match record_(lines[cursor], depth)
            case Unclear => EndFrom(record_, lines, start, cursor, depth).None?
            case Closed => EndFrom(record_, lines, start, cursor, depth) == Some(cursor - start)
            case Inner(level) => EndFrom(record_, lines, start, cursor, depth) == EndFrom(record_, lines, start, cursor + 1, level)
  {
    RecordStepped(record_, Drop(lines, cursor), depth, cursor - start);
    DropTwice(lines, cursor, 1);
  }

  /** What a line changes: a header of a record opens, an end closes; None if it cannot be read. */
  function RecordChange(rules: Rules, line: string): Option<int> {
    match Code(line)
    case None => None
    case Some(code) =>
      Some(if rules.closesRecord(Squash(code)) then -1 else if rules.opensRecord(Squash(code)) then 1 else 0)
  }

  type Changing = string -> Option<int>

  function ChangingOf(rules: Rules): Changing {
    line => RecordChange(rules, line)
  }

  /** Headers less ends in the first k lines. */
  function RecordBalance(change: Changing, rest: seq<string>, k: nat): int
    requires k <= |rest|
  {
    if k == 0 then 0 else RecordBalance(change, rest, k - 1) + change(rest[k - 1]).GetOr(0)
  }

  predicate AllReadable(change: Changing, rest: seq<string>, n: nat)
    requires n < |rest|
  {
    forall k :: 0 <= k <= n ==> change(rest[k]).Some?
  }

  predicate StaysOpen(change: Changing, rest: seq<string>, depth: int, n: nat)
    requires n <= |rest|
  {
    forall k :: 0 <= k <= n ==> depth + RecordBalance(change, rest, k) > 0
  }

  /** Line n is the first at which the ends have caught up with the headers, depth of them open before. */
  predicate CatchesUp(change: Changing, rest: seq<string>, depth: int, n: nat) {
    n < |rest| && AllReadable(change, rest, n) && StaysOpen(change, rest, depth, n) &&
    depth + RecordBalance(change, rest, n + 1) == 0
  }

  ghost predicate Changes(record_: Recording, change: Changing) {
    forall line, depth {:trigger record_(line, depth)} ::
      record_(line, depth) ==
      match change(line)
      case None => Unclear
      case Some(d) => if d == -1 && depth == 1 then Closed else Inner(depth + d)
  }

  ghost predicate Small(change: Changing) {
    forall line {:trigger change(line)} :: change(line).Some? ==> -1 <= change(line).value <= 1
  }

  lemma {:induction false} BalanceBehind(change: Changing, rest: seq<string>, k: nat)
    requires k < |rest|
    ensures RecordBalance(change, rest, k + 1) == change(rest[0]).GetOr(0) + RecordBalance(change, rest[1..], k)
  {
    if k > 0 {
      BalanceBehind(change, rest, k - 1);
      assert rest[1..][k - 1] == rest[k];
    }
  }

  lemma ReadableBehind(change: Changing, rest: seq<string>, n: nat)
    requires 0 < n < |rest| && change(rest[0]).Some?
    ensures AllReadable(change, rest, n) <==> AllReadable(change, rest[1..], n - 1)
  {
    if AllReadable(change, rest, n) {
      forall k | 0 <= k <= n - 1
        ensures change(rest[1..][k]).Some?
      {
        assert rest[1..][k] == rest[k + 1];
      }
    }
    if AllReadable(change, rest[1..], n - 1) {
      forall k | 0 <= k <= n
        ensures change(rest[k]).Some?
      {
        assert k > 0 ==> rest[k] == rest[1..][k - 1];
      }
    }
  }

  lemma OpenBehind(change: Changing, rest: seq<string>, depth: int, n: nat)
    requires 0 < n < |rest| && depth >= 1
    ensures StaysOpen(change, rest, depth, n) <==> StaysOpen(change, rest[1..], depth + change(rest[0]).GetOr(0), n - 1)
  {
    if StaysOpen(change, rest, depth, n) {
      forall k: nat | k <= n - 1
        ensures depth + change(rest[0]).GetOr(0) + RecordBalance(change, rest[1..], k) > 0
      {
        BalanceBehind(change, rest, k);
      }
    }
    if StaysOpen(change, rest[1..], depth + change(rest[0]).GetOr(0), n - 1) {
      forall k: nat | k <= n
        ensures depth + RecordBalance(change, rest, k) > 0
      {
        if k > 0 {
          BalanceBehind(change, rest, k - 1);
        }
      }
    }
  }

  lemma CatchesUpBehind(change: Changing, rest: seq<string>, depth: int, n: nat)
    requires rest != [] && change(rest[0]).Some? && depth >= 1 && n > 0
    ensures CatchesUp(change, rest, depth, n) <==> CatchesUp(change, rest[1..], depth + change(rest[0]).value, n - 1)
  {
    if n < |rest| {
      ReadableBehind(change, rest, n);
      OpenBehind(change, rest, depth, n);
      BalanceBehind(change, rest, n);
    }
  }

  lemma NeverCatchesUp(change: Changing, rest: seq<string>, depth: int, n: nat)
    requires depth <= 0
    ensures !CatchesUp(change, rest, depth, n)
  {
    assert n < |rest| ==> RecordBalance(change, rest, 0) == 0;
  }

  lemma CatchesUpAtOnce(change: Changing, rest: seq<string>, depth: int)
    requires rest != [] && change(rest[0]).Some? && depth >= 1 && change(rest[0]).value >= -1
    ensures CatchesUp(change, rest, depth, 0) <==> depth == 1 && change(rest[0]).value == -1
  {
    assert RecordBalance(change, rest, 1) == RecordBalance(change, rest, 0) + change(rest[0]).GetOr(0);
  }

  /** The end found is the first line at which the ends have caught up, and there is none where none is found. */
  lemma {:induction false} EndCatchesUp(record_: Recording, change: Changing, rest: seq<string>, depth: int, n: nat)
    requires Changes(record_, change) && Small(change) && depth >= 1
    ensures RecordEnd(record_, rest, depth) == Some(n) <==> CatchesUp(change, rest, depth, n)
    decreases |rest|
  {
    if rest != [] {
      var step := record_(rest[0], depth);
      if change(rest[0]).Some? {
        CatchesUpAtOnce(change, rest, depth);
        if n > 0 {
          CatchesUpBehind(change, rest, depth, n);
        }
        if step.Inner? && n > 0 {
          EndCatchesUp(record_, change, rest[1..], step.depth, n - 1);
        }
        if step.Closed? && n > 0 {
          NeverCatchesUp(change, rest[1..], 0, n - 1);
        }
      }
    }
  }

  lemma ChangesOf(rules: Rules)
    ensures Changes(RecordingOf(rules), ChangingOf(rules)) && Small(ChangingOf(rules))
  {
  }

  method ReadDraft(rules: Rules, lines: seq<string>, start: nat, name: string, from: nat, scope: string)
    returns (draft: Option<Draft>)
    requires start < |lines|
    ensures draft == DraftOf(rules, Drop(lines, start), name, from, scope)
  {
    var span := DeclarationSpan(rules, lines, start, false);
    if span.None? {
      return None;
    }
    var last := span.value.last - start;
    draft := Some(Draft(last, Column(lines[start], name, from), name, scope, rules.normalize(Text(span.value.parts))));
  }

  method ReadFormal(rules: Rules, lines: seq<string>, cursor: nat) returns (formal: Formal)
    requires cursor < |lines|
    ensures formal == FormalOn(rules, Drop(lines, cursor))
  {
    var code := CodeTokens(lines[cursor]);
    if code.None? {
      return Unread;
    }
    var name := FormalName(rules, code.value);
    if name.None? {
      return NoFormal;
    }
    var draft := ReadDraft(rules, lines, cursor, name.value.0, name.value.1, "generic " + name.value.0);
    formal := if draft.Some? then Formal(draft.value) else Unread;
  }

  /** The formals collected, and the lines taken, once a line is read. */
  function WithFormal(formals: seq<IndexEntry>, formal: Formal, number: nat): seq<IndexEntry> {
    if formal.Formal? then formals + [Place(formal.draft, number)] else formals
  }

  function Taken(formal: Formal): (n: nat)
    ensures n > 0
  {
    if formal.Formal? then formal.draft.last + 1 else 1
  }

  lemma FormalLine(look: Formalizing, rest: seq<string>, number: nat, count: int, formals: seq<IndexEntry>)
    requires rest != [] && count > 0
    ensures var formal := look(rest);
            var n := Taken(formal);
            Ahead(formals, Formals(look, rest, number, count)) ==
            if formal.Unread? then None
            else Ahead(WithFormal(formals, formal, number), Formals(look, Drop(rest, n), number + n, count - n))
  {
    match look(rest)
    case Formal(draft) =>
      var n := draft.last + 1;
      var others := Formals(look, Drop(rest, n), number + n, count - n);
      if others.Some? {
        assert formals + ([Place(draft, number)] + others.value) == formals + [Place(draft, number)] + others.value;
      }
    case _ =>
  }

  /** The same, of the lines and numbers behind what is taken. */
  lemma FormalTaken(look: Formalizing, rest: seq<string>, rest': seq<string>, number: nat, number': nat, count: int, count': int,
                    formals: seq<IndexEntry>)
    requires rest != [] && count > 0
    requires rest' == Drop(rest, Taken(look(rest))) && number' == number + Taken(look(rest)) && count' == count - Taken(look(rest))
    ensures look(rest).Unread? ==> Ahead(formals, Formals(look, rest, number, count)).None?
    ensures !look(rest).Unread? ==>
              Ahead(formals, Formals(look, rest, number, count)) ==
              Ahead(WithFormal(formals, look(rest), number), Formals(look, rest', number', count'))
  {
    FormalLine(look, rest, number, count, formals);
  }

  lemma FormalsDone(look: Formalizing, rest: seq<string>, number: nat, count: int, formals: seq<IndexEntry>)
    requires count <= 0
    ensures Ahead(formals, Formals(look, rest, number, count)) == Some(formals)
  {
    assert formals + [] == formals;
  }

  lemma DropTwice(lines: seq<string>, n: nat, m: nat)
    ensures Drop(Drop(lines, n), m) == Drop(lines, n + m)
  {
    if n + m <= |lines| {
      assert lines[n..][m..] == lines[n + m..];
    }
  }

  lemma FormalizingHolds(rules: Rules)
    ensures Formalizes(FormalizingOf(rules), rules)
  {
  }

  /** _generic_formals */
  method GenericFormals(rules: Rules, ghost look: Formalizing, lines: seq<string>, start: nat, stop: nat)
    returns (formals: Option<seq<IndexEntry>>)
    requires stop <= |lines| && Formalizes(look, rules)
    ensures formals == Formals(look, Drop(lines, start), start, stop - start)
  {
    ghost var after := (n: nat) => FormalsAt(look, lines, n, stop);
    formals := CollectFormals(rules, look, lines, start, stop, after);
  }

  /** The formals from a line on. */
  function FormalsAt(look: Formalizing, lines: seq<string>, n: nat, stop: nat): Option<seq<IndexEntry>> {
    Formals(look, Drop(lines, n), n, stop - n)
  }

  type Following = nat -> Option<seq<IndexEntry>>

  ghost predicate Collects(after: Following, look: Formalizing, lines: seq<string>, stop: nat) {
    forall n: nat {:trigger FormalsAt(look, lines, n, stop)} :: after(n) == FormalsAt(look, lines, n, stop)
  }

  /** Its loop, in the terms of what follows every line. */
  method CollectFormals(rules: Rules, ghost look: Formalizing, lines: seq<string>, start: nat, stop: nat, ghost after: Following)
    returns (formals: Option<seq<IndexEntry>>)
    requires stop <= |lines| && Formalizes(look, rules) && Collects(after, look, lines, stop)
    ensures formals == after(start)
  {
    var found, cursor := [], start;
    AheadNothing(after(start));
    while cursor < stop
      invariant start <= cursor && Ahead(found, after(cursor)) == after(start)
      decreases stop - cursor
    {
      var formal := FormalHere(rules, look, lines, cursor);
      OneCollected(look, lines, found, cursor, stop, formal, after);
      if formal.Unread? {
        return None;
      }
      found, cursor := WithFormal(found, formal, cursor), cursor + Taken(formal);
    }
    AllCollected(look, lines, found, cursor, stop, after);
    formals := Some(found);
  }

  lemma AllCollected(look: Formalizing, lines: seq<string>, found: seq<IndexEntry>, cursor: nat, stop: nat, after: Following)
    requires cursor >= stop && Collects(after, look, lines, stop)
    ensures Ahead(found, after(cursor)) == Some(found)
  {
    assert after(cursor) == FormalsAt(look, lines, cursor, stop);
    FormalsDone(look, Drop(lines, cursor), cursor, stop - cursor, found);
  }

  lemma OneCollected(look: Formalizing, lines: seq<string>, found: seq<IndexEntry>, cursor: nat, stop: nat, formal: Formal,
                     after: Following)
    requires cursor < stop <= |lines| && formal == look(Drop(lines, cursor)) && Collects(after, look, lines, stop)
    ensures formal.Unread? ==> Ahead(found, after(cursor)).None?
    ensures !formal.Unread? ==>
              Ahead(found, after(cursor)) == Ahead(WithFormal(found, formal, cursor), after(cursor + Taken(formal)))
  {
    var n := Taken(formal);
    assert after(cursor) == FormalsAt(look, lines, cursor, stop);
    assert after(cursor + n) == FormalsAt(look, lines, cursor + n, stop);
    DropTwice(lines, cursor, n);
    FormalTaken(look, Drop(lines, cursor), Drop(lines, cursor + n), cursor, cursor + n, stop - cursor, stop - (cursor + n), found);
  }

  ghost predicate Formalizes(look: Formalizing, rules: Rules) {
    forall rest {:trigger FormalOn(rules, rest)} :: look(rest) == FormalOn(rules, rest)
  }

  method FormalHere(rules: Rules, ghost look: Formalizing, lines: seq<string>, cursor: nat) returns (formal: Formal)
    requires cursor < |lines| && Formalizes(look, rules)
    ensures formal == look(Drop(lines, cursor))
  {
    formal := ReadFormal(rules, lines, cursor);
  }

  // ----- literals, sights and turns

  function Lower(n: nat, place: Option<(nat, nat)>): Option<(nat, nat)> {
    if place.Some? then Some((n + place.value.0, place.value.1)) else None
  }

  lemma LowerTwice(n: nat, place: Option<(nat, nat)>)
    ensures Lower(n, Lower(1, place)) == Lower(n + 1, place)
  {
  }

  lemma FindLineStep(window: seq<string>, text: string)
    requires window != []
    ensures FindLine(window, text) ==
            var k := FindText(window[0], 0, text);
            if k.Some? then Some((0, k.value)) else Lower(1, FindLine(window[1..], text))
  {
  }

  lemma LineLower(window: seq<string>, text: string, n: nat)
    requires window != []
    ensures Lower(n, FindLine(window, text)) ==
            var k := FindText(window[0], 0, text);
            if k.Some? then Some((n, k.value)) else Lower(n + 1, FindLine(window[1..], text))
  {
    FindLineStep(window, text);
    LowerTwice(n, FindLine(window[1..], text));
  }

  /** The inner loop of _enumeration_literals. */
  method FindLiteral(lines: seq<string>, start: nat, stop: nat, text: string) returns (place: Option<(nat, nat)>)
    requires start <= stop <= |lines|
    ensures place == FindLine(lines[start..stop], text)
  {
    var cursor := start;
    ghost var window := lines[start..stop];
    ghost var goal := FindLine(window, text);
    while cursor < stop
      invariant start <= cursor <= stop && window == lines[cursor..stop]
      invariant Lower(cursor - start, FindLine(window, text)) == goal
    {
      LineLower(window, text, cursor - start);
      var column := FindText(lines[cursor], 0, text);
      if column.Some? {
        return Some((cursor - start, column.value));
      }
      cursor, window := cursor + 1, window[1..];
    }
    place := None;
  }

  /** The declaration of a literal found at some place. */
  function LiteralAt(place: Option<(nat, nat)>, number: nat, name: string, scope: string, signature: string): seq<IndexEntry> {
    match place
    case None => []
    case Some((n, k)) => [IndexEntry(number + n + 1, number + n + 1, k + 1, name, scope + "." + name, signature)]
  }

  lemma FirstLiteral(rest: seq<string>, length: nat, number: nat, names: seq<string>, scope: string, signature: string)
    requires names != [] && length <= |rest|
    ensures LiteralDeclarations(rest, length, number, names, scope, signature) ==
            LiteralAt(FindLine(rest[..length], names[0]), number, names[0], scope, signature) +
            LiteralDeclarations(rest, length, number, names[1..], scope, signature)
  {
  }

  /** What the outer loop comes to from a name on. */
  function Listed(literals: seq<IndexEntry>, others: seq<IndexEntry>): seq<IndexEntry> {
    literals + others
  }

  lemma ListedMore(literals: seq<IndexEntry>, first: seq<IndexEntry>, others: seq<IndexEntry>)
    ensures Listed(literals, first + others) == Listed(literals + first, others)
  {
  }

  lemma LiteralTaken(rest: seq<string>, length: nat, number: nat, names: seq<string>, scope: string, signature: string,
                     literals: seq<IndexEntry>, first: seq<IndexEntry>)
    requires names != [] && length <= |rest| && first == LiteralAt(FindLine(rest[..length], names[0]), number, names[0], scope, signature)
    ensures Listed(literals, LiteralDeclarations(rest, length, number, names, scope, signature)) ==
            Listed(literals + first, LiteralDeclarations(rest, length, number, names[1..], scope, signature))
  {
    FirstLiteral(rest, length, number, names, scope, signature);
    ListedMore(literals, first, LiteralDeclarations(rest, length, number, names[1..], scope, signature));
  }

  lemma WindowOf(lines: seq<string>, start: nat, last: nat)
    requires start + last < |lines|
    ensures last + 1 <= |Drop(lines, start)| && Drop(lines, start)[..last + 1] == lines[start..start + last + 1]
  {
  }

  /** _enumeration_literals, for the names it lists. */
  method EnumerationLiterals(lines: seq<string>, start: nat, last: nat, names: seq<string>, scope: string, signature: string)
    returns (literals: seq<IndexEntry>)
    requires start + last < |lines|
    ensures literals == LiteralDeclarations(Drop(lines, start), last + 1, start, names, scope, signature)
  {
    literals := [];
    ghost var rest, goal := Drop(lines, start), LiteralDeclarations(Drop(lines, start), last + 1, start, names, scope, signature);
    WindowOf(lines, start, last);
    var names := names;
    while names != []
      invariant Listed(literals, LiteralDeclarations(rest, last + 1, start, names, scope, signature)) == goal
      decreases |names|
    {
      var place := FindLiteral(lines, start, start + last + 1, names[0]);
      var first := LiteralAt(place, start, names[0], scope, signature);
      LiteralTaken(rest, last + 1, start, names, scope, signature, literals, first);
      literals, names := literals + first, names[1..];
    }
  }

  method SeePackage(rules: Rules, lines: seq<string>, number: nat, stack: seq<Scope>, header: Header, name: string)
    returns (sight: Sight)
    requires number < |lines|
    ensures sight == PackageSight(rules, Drop(lines, number), stack, header, name)
  {
    var span := DeclarationSpan(rules, lines, number, true);
    if span.None? {
      return Error;
    }
    var package := PackageOf(rules, lines[number], stack, header, name, span.value.(last := span.value.last - number));
    sight := Packages(package.0, package.1);
  }

  method SeeComponent(rules: Rules, lines: seq<string>, number: nat, stack: seq<Scope>, name: string) returns (sight: Sight)
    requires number < |lines|
    ensures sight == ComponentSight(rules, Drop(lines, number), stack, name)
  {
    if !InPackage(stack) {
      return Skipped;
    }
    var scope := if InRecord(stack) then ScopeName(stack) else Join(".", PackageNames(stack));
    var draft := ReadDraft(rules, lines, number, name, 0, scope + "." + name);
    sight := Declaring(draft);
  }

  method SeeDeclaration(rules: Rules, lines: seq<string>, number: nat, stack: seq<Scope>, header: Header, name: string)
    returns (sight: Sight)
    requires number < |lines|
    ensures sight == DeclarationSight(rules, Drop(lines, number), stack, header, name)
    ensures sight.Types? ==> number + sight.draft.last < |lines|
  {
    if !InPackage(stack) {
      return Error;
    }
    var draft := ReadDraft(rules, lines, number, name, header.end, ScopeName(stack) + "." + name);
    if draft.None? {
      return Error;
    }
    var rest := lines[number..];
    var literals := LiteralNames(rules, rest, header.kind, draft.value);
    if literals.None? {
      return Error;
    }
    var head := RecordOf(rules, rest, header.kind, draft.value.signature);
    var end: Option<nat> := None;
    DropTwice(lines, number, 2);
    if head.Inside? || head.Below? {
      end := FindRecordEnd(rules, lines, number + 2);
    }
    sight := Types(draft.value, literals.value, head, end);
  }

  /** What a turn of the main loop finds on its line. */
  method See(rules: Rules, lines: seq<string>, number: nat, stack: seq<Scope>, pending: bool) returns (sight: Sight)
    requires number < |lines|
    ensures sight == Look(rules, Drop(lines, number), stack, pending)
    ensures sight.Types? ==> number + sight.draft.last < |lines|
  {
    var code := CodeTokens(lines[number]);
    if code.None? {
      return Error;
    }
    var header, component := rules.header(code.value), rules.component(code.value);
    if header.None? && component.None? {
      sight := PlainSight(rules, code.value);
    } else if header.None? {
      sight := SeeComponent(rules, lines, number, stack, component.value);
    } else if header.value.name.None? {
      sight := Skipped;
    } else if header.value.kind.PackageKind? {
      sight := SeePackage(rules, lines, number, stack, header.value, header.value.name.value);
    } else if header.value.kind.TypeKind? && pending && !InPackage(stack) {
      var name := header.value.name.value;
      var draft := ReadDraft(rules, lines, number, name, header.value.end, "generic " + name);
      sight := Declaring(draft);
    } else {
      sight := SeeDeclaration(rules, lines, number, stack, header.value, header.value.name.value);
    }
  }

  ghost predicate Sees(see: Seeing, rules: Rules) {
    forall rest, stack, pending {:trigger Look(rules, rest, stack, pending)} :: see(rest, stack, pending) == Look(rules, rest, stack, pending)
  }

  method SeeHere(rules: Rules, ghost see: Seeing, lines: seq<string>, number: nat, s: State) returns (sight: Sight)
    requires number < |lines| && Sees(see, rules)
    ensures sight == see(Drop(lines, number), s.stack, s.pending != [])
    ensures sight.Types? ==> number + sight.draft.last < |lines|
  {
    sight := See(rules, lines, number, s.stack, s.pending != []);
  }

  /** One turn of the main loop. */
  method TakeTurn(rules: Rules, ghost see: Seeing, ghost look: Formalizing, lines: seq<string>, number: nat, s: State)
    returns (turn: Option<Turn>)
    requires number < |lines| && Sees(see, rules) && Formalizes(look, rules)
    ensures turn == StepAt(see, look, lines, number, s)
  {
    var sight := SeeHere(rules, see, lines, number, s);
    match sight {
      case Error => turn := None;
      case Skipped => turn := Some(Turn(s, number + 1));
      case Generic => turn := Some(Turn(s.(pending := s.pending + [number]), number + 1));
      case Closes(closing) =>
        var stack := CloseScopes(s.stack, closing);
        turn := if stack.Some? then Some(Turn(s.(stack := stack.value), number + 1)) else None;
      case Declares(draft) => turn := Some(Turn(s.(found := s.found + [Place(draft, number)]), number + draft.last + 1));
      case Packages(draft, instance) => turn := TakePackage(rules, look, lines, number, s, draft, instance);
      case Types(draft, names, head, end) => turn := TakeType(lines, number, s, draft, names, head, end);
    }
  }

  lemma PendingFormals(look: Formalizing, lines: seq<string>, pending: seq<nat>, number: nat)
    ensures FormalsFrom(look, lines, FirstFormal(pending), number) ==
            if pending == [] then Some([])
            else Formals(look, Drop(lines, pending[0] + 1), pending[0] + 1, number - (pending[0] + 1))
  {
  }

  method TakeFormals(rules: Rules, ghost look: Formalizing, lines: seq<string>, pending: seq<nat>, number: nat)
    returns (formals: Option<seq<IndexEntry>>)
    requires number < |lines| && Formalizes(look, rules)
    ensures formals == FormalsFrom(look, lines, FirstFormal(pending), number)
  {
    PendingFormals(look, lines, pending, number);
    if pending == [] {
      return Some([]);
    }
    formals := GenericFormals(rules, look, lines, pending[0] + 1, number);
  }

  method TakePackage(rules: Rules, ghost look: Formalizing, lines: seq<string>, number: nat, s: State, draft: Draft, instance: bool)
    returns (turn: Option<Turn>)
    requires number < |lines| && Formalizes(look, rules)
    ensures turn == EnterPackage(draft, instance, FormalsFrom(look, lines, FirstFormal(s.pending), number), number, s)
  {
    var formals := TakeFormals(rules, look, lines, s.pending, number);
    turn := EnterPackage(draft, instance, formals, number, s);
  }

  method TakeType(lines: seq<string>, number: nat, s: State, draft: Draft, names: seq<string>, head: RecordHead, end: Option<nat>)
    returns (turn: Option<Turn>)
    requires number + draft.last < |lines|
    ensures forall look :: turn == Act(Types(draft, names, head, end), look, lines, number, s)
  {
    var literals := EnumerationLiterals(lines, number, draft.last, names, draft.scope, draft.signature);
    turn := RecordTurn(head, end, number, s.(found := s.found + [Place(draft, number)] + literals), draft.name, draft.last);
  }

  lemma SeeingHolds(rules: Rules)
    ensures Sees(SeeingOf(rules), rules)
  {
  }

  method DeclarationIndex(rules: Rules, lines: seq<string>) returns (found: Option<seq<IndexEntry>>)
    ensures found == Index(rules, lines)
  {
    SeeingHolds(rules);
    FormalizingHolds(rules);
    found := RunIndex(rules, SeeingOf(rules), FormalizingOf(rules), lines);
  }

  /** Its loop. */
  method RunIndex(rules: Rules, ghost see: Seeing, ghost look: Formalizing, lines: seq<string>) returns (found: Option<seq<IndexEntry>>)
    requires Sees(see, rules) && Formalizes(look, rules)
    ensures found == IndexRest(see, look, lines, 0, EMPTY)
  {
    var s := EMPTY;
    var index := 0;
    ghost var goal := IndexRest(see, look, lines, 0, EMPTY);
    while index < |lines|
      invariant IndexRest(see, look, lines, index, s) == goal
    {
      var turn := TakeTurn(rules, see, look, lines, index, s);
      match turn {
        case None => return None;
        case Some(turn) => index, s := turn.next, turn.state;
      }
    }
    found := if s.stack == [] then Some(s.found) else None;
  }
}
