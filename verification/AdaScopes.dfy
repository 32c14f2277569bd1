/** What the index of Ada declarations holds: every declaration under the headers still open at its
    line, found by counting headers and ends. */
module AdaScopes {
  import opened Texts
  import opened AdaCode
  import opened AdaIndex

  // ----- the lines a run stops at

  /** A line the main loop looks at, the state it is met in, and what it shows. */
  datatype Visit = Visit(line: nat, state: State, sight: Sight)

  function VisitAt(see: Seeing, lines: seq<string>, number: nat, s: State): Visit {
    Visit(number, s, see(Drop(lines, number), s.stack, s.pending != []))
  }

  /** The lines visited from some line on, in order. */
  function Visits(see: Seeing, look: Formalizing, lines: seq<string>, number: nat, s: State): seq<Visit>
    decreases |lines| - number
  {
    if number >= |lines| then []
    else
      match StepAt(see, look, lines, number, s)
      case None => [VisitAt(see, lines, number, s)]
      case Some(turn) => [VisitAt(see, lines, number, s)] + Visits(see, look, lines, turn.next, turn.state)
  }

  /** The scope a line opens: that of a package that is no instance, or of a record. */
  function Opens(v: Visit): Option<Scope> {
    match v.sight
    case Packages(draft, instance) => if instance then None else Some(Package(draft.name))
    case Types(draft, _, head, _) => if head.Inside? || head.Below? then Some(Record(draft.name)) else None
    case _ => None
  }

  predicate Shuts(v: Visit) {
    v.sight.Closes? && !v.sight.closing.EndsNothing?
  }

  /** Headers less ends in front of the k-th visit. */
  function Level(visits: seq<Visit>, k: nat): int
    requires k <= |visits|
  {
    if k == 0 then 0
    else Level(visits, k - 1) + if Opens(visits[k - 1]).Some? then 1 else if Shuts(visits[k - 1]) then -1 else 0
  }

  /** The i-th visit is a header, and no end up to the k-th has taken the count back to it. */
  predicate StillOpen(visits: seq<Visit>, i: nat, k: nat)
    requires k <= |visits|
  {
    i < k && Opens(visits[i]).Some? && forall j: nat :: i < j <= k ==> Level(visits, j) > Level(visits, i)
  }

  /** The headers open in front of the k-th visit, outermost first. */
  function OpenHeaders(visits: seq<Visit>, k: nat): (r: seq<nat>)
    requires k <= |visits|
    ensures forall p :: 0 <= p < |r| ==> r[p] < k && Opens(visits[r[p]]).Some?
  {
    if k == 0 then []
    else
      var before := OpenHeaders(visits, k - 1);
      if Opens(visits[k - 1]).Some? then before + [k - 1]
      else if Shuts(visits[k - 1]) && before != [] then before[..|before| - 1]
      else before
  }

  function Chain(visits: seq<Visit>, k: nat): (r: seq<Scope>)
    requires k <= |visits|
    ensures |r| == |OpenHeaders(visits, k)|
  {
    var open := OpenHeaders(visits, k);
    seq(|open|, p requires 0 <= p < |open| => Opens(visits[open[p]]).value)
  }

  /** No end comes without a header: as long as a run goes on. */
  predicate NeverBelow(visits: seq<Visit>, k: nat)
    requires k <= |visits|
  {
    forall j: nat :: j <= k ==> Level(visits, j) >= 0
  }

  /** The p-th header is the one that raised the count from p. */
  predicate Levelled(visits: seq<Visit>, k: nat, open: seq<nat>)
    requires k <= |visits|
  {
    |open| == Level(visits, k) && forall p: nat :: p < |open| ==> open[p] < k && Level(visits, open[p]) == p
  }

  lemma {:induction false} HeadersLevelled(visits: seq<Visit>, k: nat)
    requires k <= |visits| && NeverBelow(visits, k)
    ensures Levelled(visits, k, OpenHeaders(visits, k))
  {
    if k > 0 {
      HeadersLevelled(visits, k - 1);
      assert Level(visits, k) >= 0;
    }
  }

  lemma OpenStep(visits: seq<Visit>, i: nat, k: nat)
    requires i < k < |visits|
    ensures StillOpen(visits, i, k + 1) <==> StillOpen(visits, i, k) && Level(visits, k + 1) > Level(visits, i)
  {
  }

  /** They are exactly the headers still open, in the order of their lines. */
  lemma {:induction false} HeadersAreOpen(visits: seq<Visit>, k: nat)
    requires k <= |visits| && NeverBelow(visits, k)
    ensures forall i: nat :: i in OpenHeaders(visits, k) <==> StillOpen(visits, i, k)
    ensures var open := OpenHeaders(visits, k); forall p, q :: 0 <= p < q < |open| ==> open[p] < open[q]
  {
    if k > 0 {
      HeadersAreOpen(visits, k - 1);
      HeadersLevelled(visits, k - 1);
      HeadersLevelled(visits, k);
      forall i: nat
        ensures i in OpenHeaders(visits, k) <==> StillOpen(visits, i, k)
      {
        OneHeader(visits, i, k - 1);
      }
    }
  }

  lemma OneHeader(visits: seq<Visit>, i: nat, k: nat)
    requires k < |visits| && NeverBelow(visits, k + 1) && Levelled(visits, k, OpenHeaders(visits, k))
    requires i in OpenHeaders(visits, k) <==> StillOpen(visits, i, k)
    ensures i in OpenHeaders(visits, k + 1) <==> StillOpen(visits, i, k + 1)
  {
    var before := OpenHeaders(visits, k);
    if i == k {
      assert StillOpen(visits, k, k + 1) <==> Opens(visits[k]).Some?;
    } else if i < k {
      OpenStep(visits, i, k);
      if Shuts(visits[k]) {
        assert Level(visits, k + 1) >= 0;
        LastTaken(visits, before, i, k);
      }
    }
  }

  /** An end takes away the header with the greatest count, and no other. */
  lemma LastTaken(visits: seq<Visit>, before: seq<nat>, i: nat, k: nat)
    requires k <= |visits| && Levelled(visits, k, before) && before != [] && i <= |visits|
    ensures i in before[..|before| - 1] <==> i in before && Level(visits, i) < |before| - 1
  {
    if i in before {
      var p: nat :| p < |before| && before[p] == i;
      assert Level(visits, i) == p;
      if p < |before| - 1 {
        assert before[..|before| - 1][p] == i;
      }
    }
    if i in before[..|before| - 1] {
      var p: nat :| p < |before| - 1 && before[..|before| - 1][p] == i;
      assert before[p] == i;
    }
  }

  // ----- the stack of the loop

  /** The innermost scope is of the kind that is ended. */
  predicate Ends(stack: seq<Scope>, closing: Closing) {
    stack != [] && stack[|stack| - 1].Record? == closing.EndsRecord?
  }

  /** The stack behind a visit that the loop gets past. */
  ghost predicate Follows(v: Visit, next: Visit) {
    next.state.stack ==
    (if Opens(v).Some? then v.state.stack + [Opens(v).value]
     else if Shuts(v) && v.state.stack != [] then v.state.stack[..|v.state.stack| - 1]
     else v.state.stack) &&
    (Shuts(v) ==> Ends(v.state.stack, v.sight.closing))
  }

  ghost predicate Linked(visits: seq<Visit>) {
    forall k: nat :: k + 1 < |visits| ==> Follows(visits[k], visits[k + 1])
  }

  lemma StackAfter(see: Seeing, look: Formalizing, lines: seq<string>, number: nat, s: State, next: nat)
    requires StepAt(see, look, lines, number, s).Some?
    ensures Follows(VisitAt(see, lines, number, s), VisitAt(see, lines, next, StepAt(see, look, lines, number, s).value.state))
  {
  }

  lemma {:induction false} RunLinked(see: Seeing, look: Formalizing, lines: seq<string>, number: nat, s: State)
    ensures var visits := Visits(see, look, lines, number, s);
            Linked(visits) && (number < |lines| ==> visits != [] && visits[0] == VisitAt(see, lines, number, s))
    decreases |lines| - number
  {
    if number < |lines| {
      var turn := StepAt(see, look, lines, number, s);
      if turn.Some? {
        RunLinked(see, look, lines, turn.value.next, turn.value.state);
        StackAfter(see, look, lines, number, s, turn.value.next);
        LinkedAhead(VisitAt(see, lines, number, s), Visits(see, look, lines, turn.value.next, turn.value.state));
      }
    }
  }

  lemma LinkedAhead(v: Visit, visits: seq<Visit>)
    requires Linked(visits) && (visits != [] ==> Follows(v, visits[0]))
    ensures Linked([v] + visits)
  {
    var all := [v] + visits;
    forall k: nat | k + 1 < |all|
      ensures Follows(all[k], all[k + 1])
    {
      if k > 0 {
        assert Follows(visits[k - 1], visits[k]);
      }
    }
  }

  /** The loop's stack is the chain of headers still open, and no end ever comes without its header. */
  lemma {:induction false} StackIsChain(visits: seq<Visit>, k: nat)
    requires k < |visits| && Linked(visits) && visits[0].state.stack == []
    ensures NeverBelow(visits, k) && visits[k].state.stack == Chain(visits, k)
  {
    if k > 0 {
      StackIsChain(visits, k - 1);
      assert Follows(visits[k - 1], visits[k]);
      NextNotBelow(visits, k - 1);
      ChainStep(visits, k - 1);
    }
  }

  lemma NextNotBelow(visits: seq<Visit>, k: nat)
    requires k < |visits| && NeverBelow(visits, k) && |Chain(visits, k)| == |visits[k].state.stack|
    requires Shuts(visits[k]) ==> visits[k].state.stack != []
    ensures NeverBelow(visits, k + 1)
  {
    HeadersLevelled(visits, k);
  }

  lemma ChainStep(visits: seq<Visit>, k: nat)
    requires k < |visits|
    ensures Chain(visits, k + 1) ==
            if Opens(visits[k]).Some? then Chain(visits, k) + [Opens(visits[k]).value]
            else if Shuts(visits[k]) && Chain(visits, k) != [] then Chain(visits, k)[..|Chain(visits, k)| - 1]
            else Chain(visits, k)
  {
  }

  // ----- the declarations of the index

  /** What no later line changes about a declaration. */
  type Head = (Line, nat, string, string)

  function HeadOf(d: IndexEntry): Head {
    (d.start, d.column, d.name, d.scope)
  }

  function Heads(found: seq<IndexEntry>): (r: seq<Head>)
    ensures |r| == |found|
  {
    seq(|found|, i requires 0 <= i < |found| => HeadOf(found[i]))
  }

  /** What a visit adds to the index. */
  function Adds(look: Formalizing, lines: seq<string>, v: Visit): seq<IndexEntry> {
    match v.sight
    case Declares(draft) => [Place(draft, v.line)]
    case Packages(draft, _) =>
      FormalsFrom(look, lines, FirstFormal(v.state.pending), v.line).GetOr([]) + [Place(draft, v.line)]
    case Types(draft, names, _, _) =>
      [Place(draft, v.line)] +
      LiteralDeclarations(Drop(lines, v.line), draft.last + 1, v.line, names, draft.scope, draft.signature)
    case _ => []
  }

  function AllAdded(look: Formalizing, lines: seq<string>, visits: seq<Visit>): seq<Head> {
    if visits == [] then [] else Heads(Adds(look, lines, visits[0])) + AllAdded(look, lines, visits[1..])
  }

  lemma HeadsJoin(a: seq<IndexEntry>, b: seq<IndexEntry>)
    ensures Heads(a + b) == Heads(a) + Heads(b)
  {
  }

  lemma HeadsKept(lines: Option<nat>, number: nat, s: State, name: string, signature: string, next: nat)
    requires EnterRecord(lines, number, s, name, signature, next).Some?
    ensures Heads(EnterRecord(lines, number, s, name, signature, next).value.state.found) == Heads(s.found)
  {
  }

  lemma RecordKept(head: RecordHead, lines: Option<nat>, number: nat, s: State, name: string, last: nat)
    requires RecordTurn(head, lines, number, s, name, last).Some?
    ensures Heads(RecordTurn(head, lines, number, s, name, last).value.state.found) == Heads(s.found)
  {
    match head
    case Inside(signature) => HeadsKept(lines, number, s, name, signature, number + 1);
    case Below(signature) => HeadsKept(lines, number, s, name, signature, number + 2);
    case _ =>
  }

  /** One turn adds what its visit says, and changes no head already there. */
  lemma TurnAdds(see: Seeing, look: Formalizing, lines: seq<string>, number: nat, s: State)
    requires StepAt(see, look, lines, number, s).Some?
    ensures Heads(StepAt(see, look, lines, number, s).value.state.found) ==
            Heads(s.found) + Heads(Adds(look, lines, VisitAt(see, lines, number, s)))
  {
    var v := VisitAt(see, lines, number, s);
    match v.sight
    case Types(draft, names, head, length) =>
      var literals := LiteralDeclarations(Drop(lines, number), draft.last + 1, number, names, draft.scope, draft.signature);
      var found := s.found + [Place(draft, number)] + literals;
      RecordKept(head, length, number, s.(found := found), draft.name, draft.last);
      assert found == s.found + Adds(look, lines, v);
      HeadsJoin(s.found, Adds(look, lines, v));
    case Packages(draft, _) =>
      var formals := FormalsFrom(look, lines, FirstFormal(s.pending), number).GetOr([]);
      assert s.found + formals + [Place(draft, number)] == s.found + (formals + [Place(draft, number)]);
      HeadsJoin(s.found, Adds(look, lines, v));
    case Declares(_) =>
      HeadsJoin(s.found, Adds(look, lines, v));
    case _ =>
      NothingAdded(s.found);
  }

  lemma NothingAdded(found: seq<IndexEntry>)
    ensures Heads(found) + Heads([]) == Heads(found)
  {
  }

  lemma RunTurn(see: Seeing, look: Formalizing, lines: seq<string>, number: nat, s: State, turn: Turn)
    requires number < |lines| && StepAt(see, look, lines, number, s) == Some(turn)
    ensures IndexRest(see, look, lines, number, s) == IndexRest(see, look, lines, turn.next, turn.state)
    ensures Visits(see, look, lines, number, s) ==
            [VisitAt(see, lines, number, s)] + Visits(see, look, lines, turn.next, turn.state)
  {
  }

  lemma AddedAhead(look: Formalizing, lines: seq<string>, v: Visit, visits: seq<Visit>)
    ensures AllAdded(look, lines, [v] + visits) == Heads(Adds(look, lines, v)) + AllAdded(look, lines, visits)
  {
    assert ([v] + visits)[1..] == visits;
  }

  /** The index holds what the visits add, in order, and nothing else. */
  lemma {:induction false} IndexIsAdded(see: Seeing, look: Formalizing, lines: seq<string>, number: nat, s: State)
    requires IndexRest(see, look, lines, number, s).Some?
    ensures Heads(IndexRest(see, look, lines, number, s).value) ==
            Heads(s.found) + AllAdded(look, lines, Visits(see, look, lines, number, s))
    decreases |lines| - number
  {
    if number < |lines| {
      var turn := StepAt(see, look, lines, number, s).value;
      RunTurn(see, look, lines, number, s, turn);
      IndexIsAdded(see, look, lines, turn.next, turn.state);
      TurnAdds(see, look, lines, number, s);
      var v, visits := VisitAt(see, lines, number, s), Visits(see, look, lines, turn.next, turn.state);
      AddedAhead(look, lines, v, visits);
      HeadsInOrder(Heads(s.found), Heads(Adds(look, lines, v)), AllAdded(look, lines, visits));
    }
  }

  lemma HeadsInOrder(a: seq<Head>, b: seq<Head>, c: seq<Head>)
    ensures a + b + c == a + (b + c)
  {
  }

  // ----- their scopes

  function Qualified(chain: seq<Scope>, name: string): string {
    var scope := Join(".", PackageNames(chain));
    if scope == "" then name else scope + "." + name
  }

  /** The declaration of the line itself: a package under the packages around it, and anything else
      under packages and records, or under generic where no package is open. */
  predicate OwnScope(v: Visit, d: IndexEntry, chain: seq<Scope>) {
    d.start == v.line + 1 &&
    match v.sight
    case Packages(draft, _) => d.name == draft.name && d.scope == Qualified(chain, d.name)
    case Declares(draft) => d.name == draft.name && d.scope == (if InPackage(chain) then ScopeName(chain) + "." else "generic ") + d.name
    case Types(draft, _, _, _) => d.name == draft.name && InPackage(chain) && d.scope == ScopeName(chain) + "." + d.name
    case _ => false
  }

  /** A formal in front of its package, or a literal in the lines of its type. */
  predicate FollowingScope(v: Visit, d: IndexEntry, chain: seq<Scope>) {
    match v.sight
    case Packages(_, _) => d.start <= v.line && d.scope == "generic " + d.name
    case Types(draft, names, _, _) =>
      InPackage(chain) && d.name in names && v.line + 1 <= d.start <= v.line + draft.last + 1 &&
      d.scope == ScopeName(chain) + "." + draft.name + "." + d.name
    case _ => false
  }

  lemma ChainOfPackages(stack: seq<Scope>)
    requires !InRecord(stack)
    ensures ScopeName(stack) == Join(".", PackageNames(stack))
  {
    NamesOfPackages(stack);
  }

  lemma {:induction false} NamesOfPackages(stack: seq<Scope>)
    requires !InRecord(stack)
    ensures ScopeNames(stack) == PackageNames(stack)
  {
    if stack != [] {
      assert !stack[0].Record?;
      assert forall i :: 0 <= i < |stack[1..]| ==> stack[1..][i] == stack[i + 1];
      NamesOfPackages(stack[1..]);
    }
  }

  /** What a sight says of its own declaration. */
  predicate SightScoped(sight: Sight, stack: seq<Scope>) {
    match sight
    case Packages(draft, _) => draft.scope == Qualified(stack, draft.name)
    case Declares(draft) => draft.scope == (if InPackage(stack) then ScopeName(stack) + "." else "generic ") + draft.name
    case Types(draft, _, _, _) => InPackage(stack) && draft.scope == ScopeName(stack) + "." + draft.name
    case _ => true
  }

  lemma ComponentScoped(rules: Rules, rest: seq<string>, stack: seq<Scope>, name: string)
    requires rest != []
    ensures SightScoped(ComponentSight(rules, rest, stack, name), stack)
  {
    if !InRecord(stack) {
      ChainOfPackages(stack);
    }
  }

  lemma PackageScoped(rules: Rules, rest: seq<string>, stack: seq<Scope>, header: Header, name: string)
    requires rest != []
    ensures SightScoped(PackageSight(rules, rest, stack, header, name), stack)
  {
  }

  lemma DeclarationSightScoped(rules: Rules, rest: seq<string>, stack: seq<Scope>, header: Header, name: string)
    requires rest != []
    ensures SightScoped(DeclarationSight(rules, rest, stack, header, name), stack)
  {
  }

  lemma FormalTypeScoped(rules: Rules, rest: seq<string>, stack: seq<Scope>, name: string, from: nat)
    requires rest != [] && !InPackage(stack)
    ensures SightScoped(Declaring(DraftOf(rules, rest, name, from, "generic " + name)), stack)
  {
  }

  lemma LookScoped(rules: Rules, rest: seq<string>, stack: seq<Scope>, pending: bool)
    ensures SightScoped(Look(rules, rest, stack, pending), stack)
  {
    if rest != [] && Code(rest[0]).Some? {
      var code := Code(rest[0]).value;
      var header := rules.header(code);
      if header.None? {
        if rules.component(code).Some? {
          ComponentScoped(rules, rest, stack, rules.component(code).value);
        }
      } else if header.value.name.Some? {
        var name := header.value.name.value;
        PackageScoped(rules, rest, stack, header.value, name);
        DeclarationSightScoped(rules, rest, stack, header.value, name);
        if !InPackage(stack) {
          FormalTypeScoped(rules, rest, stack, name, header.value.end);
        }
      }
    }
  }

  /** The draft of a visit, placed on its line, is in its own scope. */
  lemma OwnScopeSeen(rules: Rules, lines: seq<string>, v: Visit)
    requires v == VisitAt(SeeingOf(rules), lines, v.line, v.state)
    ensures match v.sight
            case Declares(draft) => OwnScope(v, Place(draft, v.line), v.state.stack)
            case Packages(draft, _) => OwnScope(v, Place(draft, v.line), v.state.stack)
            case Types(draft, _, _, _) => OwnScope(v, Place(draft, v.line), v.state.stack)
            case _ => true
  {
    LookScoped(rules, Drop(lines, v.line), v.state.stack, v.state.pending != []);
  }

  predicate GenericBefore(d: IndexEntry, number: nat, stop: int) {
    number < d.start <= stop && d.scope == "generic " + d.name
  }

  predicate AllGeneric(found: seq<IndexEntry>, number: nat, stop: int) {
    forall i :: 0 <= i < |found| ==> GenericBefore(found[i], number, stop)
  }

  lemma GenericAhead(d: IndexEntry, others: seq<IndexEntry>, number: nat, later: nat, stop: int)
    requires GenericBefore(d, number, stop) && AllGeneric(others, later, stop) && number <= later
    ensures AllGeneric([d] + others, number, stop)
  {
  }

  ghost predicate LooksGeneric(look: Formalizing) {
    forall rest :: look(rest).Formal? ==> look(rest).draft.scope == "generic " + look(rest).draft.name
  }

  lemma FormalizingGeneric(rules: Rules)
    ensures LooksGeneric(FormalizingOf(rules))
  {
  }

  lemma {:induction false} FormalsGeneric(look: Formalizing, rest: seq<string>, number: nat, count: int)
    requires LooksGeneric(look)
    ensures AllGeneric(Formals(look, rest, number, count).GetOr([]), number, number + count)
    decreases |rest|
  {
    if rest != [] && count > 0 {
      match look(rest)
      case Unread =>
      case NoFormal =>
        FormalsGeneric(look, rest[1..], number + 1, count - 1);
        assert AllGeneric(Formals(look, rest[1..], number + 1, count - 1).GetOr([]), number, number + count);
      case Formal(draft) =>
        var n := draft.last + 1;
        FormalsGeneric(look, Drop(rest, n), number + n, count - n);
        GenericAhead(Place(draft, number), Formals(look, Drop(rest, n), number + n, count - n).GetOr([]), number, number + n,
                     number + count);
    }
  }

  lemma {:induction false} FoundInWindow(window: seq<string>, text: string)
    ensures FindLine(window, text).Some? ==> FindLine(window, text).value.0 < |window|
  {
    if window != [] {
      FoundInWindow(window[1..], text);
    }
  }

  predicate LiteralOf(d: IndexEntry, names: seq<string>, scope: string, number: nat, length: nat) {
    number < d.start <= number + length && d.name in names && d.scope == scope + "." + d.name
  }

  predicate AllLiterals(found: seq<IndexEntry>, names: seq<string>, scope: string, number: nat, length: nat) {
    forall i :: 0 <= i < |found| ==> LiteralOf(found[i], names, scope, number, length)
  }

  lemma LiteralsAhead(found: seq<IndexEntry>, name: string, names: seq<string>, scope: string, number: nat, length: nat)
    requires AllLiterals(found, names, scope, number, length)
    ensures AllLiterals(found, [name] + names, scope, number, length)
  {
  }

  lemma {:induction false} LiteralsListed(rest: seq<string>, length: nat, number: nat, names: seq<string>, scope: string,
                                          signature: string)
    ensures AllLiterals(LiteralDeclarations(rest, length, number, names, scope, signature), names, scope, number, length)
  {
    if names != [] {
      var others := LiteralDeclarations(rest, length, number, names[1..], scope, signature);
      LiteralsListed(rest, length, number, names[1..], scope, signature);
      LiteralsAhead(others, names[0], names[1..], scope, number, length);
      assert names == [names[0]] + names[1..];
      FoundInWindow(if length <= |rest| then rest[..length] else rest, names[0]);
    }
  }

  /** A declaration of the visited line, or of those that come with it. */
  predicate InScope(v: Visit, d: IndexEntry, chain: seq<Scope>) {
    OwnScope(v, d, chain) || FollowingScope(v, d, chain)
  }

  predicate AllInScope(v: Visit, found: seq<IndexEntry>, chain: seq<Scope>) {
    forall i :: 0 <= i < |found| ==> InScope(v, found[i], chain)
  }

  lemma FormalsInScope(rules: Rules, lines: seq<string>, v: Visit)
    requires v.sight.Packages?
    ensures AllInScope(v, FormalsFrom(FormalizingOf(rules), lines, FirstFormal(v.state.pending), v.line).GetOr([]), v.state.stack)
  {
    var first := FirstFormal(v.state.pending);
    if first.Some? {
      FormalizingGeneric(rules);
      FormalsGeneric(FormalizingOf(rules), Drop(lines, first.value), first.value, v.line - first.value);
    }
  }

  lemma LiteralsInScope(v: Visit, rest: seq<string>)
    requires v.sight.Types? && OwnScope(v, Place(v.sight.draft, v.line), v.state.stack)
    ensures AllInScope(v, LiteralDeclarations(rest, v.sight.draft.last + 1, v.line, v.sight.literals, v.sight.draft.scope,
                                              v.sight.draft.signature), v.state.stack)
  {
    var draft := v.sight.draft;
    var literals := LiteralDeclarations(rest, draft.last + 1, v.line, v.sight.literals, draft.scope, draft.signature);
    LiteralsListed(rest, draft.last + 1, v.line, v.sight.literals, draft.scope, draft.signature);
    forall i | 0 <= i < |literals|
      ensures FollowingScope(v, literals[i], v.state.stack)
    {
      assert LiteralOf(literals[i], v.sight.literals, draft.scope, v.line, draft.last + 1);
    }
  }

  lemma JoinInScope(v: Visit, a: seq<IndexEntry>, b: seq<IndexEntry>, chain: seq<Scope>)
    requires AllInScope(v, a, chain) && AllInScope(v, b, chain)
    ensures AllInScope(v, a + b, chain)
  {
  }

  lemma AddsInScope(rules: Rules, lines: seq<string>, v: Visit)
    requires v.line < |lines| && v == VisitAt(SeeingOf(rules), lines, v.line, v.state)
    ensures AllInScope(v, Adds(FormalizingOf(rules), lines, v), v.state.stack)
  {
    OwnScopeSeen(rules, lines, v);
    match v.sight
    case Packages(draft, _) =>
      FormalsInScope(rules, lines, v);
      JoinInScope(v, FormalsFrom(FormalizingOf(rules), lines, FirstFormal(v.state.pending), v.line).GetOr([]),
                  [Place(draft, v.line)], v.state.stack);
    case Types(draft, names, _, _) =>
      LiteralsInScope(v, Drop(lines, v.line));
      JoinInScope(v, [Place(draft, v.line)], LiteralDeclarations(Drop(lines, v.line), draft.last + 1, v.line, names, draft.scope,
                                                                 draft.signature), v.state.stack);
    case _ =>
  }

  // ----- the index as a whole

  function VisitsOf(rules: Rules, lines: seq<string>): seq<Visit> {
    Visits(SeeingOf(rules), FormalizingOf(rules), lines, 0, EMPTY)
  }

  lemma {:induction false} VisitsAre(see: Seeing, look: Formalizing, lines: seq<string>, number: nat, s: State, k: nat)
    requires k < |Visits(see, look, lines, number, s)|
    ensures var v := Visits(see, look, lines, number, s)[k];
            v.line < |lines| && v == VisitAt(see, lines, v.line, v.state)
    decreases |lines| - number
  {
    if k > 0 {
      var turn := StepAt(see, look, lines, number, s).value;
      VisitsAre(see, look, lines, turn.next, turn.state, k - 1);
    }
  }

  /** A head that all visits together add is added by one of them. */
  lemma {:induction false} AddedSomewhere(look: Formalizing, lines: seq<string>, visits: seq<Visit>, head: Head) returns (k: nat, i: nat)
    requires head in AllAdded(look, lines, visits)
    ensures k < |visits| && i < |Adds(look, lines, visits[k])| && HeadOf(Adds(look, lines, visits[k])[i]) == head
  {
    var first := Heads(Adds(look, lines, visits[0]));
    if head in first {
      k := 0;
      i :| 0 <= i < |first| && first[i] == head;
    } else {
      k, i := AddedSomewhere(look, lines, visits[1..], head);
      k := k + 1;
    }
  }

  /** Every declaration of the index stands in the scope of the headers still open at its line. */
  ghost predicate Scoped(visits: seq<Visit>, d: IndexEntry) {
    exists k: nat :: k < |visits| && InScope(visits[k], d, Chain(visits, k))
  }

  lemma AddedByVisit(see: Seeing, look: Formalizing, lines: seq<string>, d: IndexEntry) returns (k: nat, i: nat)
    requires IndexRest(see, look, lines, 0, EMPTY).Some? && d in IndexRest(see, look, lines, 0, EMPTY).value
    ensures var visits := Visits(see, look, lines, 0, EMPTY);
            k < |visits| && i < |Adds(look, lines, visits[k])| && HeadOf(Adds(look, lines, visits[k])[i]) == HeadOf(d)
  {
    var found, visits := IndexRest(see, look, lines, 0, EMPTY).value, Visits(see, look, lines, 0, EMPTY);
    var p :| 0 <= p < |found| && found[p] == d;
    IndexIsAdded(see, look, lines, 0, EMPTY);
    assert Heads(found)[p] == HeadOf(d);
    assert Heads([]) + AllAdded(look, lines, visits) == AllAdded(look, lines, visits);
    k, i := AddedSomewhere(look, lines, visits, HeadOf(d));
  }

  lemma StackOfVisit(see: Seeing, look: Formalizing, lines: seq<string>, k: nat)
    requires k < |Visits(see, look, lines, 0, EMPTY)|
    ensures var visits := Visits(see, look, lines, 0, EMPTY);
            NeverBelow(visits, k) && visits[k].state.stack == Chain(visits, k)
  {
    RunLinked(see, look, lines, 0, EMPTY);
    StackIsChain(Visits(see, look, lines, 0, EMPTY), k);
  }

  lemma SameHeadInScope(v: Visit, d: IndexEntry, d': IndexEntry, chain: seq<Scope>)
    requires InScope(v, d', chain) && HeadOf(d') == HeadOf(d)
    ensures InScope(v, d, chain)
  {
  }

  lemma DeclarationScoped(rules: Rules, lines: seq<string>, d: IndexEntry)
    requires Index(rules, lines).Some? && d in Index(rules, lines).value
    ensures Scoped(VisitsOf(rules, lines), d)
  {
    var see, look, visits := SeeingOf(rules), FormalizingOf(rules), VisitsOf(rules, lines);
    var k, i := AddedByVisit(see, look, lines, d);
    VisitsAre(see, look, lines, 0, EMPTY, k);
    StackOfVisit(see, look, lines, k);
    AddsInScope(rules, lines, visits[k]);
    SameHeadInScope(visits[k], d, Adds(look, lines, visits[k])[i], Chain(visits, k));
  }

  /** The headers whose names make up a scope are exactly those still open, counting ends. */
  lemma ScopesAreOpenHeaders(rules: Rules, lines: seq<string>)
    requires Index(rules, lines).Some?
    ensures var visits := VisitsOf(rules, lines);
            (forall d :: d in Index(rules, lines).value ==> Scoped(visits, d)) &&
            (forall k: nat, i: nat :: k < |visits| ==> (i in OpenHeaders(visits, k) <==> StillOpen(visits, i, k)))
  {
    var visits := VisitsOf(rules, lines);
    forall d | d in Index(rules, lines).value
      ensures Scoped(visits, d)
    {
      DeclarationScoped(rules, lines, d);
    }
    forall k: nat, i: nat | k < |visits|
      ensures i in OpenHeaders(visits, k) <==> StillOpen(visits, i, k)
    {
      StackOfVisit(SeeingOf(rules), FormalizingOf(rules), lines, k);
      HeadersAreOpen(visits, k);
    }
  }

  /** The last visit of a run that succeeds leaves no scope open. */
  lemma {:induction false} RunCloses(see: Seeing, look: Formalizing, lines: seq<string>, number: nat, s: State)
    requires IndexRest(see, look, lines, number, s).Some? && number < |lines|
    ensures var visits := Visits(see, look, lines, number, s);
            visits != [] && Follows(visits[|visits| - 1], Visit(0, EMPTY, Skipped))
    decreases |lines| - number
  {
    var turn := StepAt(see, look, lines, number, s).value;
    RunTurn(see, look, lines, number, s, turn);
    if turn.next < |lines| {
      RunCloses(see, look, lines, turn.next, turn.state);
    } else {
      StackAfter(see, look, lines, number, s, turn.next);
      assert turn.state.stack == [];
    }
  }

  /** Where there is an index, every header has its end. */
  lemma HeadersAllEnd(rules: Rules, lines: seq<string>)
    requires Index(rules, lines).Some?
    ensures var visits := VisitsOf(rules, lines);
            Level(visits, |visits|) == 0 && forall i: nat :: !StillOpen(visits, i, |visits|)
  {
    var see, look, visits := SeeingOf(rules), FormalizingOf(rules), VisitsOf(rules, lines);
    if lines != [] {
      RunCloses(see, look, lines, 0, EMPTY);
      var k := |visits| - 1;
      StackOfVisit(see, look, lines, k);
      NextNotBelow(visits, k);
      ChainStep(visits, k);
      assert Chain(visits, k + 1) == [];
      HeadersAreOpen(visits, k + 1);
      HeadersLevelled(visits, k + 1);
    }
  }
}
