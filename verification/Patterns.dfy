/** Regular expressions that are a chain of literals and greedy runs, each run ending in front of
    a literal that its class excludes, so that matching never has to give characters back. */
module Patterns {
  import opened Texts

  datatype Pattern =
    | Done
    | Literal(text: string, next: Pattern)
    | Run(p: char -> bool, least: nat, next: Pattern)   // [class]* or [class]+, captured
    | Word(names: set<string>, next: Pattern)           // (one|of|these), captured

  predicate LowerLetter(c: char) {
    'a' <= c <= 'z'
  }

  predicate AllOf(s: string, p: char -> bool) {
    forall i :: 0 <= i < |s| ==> p(s[i])
  }

  predicate StartsWith(s: string, prefix: string) {
    |prefix| <= |s| && s[..|prefix|] == prefix
  }

  datatype Found = Missing | Found(captures: seq<string>, length: nat)

  function Behind(taken: nat, found: Found): Found {
    match found
    case Missing => Missing
    case Found(captures, n) => Found(captures, taken + n)
  }

  function Capture(taken: string, found: Found): Found {
    match found
    case Missing => Missing
    case Found(captures, n) => Found([taken] + captures, |taken| + n)
  }

  /** Pattern.match at the start of s: the captured runs and the length of the match. */
  function Match(pattern: Pattern, s: string): (r: Found)
    ensures r.Found? ==> r.length <= |s|
  {
    match pattern
    case Done => Found([], 0)
    case Literal(text, next) =>
      if StartsWith(s, text) then Behind(|text|, Match(next, s[|text|..])) else Missing
    case Run(p, least, next) =>
      var k := RunEnd(s, 0, p);
      if k < least then Missing else Capture(s[..k], Match(next, s[k..]))
    case Word(names, next) =>
      var k := RunEnd(s, 0, LowerLetter);
      if s[..k] in names then Capture(s[..k], Match(next, s[k..])) else Missing
  }

  /** Do these captures fit the runs of the pattern? */
  predicate Fits(pattern: Pattern, captures: seq<string>) {
    match pattern
    case Done => captures == []
    case Literal(_, next) => Fits(next, captures)
    case Run(p, least, next) =>
      captures != [] && AllOf(captures[0], p) && least <= |captures[0]| && Fits(next, captures[1..])
    case Word(names, next) =>
      captures != [] && AllOf(captures[0], LowerLetter) && captures[0] in names && Fits(next, captures[1..])
  }

  /** The text a pattern stands for, given its captures. */
  function Print(pattern: Pattern, captures: seq<string>): string {
    match pattern
    case Done => ""
    case Literal(text, next) => text + Print(next, captures)
    case _ => if captures == [] then "" else captures[0] + Print(pattern.next, captures[1..])
  }

  /** The next two state one step of Fits and Print for a literal followed by a run. */
  lemma FitsStep(pattern: Pattern, captures: seq<string>)
    requires pattern.Literal? && pattern.next.Run?
    ensures Fits(pattern, captures) <==>
            captures != [] && AllOf(captures[0], pattern.next.p) && pattern.next.least <= |captures[0]| &&
            Fits(pattern.next.next, captures[1..])
  {
    assert Fits(pattern, captures) == Fits(pattern.next, captures);
  }

  lemma PrintStep(pattern: Pattern, captures: seq<string>)
    requires pattern.Literal? && !pattern.next.Literal? && !pattern.next.Done? && captures != []
    ensures Print(pattern, captures) == pattern.text + (captures[0] + Print(pattern.next.next, captures[1..]))
  {
    assert Print(pattern, captures) == pattern.text + Print(pattern.next, captures);
  }

  /** Every run is followed by a literal whose first character the run excludes. */
  predicate Separated(pattern: Pattern) {
    match pattern
    case Done => true
    case Literal(_, next) => Separated(next)
    case Run(p, _, next) => next.Literal? && next.text != "" && !p(next.text[0]) && Separated(next)
    case Word(_, next) => next.Literal? && next.text != "" && !LowerLetter(next.text[0]) && Separated(next)
  }

  lemma RunIs(run: string, rest: string, p: char -> bool)
    requires AllOf(run, p) && (rest == "" || !p(rest[0]))
    ensures RunEnd(run + rest, 0, p) == |run|
  {
    var s := run + rest;
    assert forall j :: 0 <= j < |run| ==> s[j] == run[j];
    if rest != "" {
      assert s[|run|] == rest[0];
    }
  }

  lemma Cut(a: string, b: string)
    ensures (a + b)[..|a|] == a && (a + b)[|a|..] == b
  {
  }

  lemma Associate(a: string, b: string, c: string)
    ensures a + b + c == a + (b + c)
  {
  }

  /** What is printed is recognized again, with the same captures. */
  lemma {:induction false} MatchPrinted(pattern: Pattern, captures: seq<string>, rest: string)
    requires Separated(pattern) && Fits(pattern, captures)
    ensures Match(pattern, Print(pattern, captures) + rest) == Found(captures, |Print(pattern, captures)|)
  {
    match pattern
    case Done =>
    case Literal(text, next) =>
      MatchPrinted(next, captures, rest);
      var tail := Print(next, captures) + rest;
      Associate(text, Print(next, captures), rest);
      Cut(text, tail);
    case Run(p, least, next) =>
      MatchPrinted(next, captures[1..], rest);
      var tail := Print(next, captures[1..]) + rest;
      Associate(captures[0], Print(next, captures[1..]), rest);
      Cut(captures[0], tail);
      RunIs(captures[0], tail, p);
    case Word(names, next) =>
      MatchPrinted(next, captures[1..], rest);
      var tail := Print(next, captures[1..]) + rest;
      Associate(captures[0], Print(next, captures[1..]), rest);
      Cut(captures[0], tail);
      RunIs(captures[0], tail, LowerLetter);
  }

  /** What is recognized is the printed form of its captures. */
  lemma {:induction false} PrintMatched(pattern: Pattern, s: string)
    requires Match(pattern, s).Found?
    ensures var found := Match(pattern, s);
            Fits(pattern, found.captures) && Print(pattern, found.captures) == s[..found.length]
  {
    match pattern
    case Done =>
    case Literal(text, next) =>
      PrintMatched(next, s[|text|..]);
      Slices(s, |text|, Match(next, s[|text|..]).length);
    case Run(p, least, next) =>
      var k := RunEnd(s, 0, p);
      PrintMatched(next, s[k..]);
      Slices(s, k, Match(next, s[k..]).length);
    case Word(names, next) =>
      var k := RunEnd(s, 0, LowerLetter);
      PrintMatched(next, s[k..]);
      Slices(s, k, Match(next, s[k..]).length);
  }

  lemma Slices(s: string, k: nat, n: nat)
    requires k + n <= |s|
    ensures s[..k + n] == s[..k] + s[k..][..n]
  {
  }

  /** A match does not depend on what follows it. */
  lemma MatchExtends(pattern: Pattern, s: string, more: string)
    requires Separated(pattern) && Match(pattern, s).Found?
    ensures Match(pattern, s + more) == Match(pattern, s)
  {
    var captures, n := Match(pattern, s).captures, Match(pattern, s).length;
    PrintMatched(pattern, s);
    FrontTail(s, n, more);
    MatchPrinted(pattern, captures, s[n..] + more);
  }

  lemma FrontTail(s: string, n: nat, more: string)
    requires n <= |s|
    ensures s[..n] + (s[n..] + more) == s + more && s[..n] + s[n..] == s && (s + more)[..n] == s[..n]
  {
  }

  lemma MatchShortens(pattern: Pattern, s: string, more: string)
    requires Separated(pattern) && Match(pattern, s + more).Found? && Match(pattern, s + more).length <= |s|
    ensures Match(pattern, s) == Match(pattern, s + more)
  {
    var captures, n := Match(pattern, s + more).captures, Match(pattern, s + more).length;
    PrintMatched(pattern, s + more);
    FrontTail(s, n, more);
    MatchPrinted(pattern, captures, s[n..]);
  }

  lemma StartsAt(s: string, prefix: string, i: nat)
    requires StartsWith(s, prefix) && i < |prefix|
    ensures s[i] == prefix[i]
  {
    assert s[..|prefix|][i] == s[i];
  }

  lemma LiteralFirst(pattern: Pattern, s: string)
    requires pattern.Literal? && Match(pattern, s).Found?
    ensures StartsWith(s, pattern.text)
  {
  }

  /** A run that is not followed by its literal is no match. */
  lemma MissedBehind(pattern: Pattern, run: string, rest: string)
    requires pattern.Literal? && pattern.next.Run? && pattern.next.next.Literal?
    requires AllOf(run, pattern.next.p) && (rest == "" || !pattern.next.p(rest[0]))
    requires !StartsWith(rest, pattern.next.next.text)
    ensures Match(pattern, pattern.text + (run + rest)).Missing?
  {
    Cut(pattern.text, run + rest);
    RunIs(run, rest, pattern.next.p);
    Cut(run, rest);
    assert Match(pattern.next, run + rest).Missing?;
  }

  lemma SameMatch(pattern: Pattern, s: string, more: string)
    requires Separated(pattern)
    requires Match(pattern, s + more).Found? ==> Match(pattern, s + more).length <= |s|
    ensures Match(pattern, s) == Match(pattern, s + more)
  {
    if Match(pattern, s + more).Found? {
      MatchShortens(pattern, s, more);
    } else if Match(pattern, s).Found? {
      MatchExtends(pattern, s, more);
    }
  }

  // ----- scanning a text for tags

  /** A pattern for a tag: it begins with "<" and the letter c. */
  predicate TagPattern(pattern: Pattern, c: char) {
    pattern.Literal? && |pattern.text| >= 2 && pattern.text[0] == '<' && pattern.text[1] == c
  }

  lemma MatchAdvances(pattern: Pattern, c: char, s: string)
    requires TagPattern(pattern, c) && Match(pattern, s).Found?
    ensures Match(pattern, s).length >= 2 && |s| >= 2 && s[0] == '<' && s[1] == c
  {
    var text := pattern.text;
    assert s[..|text|][0] == s[0] && s[..|text|][1] == s[1];
  }

  function Nth(captures: seq<string>, k: nat): string {
    if k < |captures| then captures[k] else ""
  }

  /** Characters a scan moves on by: a match, or one character. */
  function Advance(found: Found): (n: nat)
    ensures n > 0
  {
    if found.Found? && found.length > 0 then found.length else 1
  }

  /** re.sub(lambda m: m[keep + 1], s) */
  function Keep(pattern: Pattern, keep: nat, s: string): string
    decreases |s|
  {
    if s == "" then ""
    else
      var found := Match(pattern, s);
      (if found.Found? then Nth(found.captures, keep) else [s[0]]) + Keep(pattern, keep, s[Advance(found)..])
  }

  /** re.finditer */
  function FindAll(pattern: Pattern, s: string): seq<seq<string>>
    decreases |s|
  {
    if s == "" then []
    else
      var found := Match(pattern, s);
      (if found.Found? then [found.captures] else []) + FindAll(pattern, s[Advance(found)..])
  }

  predicate NoTagAt(x: string, i: nat, c: char)
    requires i < |x|
  {
    x[i] == '<' ==> i + 1 < |x| && x[i + 1] != c
  }

  /** No tag in x begins with c, and x does not end right behind a "<". */
  predicate NoTag(x: string, c: char) {
    forall i :: 0 <= i < |x| ==> NoTagAt(x, i, c)
  }

  lemma NoTagJoin(x: string, y: string, c: char)
    requires NoTag(x, c) && NoTag(y, c)
    ensures NoTag(x + y, c)
  {
    forall i | 0 <= i < |x + y|
      ensures NoTagAt(x + y, i, c)
    {
      if i < |x| {
        assert NoTagAt(x, i, c);
      } else {
        assert NoTagAt(y, i - |x|, c);
      }
    }
  }

  lemma NoTagTail(x: string, c: char)
    requires NoTag(x, c) && x != ""
    ensures NoTag(x[1..], c)
  {
    forall i | 0 <= i < |x[1..]|
      ensures NoTagAt(x[1..], i, c)
    {
      assert NoTagAt(x, i + 1, c);
    }
  }

  /** Where no tag starts, the scans take one character. */
  lemma OneStep(pattern: Pattern, c: char, keep: nat, s: string)
    requires TagPattern(pattern, c) && s != "" && (s[0] == '<' ==> |s| > 1 && s[1] != c)
    ensures Keep(pattern, keep, s) == [s[0]] + Keep(pattern, keep, s[1..])
    ensures FindAll(pattern, s) == FindAll(pattern, s[1..])
  {
    if Match(pattern, s).Found? {
      MatchAdvances(pattern, c, s);
    }
  }

  /** Text without the pattern's tag is passed over unchanged. */
  lemma {:induction false} Copied(pattern: Pattern, c: char, keep: nat, x: string, rest: string)
    requires TagPattern(pattern, c) && NoTag(x, c)
    ensures Keep(pattern, keep, x + rest) == x + Keep(pattern, keep, rest)
    ensures FindAll(pattern, x + rest) == FindAll(pattern, rest)
    decreases |x|
  {
    if x == "" {
      assert x + rest == rest;
    } else {
      var s := x + rest;
      assert s[1..] == x[1..] + rest && s[0] == x[0];
      assert NoTagAt(x, 0, c);
      NoTagTail(x, c);
      OneStep(pattern, c, keep, s);
      Copied(pattern, c, keep, x[1..], rest);
      Associate([x[0]], x[1..], Keep(pattern, keep, rest));
      assert [x[0]] + x[1..] == x;
    }
  }

  /** A printed tag is replaced by the capture kept, and found. */
  lemma PrintedFound(pattern: Pattern, c: char, keep: nat, captures: seq<string>, rest: string)
    requires TagPattern(pattern, c) && Separated(pattern) && Fits(pattern, captures) && keep < |captures|
    ensures Keep(pattern, keep, Print(pattern, captures) + rest) == captures[keep] + Keep(pattern, keep, rest)
    ensures FindAll(pattern, Print(pattern, captures) + rest) == [captures] + FindAll(pattern, rest)
  {
    var x := Print(pattern, captures);
    MatchPrinted(pattern, captures, rest);
    MatchAdvances(pattern, c, x + rest);
    Cut(x, rest);
  }

  lemma FindStep(pattern: Pattern, x: string, y: string)
    requires x != "" && Match(pattern, x + y) == Match(pattern, x)
    ensures var n := Advance(Match(pattern, x));
            n <= |x| && FindAll(pattern, x[n..] + y) == FindAll(pattern, x[n..]) + FindAll(pattern, y) ==>
              FindAll(pattern, x + y) == FindAll(pattern, x) + FindAll(pattern, y)
  {
    var found := Match(pattern, x);
    var n := Advance(found);
    if n <= |x| {
      var here: seq<seq<string>> := if found.Found? then [found.captures] else [];
      assert (x + y)[n..] == x[n..] + y;
      assert here + (FindAll(pattern, x[n..]) + FindAll(pattern, y)) == here + FindAll(pattern, x[n..]) + FindAll(pattern, y);
    }
  }

  /** No match that begins in x reaches beyond it. */
  ghost predicate Contained(pattern: Pattern, x: string, y: string) {
    forall p :: 0 <= p < |x| ==> Match(pattern, x[p..] + y) == Match(pattern, x[p..])
  }

  lemma ContainedBehind(pattern: Pattern, x: string, y: string, n: nat)
    requires Contained(pattern, x, y) && n <= |x|
    ensures Contained(pattern, x[n..], y)
  {
    forall p | 0 <= p < |x[n..]|
      ensures Match(pattern, x[n..][p..] + y) == Match(pattern, x[n..][p..])
    {
      assert x[n..][p..] == x[n + p..];
    }
  }

  /** Then x and what follows are searched apart. */
  lemma {:induction false} FindAllApart(pattern: Pattern, x: string, y: string)
    requires Contained(pattern, x, y)
    ensures FindAll(pattern, x + y) == FindAll(pattern, x) + FindAll(pattern, y)
    decreases |x|
  {
    if x == "" {
      assert x + y == y;
    } else {
      assert x[0..] == x;
      var n := Advance(Match(pattern, x));
      ContainedBehind(pattern, x, y, n);
      FindAllApart(pattern, x[n..], y);
      FindStep(pattern, x, y);
    }
  }

  /** Every literal is free of tags beginning with c, and runs are free of "<". */
  predicate TagFree(pattern: Pattern, c: char) {
    match pattern
    case Done => true
    case Literal(text, next) => NoTag(text, c) && TagFree(next, c)
    case Run(p, _, next) => !p('<') && TagFree(next, c)
    case Word(_, next) => TagFree(next, c)
  }

  lemma {:induction false} PrintTagFree(pattern: Pattern, captures: seq<string>, c: char)
    requires TagFree(pattern, c) && Fits(pattern, captures)
    ensures NoTag(Print(pattern, captures), c)
  {
    match pattern
    case Done =>
    case Literal(text, next) =>
      PrintTagFree(next, captures, c);
      NoTagJoin(text, Print(next, captures), c);
    case Run(_, _, next) =>
      PrintTagFree(next, captures[1..], c);
      NoTagJoin(captures[0], Print(next, captures[1..]), c);
    case Word(_, next) =>
      PrintTagFree(next, captures[1..], c);
      NoTagJoin(captures[0], Print(next, captures[1..]), c);
  }

  /** No text the pattern stands for contains c. */
  predicate Avoids(pattern: Pattern, c: char) {
    match pattern
    case Done => true
    case Literal(text, next) => c !in text && Avoids(next, c)
    case Run(p, _, next) => !p(c) && Avoids(next, c)
    case Word(_, next) => !LowerLetter(c) && Avoids(next, c)
  }

  lemma {:induction false} PrintAvoids(pattern: Pattern, captures: seq<string>, c: char)
    requires Avoids(pattern, c) && Fits(pattern, captures)
    ensures c !in Print(pattern, captures)
  {
    match pattern
    case Done =>
    case Literal(_, next) =>
      PrintAvoids(next, captures, c);
    case _ =>
      PrintAvoids(pattern.next, captures[1..], c);
  }
}
