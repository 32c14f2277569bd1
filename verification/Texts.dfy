/** Small facts about texts shared by the models. A text is a sequence of characters; where the
    program works on encoded bytes, each character stands for one byte. */
module Texts {

  datatype Option<+T> = None | Some(value: T) {
    function GetOr(default: T): T {
      if Some? then value else default
    }
  }

  /** Index of the first occurrence of c at or after i, or |s| when there is none. */
  function IndexFrom(s: string, i: nat, c: char): (k: nat)
    requires i <= |s|
    ensures i <= k <= |s|
    ensures forall j :: i <= j < k ==> s[j] != c
    ensures k < |s| ==> s[k] == c
    decreases |s| - i
  {
    if i == |s| || s[i] == c then i else IndexFrom(s, i + 1, c)
  }

  /** Does the literal stand in s at position i? */
  predicate At(s: string, i: nat, literal: string) {
    i + |literal| <= |s| && s[i..i + |literal|] == literal
  }

  /** Position of the last c, or -1. */
  function LastIndex(s: string, c: char): (k: int)
    ensures -1 <= k < |s|
    ensures k >= 0 ==> s[k] == c
    ensures forall j :: k < j < |s| ==> s[j] != c
  {
    if s == "" then -1
    else if s[|s| - 1] == c then |s| - 1
    else LastIndex(s[..|s| - 1], c)
  }

  /** s.rpartition(c) without the separator: what stands before the last c ("" without one), and
      what stands behind it. */
  function RPartitionAt(s: string, c: char): (r: (string, string))
    ensures c !in r.1
    ensures s != "" ==> |r.0| < |s|
  {
    var k := LastIndex(s, c);
    if k < 0 then ("", s) else (s[..k], s[k + 1..])
  }

  function RPartition(path: string): (r: (string, string))
    ensures '/' !in r.1
    ensures path != "" ==> |r.0| < |path|
  {
    RPartitionAt(path, '/')
  }

  /** A name without c put behind a c is what RPartitionAt takes off again. */
  lemma RPartitionAtJoin(front: string, c: char, name: string)
    requires c !in name
    ensures RPartitionAt(front + [c] + name, c) == (front, name)
  {
    var joined := front + [c] + name;
    assert joined[|front|] == c;
    assert forall j :: |front| < j < |joined| ==> joined[j] == name[j - |front| - 1];
    assert LastIndex(joined, c) == |front|;
    assert joined[..|front|] == front && joined[|front| + 1..] == name;
  }

  lemma RPartitionJoin(path: string, name: string)
    requires '/' !in name
    ensures RPartition(path + "/" + name) == (path, name)
  {
    RPartitionAtJoin(path, '/', name);
  }

  /** End of the longest run of characters satisfying p that starts at i. */
  function RunEnd(s: string, i: nat, p: char -> bool): (k: nat)
    requires i <= |s|
    ensures i <= k <= |s|
    ensures forall j :: i <= j < k ==> p(s[j])
    ensures k < |s| ==> !p(s[k])
    decreases |s| - i
  {
    if i < |s| && p(s[i]) then RunEnd(s, i + 1, p) else i
  }

  predicate Letter(c: char) {
    'a' <= c <= 'z' || 'A' <= c <= 'Z'
  }

  predicate Digit(c: char) {
    '0' <= c <= '9'
  }

  predicate LetterOrDigit(c: char) {
    Letter(c) || Digit(c)
  }

  predicate Alphanumeric(c: char) {
    LetterOrDigit(c) || c == '_'
  }

  predicate WordOrDot(c: char) {
    Alphanumeric(c) || c == '.'
  }

  function LowerChar(c: char): char {
    if 'A' <= c <= 'Z' then ((c as int) + 32) as char else c
  }

  function LowerCase(s: string): (r: string)
    ensures |r| == |s|
  {
    seq(|s|, i requires 0 <= i < |s| => LowerChar(s[i]))
  }

  /** \s in an expression on bytes */
  predicate AsciiSpace(c: char) {
    c == ' ' || '\t' <= c <= '\r'
  }

  predicate WordAt(s: string, i: int) {
    0 <= i < |s| && Alphanumeric(s[i])
  }

  /** \b */
  predicate Boundary(s: string, i: nat) {
    WordAt(s, i - 1) != WordAt(s, i)
  }

  /** The end of the first listed name that stands at i and may end there. */
  function FirstName(s: string, i: nat, names: seq<string>, boundary: bool): (r: Option<nat>)
    ensures r.Some? ==> i <= r.value <= |s| && s[i..r.value] in names && (boundary ==> Boundary(s, r.value))
  {
    if names == [] then None
    else if At(s, i, names[0]) && (boundary ==> Boundary(s, i + |names[0]|)) then Some(i + |names[0]|)
    else FirstName(s, i, names[1..], boundary)
  }

  /** str.isspace */
  predicate Space(c: char) {
    c == ' ' || '\t' <= c <= '\r' || '\U{1C}' <= c <= '\U{1F}' || c == '\U{85}' || c == '\U{A0}' || c == '\U{1680}' ||
    '\U{2000}' <= c <= '\U{200A}' || c == '\U{2028}' || c == '\U{2029}' || c == '\U{202F}' || c == '\U{205F}' ||
    c == '\U{3000}'
  }

  /** str.strip() */
  function Strip(s: string): (r: string)
    ensures |r| <= |s| && (r != "" ==> !Space(r[0]) && !Space(r[|r| - 1]))
  {
    if s == "" then ""
    else if Space(s[0]) then Strip(s[1..])
    else if Space(s[|s| - 1]) then Strip(s[..|s| - 1])
    else s
  }

  /** The literal stands at k and nowhere in s between i and k. */
  predicate FirstAt(s: string, i: nat, k: nat, literal: string) {
    i <= k && At(s, k, literal) && forall j :: i <= j < k ==> !At(s, j, literal)
  }

  /** First place at or behind i where the literal stands. */
  function FindText(s: string, i: nat, literal: string): (k: Option<nat>)
    ensures k.Some? ==> FirstAt(s, i, k.value, literal)
    ensures k.None? ==> forall j :: i <= j ==> !At(s, j, literal)
    decreases |s| - i
  {
    if At(s, i, literal) then Some(i)
    else if i >= |s| then None
    else FindText(s, i + 1, literal)
  }

  /** The decimal numeral of n. */
  function Decimal(n: nat): (s: string)
    ensures s != "" && forall c :: c in s ==> '0' <= c <= '9'
  {
    if n < 10 then [n as char + '0'] else Decimal(n / 10) + [(n % 10) as char + '0']
  }

  /** separator.join(parts) */
  function Join(separator: string, parts: seq<string>): string {
    if parts == [] then ""
    else if |parts| == 1 then parts[0]
    else parts[0] + separator + Join(separator, parts[1..])
  }

  predicate Contains(s: string, sub: string) {
    FindText(s, 0, sub).Some?
  }

  // ----- a list put together item by item, failing as soon as one item does

  /** The first item and the others, or nothing where either is missing. */
  function Joined<T>(first: Option<T>, others: Option<seq<T>>): Option<seq<T>> {
    if first.None? || others.None? then None else Some([first.value] + others.value)
  }

  function Ahead<T>(front: seq<T>, rest: Option<seq<T>>): Option<seq<T>> {
    if rest.Some? then Some(front + rest.value) else None
  }

  lemma AheadNothing<T>(rest: Option<seq<T>>)
    ensures Ahead([], rest) == rest
  {
    if rest.Some? {
      assert [] + rest.value == rest.value;
    }
  }

  lemma AheadJoined<T>(front: seq<T>, first: Option<T>, others: Option<seq<T>>)
    ensures Ahead(front, Joined(first, others)) == if first.None? then None else Ahead(front + [first.value], others)
  {
    if first.Some? && others.Some? {
      assert front + ([first.value] + others.value) == front + [first.value] + others.value;
    }
  }
}
