/** The regular expressions by which the warning comparison reads single lines and signatures. */
module AdaRules {
  import opened Texts
  import opened AdaCode
  import opened AdaIndex
  import opened Tokens

  // ----- headers and names

  const PREFIXES := ["overriding", "not", "abstract", "private"]
  const KEYWORDS := ["procedure", "function", "package", "type", "subtype"]

  /** The modifiers from i on, each with the white space behind it. */
  function PastModifiers(code: string, i: nat): (k: nat)
    requires i <= |code|
    ensures i <= k <= |code|
    decreases |code| - i
  {
    match FirstName(code, i, PREFIXES, false)
    case None => i
    case Some(e) => if RunEnd(code, e, Space) > e then PastModifiers(code, RunEnd(code, e, Space)) else i
  }

  function KindOf(keyword: string): Kind {
    if keyword == "package" then PackageKind else if keyword == "type" then TypeKind else OtherKind
  }

  /** NAME_AFTER_KEYWORD_RE */
  function NameBehind(code: string, i: nat): Option<string>
    requires i <= |code|
  {
    var start := RunEnd(code, i, Space);
    match NameEnd(code, start)
    case None => None
    case Some(end) => Some(code[start..end])
  }

  /** HEADER_RE */
  function HeaderOn(code: string): Option<Header> {
    var i := PastModifiers(code, RunEnd(code, 0, Space));
    match FirstName(code, i, KEYWORDS, true)
    case None => None
    case Some(e) => Some(Header(e, KindOf(code[i..e]), NameBehind(code, e)))
  }

  /** OBJECT_RE */
  function ComponentOn(code: string): Option<string> {
    var start := RunEnd(code, 0, Space);
    if start < |code| && Letter(code[start]) then
      var end := RunEnd(code, start, WordOrDot);
      var colon := RunEnd(code, end, Space);
      if colon < |code| && code[colon] == ':' then Some(code[start..end]) else None
    else None
  }

  // ----- ends and words

  /** end, white space, and one of the names as a whole word. */
  predicate EndsNamed(code: string, names: seq<string>) {
    At(code, 0, "end") && RunEnd(code, 3, Space) > 3 && FirstName(code, RunEnd(code, 3, Space), names, true).Some?
  }

  function ClosingOn(code: string): Closing {
    if EndsNamed(code, ["record"]) then EndsRecord
    else if At(code, 0, "end") && Boundary(code, 3) && !EndsNamed(code, ["record", "case", "loop"]) then EndsPackage
    else EndsNothing
  }

  /** The word stands at i between word boundaries. */
  predicate WholeWordAt(s: string, i: nat, word: string) {
    At(s, i, word) && Boundary(s, i) && Boundary(s, i + |word|)
  }

  function FindWord(s: string, i: nat, word: string): (k: Option<nat>)
    ensures k.Some? ==> WholeWordAt(s, k.value, word)
    ensures k.None? ==> forall j :: i <= j ==> !WholeWordAt(s, j, word)
    decreases |s| - i
  {
    if WholeWordAt(s, i, word) then Some(i)
    else if i >= |s| then None
    else FindWord(s, i + 1, word)
  }

  predicate HasWord(s: string, word: string) {
    FindWord(s, 0, word).Some?
  }

  // ----- signatures

  /** \s+ replaced by one blank. */
  function OneBlank(s: string): string
    decreases |s|
  {
    if s == "" then ""
    else if Space(s[0]) then " " + OneBlank(s[RunEnd(s, 0, Space)..])
    else [s[0]] + OneBlank(s[1..])
  }

  /** A character together with white space in front of it or behind it replaced by a text. */
  function Around(s: string, front: bool, c: char, back: bool, put: string): string
    decreases |s|
  {
    var i := if front then RunEnd(s, 0, Space) else 0;
    if s == "" then ""
    else if i < |s| && s[i] == c then put + Around(s[if back then RunEnd(s, i + 1, Space) else i + 1..], front, c, back, put)
    else [s[0]] + Around(s[1..], front, c, back, put)
  }

  /** _normalize */
  function Normalize(text: string): string {
    var open := Around(Strip(OneBlank(text)), false, '(', true, "(");
    var close := Around(open, true, ')', false, ")");
    var comma := Around(close, true, ',', true, ", ");
    var colon := Around(comma, true, ':', true, " : ");
    Strip(OneBlank(Around(colon, true, ';', false, ";")))
  }

  /** s.rstrip(";") */
  function NoSemicolons(s: string): string {
    if s != "" && s[|s| - 1] == ';' then NoSemicolons(s[..|s| - 1]) else s
  }

  predicate EndsIs(signature: string) {
    var s := NoSemicolons(signature);
    |s| >= 3 && s[|s| - 3..] == " is"
  }

  function RecordHeadOf(signature: string): Option<string> {
    match FindWord(signature, 0, "record")
    case None => None
    case Some(k) => Some(Normalize(signature[..k] + "record"))
  }

  function AnnouncedRecord(signature: string): Option<string> {
    if EndsIs(signature) then Some(Normalize(NoSemicolons(signature) + " record")) else None
  }

  // ----- literals

  predicate ListsLiterals(signature: string) {
    '(' in signature && !Contains(signature, " is record") && (Contains(signature, " is (") || EndsIs(signature))
  }

  /** Behind the opening parenthesis of the first "is (". */
  function ListStart(text: string, i: nat): (k: Option<nat>)
    ensures k.Some? ==> k.value <= |text|
    decreases |text| - i
  {
    if i + 2 > |text| then None
    else
      var open := RunEnd(text, i + 2, Space);
      if At(text, i, "is") && Boundary(text, i) && open < |text| && text[open] == '(' then Some(open + 1)
      else ListStart(text, i + 1)
  }

  /** The last closing parenthesis from i on that a semicolon follows. */
  function ListEnd(text: string, i: nat): (k: Option<nat>)
    ensures k.Some? ==> i <= k.value < |text|
    decreases |text| - i
  {
    if i >= |text| then None
    else
      var after := RunEnd(text, i + 1, Space);
      if ListEnd(text, i + 1).Some? then ListEnd(text, i + 1)
      else if text[i] == ')' && after < |text| && text[after] == ';' then Some(i)
      else None
  }

  function NamesIn(s: string): seq<string>
    decreases |s|
  {
    if s == "" then []
    else if Letter(s[0]) then [s[..RunEnd(s, 0, Alphanumeric)]] + NamesIn(s[RunEnd(s, 0, Alphanumeric)..])
    else NamesIn(s[1..])
  }

  function ListedNames(text: string): seq<string> {
    match ListStart(text, 0)
    case None => []
    case Some(start) =>
      match ListEnd(text, start)
      case None => []
      case Some(end) => NamesIn(text[start..end])
  }

  /** The part of a signature in front of " is ". */
  function HeadOf(signature: string): string {
    match FindText(signature, 0, " is ")
    case None => signature
    case Some(k) => signature[..k]
  }

  const PROGRAM_RULES := Rules(
    HeaderOn, ComponentOn, ClosingOn,
    Normalize, code => HasWord(code, "is"),
    code => HasWord(code, "record"), code => EndsNamed(code, ["record"]),
    ListsLiterals, ListedNames,
    RecordHeadOf, AnnouncedRecord,
    (signature, name) => '(' in HeadOf(signature) && HasWord(HeadOf(signature), name))

  lemma NothingOnSpace(code: string)
    requires AllSpace(code)
    ensures HeaderOn(code).None? && ComponentOn(code).None?
  {
    assert RunEnd(code, 0, Space) == |code|;
    assert FirstName(code, |code|, PREFIXES, false).None?;
    assert PastModifiers(code, |code|) == |code|;
    assert FirstName(code, |code|, KEYWORDS, true).None?;
  }

  /** The program's own expressions match nothing on a line without code. */
  lemma ProgramRulesSane()
    ensures Sane(PROGRAM_RULES)
  {
    forall code | AllSpace(code)
      ensures PROGRAM_RULES.header(code).None? && PROGRAM_RULES.component(code).None?
    {
      NothingOnSpace(code);
    }
  }
}
