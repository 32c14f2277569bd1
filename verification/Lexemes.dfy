/** The Ada lexer behind the colouring: LEXEME.match at a position, alternative by alternative. */
module Lexemes {
  import opened Texts
  import opened Offsets
  import opened Markup

  datatype Kind = Comment | StringLiteral | Character | Attribute | Number | Identifier | Operator

  datatype Lexeme = Lexeme(kind: Kind, end: nat)

  /** What a colouring lexer says about a position: nothing there, or a lexeme up to end that is
      coloured with a class or left plain. */
  datatype Token = Skip | Token(end: nat, category: Option<string>)

  type Lexer = (string, nat) -> Token

  function Next(token: Token, i: nat): (k: nat)
    ensures k > i
  {
    if token.Token? && token.end > i then token.end else i + 1
  }

  ghost predicate TokenFits(token: Token, text: string, i: nat) {
    token.Token? ==> i < token.end <= |text| && (token.category.Some? ==> token.category.value in CLASSES)
  }

  ghost predicate LexerFits(lexer: Lexer) {
    forall text, i :: TokenFits(lexer(text, i), text, i)
  }

  predicate NotNewline(c: char) {
    c != '\n'
  }

  predicate DigitOrUnderscore(c: char) {
    Digit(c) || c == '_'
  }

  predicate HexOrUnderscore(c: char) {
    HexDigit(c) || c == '_'
  }

  predicate Has(text: string, i: nat, c: char) {
    i < |text| && text[i] == c
  }

  /** --[^\n]* */
  function CommentEnd(text: string, i: nat): (e: Option<nat>)
    ensures e.Some? ==> i < e.value <= |text|
  {
    if Has(text, i, '-') && Has(text, i + 1, '-') then Some(RunEnd(text, i + 2, NotNewline)) else None
  }

  /** (?:[^"\n]|"")*" from i on: a doubled quote is content if a closing quote follows later,
      otherwise its first half closes. */
  function Closing(text: string, i: nat): (e: Option<nat>)
    ensures e.Some? ==> i < e.value <= |text|
    decreases |text| - i
  {
    if i >= |text| || text[i] == '\n' then None
    else if text[i] != '"' then Closing(text, i + 1)
    else if Has(text, i + 1, '"') && Closing(text, i + 2).Some? then Closing(text, i + 2)
    else Some(i + 1)
  }

  function StringEnd(text: string, i: nat): (e: Option<nat>)
    ensures e.Some? ==> i < e.value <= |text|
  {
    if Has(text, i, '"') then Closing(text, i + 1) else None
  }

  /** '[^\n]' */
  function CharacterEnd(text: string, i: nat): (e: Option<nat>)
    ensures e.Some? ==> i < e.value <= |text|
  {
    if Has(text, i, '\'') && Has(text, i + 2, '\'') && text[i + 1] != '\n' then Some(i + 3) else None
  }

  /** '[A-Za-z][A-Za-z0-9_]* */
  function AttributeEnd(text: string, i: nat): (e: Option<nat>)
    ensures e.Some? ==> i < e.value <= |text|
  {
    if Has(text, i, '\'') && i + 1 < |text| && Letter(text[i + 1]) then Some(RunEnd(text, i + 1, Alphanumeric)) else None
  }

  /** [0-9][0-9_]* */
  function Digits(text: string, i: nat): (e: Option<nat>)
    ensures e.Some? ==> i < e.value <= |text|
  {
    if i < |text| && Digit(text[i]) then Some(RunEnd(text, i, DigitOrUnderscore)) else None
  }

  /** (?:[Ee][+-]?[0-9][0-9_]*)? */
  function ExponentEnd(text: string, i: nat): (e: nat)
    requires i <= |text|
    ensures i <= e <= |text|
  {
    if !Has(text, i, 'E') && !Has(text, i, 'e') then i
    else
      var sign := if Has(text, i + 1, '+') || Has(text, i + 1, '-') then 1 else 0;
      match Digits(text, i + 1 + sign)
      case Some(e) => e
      case None => i
  }

  /** [0-9A-Fa-f_]+ */
  function HexRun(text: string, i: nat): (e: Option<nat>)
    ensures e.Some? ==> i < e.value <= |text|
  {
    if i < |text| && HexOrUnderscore(text[i]) then Some(RunEnd(text, i, HexOrUnderscore)) else None
  }

  /** A based literal, "#" digits "#" with an optional fraction, behind its base. */
  function BasedEnd(text: string, i: nat): (e: Option<nat>)
    requires i <= |text|
    ensures e.Some? ==> i < e.value <= |text|
  {
    if !Has(text, i, '#') then None
    else
      match HexRun(text, i + 1)
      case None => None
      case Some(whole) =>
        var fraction := if Has(text, whole, '.') then HexRun(text, whole + 1) else None;
        var last := fraction.GetOr(whole);
        if Has(text, last, '#') then Some(ExponentEnd(text, last + 1)) else None
  }

  function NumberEnd(text: string, i: nat): (e: Option<nat>)
    ensures e.Some? ==> i < e.value <= |text|
  {
    match Digits(text, i)
    case None => None
    case Some(whole) =>
      match BasedEnd(text, whole)
      case Some(e) => Some(e)
      case None =>
        var fraction := if Has(text, whole, '.') && !Has(text, whole + 1, '.') then Digits(text, whole + 1) else None;
        Some(ExponentEnd(text, fraction.GetOr(whole)))
  }

  function IdentifierEnd(text: string, i: nat): (e: Option<nat>)
    ensures e.Some? ==> i < e.value <= |text|
  {
    if i < |text| && Letter(text[i]) then Some(RunEnd(text, i, Alphanumeric)) else None
  }

  predicate DoubleOperator(a: char, b: char) {
    (a == ':' && b == '=') || (a == '=' && b == '>') || (a == '.' && b == '.') || (a == '*' && b == '*') ||
    (a == '/' && b == '=') || (a == '<' && b == '=') || (a == '>' && b == '=') || (a == '<' && b == '>')
  }

  predicate SingleOperator(c: char) {
    c in {'&', '+', '*', '/', '=', '<', '>', ':', ';', ',', '.', '(', ')', '|', '-'}
  }

  function OperatorEnd(text: string, i: nat): (e: Option<nat>)
    ensures e.Some? ==> i < e.value <= |text|
  {
    if i + 1 < |text| && DoubleOperator(text[i], text[i + 1]) then Some(i + 2)
    else if i < |text| && SingleOperator(text[i]) then Some(i + 1)
    else None
  }

  /** LEXEME.match(text, i): the first alternative that matches. */
  function LexemeAt(text: string, i: nat): (l: Option<Lexeme>)
    ensures l.Some? ==> i < l.value.end <= |text|
  {
    if CommentEnd(text, i).Some? then Some(Lexeme(Comment, CommentEnd(text, i).value))
    else if StringEnd(text, i).Some? then Some(Lexeme(StringLiteral, StringEnd(text, i).value))
    else if CharacterEnd(text, i).Some? then Some(Lexeme(Character, CharacterEnd(text, i).value))
    else if AttributeEnd(text, i).Some? then Some(Lexeme(Attribute, AttributeEnd(text, i).value))
    else if NumberEnd(text, i).Some? then Some(Lexeme(Number, NumberEnd(text, i).value))
    else if IdentifierEnd(text, i).Some? then Some(Lexeme(Identifier, IdentifierEnd(text, i).value))
    else if OperatorEnd(text, i).Some? then Some(Lexeme(Operator, OperatorEnd(text, i).value))
    else None
  }

  const KEYWORDS: set<string> := {
    "abort", "abs", "abstract", "accept", "access", "aliased", "all", "and", "array", "at", "begin",
    "body", "case", "constant", "declare", "delay", "delta", "digits", "do", "else", "elsif", "end", "entry",
    "exception", "exit", "for", "function", "generic", "goto", "if", "in", "interface", "is", "limited", "loop",
    "mod", "new", "not", "null", "of", "or", "others", "out", "overriding", "package", "parallel", "pragma",
    "private", "procedure", "protected", "raise", "range", "record", "rem", "renames", "requeue", "return",
    "reverse", "select", "separate", "some", "subtype", "synchronized", "tagged", "task", "terminate", "then",
    "type", "until", "use", "when", "while", "with", "xor"}

  /** The class a lexeme is coloured with; identifiers other than keywords stay plain. */
  function ClassOf(kind: Kind, word: string): Option<string> {
    match kind
    case Comment => Some("comment")
    case StringLiteral => Some("string")
    case Character => Some("character")
    case Attribute => Some("attribute")
    case Number => Some("number")
    case Operator => Some("operator")
    case Identifier => if LowerCase(word) in KEYWORDS then Some("keyword") else None
  }

  function AdaToken(text: string, i: nat): Token {
    match LexemeAt(text, i)
    case None => Skip
    case Some(l) => Token(l.end, ClassOf(l.kind, text[i..l.end]))
  }

  /** The lexer of the colouring script. */
  const ADA: Lexer := AdaToken

  lemma AdaFits()
    ensures LexerFits(ADA)
  {
    forall text, i
      ensures TokenFits(ADA(text, i), text, i)
    {
      assert ADA(text, i) == AdaToken(text, i);
    }
  }
}
