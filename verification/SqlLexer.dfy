/**
 * SQLite's tokenizer, sqlite3GetToken, on texts of Unicode characters. A character above 127 is
 * a run of UTF-8 bytes above 127, and all of those are identifier characters. The text ends at
 * its first NUL, as a C string does.
 */
module SqlLexer {
  import opened Characters

  datatype Kind =
    | Space | Comment | Symbol | StringLiteral | QuotedName | Integer | Float | SeparatedNumber
    | Variable | Word | BlobLiteral | Illegal

  datatype Lexeme = Lexeme(kind: Kind, length: nat)

  datatype Token = Token(kind: Kind, text: string)

  // ----- Characters -----

  function At(z: string, i: nat): char {
    if i < |z| then z[i] else '\0'
  }

  predicate IsIdChar(c: char) {
    'a' <= c <= 'z' || 'A' <= c <= 'Z' || '0' <= c <= '9' || c == '_' || c == '$' || c as int >= 128
  }

  datatype CharSet =
    | Digits | Hexes | DigitsOrSeparator | HexesOrSeparator | IdChars | Spaces
    | UntilNewline | UntilQuote | UntilBracket | UntilSpaceOrParen
  {
    predicate Has(c: char) {
      match this
      case Digits => IsDigit(c)
      case Hexes => IsHexDigit(c)
      case DigitsOrSeparator => IsDigit(c) || c == '_'
      case HexesOrSeparator => IsHexDigit(c) || c == '_'
      case IdChars => IsIdChar(c)
      case Spaces => IsSpace(c)
      case UntilNewline => c != '\0' && c != '\n'
      case UntilQuote => c != '\0' && c != '\''
      case UntilBracket => c != '\0' && c != ']'
      case UntilSpaceOrParen => c != '\0' && c != ')' && !IsSpace(c)
    }
  }

  /** The end of the maximal run of characters of the set that starts at i. */
  function Span(z: string, i: nat, chars: CharSet): (e: nat)
    ensures i <= e && (i <= |z| ==> e <= |z|)
    ensures forall j :: i <= j < e ==> chars.Has(At(z, j))
    ensures !chars.Has(At(z, e))
    decreases |z| - i
  {
    if i < |z| && chars.Has(z[i]) then Span(z, i + 1, chars) else i
  }

  // ----- Tokens -----

  /** The end of a C comment whose third character is at i - 1, or of the text. */
  function CommentEnd(z: string, i: nat): (e: nat)
    requires 1 <= i <= |z|
    ensures i <= e <= |z|
    decreases |z| - i
  {
    if z[i - 1] == '*' && At(z, i) == '/' then i + 1
    else if At(z, i) == '\0' then i
    else CommentEnd(z, i + 1)
  }

  /** The position of the closing quote, a doubled quote being part of the text, or of the end. */
  function QuoteEnd(z: string, i: nat, quote: char): (e: nat)
    requires i <= |z| && quote != '\0'
    ensures i <= e <= |z| && (At(z, e) == '\0' || At(z, e) == quote)
    ensures forall j :: i <= j < e ==> z[j] != '\0'
    decreases |z| - i
  {
    if At(z, i) == '\0' then i
    else if z[i] != quote then QuoteEnd(z, i + 1, quote)
    else if At(z, i + 1) == quote then QuoteEnd(z, i + 2, quote)
    else i
  }

  /** The end of a number before any identifier characters glued to it. */
  function MantissaEnd(z: string): (e: nat)
    ensures e <= |z|
  {
    var a := Span(z, 0, DigitsOrSeparator);
    if At(z, a) == '.' then Span(z, a + 1, DigitsOrSeparator) else a
  }

  predicate HasExponent(z: string, i: nat) {
    (At(z, i) == 'e' || At(z, i) == 'E') &&
    (IsDigit(At(z, i + 1)) || ((At(z, i + 1) == '+' || At(z, i + 1) == '-') && IsDigit(At(z, i + 2))))
  }

  function DecimalEnd(z: string): (e: nat)
    ensures MantissaEnd(z) <= e <= |z|
  {
    var b := MantissaEnd(z);
    if HasExponent(z, b) then Span(z, b + 2, DigitsOrSeparator) else b
  }

  predicate IsHexNumber(z: string) {
    At(z, 0) == '0' && (At(z, 1) == 'x' || At(z, 1) == 'X') && IsHexDigit(At(z, 2))
  }

  function NumberEnd(z: string): (e: nat)
    ensures e <= |z|
  {
    if IsHexNumber(z) then Span(z, 3, HexesOrSeparator) else DecimalEnd(z)
  }

  function NumberKind(z: string): Kind {
    if '_' in z[..NumberEnd(z)] then SeparatedNumber
    else if !IsHexNumber(z) && DecimalEnd(z) > Span(z, 0, DigitsOrSeparator) then Float
    else Integer
  }

  function ScanNumber(z: string): (x: Lexeme)
    requires IsDigit(At(z, 0)) || (At(z, 0) == '.' && IsDigit(At(z, 1)))
    ensures 1 <= x.length <= |z|
  {
    var c := NumberEnd(z);
    var e := Span(z, c, IdChars);
    Lexeme(if e > c then Illegal else NumberKind(z), e)
  }

  /** A variable from position i on, `named` telling whether it has a name character yet. */
  function ScanVariable(z: string, i: nat, named: bool): (x: Lexeme)
    requires 1 <= i <= |z|
    ensures i <= x.length <= |z|
    decreases |z| - i
  {
    var c := At(z, i);
    if IsIdChar(c) then
      ScanVariable(z, i + 1, true)
    else if c == '(' && named then
      var j := Span(z, i + 1, UntilSpaceOrParen);
      if At(z, j) == ')' then Lexeme(Variable, j + 1) else Lexeme(Illegal, j)
    else if c == ':' && At(z, i + 1) == ':' then
      ScanVariable(z, i + 2, named)
    else
      Lexeme(if named then Variable else Illegal, i)
  }

  function ScanBlob(z: string): (x: Lexeme)
    requires |z| >= 2
    ensures 2 <= x.length <= |z|
  {
    var e := Span(z, 2, Hexes);
    if At(z, e) == '\'' && e % 2 == 0 then
      Lexeme(BlobLiteral, e + 1)
    else
      var f := Span(z, e, UntilQuote);
      Lexeme(Illegal, if At(z, f) == '\0' then f else f + 1)
  }

  function ScanQuoted(z: string): (x: Lexeme)
    requires z != "" && z[0] != '\0'
    ensures 1 <= x.length <= |z|
  {
    var e := QuoteEnd(z, 1, z[0]);
    if At(z, e) == '\0' then Lexeme(Illegal, e)
    else Lexeme(if z[0] == '\'' then StringLiteral else QuotedName, e + 1)
  }

  function ScanMinus(z: string): (x: Lexeme)
    requires z != ""
    ensures 1 <= x.length <= |z|
  {
    if At(z, 1) == '-' then Lexeme(Comment, Span(z, 2, UntilNewline))
    else if At(z, 1) == '>' then Lexeme(Symbol, if At(z, 2) == '>' then 3 else 2)
    else Lexeme(Symbol, 1)
  }

  function ScanSlash(z: string): (x: Lexeme)
    requires z != ""
    ensures 1 <= x.length <= |z|
  {
    if At(z, 1) != '*' || At(z, 2) == '\0' then Lexeme(Symbol, 1)
    else Lexeme(Comment, CommentEnd(z, 3))
  }

  function ScanBracket(z: string): (x: Lexeme)
    requires z != ""
    ensures 1 <= x.length <= |z|
  {
    var e := Span(z, 1, UntilBracket);
    if At(z, e) == ']' then Lexeme(QuotedName, e + 1) else Lexeme(Illegal, e)
  }

  /** Tokens of one character, or of two when the next one continues the operator. */
  function ScanOperator(z: string): (x: Lexeme)
    requires z != ""
    ensures 1 <= x.length <= |z|
  {
    var c, d := z[0], At(z, 1);
    if c in "()+*%,&~;" then Lexeme(Symbol, 1)
    else if c == '=' then Lexeme(Symbol, if d == '=' then 2 else 1)
    else if c == '<' then Lexeme(Symbol, if d in "=><" then 2 else 1)
    else if c == '>' then Lexeme(Symbol, if d in "=>" then 2 else 1)
    else if c == '!' then if d == '=' then Lexeme(Symbol, 2) else Lexeme(Illegal, 1)
    else if c == '|' then Lexeme(Symbol, if d == '|' then 2 else 1)
    else Lexeme(Illegal, 1)
  }

  /** The token at the start of a text that does not begin with NUL. */
  function Scan(z: string): (x: Lexeme)
    requires z != "" && z[0] != '\0'
    ensures 1 <= x.length <= |z|
  {
    var c := z[0];
    // A token does not start at a vertical tab, though a run of spaces goes on over one.
    if IsSpace(c) && c as int != 11 then Lexeme(Space, Span(z, 1, Spaces))
    else if c == '-' then ScanMinus(z)
    else if c == '/' then ScanSlash(z)
    else if c == '\'' || c == '"' || c == '`' then ScanQuoted(z)
    else if IsDigit(c) || (c == '.' && IsDigit(At(z, 1))) then ScanNumber(z)
    else if c == '.' then Lexeme(Symbol, 1)
    else if c == '[' then ScanBracket(z)
    else if c == '?' then Lexeme(Variable, Span(z, 1, Digits))
    else if c == '$' || c == '@' || c == ':' || c == '#' then ScanVariable(z, 1, false)
    else if (c == 'x' || c == 'X') && At(z, 1) == '\'' then ScanBlob(z)
    else if c == '\U{FEFF}' then Lexeme(Space, 1)
    else if IsIdChar(c) then Lexeme(Word, Span(z, 1, IdChars))
    else ScanOperator(z)
  }

  /** The tokens the parser is fed, white space and comments included. */
  function Tokens(z: string): seq<Token> {
    if z == "" || z[0] == '\0' then
      []
    else
      var x := Scan(z);
      [Token(x.kind, z[..x.length])] + Tokens(z[x.length..])
  }
}
