/**
 * Client-side substitution preserves meaning: the prepared query has the tokens of the template,
 * with each bound placeholder replaced by the tokens of one literal for its parameter.
 */
module PreparedTokens {
  import opened Wrappers
  import opened Characters
  import opened Framing
  import opened SqlLexer
  import opened SqlLocality
  import opened Prepare
  import Values

  // ----- The tokens of a literal, and the constant they denote -----

  function LiteralTokens(v: Param): seq<Token> {
    match v
    case PyNone => [Token(Word, "NULL")]
    case PyBool(b) => [Token(Integer, Serialize(v))]
    case PyInt(i) => if i < 0 then [Token(Symbol, "-"), Token(Integer, Print(-i))] else [Token(Integer, Print(i))]
    case PyStr(s) => [Token(StringLiteral, Serialize(v))]
    case PyBytes(bs) => [Token(BlobLiteral, Serialize(v))]
  }

  datatype Constant = Null | Int(i: int) | TextValue(s: string) | BlobValue(bs: seq<byte>)

  /** Halves doubled quotes, as sqlite3Dequote does between the outer ones. */
  function Undoubled(t: string): string {
    if t == "" then ""
    else if |t| >= 2 && t[0] == '\'' && t[1] == '\'' then "'" + Undoubled(t[2..])
    else [t[0]] + Undoubled(t[1..])
  }

  function ConstantOf(tokens: seq<Token>): Option<Constant> {
    if |tokens| == 1 then
      var text := tokens[0].text;
      match tokens[0].kind
      case Word => if text == "NULL" then Some(Null) else None
      case Integer => if AllDigits(text) then Some(Int(Number(text))) else None
      case StringLiteral => if |text| >= 2 then Some(TextValue(Undoubled(text[1..|text| - 1]))) else None
      case BlobLiteral =>
        if |text| >= 3 && AllHex(text[2..|text| - 1]) && |text| % 2 == 1
        then Some(BlobValue(Values.FromHex(text[2..|text| - 1])))
        else None
      case _ => None
    else if |tokens| == 2 && tokens[0] == Token(Symbol, "-")
            && tokens[1].kind == Integer && AllDigits(tokens[1].text) then
      Some(Int(0 - Number(tokens[1].text)))
    else
      None
  }

  /** What the parameter means: Python has a boolean type, SQL has 0 and 1. */
  function Meaning(v: Param): Constant {
    match v
    case PyNone => Null
    case PyBool(b) => Int(if b then 1 else 0)
    case PyInt(i) => Int(i)
    case PyStr(s) => TextValue(s)
    case PyBytes(bs) => BlobValue(bs)
  }

  lemma {:induction false} UndoubledOfDoubled(s: string)
    ensures Undoubled(Doubled(s)) == s
  {
    if s != "" {
      UndoubledOfDoubled(s[1..]);
      var rest := Doubled(s[1..]);
      if s[0] == '\'' {
        assert Doubled(s)[2..] == rest;
      } else {
        assert Doubled(s)[1..] == rest;
      }
    }
  }

  /** Every literal decodes to its parameter. */
  lemma LiteralDecodes(v: Param)
    ensures ConstantOf(LiteralTokens(v)) == Some(Meaning(v))
  {
    match v
    case PyNone =>
    case PyBool(b) =>
      assert Number("1") == 1 && Number("0") == 0 by {
        assert "1"[..0] == "" && "0"[..0] == "";
      }
    case PyInt(i) =>
      hide Print;
    case PyStr(s) =>
      UndoubledOfDoubled(s);
      hide Doubled, Undoubled;
      var t := Serialize(v);
      assert t[1..|t| - 1] == Doubled(s);
    case PyBytes(bs) =>
      BlobDecodes(bs);
  }

  lemma BlobDecodes(bs: seq<byte>)
    ensures ConstantOf(LiteralTokens(PyBytes(bs))) == Some(BlobValue(bs))
  {
    Values.HexRoundTrip(bs);
    var hex := Values.Hex(bs);
    hide Values.Hex, Values.FromHex;
    var t := Serialize(PyBytes(bs));
    assert t == "X'" + hex + "'";
    assert t[2..|t| - 1] == hex;
  }

  // ----- Literals are whole tokens -----

  /** Characters that may not follow a placeholder: a literal would take them in. */
  predicate Extends(c: char) {
    IsIdChar(c) || c == '.' || c == '\''
  }

  lemma TokensAfter(text: string, w: string, kind: Kind)
    requires text != "" && text[0] != '\0' && Scan(text + w) == Lexeme(kind, |text|)
    ensures Tokens(text + w) == [Token(kind, text)] + Tokens(w)
  {
    assert (text + w)[..|text|] == text && (text + w)[|text|..] == w;
  }

  lemma NumberScans(digits: string, w: string)
    requires AllDigits(digits) && digits != "" && (digits[0] == '0' ==> |digits| == 1) && !Extends(At(w, 0))
    ensures Scan(digits + w) == Lexeme(Integer, |digits|)
  {
    var z := digits + w;
    var n := |digits|;
    assert At(z, n) == At(w, 0);
    assert forall j :: 0 <= j < n ==> At(z, j) == digits[j];
    SpanIs(z, 0, DigitsOrSeparator, n);
    SpanIs(z, n, IdChars, n);
    assert !IsHexNumber(z);
    assert DecimalEnd(z) == n;
    assert '_' !in z[..n];
  }

  lemma {:induction false} DoubledEnds(p: string, s: string, w: string)
    requires '\0' !in s && At(w, 0) != '\''
    ensures QuoteEnd(p + Doubled(s) + "'" + w, |p|, '\'') == |p| + |Doubled(s)|
    decreases |s|
  {
    var z := p + Doubled(s) + "'" + w;
    if s == "" {
      assert At(z, |p| + 1) == At(w, 0);
    } else {
      var head := Escaped(s[0]);
      DoubledEnds(p + head, s[1..], w);
      Associates(p, head, Doubled(s[1..]));
      assert z[|p|] == s[0];
      if s[0] == '\'' {
        assert At(z, |p| + 1) == '\'';
      }
    }
  }

  /** A string parameter becomes one string token exactly when it has no NUL; if it has one, the token is illegal. */
  lemma StringScans(s: string, w: string)
    requires At(w, 0) != '\''
    ensures '\0' !in s ==> Scan(Serialize(PyStr(s)) + w) == Lexeme(StringLiteral, |Serialize(PyStr(s))|)
    ensures '\0' in s ==> Scan(Serialize(PyStr(s)) + w).kind == Illegal
  {
    var z := "'" + Doubled(s) + "'" + w;
    assert z == Serialize(PyStr(s)) + w;
    var e := QuoteEnd(z, 1, '\'');
    if '\0' in s {
      NulStopsQuote("'", s, w);
    } else {
      DoubledEnds("'", s, w);
    }
  }

  lemma {:induction false} NulStopsQuote(p: string, s: string, w: string)
    requires '\0' in s
    ensures At(p + Doubled(s) + "'" + w, QuoteEnd(p + Doubled(s) + "'" + w, |p|, '\'')) == '\0'
    decreases |s|
  {
    var z := p + Doubled(s) + "'" + w;
    assert s == [s[0]] + s[1..];
    var head := Escaped(s[0]);
    assert z == p + head + Doubled(s[1..]) + "'" + w;
    assert z[|p|] == s[0];
    if s[0] != '\0' {
      NulStopsQuote(p + head, s[1..], w);
      if s[0] == '\'' {
        assert At(z, |p| + 1) == '\'';
      }
    }
  }

  lemma BlobScans(bs: seq<byte>, w: string)
    ensures Scan(Serialize(PyBytes(bs)) + w) == Lexeme(BlobLiteral, |Serialize(PyBytes(bs))|)
  {
    Values.HexRoundTrip(bs);
    var hex := Values.Hex(bs);
    hide Values.Hex, Values.FromHex;
    var z := "X'" + hex + "'" + w;
    assert z == Serialize(PyBytes(bs)) + w;
    assert forall j :: 0 <= j < |hex| ==> At(z, 2 + j) == hex[j];
    SpanIs(z, 2, Hexes, 2 + |hex|);
  }

  lemma NullScans(w: string)
    requires !Extends(At(w, 0))
    ensures Scan("NULL" + w) == Lexeme(Word, 4)
  {
    var z := "NULL" + w;
    assert At(z, 4) == At(w, 0);
    SpanIs(z, 1, IdChars, 4);
  }

  /** SQLite reads SQL as a C string, so a string literal cannot hold a NUL. */
  predicate NulFree(v: Param) {
    v.PyStr? ==> '\0' !in v.s
  }

  /** A literal in front of a text that cannot extend it gives exactly its own tokens. */
  lemma LiteralJoins(v: Param, w: string)
    requires !Extends(At(w, 0)) && NulFree(v)
    ensures Tokens(Serialize(v) + w) == LiteralTokens(v) + Tokens(w)
  {
    hide Scan, Tokens;
    match v
    case PyNone =>
      NullScans(w);
      TokensAfter("NULL", w, Word);
    case PyBool(b) =>
      NumberScans(Serialize(v), w);
      TokensAfter(Serialize(v), w, Integer);
    case PyStr(s) =>
      StringScans(s, w);
      TokensAfter(Serialize(v), w, StringLiteral);
    case PyBytes(bs) =>
      BlobScans(bs, w);
      TokensAfter(Serialize(v), w, BlobLiteral);
    case PyInt(i) =>
      IntJoins(i, w);
  }

  lemma IntJoins(i: int, w: string)
    requires !Extends(At(w, 0))
    ensures Tokens(Serialize(PyInt(i)) + w) == LiteralTokens(PyInt(i)) + Tokens(w)
  {
    hide Scan, Tokens, Print, Serialize, LiteralTokens;
    var digits := Print(if i < 0 then -i else i);
    IntLiteral(i, digits);
    NumberScans(digits, w);
    TokensAfter(digits, w, Integer);
    if i < 0 {
      MinusScans(digits, w);
      TokensAfter("-", digits + w, Symbol);
      Associates("-", digits, w);
      TokensAssociate(Token(Symbol, "-"), Token(Integer, digits), Tokens(w));
    }
  }

  lemma IntLiteral(i: int, digits: string)
    requires digits == Print(if i < 0 then -i else i)
    ensures Serialize(PyInt(i)) == if i < 0 then "-" + digits else digits
    ensures LiteralTokens(PyInt(i))
            == if i < 0 then [Token(Symbol, "-"), Token(Integer, digits)] else [Token(Integer, digits)]
  {
    hide Print;
  }

  lemma TokensAssociate(a: Token, b: Token, rest: seq<Token>)
    ensures [a] + ([b] + rest) == [a, b] + rest
  {
  }

  lemma MinusScans(digits: string, w: string)
    requires AllDigits(digits) && digits != ""
    ensures Scan("-" + (digits + w)) == Lexeme(Symbol, 1)
  {
    assert At("-" + (digits + w), 1) == digits[0];
  }

  lemma LiteralBreaks(v: Param, w: string)
    requires !Extends(At(w, 0)) && !NulFree(v)
    ensures Tokens(Serialize(v) + w) != [] && Tokens(Serialize(v) + w)[0].kind == Illegal
    ensures LiteralTokens(v) != [] && LiteralTokens(v)[0].kind == StringLiteral
  {
    hide Scan;
    StringScans(v.s, w);
  }

  // ----- The template and its expansion -----

  predicate IsPlaceholder(t: Token) {
    t.text != "" && t.text[0] == '?' && AllDigits(t.text[1..])
  }

  function PieceOf(t: Token): Piece
    requires IsPlaceholder(t)
  {
    Placeholder(t.text[1..])
  }

  function BoundBy(t: Token, params: seq<Param>, k: nat): Option<Param> {
    if IsPlaceholder(t) then Bound(PieceOf(t), params, k) else None
  }

  function Next(t: Token, k: nat): nat {
    if t.text == "?" then k + 1 else k
  }

  /** The template's tokens with every bound placeholder replaced; k bare ones came before. */
  function Expand(template: seq<Token>, params: seq<Param>, k: nat): seq<Token> {
    if template == [] then
      []
    else
      var t := template[0];
      var bound := BoundBy(t, params, k);
      (if bound.Some? then LiteralTokens(bound.value) else [t]) + Expand(template[1..], params, Next(t, k))
  }

  /** No parameter that a placeholder uses holds a NUL. */
  predicate UsesNulFree(template: seq<Token>, params: seq<Param>, k: nat) {
    template != [] ==>
      var bound := BoundBy(template[0], params, k);
      (bound.Some? ==> NulFree(bound.value)) && UsesNulFree(template[1..], params, Next(template[0], k))
  }

  /**
   * Placeholders are tokens of their own, after a character a literal cannot extend and before
   * one that cannot extend a literal; `?` occurs in no other token. `prev` precedes the text.
   */
  predicate WellPlaced(prev: char, z: string)
    decreases |z|
  {
    z == "" || z[0] == '\0' ||
    (var n := Scan(z).length;
     (if z[0] == '?' then !Extensible(prev) && !Extends(At(z, n)) else '?' !in z[..n]) &&
     WellPlaced(z[n - 1], z[n..]))
  }

  // ----- Where the prepared query first differs -----

  /** The first question mark before the end of the text, or that end. */
  function Front(z: string): (m: nat)
    ensures m <= |z| && (At(z, m) == '?' || At(z, m) == '\0')
    ensures forall j :: 0 <= j < m ==> z[j] != '?' && z[j] != '\0'
  {
    if z == "" || z[0] == '?' || z[0] == '\0' then 0 else 1 + Front(z[1..])
  }

  lemma {:induction false} FrontIs(z: string, m: nat)
    requires m <= |z| && (At(z, m) == '?' || At(z, m) == '\0')
    requires forall j :: 0 <= j < m ==> z[j] != '?' && z[j] != '\0'
    ensures Front(z) == m
  {
    if m > 0 {
      assert At(z[1..], m - 1) == At(z, m);
      FrontIs(z[1..], m - 1);
    }
  }

  lemma {:induction false} AgreeUntilFront(z: string, params: seq<Param>, k: nat)
    ensures Agree(z, Prepared(z, params, k), Front(z))
    ensures At(z, Front(z)) == '\0' ==> At(Prepared(z, params, k), Front(z)) == '\0'
    ensures At(z, Front(z)) == '?' ==> StartsLiteral(At(Prepared(z, params, k), Front(z)))
  {
    hide Prepared;
    if z == "" {
      PreparedEmpty(params, k);
    } else if z[0] == '?' {
      StartsWithLiteral(z, params, k);
    } else {
      PreparedVerbatim(z, params, k);
      if z[0] != '\0' {
        AgreeUntilFront(z[1..], params, k);
        var m := Front(z[1..]);
        assert z[..m + 1] == [z[0]] + z[1..][..m];
        assert Prepared(z, params, k)[..m + 1] == [z[0]] + Prepared(z[1..], params, k)[..m];
      }
    }
  }

  lemma PlaceholderParts(z: string) returns (digits: string, rest: string)
    requires z != "" && z[0] == '?'
    ensures AllDigits(digits) && !IsDigit(At(rest, 0)) && z == "?" + digits + rest
    ensures Scan(z) == Lexeme(Variable, 1 + |digits|)
    ensures z[..1 + |digits|] == "?" + digits && z[1 + |digits|..] == rest
  {
    var n := Span(z, 1, Digits);
    digits, rest := z[1..n], z[n..];
    forall j | 0 <= j < |digits| ensures IsDigit(digits[j]) {
      assert Digits.Has(At(z, 1 + j));
    }
    assert At(rest, 0) == At(z, n);
  }

  lemma StartsWithLiteral(z: string, params: seq<Param>, k: nat)
    requires z != "" && z[0] == '?'
    ensures StartsLiteral(At(Prepared(z, params, k), 0))
  {
    hide Prepared, Scan;
    var digits, rest := PlaceholderParts(z);
    PreparedPlaceholder(z, digits, rest, params, k);
  }

  /** The character before the first placeholder of a well-placed text is one a literal cannot extend. */
  lemma {:induction false} BeforeFront(prev: char, z: string)
    requires WellPlaced(prev, z) && At(z, Front(z)) == '?'
    ensures !Extensible(if Front(z) == 0 then prev else z[Front(z) - 1])
    decreases |z|
  {
    hide Scan, Front, Extensible;
    if z[0] == '?' {
      FrontIs(z, 0);
    } else {
      var n := Scan(z).length;
      FrontBeyond(z, n);
      FrontOfRest(z, n);
      BeforeFront(z[n - 1], z[n..]);
      hide WellPlaced;
      BeforeInRest(z, n, Front(z));
    }
  }

  lemma FrontBeyond(z: string, n: nat)
    requires n <= |z| && '?' !in z[..n] && At(z, Front(z)) == '?'
    ensures n <= Front(z)
  {
    assert forall j :: 0 <= j < n ==> z[j] == z[..n][j];
  }

  lemma BeforeInRest(z: string, n: nat, m: nat)
    requires 1 <= n <= m <= |z|
    ensures (if m == n then z[n - 1] else z[n..][m - n - 1]) == z[m - 1]
  {
  }

  lemma FrontOfRest(z: string, n: nat)
    requires n <= Front(z)
    ensures Front(z[n..]) == Front(z) - n
  {
    assert At(z[n..], Front(z) - n) == At(z, Front(z));
    FrontIs(z[n..], Front(z) - n);
  }

  // ----- The theorem -----

  lemma SameHead(head: seq<Token>, a: seq<Token>, b: seq<Token>)
    ensures head + a == head + b <==> a == b
  {
    assert (head + a)[|head|..] == a && (head + b)[|head|..] == b;
  }

  lemma FirstUnlessPlaceholder(z: string, params: seq<Param>, k: nat)
    requires At(z, 0) != '?'
    ensures At(Prepared(z, params, k), 0) == At(z, 0)
  {
    hide Prepared;
    if z == "" {
      PreparedEmpty(params, k);
    } else {
      PreparedVerbatim(z, params, k);
    }
  }

  /** A well-placed text does not go on with a placeholder after an extensible character. */
  lemma NoAdjacent(prev: char, z: string)
    requires WellPlaced(prev, z) && Extensible(prev)
    ensures At(z, 0) != '?'
  {
  }

  lemma {:induction false} PreparedText(a: string, b: string, params: seq<Param>, k: nat)
    requires '?' !in a
    ensures Prepared(a + b, params, k) == a + Prepared(b, params, k)
  {
    hide Prepared;
    if a == "" {
      assert a + b == b;
    } else {
      PreparedVerbatim(a + b, params, k);
      assert (a + b)[1..] == a[1..] + b;
      PreparedText(a[1..], b, params, k);
    }
  }

  /** A token that is no placeholder is read again in the prepared query. */
  lemma OtherTokenStays(prev: char, z: string, params: seq<Param>, k: nat)
    requires WellPlaced(prev, z) && z != "" && z[0] != '\0' && z[0] != '?'
    ensures Tokens(Prepared(z, params, k))
            == [Tokens(z)[0]] + Tokens(Prepared(z[Scan(z).length..], params, k))
  {
    hide Prepared;
    var x := Scan(z);
    var n := x.length;
    var rest := z[n..];
    assert z == z[..n] + rest;
    PreparedText(z[..n], rest, params, k);
    var z' := Prepared(z, params, k);
    AgreeUntilFront(z, params, k);
    if At(z, Front(z)) == '?' {
      BeforeFront(prev, z);
    }
    assert forall j :: 0 <= j < n ==> z[j] == z[..n][j];
    ScanBeforeNul(z);
    assert forall j :: 0 <= j < n ==> At(z, j) != '\0';
    assert Parting(z, z', Front(z));
    hide Scan;
    ScanIsLocal(z, z', Front(z));
    assert z'[..n] == z[..n] && z'[n..] == Prepared(rest, params, k);
  }

  lemma TokensOf(z: string, x: Lexeme)
    requires z != "" && z[0] != '\0' && Scan(z) == x
    ensures Tokens(z) == [Token(x.kind, z[..x.length])] + Tokens(z[x.length..])
  {
  }

  lemma ExpandOther(t: Token, rest: seq<Token>, params: seq<Param>, k: nat)
    requires t.text != "" && t.text[0] != '?'
    ensures Expand([t] + rest, params, k) == [t] + Expand(rest, params, k)
    ensures UsesNulFree([t] + rest, params, k) == UsesNulFree(rest, params, k)
  {
    assert ([t] + rest)[1..] == rest;
  }

  lemma ExpandPlaceholder(digits: string, rest: seq<Token>, params: seq<Param>, k: nat)
    requires AllDigits(digits)
    ensures var t := Token(Variable, "?" + digits);
            var bound := Bound(Placeholder(digits), params, k);
            var next := k + (if digits == "" then 1 else 0);
            Expand([t] + rest, params, k)
            == (if bound.Some? then LiteralTokens(bound.value) else [t]) + Expand(rest, params, next) &&
            (UsesNulFree([t] + rest, params, k) <==>
             (bound.Some? ==> NulFree(bound.value)) && UsesNulFree(rest, params, next))
  {
    var t := Token(Variable, "?" + digits);
    assert t.text[1..] == digits;
    assert ([t] + rest)[1..] == rest;
  }

  /** A placeholder's token gives way to those of its literal, or stays. */
  lemma PlaceholderTokens(bound: Option<Param>, digits: string, w: string)
    requires AllDigits(digits) && !Extends(At(w, 0))
    requires bound.Some? ==> NulFree(bound.value)
    ensures var t := Token(Variable, "?" + digits);
            Tokens((if bound.Some? then Serialize(bound.value) else "?" + digits) + w)
            == (if bound.Some? then LiteralTokens(bound.value) else [t]) + Tokens(w)
  {
    hide Tokens, Serialize, LiteralTokens;
    if bound.Some? {
      LiteralJoins(bound.value, w);
    } else {
      var text := "?" + digits;
      DigitRunEnds(digits, w);
      assert Scan(text + w) == Lexeme(Variable, |text|);
      hide Scan;
      TokensAfter(text, w, Variable);
    }
  }

  /** The prepared query has the expanded tokens exactly when no parameter that is used holds a NUL. */
  lemma {:induction false} TokensAreExpanded(prev: char, z: string, params: seq<Param>, k: nat)
    requires WellPlaced(prev, z)
    ensures Tokens(Prepared(z, params, k)) == Expand(Tokens(z), params, k)
            <==> UsesNulFree(Tokens(z), params, k)
    decreases |z|
  {
    hide Prepared, Expand, UsesNulFree;
    if z == "" || z[0] == '\0' {
      NothingToPrepare(z, params, k);
    } else if z[0] == '?' {
      PlaceholderIsPrepared(prev, z, params, k);
    } else {
      var x := Scan(z);
      var n := x.length;
      OtherTokenStays(prev, z, params, k);
      TokensOf(z, x);
      var t := Token(x.kind, z[..n]);
      var rest := z[n..];
      TokensAreExpanded(z[n - 1], rest, params, k);
      ExpandOther(t, Tokens(rest), params, k);
      SameHead([t], Tokens(Prepared(rest, params, k)), Expand(Tokens(rest), params, k));
    }
  }

  lemma NothingToPrepare(z: string, params: seq<Param>, k: nat)
    requires z == "" || z[0] == '\0'
    ensures Tokens(Prepared(z, params, k)) == [] == Expand(Tokens(z), params, k)
    ensures UsesNulFree(Tokens(z), params, k)
  {
    FirstUnlessPlaceholder(z, params, k);
  }

  lemma PlaceholderIsPrepared(prev: char, z: string, params: seq<Param>, k: nat)
    requires WellPlaced(prev, z) && z != "" && z[0] == '?'
    ensures Tokens(Prepared(z, params, k)) == Expand(Tokens(z), params, k)
            <==> UsesNulFree(Tokens(z), params, k)
    decreases |z|, 0
  {
    hide Prepared, Expand, UsesNulFree, Tokens, Serialize, LiteralTokens;
    var digits, rest := PlaceholderParts(z);
    var next := k + (if digits == "" then 1 else 0);
    var bound := Bound(Placeholder(digits), params, k);
    var t := Token(Variable, "?" + digits);
    TokensOf(z, Lexeme(Variable, 1 + |digits|));
    PreparedPlaceholder(z, digits, rest, params, k);
    ExpandPlaceholder(digits, Tokens(rest), params, k);
    assert WellPlaced(z[|digits|], rest) && !Extends(At(z, 1 + |digits|));
    assert At(rest, 0) == At(z, 1 + |digits|);
    LastOfPlaceholder(z, digits);
    NoAdjacent(z[|digits|], rest);
    hide Scan, WellPlaced;
    TokensAreExpanded(z[|digits|], rest, params, next);
    var w := Prepared(rest, params, next);
    FirstUnlessPlaceholder(rest, params, next);
    if bound.Some? && !NulFree(bound.value) {
      LiteralBreaks(bound.value, w);
    } else {
      PlaceholderTokens(bound, digits, w);
      assert Text(Placeholder(digits)) == "?" + digits;
      SameHead(if bound.Some? then LiteralTokens(bound.value) else [t], Tokens(w), Expand(Tokens(rest), params, next));
    }
  }

  lemma LastOfPlaceholder(z: string, digits: string)
    requires AllDigits(digits) && |z| > |digits| && z[..1 + |digits|] == "?" + digits
    ensures Extensible(z[|digits|])
  {
    assert z[|digits|] == ("?" + digits)[|digits|];
  }

  // ----- Which token gives way to which literal -----

  /** The bare placeholders before token i. */
  function MarksBefore(ts: seq<Token>, i: nat): set<nat>
    requires i <= |ts|
  {
    set j: nat | j < i && ts[j].text == "?"
  }

  /** Token i stands for v, by the number of `?` before it or by its own number, which counts from 1. */
  predicate StandsFor(ts: seq<Token>, params: seq<Param>, k: nat, i: nat, v: Param)
    requires i < |ts|
  {
    var text := ts[i].text;
    if text == "?" then
      var n := k + |MarksBefore(ts, i)|; n < |params| && params[n] == v
    else
      && text != "" && text[0] == '?' && AllDigits(text[1..])
      && 1 <= Number(text[1..]) <= |params| && params[Number(text[1..]) - 1] == v
  }

  /** Every token that stands for a parameter gives way to its literal's tokens; all others stay. */
  ghost predicate IsReplacement(ts: seq<Token>, params: seq<Param>, k: nat, parts: seq<seq<Token>>) {
    && |parts| == |ts|
    && (forall i, v :: 0 <= i < |ts| && StandsFor(ts, params, k, i, v) ==> parts[i] == LiteralTokens(v))
    && (forall i :: 0 <= i < |ts| && (forall v :: !StandsFor(ts, params, k, i, v)) ==> parts[i] == [ts[i]])
  }

  function Sequence(parts: seq<seq<Token>>): seq<Token> {
    if parts == [] then [] else parts[0] + Sequence(parts[1..])
  }

  lemma SequenceFirst(parts: seq<seq<Token>>)
    requires parts != []
    ensures Sequence(parts) == parts[0] + Sequence(parts[1..])
  {
  }

  lemma OneMoreMark(ts: seq<Token>, i: nat)
    requires i < |ts|
    ensures |MarksBefore(ts, i + 1)| == |MarksBefore(ts, i)| + if ts[i].text == "?" then 1 else 0
  {
    assert MarksBefore(ts, i + 1) == MarksBefore(ts, i) + if ts[i].text == "?" then {i} else {};
  }

  /** What a token stands for is what is bound to it. */
  lemma StandsForBound(ts: seq<Token>, params: seq<Param>, k: nat, i: nat)
    requires i < |ts|
    ensures forall v :: StandsFor(ts, params, k, i, v) <==> BoundBy(ts[i], params, k + |MarksBefore(ts, i)|) == Some(v)
  {
    hide MarksBefore;
    var text := ts[i].text;
    if text == "?" {
      assert text[1..] == "";
    } else if IsPlaceholder(ts[i]) {
      assert text == [text[0]] + text[1..];
    }
  }

  lemma ReplacedToken(ts: seq<Token>, params: seq<Param>, k: nat, i: nat, parts: seq<seq<Token>>)
    requires i < |ts| && IsReplacement(ts, params, k, parts)
    ensures var bound := BoundBy(ts[i], params, k + |MarksBefore(ts, i)|);
            parts[i] == if bound.Some? then LiteralTokens(bound.value) else [ts[i]]
  {
    StandsForBound(ts, params, k, i);
    hide LiteralTokens, MarksBefore, BoundBy, StandsFor;
    var bound := BoundBy(ts[i], params, k + |MarksBefore(ts, i)|);
    if bound.Some? {
      assert StandsFor(ts, params, k, i, bound.value);
    }
  }

  lemma ExpandFirst(ts: seq<Token>, params: seq<Param>, k: nat)
    requires ts != []
    ensures var bound := BoundBy(ts[0], params, k);
            var next := k + if ts[0].text == "?" then 1 else 0;
            && Expand(ts, params, k)
               == (if bound.Some? then LiteralTokens(bound.value) else [ts[0]]) + Expand(ts[1..], params, next)
            && (UsesNulFree(ts, params, k)
                <==> (bound.Some? ==> NulFree(bound.value)) && UsesNulFree(ts[1..], params, next))
  {
    hide LiteralTokens, BoundBy, NulFree;
  }

  /** The parts from token i on, of which n bare placeholders come before. */
  ghost predicate ExpandsFrom(ts: seq<Token>, params: seq<Param>, n: nat, parts: seq<seq<Token>>, i: nat)
    requires i <= |ts| && i <= |parts|
  {
    Expand(ts[i..], params, n) == Sequence(parts[i..])
  }

  lemma ExpandAndSequence(ts: seq<Token>, params: seq<Param>, n: nat, parts: seq<seq<Token>>)
    requires ts != [] && parts != []
    requires var bound := BoundBy(ts[0], params, n);
             parts[0] == if bound.Some? then LiteralTokens(bound.value) else [ts[0]]
    requires Expand(ts[1..], params, n + (if ts[0].text == "?" then 1 else 0)) == Sequence(parts[1..])
    ensures Expand(ts, params, n) == Sequence(parts)
  {
    hide BoundBy, LiteralTokens, UsesNulFree, NulFree, Expand;
    ExpandFirst(ts, params, n);
    SequenceFirst(parts);
    hide Sequence;
  }

  lemma ExpandsFromNext(ts: seq<Token>, params: seq<Param>, n: nat, parts: seq<seq<Token>>, i: nat)
    requires i < |ts| && i < |parts|
    requires var bound := BoundBy(ts[i], params, n);
             parts[i] == if bound.Some? then LiteralTokens(bound.value) else [ts[i]]
    requires ExpandsFrom(ts, params, n + (if ts[i].text == "?" then 1 else 0), parts, i + 1)
    ensures ExpandsFrom(ts, params, n, parts, i)
  {
    hide BoundBy, LiteralTokens, Expand, Sequence;
    DropOne(ts, i);
    DropOne(parts, i);
    ExpandAndSequence(ts[i..], params, n, parts[i..]);
  }

  lemma {:induction false} ExpandFrom(ts: seq<Token>, params: seq<Param>, k: nat, parts: seq<seq<Token>>, i: nat)
    requires i <= |ts| && IsReplacement(ts, params, k, parts)
    ensures |parts| == |ts| && ExpandsFrom(ts, params, k + |MarksBefore(ts, i)|, parts, i)
    decreases |ts| - i
  {
    hide *;
    ReplacementLength(ts, params, k, parts);
    if i < |ts| {
      ExpandFrom(ts, params, k, parts, i + 1);
      OneMoreMark(ts, i);
      ReplacedToken(ts, params, k, i, parts);
      ExpandsFromNext(ts, params, k + |MarksBefore(ts, i)|, parts, i);
    } else {
      ExpandsFromEnd(ts, params, k + |MarksBefore(ts, i)|, parts);
    }
  }

  lemma ReplacementLength(ts: seq<Token>, params: seq<Param>, k: nat, parts: seq<seq<Token>>)
    requires IsReplacement(ts, params, k, parts)
    ensures |parts| == |ts|
  {
  }

  lemma ExpandsFromEnd(ts: seq<Token>, params: seq<Param>, n: nat, parts: seq<seq<Token>>)
    requires |parts| == |ts|
    ensures ExpandsFrom(ts, params, n, parts, |ts|)
  {
    assert ts[|ts|..] == [] && parts[|ts|..] == [];
  }

  lemma {:induction false} NulFreeFrom(ts: seq<Token>, params: seq<Param>, k: nat, i: nat)
    requires i <= |ts|
    ensures UsesNulFree(ts[i..], params, k + |MarksBefore(ts, i)|)
            <==> forall j, v :: i <= j < |ts| && StandsFor(ts, params, k, j, v) ==> NulFree(v)
    decreases |ts| - i
  {
    if i < |ts| {
      hide Expand, UsesNulFree, MarksBefore, BoundBy, LiteralTokens, NulFree, StandsFor;
      NulFreeFrom(ts, params, k, i + 1);
      OneMoreMark(ts, i);
      StandsForBound(ts, params, k, i);
      ExpandFirst(ts[i..], params, k + |MarksBefore(ts, i)|);
      DropOne(ts, i);
    }
  }

  /**
   * The prepared query reads as the template in which each bare placeholder gives way to the
   * tokens of the parameter whose index is the number of bare ones before it, each numbered one
   * to those of the parameter it names, and all other tokens stay; and it does so exactly when
   * no string that is substituted holds a NUL.
   */
  lemma TokensArePrepared(prev: char, z: string, params: seq<Param>, k: nat, parts: seq<seq<Token>>)
    requires WellPlaced(prev, z) && IsReplacement(Tokens(z), params, k, parts)
    ensures Tokens(Prepared(z, params, k)) == Sequence(parts)
            <==> forall i, v :: 0 <= i < |Tokens(z)| && StandsFor(Tokens(z), params, k, i, v) ==> NulFree(v)
  {
    hide Prepared, Tokens, Expand, UsesNulFree, IsReplacement, StandsFor, NulFree, WellPlaced;
    var ts := Tokens(z);
    TokensAreExpanded(prev, z, params, k);
    ExpandFrom(ts, params, k, parts, 0);
    NulFreeFrom(ts, params, k, 0);
    assert ts[0..] == ts && parts[0..] == parts && MarksBefore(ts, 0) == {};
  }

  /** There is one such replacement. */
  lemma ReplacementExists(ts: seq<Token>, params: seq<Param>, k: nat) returns (parts: seq<seq<Token>>)
    ensures IsReplacement(ts, params, k, parts)
  {
    hide StandsFor, ReplacedAt, LiteralTokens;
    parts := seq(|ts|, i requires 0 <= i < |ts| => ReplacedAt(ts, params, k, i));
  }

  function ReplacedAt(ts: seq<Token>, params: seq<Param>, k: nat, i: nat): (part: seq<Token>)
    requires i < |ts|
    ensures forall v :: StandsFor(ts, params, k, i, v) ==> part == LiteralTokens(v)
    ensures (forall v :: !StandsFor(ts, params, k, i, v)) ==> part == [ts[i]]
  {
    StandsForBound(ts, params, k, i);
    var bound := BoundBy(ts[i], params, k + |MarksBefore(ts, i)|);
    if bound.Some? then LiteralTokens(bound.value) else [ts[i]]
  }

  // ----- The placement condition is needed -----

  lemma LongToken(p: string, literal: string)
    requires p != "" && p[0] != '\0' && Scan(p + literal).length > |p|
    ensures Tokens(p) != [] && |Tokens(p)[0].text| <= |p|
    ensures Tokens(p + literal) != [] && |Tokens(p + literal)[0].text| > |p|
  {
  }

  lemma {:induction false} SpanCovers(z: string, i: nat, chars: CharSet, n: nat)
    requires i <= n <= |z|
    requires forall j :: i <= j < n ==> chars.Has(z[j])
    ensures Span(z, i, chars) >= n
    decreases n - i
  {
    if i < n {
      SpanCovers(z, i + 1, chars, n);
    }
  }

  lemma WordTakesIn(p: string, w: string)
    requires p != "" && 'A' <= p[0] <= 'W' && forall j :: 0 <= j < |p| ==> IsIdChar(p[j])
    requires IsIdChar(At(w, 0))
    ensures Scan(p + w).length > |p|
  {
    SpanCovers(p + w, 1, IdChars, |p| + 1);
  }

  lemma OneDot(w: string)
    requires At(w, 0) == '.'
    ensures Scan("1" + w).length > 1
  {
    var z := "1" + w;
    assert At(z, 1) == '.' && At(z, 0) == '1';
    SpanIs(z, 0, DigitsOrSeparator, 1);
    assert MantissaEnd(z) > 1;
  }

  /** A literal keeps to itself, whatever the parameter, exactly when the next character cannot extend it. */
  lemma RightDelimiterNeeded(w: string)
    ensures (forall v: Param :: NulFree(v) ==> Tokens(Serialize(v) + w) == LiteralTokens(v) + Tokens(w))
            <==> !Extends(At(w, 0))
  {
    if !Extends(At(w, 0)) {
      forall v: Param | NulFree(v) ensures Tokens(Serialize(v) + w) == LiteralTokens(v) + Tokens(w) {
        LiteralJoins(v, w);
      }
    } else {
      var v := LiteralTakesIn(w);
      assert NulFree(v);
      assert Tokens(Serialize(v) + w) != LiteralTokens(v) + Tokens(w);
    }
  }

  lemma LiteralTakesIn(w: string) returns (v: Param)
    requires Extends(At(w, 0))
    ensures NulFree(v) && Tokens(Serialize(v) + w) != LiteralTokens(v) + Tokens(w)
  {
    if At(w, 0) == '.' {
      v := PyBool(true);
      OneDot(w);
    } else if At(w, 0) == '\'' {
      v := PyStr("");
      var z := "''" + w;
      assert At(z, 2) == '\'' && QuoteEnd(z, 1, '\'') >= 3;
      assert Serialize(v) == "''";
    } else {
      v := PyNone;
      WordTakesIn("NULL", w);
    }
    hide Scan;
    LongToken(Serialize(v), w);
  }

  /** Every extensible character ends some text that a literal fuses with. */
  lemma LeftDelimiterNeeded(c: char) returns (p: string, v: Param)
    requires Extensible(c)
    ensures p != "" && p[|p| - 1] == c && NulFree(v)
    ensures Tokens(p + Serialize(v)) != Tokens(p) + LiteralTokens(v)
  {
    hide Scan, Tokens, Serialize, LiteralTokens;
    if IsIdChar(c) {
      p, v := "A" + [c], PyNone;
      assert Serialize(v) == "NULL" by { SmallLiterals(); }
      WordTakesIn(p, "NULL");
    } else {
      p, v := SymbolTakesIn(c);
    }
    LongToken(p, Serialize(v));
  }

  lemma SmallLiterals()
    ensures Serialize(PyNone) == "NULL" && Serialize(PyInt(5)) == "5"
    ensures Serialize(PyStr("")) == "''" && Serialize(PyInt(-1)) == "-1"
  {
    assert Print(5) == "5" && Print(1) == "1";
  }

  lemma SymbolTakesIn(c: char) returns (p: string, v: Param)
    requires Extensible(c) && !IsIdChar(c)
    ensures p != "" && p[|p| - 1] == c && p[0] != '\0' && NulFree(v)
    ensures Scan(p + Serialize(v)).length > |p|
  {
    SmallLiterals();
    hide Serialize;
    if c == '\'' {
      p, v := "''", PyStr("");
      assert QuoteEnd("''" + "''", 1, '\'') >= 3;
    } else if c == '-' {
      p, v := "-", PyInt(-1);
    } else if c == '+' {
      p, v := "1e+", PyInt(5);
      ExponentTakesIn();
    } else if c == '.' {
      p, v := ".", PyInt(5);
      SpanCovers("." + "5", 1, DigitsOrSeparator, 2);
    } else if c == '?' {
      p, v := "?", PyInt(5);
      SpanCovers("?" + "5", 1, Digits, 2);
    } else {
      p, v := [c], PyNone;
      var z := [c] + "NULL";
      assert ScanVariable(z, 1, false) == ScanVariable(z, 2, true);
    }
  }

  lemma ExponentTakesIn()
    ensures Scan("1e+" + "5").length == 4
  {
    var z := "1e+" + "5";
    assert z == "1e+5";
    SpanIs(z, 0, DigitsOrSeparator, 1);
    SpanIs(z, 3, DigitsOrSeparator, 4);
    assert DecimalEnd(z) == 4;
    SpanIs(z, 4, IdChars, 4);
  }

  /** A string parameter next to a string literal is one literal, with a quote between the two texts. */
  lemma StringsFuse(s: string, t: string)
    ensures Serialize(PyStr(s)) + Serialize(PyStr(t)) == Serialize(PyStr(s + "'" + t))
  {
    hide Doubled;
    DoubledAppends(s, "'" + t);
    DoubledQuote(t);
    Associates(s, "'", t);
    QuotesMeet(Doubled(s), Doubled(t));
  }

  lemma QuotesMeet(a: string, b: string)
    ensures ("'" + a + "'") + ("'" + b + "'") == "'" + (a + ("''" + b)) + "'"
  {
  }

  lemma DoubledQuote(t: string)
    ensures Doubled("'" + t) == "''" + Doubled(t)
  {
    assert ("'" + t)[1..] == t;
  }

  lemma {:induction false} DoubledAppends(s: string, t: string)
    ensures Doubled(s + t) == Doubled(s) + Doubled(t)
  {
    if s == "" {
      assert s + t == t;
      assert "" + Doubled(t) == Doubled(t);
    } else {
      DoubledFirst(s);
      DoubledFirst(s + t);
      assert (s + t)[1..] == s[1..] + t;
      DoubledAppends(s[1..], t);
      hide Doubled, Escaped;
      Associates(Escaped(s[0]), Doubled(s[1..]), Doubled(t));
    }
  }

  lemma DoubledFirst(s: string)
    requires s != ""
    ensures Doubled(s) == Escaped(s[0]) + Doubled(s[1..])
  {
  }

  /** The expression is blind to quotes: a placeholder inside a string literal is replaced and tears it apart. */
  lemma QuotedPlaceholderTears(s: string)
    requires s != "" && s[0] != '\''
    ensures Tokens("'?'") == [Token(StringLiteral, "'?'")]
    ensures Prepared("'?'", [PyStr(s)], 0) == "''" + Doubled(s) + "''"
    ensures Tokens(Prepared("'?'", [PyStr(s)], 0))[..1] == [Token(StringLiteral, "''")]
  {
    QuotedPlaceholderText(s);
    FirstKept(s);
    hide Doubled, Prepared;
    var z := "''" + Doubled(s) + "''";
    assert z[2] == s[0];
    assert QuoteEnd(z, 1, '\'') == 1;
    assert z[..2] == "''";
    assert QuoteEnd("'?'", 1, '\'') == 2;
    assert "'?'"[..3] == "'?'" && "'?'"[3..] == "";
  }

  lemma FirstKept(s: string)
    requires s != "" && s[0] != '\''
    ensures Doubled(s) != "" && Doubled(s)[0] == s[0]
  {
  }

  lemma QuotedPlaceholderText(s: string)
    ensures Prepared("'?'", [PyStr(s)], 0) == "''" + Doubled(s) + "''"
  {
    hide Prepared;
    PreparedVerbatim("'?'", [PyStr(s)], 0);
    assert "'?'"[1..] == "?'" && "?'" == "?" + "" + "'";
    PreparedPlaceholder("?'", "", "'", [PyStr(s)], 0);
    PreparedVerbatim("'", [PyStr(s)], 1);
    PreparedEmpty([PyStr(s)], 1);
  }
}
