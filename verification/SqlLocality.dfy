/**
 * How far SQLite's tokenizer looks: two texts that agree up to a place where a literal may start,
 * after a character that no literal can extend, have the same tokens before that place.
 */
module SqlLocality {
  import opened Characters
  import opened SqlLexer

  /** Characters a token can end with that a following literal might still extend or fuse with. */
  predicate Extensible(c: char) {
    IsIdChar(c) || c in "'-+.?:@#"
  }

  /** The first characters of placeholders and of the client's literals. */
  predicate StartsLiteral(c: char) {
    IsDigit(c) || c in "?N'X-"
  }

  predicate Agree(z: string, z': string, m: nat) {
    m <= |z| && m <= |z'| && z[..m] == z'[..m]
  }

  /** Both texts end at m, or the first goes on with a placeholder and the second with a literal. */
  predicate Parting(z: string, z': string, m: nat) {
    Agree(z, z', m) && 1 <= m &&
    ((At(z, m) == '\0' && At(z', m) == '\0') ||
     (At(z, m) == '?' && StartsLiteral(At(z', m)) && !Extensible(z[m - 1])))
  }

  lemma AgreeAt(z: string, z': string, m: nat)
    requires Agree(z, z', m)
    ensures forall i :: 0 <= i < m ==> At(z, i) == At(z', i) && i < |z| && z[i] == z'[i]
  {
    forall i | 0 <= i < m ensures At(z, i) == At(z', i) && i < |z| && z[i] == z'[i] {
      assert z[i] == z[..m][i] == z'[..m][i] == z'[i];
    }
  }

  lemma {:induction false} SpanIs(z: string, i: nat, chars: CharSet, e: nat)
    requires i <= e <= |z| && !chars.Has(At(z, e))
    requires forall j :: i <= j < e ==> chars.Has(At(z, j))
    ensures Span(z, i, chars) == e
    decreases e - i
  {
    if i < e {
      assert chars.Has(At(z, i));
      SpanIs(z, i + 1, chars, e);
    }
  }

  /** A run that stops at a placeholder stops at a literal as well. */
  lemma StopsAtLiteral(chars: CharSet, last: char, c: char)
    requires !chars.Has('?') && !Extensible(last) && (chars.Has(last) || chars == Spaces)
    requires StartsLiteral(c)
    ensures !chars.Has(c)
  {
  }

  lemma SpanIsLocal(z: string, z': string, m: nat, i: nat, chars: CharSet)
    requires Parting(z, z', m) && i <= m && Span(z, i, chars) <= m
    requires i < m || Extensible(z[m - 1]) || chars == Spaces || chars.Has('?')
    ensures Span(z', i, chars) == Span(z, i, chars)
  {
    AgreeAt(z, z', m);
    var e := Span(z, i, chars);
    assert !chars.Has('\0');
    if e == m && At(z, m) != '\0' {
      assert i < m ==> chars.Has(At(z, m - 1));
      StopsAtLiteral(chars, z[m - 1], At(z', m));
    }
    hide Parting, CharSet.Has;
    SpanIs(z', i, chars, e);
  }

  lemma {:induction false} CommentEndIsLocal(z: string, z': string, m: nat, i: nat)
    requires Parting(z, z', m) && 1 <= i <= m && CommentEnd(z, i) <= m
    ensures CommentEnd(z', i) == CommentEnd(z, i)
    decreases m - i
  {
    AgreeAt(z, z', m);
    if i < m && !(z[i - 1] == '*' && At(z, i) == '/') && At(z, i) != '\0' {
      CommentEndIsLocal(z, z', m, i + 1);
    }
  }

  lemma {:induction false} QuoteEndIsLocal(z: string, z': string, m: nat, i: nat, quote: char)
    requires Parting(z, z', m) && i <= m && quote in "'\"`"
    requires QuoteEnd(z, i, quote) <= m && (At(z, QuoteEnd(z, i, quote)) == quote ==> QuoteEnd(z, i, quote) < m)
    ensures QuoteEnd(z', i, quote) == QuoteEnd(z, i, quote)
    decreases m - i
  {
    AgreeAt(z, z', m);
    if i < m && At(z, i) != '\0' {
      if z[i] != quote {
        QuoteEndIsLocal(z, z', m, i + 1, quote);
      } else if i + 1 < m && z[i + 1] == quote {
        QuoteEndIsLocal(z, z', m, i + 2, quote);
      }
    }
  }

  lemma {:induction false} ScanVariableIsLocal(z: string, z': string, m: nat, i: nat, named: bool)
    requires Parting(z, z', m) && 1 <= i <= m && ScanVariable(z, i, named).length <= m
    requires i == m ==> Extensible(z[m - 1])
    ensures ScanVariable(z', i, named) == ScanVariable(z, i, named)
    decreases m - i
  {
    hide Span;
    AgreeAt(z, z', m);
    if i < m {
      if IsIdChar(z[i]) {
        ScanVariableIsLocal(z, z', m, i + 1, true);
      } else if z[i] == '(' && named {
        SpanIsLocal(z, z', m, i + 1, UntilSpaceOrParen);
      } else if z[i] == ':' && i + 1 < m && z[i + 1] == ':' {
        ScanVariableIsLocal(z, z', m, i + 2, named);
      }
    }
  }

  lemma MantissaEndIsLocal(z: string, z': string, m: nat)
    requires Parting(z, z', m) && MantissaEnd(z) <= m
    ensures MantissaEnd(z') == MantissaEnd(z)
  {
    AgreeAt(z, z', m);
    SpanIsLocal(z, z', m, 0, DigitsOrSeparator);
    var a := Span(z, 0, DigitsOrSeparator);
    if At(z, a) == '.' {
      SpanIsLocal(z, z', m, a + 1, DigitsOrSeparator);
    }
  }

  lemma DecimalEndIsLocal(z: string, z': string, m: nat)
    requires Parting(z, z', m) && DecimalEnd(z) <= m
    requires IsDigit(z[0]) || (z[0] == '.' && IsDigit(At(z, 1)))
    ensures DecimalEnd(z') == DecimalEnd(z)
  {
    AgreeAt(z, z', m);
    MantissaEndIsLocal(z, z', m);
    var b := MantissaEnd(z);
    MantissaExtensible(z);
    hide MantissaEnd;
    if HasExponent(z, b) {
      SpanIsLocal(z, z', m, b + 2, DigitsOrSeparator);
    }
  }

  lemma MantissaExtensible(z: string)
    requires IsDigit(At(z, 0)) || (At(z, 0) == '.' && IsDigit(At(z, 1)))
    ensures MantissaEnd(z) > 0 && Extensible(z[MantissaEnd(z) - 1])
  {
    var b := MantissaEnd(z);
    var a := Span(z, 0, DigitsOrSeparator);
    if b == a {
      assert DigitsOrSeparator.Has(At(z, b - 1));
    } else if b > a + 1 {
      assert DigitsOrSeparator.Has(At(z, b - 1));
    }
  }

  lemma IsHexNumberIsLocal(z: string, z': string, m: nat)
    requires Parting(z, z', m)
    ensures IsHexNumber(z') == IsHexNumber(z)
  {
    AgreeAt(z, z', m);
    assert At(z, 0) == At(z', 0);
    if m >= 2 {
      assert At(z, 1) == At(z', 1);
    }
  }

  lemma NumberEndIsLocal(z: string, z': string, m: nat)
    requires Parting(z, z', m) && NumberEnd(z) <= m
    requires IsDigit(At(z, 0)) || (At(z, 0) == '.' && IsDigit(At(z, 1)))
    ensures NumberEnd(z') == NumberEnd(z)
  {
    hide Parting, DecimalEnd, IsHexNumber;
    IsHexNumberIsLocal(z, z', m);
    if IsHexNumber(z) {
      HexNumberLong(z);
      SpanIsLocal(z, z', m, 3, HexesOrSeparator);
    } else {
      DecimalEndIsLocal(z, z', m);
    }
  }

  lemma HexNumberLong(z: string)
    requires IsHexNumber(z)
    ensures |z| >= 3 && NumberEnd(z) >= 3 && Extensible(z[NumberEnd(z) - 1])
  {
    var e := NumberEnd(z);
    assert e > 3 ==> HexesOrSeparator.Has(At(z, e - 1));
  }

  lemma NumberKindIsLocal(z: string, z': string, m: nat)
    requires Parting(z, z', m) && NumberEnd(z) <= m && NumberEnd(z) == NumberEnd(z')
    requires IsDigit(At(z, 0)) || (At(z, 0) == '.' && IsDigit(At(z, 1)))
    ensures NumberKind(z') == NumberKind(z)
  {
    IsHexNumberIsLocal(z, z', m);
    assert z[..NumberEnd(z)] == z[..m][..NumberEnd(z)] == z'[..NumberEnd(z)];
    if !IsHexNumber(z) {
      MantissaStart(z);
      SpanIsLocal(z, z', m, 0, DigitsOrSeparator);
    }
  }

  lemma MantissaStart(z: string)
    ensures Span(z, 0, DigitsOrSeparator) <= DecimalEnd(z)
  {
  }

  lemma DecimalExtensible(z: string)
    requires IsDigit(At(z, 0)) || (At(z, 0) == '.' && IsDigit(At(z, 1)))
    ensures DecimalEnd(z) > 0 && Extensible(z[DecimalEnd(z) - 1])
  {
    MantissaExtensible(z);
    hide MantissaEnd;
    var e := DecimalEnd(z);
    assert e > MantissaEnd(z) + 2 ==> DigitsOrSeparator.Has(At(z, e - 1));
  }

  lemma NumberIsLocal(z: string, z': string, m: nat)
    requires Parting(z, z', m)
    requires IsDigit(At(z, 0)) || (At(z, 0) == '.' && IsDigit(At(z, 1)))
    requires IsDigit(At(z', 0)) || (At(z', 0) == '.' && IsDigit(At(z', 1)))
    requires ScanNumber(z).length <= m
    ensures ScanNumber(z') == ScanNumber(z)
  {
    hide Parting, NumberKind, DecimalEnd;
    NumberEndIsLocal(z, z', m);
    NumberKindIsLocal(z, z', m);
    DecimalExtensible(z);
    if IsHexNumber(z) {
      HexNumberLong(z);
    }
    SpanIsLocal(z, z', m, NumberEnd(z), IdChars);
  }

  lemma BlobIsLocal(z: string, z': string, m: nat)
    requires Parting(z, z', m) && 2 <= |z| && 2 <= |z'| && m >= 2 && z[1] == '\''
    requires ScanBlob(z).length <= m
    ensures ScanBlob(z') == ScanBlob(z)
  {
    AgreeAt(z, z', m);
    SpanIsLocal(z, z', m, 2, Hexes);
    var e := Span(z, 2, Hexes);
    if !(At(z, e) == '\'' && e % 2 == 0) {
      SpanIsLocal(z, z', m, e, UntilQuote);
    }
  }

  lemma SlashIsLocal(z: string, z': string, m: nat)
    requires Parting(z, z', m) && z[0] == '/' && ScanSlash(z).length <= m
    ensures ScanSlash(z') == ScanSlash(z)
  {
    AgreeAt(z, z', m);
    if At(z, 1) == '*' && At(z, 2) != '\0' {
      CommentEndIsLocal(z, z', m, 3);
    }
  }

  lemma MinusIsLocal(z: string, z': string, m: nat)
    requires Parting(z, z', m) && z[0] == '-' && ScanMinus(z).length <= m
    ensures ScanMinus(z') == ScanMinus(z)
  {
    AgreeAt(z, z', m);
    if At(z, 1) == '-' {
      SpanIsLocal(z, z', m, 2, UntilNewline);
    }
  }

  lemma OperatorIsLocal(z: string, z': string, m: nat)
    requires Parting(z, z', m)
    ensures ScanOperator(z') == ScanOperator(z)
  {
    AgreeAt(z, z', m);
  }

  /** The tokenizer reads a token before the parting the same way in both texts. */
  lemma ScanIsLocal(z: string, z': string, m: nat)
    requires Parting(z, z', m) && z[0] != '\0' && Scan(z).length <= m
    ensures z'[0] != '\0' && Scan(z') == Scan(z)
  {
    AgreeAt(z, z', m);
    var c := z[0];
    assert c == z'[0];
    hide ScanNumber, ScanOperator, ScanVariable, ScanSlash, ScanMinus, ScanBlob;
    if IsSpace(c) && c as int != 11 {
      SpanIsLocal(z, z', m, 1, Spaces);
    } else if c == '-' {
      MinusIsLocal(z, z', m);
    } else if c == '/' {
      SlashIsLocal(z, z', m);
    } else if c == '\'' || c == '"' || c == '`' {
      QuoteEndIsLocal(z, z', m, 1, c);
    } else if IsDigit(c) || (c == '.' && IsDigit(At(z, 1))) {
      NumberIsLocal(z, z', m);
    } else if c == '.' {
    } else if c == '[' {
      SpanIsLocal(z, z', m, 1, UntilBracket);
    } else if c == '?' {
      SpanIsLocal(z, z', m, 1, Digits);
    } else if c == '$' || c == '@' || c == ':' || c == '#' {
      ScanVariableIsLocal(z, z', m, 1, false);
    } else if (c == 'x' || c == 'X') && At(z, 1) == '\'' {
      BlobIsLocal(z, z', m);
    } else if c == '\U{FEFF}' {
    } else if IsIdChar(c) {
      SpanIsLocal(z, z', m, 1, IdChars);
    } else {
      OperatorIsLocal(z, z', m);
    }
  }

  // ----- Tokens end before the text does -----

  predicate NulFreeTo(z: string, i: nat, e: nat) {
    forall j :: i <= j < e ==> At(z, j) != '\0'
  }

  lemma SpanBeforeNul(z: string, i: nat, chars: CharSet)
    ensures NulFreeTo(z, i, Span(z, i, chars))
  {
  }

  lemma {:induction false} CommentBeforeNul(z: string, i: nat)
    requires 1 <= i <= |z|
    ensures NulFreeTo(z, i, CommentEnd(z, i))
    decreases |z| - i
  {
    if !(z[i - 1] == '*' && At(z, i) == '/') && At(z, i) != '\0' {
      CommentBeforeNul(z, i + 1);
    }
  }

  lemma {:induction false} VariableBeforeNul(z: string, i: nat, named: bool)
    requires 1 <= i <= |z|
    ensures NulFreeTo(z, i, ScanVariable(z, i, named).length)
    decreases |z| - i
  {
    var c := At(z, i);
    if IsIdChar(c) {
      VariableBeforeNul(z, i + 1, true);
    } else if c == '(' && named {
      SpanBeforeNul(z, i + 1, UntilSpaceOrParen);
    } else if c == ':' && At(z, i + 1) == ':' {
      VariableBeforeNul(z, i + 2, named);
    }
  }

  lemma NumberBeforeNul(z: string)
    requires IsDigit(At(z, 0)) || (At(z, 0) == '.' && IsDigit(At(z, 1)))
    ensures NulFreeTo(z, 0, ScanNumber(z).length)
  {
    hide NumberEnd, Span, CharSet.Has;
    NumberEndBeforeNul(z);
    SpanBeforeNul(z, NumberEnd(z), IdChars);
  }

  lemma NumberEndBeforeNul(z: string)
    requires IsDigit(At(z, 0)) || (At(z, 0) == '.' && IsDigit(At(z, 1)))
    ensures NulFreeTo(z, 0, NumberEnd(z))
  {
    hide MantissaEnd, Span, CharSet.Has;
    MantissaBeforeNul(z);
    SpanBeforeNul(z, MantissaEnd(z) + 2, DigitsOrSeparator);
    SpanBeforeNul(z, 3, HexesOrSeparator);
  }

  lemma MantissaBeforeNul(z: string)
    ensures NulFreeTo(z, 0, MantissaEnd(z))
  {
    SpanBeforeNul(z, 0, DigitsOrSeparator);
    SpanBeforeNul(z, Span(z, 0, DigitsOrSeparator) + 1, DigitsOrSeparator);
  }

  lemma SlashBeforeNul(z: string)
    requires z != "" && z[0] == '/'
    ensures NulFreeTo(z, 0, ScanSlash(z).length)
  {
    if |z| >= 3 {
      CommentBeforeNul(z, 3);
    }
  }

  lemma MinusBeforeNul(z: string)
    requires z != "" && z[0] == '-'
    ensures NulFreeTo(z, 0, ScanMinus(z).length)
  {
    SpanBeforeNul(z, 2, UntilNewline);
  }

  lemma BlobBeforeNul(z: string)
    requires |z| >= 2 && z[0] != '\0' && z[1] != '\0'
    ensures NulFreeTo(z, 0, ScanBlob(z).length)
  {
    SpanBeforeNul(z, 2, Hexes);
    SpanBeforeNul(z, Span(z, 2, Hexes), UntilQuote);
  }

  lemma BracketBeforeNul(z: string)
    requires z != "" && z[0] != '\0'
    ensures NulFreeTo(z, 0, ScanBracket(z).length)
  {
    SpanBeforeNul(z, 1, UntilBracket);
  }

  lemma QuotedBeforeNul(z: string)
    requires z != "" && z[0] != '\0'
    ensures NulFreeTo(z, 0, ScanQuoted(z).length)
  {
  }

  lemma OperatorBeforeNul(z: string)
    requires z != "" && z[0] != '\0'
    ensures NulFreeTo(z, 0, ScanOperator(z).length)
  {
  }

  /** No token goes past the NUL that ends the text. */
  lemma ScanBeforeNul(z: string)
    requires z != "" && z[0] != '\0'
    ensures NulFreeTo(z, 0, Scan(z).length)
  {
    hide ScanNumber, ScanVariable, ScanSlash, ScanMinus, ScanBlob, ScanBracket, ScanQuoted, ScanOperator;
    hide Span, CharSet.Has;
    var c := z[0];
    if IsSpace(c) && c as int != 11 {
      SpanBeforeNul(z, 1, Spaces);
    } else if c == '-' {
      MinusBeforeNul(z);
    } else if c == '/' {
      SlashBeforeNul(z);
    } else if c == '\'' || c == '"' || c == '`' {
      QuotedBeforeNul(z);
    } else if IsDigit(c) || (c == '.' && IsDigit(At(z, 1))) {
      NumberBeforeNul(z);
    } else if c == '.' {
    } else if c == '[' {
      BracketBeforeNul(z);
    } else if c == '?' {
      SpanBeforeNul(z, 1, Digits);
    } else if c == '$' || c == '@' || c == ':' || c == '#' {
      VariableBeforeNul(z, 1, false);
    } else if (c == 'x' || c == 'X') && At(z, 1) == '\'' {
      BlobBeforeNul(z);
    } else if c == '\U{FEFF}' {
    } else if IsIdChar(c) {
      SpanBeforeNul(z, 1, IdChars);
    } else {
      OperatorBeforeNul(z);
    }
  }
}
