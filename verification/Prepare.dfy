/**
 * Client-side parameter substitution (examples/python/sqlite.py): one regular-expression pass
 * over the SQL text, and what it does to the tokens SQLite reads.
 */
module Prepare {
  import opened Wrappers
  import opened Characters
  import opened Framing
  import opened SqlLexer
  import opened SqlLocality
  import Values

  /** The Python values that need no float formatting. */
  datatype Param = PyNone | PyBool(b: bool) | PyInt(i: int) | PyStr(s: string) | PyBytes(bs: seq<byte>)

  function Escaped(c: char): string {
    if c == '\'' then "''" else [c]
  }

  /** The text with every single quote doubled. */
  function Doubled(s: string): string {
    if s == "" then "" else Escaped(s[0]) + Doubled(s[1..])
  }

  function Serialize(v: Param): (t: string)
    ensures t != "" && StartsLiteral(t[0]) && t[0] != '?'
  {
    match v
    case PyNone => "NULL"
    case PyBool(b) => if b then "1" else "0"
    case PyInt(i) => if i < 0 then "-" + Print(-i) else Print(i)
    case PyStr(s) => "'" + Doubled(s) + "'"
    case PyBytes(bs) => Values.HexLiteral(bs)
  }

  // ----- The specification: split, then interleave -----

  /** What the regular expression makes of a query: matches, and the characters between them. */
  datatype Piece = Verbatim(c: char) | Bare | Numbered(digits: string)

  function Text(p: Piece): string {
    match p
    case Verbatim(c) => [c]
    case Bare => "?"
    case Numbered(digits) => "?" + digits
  }

  function Placeholder(digits: string): Piece {
    if digits == "" then Bare else Numbered(digits)
  }

  function Split(query: string): (ps: seq<Piece>) {
    if query == "" then
      []
    else if query[0] != '?' then
      [Verbatim(query[0])] + Split(query[1..])
    else
      var e := Span(query, 1, Digits);
      [Placeholder(query[1..e])] + Split(query[e..])
  }

  function Join(ps: seq<Piece>): string {
    if ps == [] then "" else Text(ps[0]) + Join(ps[1..])
  }

  predicate StartsWithDigit(ps: seq<Piece>) {
    ps != [] && ps[0].Verbatim? && IsDigit(ps[0].c)
  }

  /** No placeholder is left in the text between matches, and digit runs are maximal. */
  predicate Maximal(ps: seq<Piece>) {
    ps != [] ==>
      Maximal(ps[1..]) &&
      match ps[0]
      case Verbatim(c) => c != '?'
      case Bare => !StartsWithDigit(ps[1..])
      case Numbered(digits) => digits != "" && AllDigits(digits) && !StartsWithDigit(ps[1..])
  }

  /** The parameter of a placeholder that comes after k bare ones. */
  function Bound(p: Piece, params: seq<Param>, k: nat): Option<Param>
    requires p.Numbered? ==> AllDigits(p.digits)
  {
    match p
    case Verbatim(_) => None
    case Bare => if k < |params| then Some(params[k]) else None
    case Numbered(digits) =>
      var index := Number(digits) - 1;
      if 0 <= index < |params| then Some(params[index]) else None
  }

  function Render(p: Piece, params: seq<Param>, k: nat): string
    requires p.Numbered? ==> AllDigits(p.digits)
  {
    var bound := Bound(p, params, k);
    if bound.Some? then Serialize(bound.value) else Text(p)
  }

  function Fill(ps: seq<Piece>, params: seq<Param>, k: nat): string
    requires Maximal(ps)
  {
    if ps == [] then
      ""
    else
      Render(ps[0], params, k) + Fill(ps[1..], params, k + (if ps[0].Bare? then 1 else 0))
  }

  lemma {:induction false} SplitIsMaximal(query: string)
    ensures IsSplit(query, Split(query))
    decreases |query|
  {
    if query != "" && query[0] != '?' {
      SplitVerbatim(query);
      hide Split, IsSplit;
      SplitIsMaximal(query[1..]);
      VerbatimFirst(query, Split(query[1..]));
    } else if query != "" {
      var e := Span(query, 1, Digits);
      SplitPlaceholder(query, e);
      hide Split, IsSplit;
      SplitIsMaximal(query[e..]);
      PlaceholderFirst(query, e, Split(query[e..]));
    }
  }

  /** The pieces make up the query and cannot be joined further. */
  predicate IsSplit(query: string, ps: seq<Piece>) {
    Maximal(ps) && Join(ps) == query && StartsWithDigit(ps) == IsDigit(At(query, 0))
  }

  lemma SplitVerbatim(query: string)
    requires query != "" && query[0] != '?'
    ensures Split(query) == [Verbatim(query[0])] + Split(query[1..])
  {
  }

  lemma SplitPlaceholder(query: string, e: nat)
    requires query != "" && query[0] == '?' && e == Span(query, 1, Digits)
    ensures Split(query) == [Placeholder(query[1..e])] + Split(query[e..])
  {
  }

  lemma VerbatimFirst(query: string, rest: seq<Piece>)
    requires query != "" && query[0] != '?' && IsSplit(query[1..], rest)
    ensures IsSplit(query, [Verbatim(query[0])] + rest)
  {
    assert ([Verbatim(query[0])] + rest)[1..] == rest;
    assert query == [query[0]] + query[1..];
  }

  lemma PlaceholderFirst(query: string, e: nat, rest: seq<Piece>)
    requires query != "" && query[0] == '?' && e == Span(query, 1, Digits) && IsSplit(query[e..], rest)
    ensures IsSplit(query, [Placeholder(query[1..e])] + rest)
  {
    MatchedDigits(query, e);
    var digits := query[1..e];
    assert ([Placeholder(digits)] + rest)[1..] == rest;
    ThreeParts(query, e);
    hide Span;
  }

  lemma ThreeParts(query: string, e: nat)
    requires 1 <= e <= |query| && query[0] == '?'
    ensures query == "?" + query[1..e] + query[e..]
  {
  }

  lemma MatchedDigits(query: string, e: nat)
    requires query != "" && e == Span(query, 1, Digits)
    ensures AllDigits(query[1..e]) && !IsDigit(At(query[e..], 0))
  {
    forall j | 0 <= j < |query[1..e]| ensures IsDigit(query[1..e][j]) {
      assert Digits.Has(At(query, 1 + j));
    }
    assert At(query[e..], 0) == At(query, e);
  }

  lemma {:induction false} DigitRunEnds(digits: string, rest: string)
    requires AllDigits(digits) && !IsDigit(At(rest, 0))
    ensures Span("?" + digits + rest, 1, Digits) == 1 + |digits|
  {
    var z := "?" + digits + rest;
    assert At(z, 1 + |digits|) == At(rest, 0);
    SpanIs(z, 1, Digits, 1 + |digits|);
  }

  lemma {:induction false} JoinStart(ps: seq<Piece>)
    requires Maximal(ps) && !StartsWithDigit(ps)
    ensures !IsDigit(At(Join(ps), 0))
  {
  }

  lemma {:induction false} SplitOfJoin(ps: seq<Piece>)
    requires Maximal(ps)
    ensures Split(Join(ps)) == ps
  {
    if ps != [] {
      var rest := Join(ps[1..]);
      SplitOfJoin(ps[1..]);
      if ps[0].Verbatim? {
        assert Join(ps)[1..] == rest;
      } else {
        var digits := if ps[0].Bare? then "" else ps[0].digits;
        JoinStart(ps[1..]);
        DigitRunEnds(digits, rest);
        assert Join(ps) == "?" + digits + rest;
        assert Join(ps)[1..1 + |digits|] == digits && Join(ps)[1 + |digits|..] == rest;
      }
    }
  }

  /** The split is the only way to read a query as placeholders with maximal digit runs and other characters. */
  lemma SplitIsUnique(query: string, ps: seq<Piece>)
    ensures Split(query) == ps <==> Join(ps) == query && Maximal(ps)
  {
    SplitIsMaximal(query);
    if Maximal(ps) {
      SplitOfJoin(ps);
    }
  }

  lemma {:induction false} MaximalFrom(ps: seq<Piece>, i: nat)
    requires Maximal(ps) && i <= |ps|
    ensures Maximal(ps[i..])
    ensures i < |ps| && ps[i].Numbered? ==> ps[i].digits != "" && AllDigits(ps[i].digits)
  {
    if i > 0 {
      MaximalFrom(ps[1..], i - 1);
      assert ps[1..][i - 1..] == ps[i..];
    } else {
      assert ps[0..] == ps;
    }
  }

  function Concat(texts: seq<string>): string {
    if texts == [] then "" else texts[0] + Concat(texts[1..])
  }

  lemma ConcatFirst(texts: seq<string>)
    requires texts != []
    ensures Concat(texts) == texts[0] + Concat(texts[1..])
  {
  }

  lemma DropOne<T>(s: seq<T>, i: nat)
    requires i < |s|
    ensures s[i..][0] == s[i] && s[i..][1..] == s[i + 1..]
  {
  }

  /** The bare placeholders before piece i. */
  function BaresBefore(ps: seq<Piece>, i: nat): set<nat>
    requires i <= |ps|
  {
    set j: nat | j < i && ps[j].Bare?
  }

  /** Piece i stands for v: by the number of bare placeholders before it, or by its own number, which counts from 1. */
  predicate Takes(ps: seq<Piece>, params: seq<Param>, k: nat, i: nat, v: Param)
    requires i < |ps|
  {
    match ps[i]
    case Verbatim(_) => false
    case Bare => var n := k + |BaresBefore(ps, i)|; n < |params| && params[n] == v
    case Numbered(digits) =>
      AllDigits(digits) && 1 <= Number(digits) <= |params| && params[Number(digits) - 1] == v
  }

  /** Every piece that stands for a parameter is its literal, every other one is left as it is. */
  ghost predicate IsSubstitution(ps: seq<Piece>, params: seq<Param>, k: nat, texts: seq<string>) {
    && |texts| == |ps|
    && (forall i, v :: 0 <= i < |ps| && Takes(ps, params, k, i, v) ==> texts[i] == Serialize(v))
    && (forall i :: 0 <= i < |ps| && (forall v :: !Takes(ps, params, k, i, v)) ==> texts[i] == Text(ps[i]))
  }

  lemma OneMoreBefore(ps: seq<Piece>, i: nat)
    requires i < |ps|
    ensures |BaresBefore(ps, i + 1)| == |BaresBefore(ps, i)| + if ps[i].Bare? then 1 else 0
  {
    assert BaresBefore(ps, i + 1) == BaresBefore(ps, i) + if ps[i].Bare? then {i} else {};
  }

  /** What a piece takes is what is bound to it. */
  lemma TakesWhatIsBound(ps: seq<Piece>, params: seq<Param>, k: nat, i: nat)
    requires i < |ps| && Maximal(ps[i..])
    ensures ps[i].Numbered? ==> AllDigits(ps[i].digits)
    ensures forall v :: Takes(ps, params, k, i, v) <==> Bound(ps[i], params, k + |BaresBefore(ps, i)|) == Some(v)
  {
    hide BaresBefore;
    MaximalFrom(ps[i..], 0);
  }

  lemma RenderedPiece(ps: seq<Piece>, params: seq<Param>, k: nat, i: nat, texts: seq<string>)
    requires i < |ps| && Maximal(ps[i..]) && IsSubstitution(ps, params, k, texts)
    ensures ps[i].Numbered? ==> AllDigits(ps[i].digits)
    ensures texts[i] == Render(ps[i], params, k + |BaresBefore(ps, i)|)
  {
    TakesWhatIsBound(ps, params, k, i);
    hide Serialize, Maximal, BaresBefore, Bound, Takes, Text;
    var bound := Bound(ps[i], params, k + |BaresBefore(ps, i)|);
    if bound.Some? {
      assert Takes(ps, params, k, i, bound.value);
    }
  }

  lemma FillFirst(ps: seq<Piece>, params: seq<Param>, k: nat)
    requires Maximal(ps) && ps != []
    ensures Maximal(ps[1..])
    ensures Fill(ps, params, k) == Render(ps[0], params, k) + Fill(ps[1..], params, k + (if ps[0].Bare? then 1 else 0))
  {
    hide Render;
  }

  lemma FillAndConcat(ps: seq<Piece>, params: seq<Param>, n: nat, texts: seq<string>)
    requires Maximal(ps) && ps != [] && texts != []
    requires texts[0] == Render(ps[0], params, n)
    requires Maximal(ps[1..]) && Fill(ps[1..], params, n + (if ps[0].Bare? then 1 else 0)) == Concat(texts[1..])
    ensures Fill(ps, params, n) == Concat(texts)
  {
    hide Render, Maximal;
    FillFirst(ps, params, n);
    ConcatFirst(texts);
    hide Fill, Concat;
  }

  /** The texts from piece i on, of which n bare ones come before. */
  ghost predicate FillsFrom(ps: seq<Piece>, params: seq<Param>, n: nat, texts: seq<string>, i: nat)
    requires i <= |ps| && i <= |texts|
  {
    Maximal(ps[i..]) && Fill(ps[i..], params, n) == Concat(texts[i..])
  }

  lemma FillsFromNext(ps: seq<Piece>, params: seq<Param>, n: nat, texts: seq<string>, i: nat)
    requires i < |ps| && i < |texts| && Maximal(ps[i..])
    requires texts[i] == Render(ps[i], params, n)
    requires FillsFrom(ps, params, n + (if ps[i].Bare? then 1 else 0), texts, i + 1)
    ensures FillsFrom(ps, params, n, texts, i)
  {
    hide Render, Maximal, Fill, Concat;
    DropOne(ps, i);
    DropOne(texts, i);
    FillAndConcat(ps[i..], params, n, texts[i..]);
  }

  lemma {:induction false} FillFrom(ps: seq<Piece>, params: seq<Param>, k: nat, texts: seq<string>, i: nat)
    requires Maximal(ps) && i <= |ps| && IsSubstitution(ps, params, k, texts)
    ensures |texts| == |ps| && FillsFrom(ps, params, k + |BaresBefore(ps, i)|, texts, i)
    decreases |ps| - i
  {
    hide *;
    SubstitutionLength(ps, params, k, texts);
    MaximalFrom(ps, i);
    if i < |ps| {
      FillFrom(ps, params, k, texts, i + 1);
      OneMoreBefore(ps, i);
      RenderedPiece(ps, params, k, i, texts);
      FillsFromNext(ps, params, k + |BaresBefore(ps, i)|, texts, i);
    } else {
      FillsFromEnd(ps, params, k + |BaresBefore(ps, i)|, texts);
    }
  }

  lemma SubstitutionLength(ps: seq<Piece>, params: seq<Param>, k: nat, texts: seq<string>)
    requires IsSubstitution(ps, params, k, texts)
    ensures |texts| == |ps|
  {
  }

  lemma FillsFromEnd(ps: seq<Piece>, params: seq<Param>, n: nat, texts: seq<string>)
    requires |texts| == |ps|
    ensures FillsFrom(ps, params, n, texts, |ps|)
  {
    assert ps[|ps|..] == [] && texts[|ps|..] == [];
  }

  /**
   * A bare placeholder becomes the literal of the parameter whose index is the number of bare
   * placeholders before it, a numbered one that of the parameter it names, and all else stays.
   */
  lemma FillInterleaves(ps: seq<Piece>, params: seq<Param>, k: nat, texts: seq<string>)
    requires Maximal(ps) && IsSubstitution(ps, params, k, texts)
    ensures Fill(ps, params, k) == Concat(texts)
  {
    FillFrom(ps, params, k, texts, 0);
    assert BaresBefore(ps, 0) == {};
    hide Maximal, IsSubstitution, BaresBefore, Fill, Concat;
    assert ps[0..] == ps && texts[0..] == texts;
  }

  function RenderedAt(ps: seq<Piece>, params: seq<Param>, k: nat, i: nat): (text: string)
    requires Maximal(ps) && i < |ps|
    ensures forall v :: Takes(ps, params, k, i, v) ==> text == Serialize(v)
    ensures (forall v :: !Takes(ps, params, k, i, v)) ==> text == Text(ps[i])
  {
    MaximalFrom(ps, i);
    TakesWhatIsBound(ps, params, k, i);
    Render(ps[i], params, k + |BaresBefore(ps, i)|)
  }

  lemma SubstitutionExists(ps: seq<Piece>, params: seq<Param>, k: nat) returns (texts: seq<string>)
    requires Maximal(ps)
    ensures IsSubstitution(ps, params, k, texts)
  {
    hide Maximal, Takes, RenderedAt, Serialize, Text;
    texts := seq(|ps|, i requires 0 <= i < |ps| => RenderedAt(ps, params, k, i));
  }

  /** The query with its parameters, the first k bare ones having been used before it. */
  function Prepared(query: string, params: seq<Param>, k: nat): string {
    SplitIsMaximal(query);
    Fill(Split(query), params, k)
  }

  lemma PreparedVerbatim(z: string, params: seq<Param>, k: nat)
    requires z != "" && z[0] != '?'
    ensures Prepared(z, params, k) == [z[0]] + Prepared(z[1..], params, k)
  {
    SplitIsMaximal(z);
    SplitIsMaximal(z[1..]);
    assert Split(z)[1..] == Split(z[1..]);
  }

  lemma PreparedPlaceholder(z: string, digits: string, rest: string, params: seq<Param>, k: nat)
    requires z == "?" + digits + rest && AllDigits(digits) && !IsDigit(At(rest, 0))
    ensures Prepared(z, params, k)
            == Render(Placeholder(digits), params, k) + Prepared(rest, params, k + (if digits == "" then 1 else 0))
  {
    hide Render;
    SplitIsMaximal(z);
    SplitIsMaximal(rest);
    DigitRunEnds(digits, rest);
    assert z[1..1 + |digits|] == digits && z[1 + |digits|..] == rest;
    assert Split(z) == [Placeholder(digits)] + Split(rest);
  }

  lemma PreparedEmpty(params: seq<Param>, k: nat)
    ensures Prepared("", params, k) == ""
  {
  }

  lemma PreparedSubstitutes(query: string, params: seq<Param>) returns (texts: seq<string>)
    ensures IsSubstitution(Split(query), params, 0, texts) && Prepared(query, params, 0) == Concat(texts)
  {
    hide Split, IsSubstitution, Fill, Concat;
    SplitIsMaximal(query);
    texts := SubstitutionExists(Split(query), params, 0);
    FillInterleaves(Split(query), params, 0, texts);
  }

  // ----- The code -----

  /** How far an iterator over the parameters is after k draws. */
  function Drawn(params: seq<Param>, k: nat): nat {
    if k < |params| then k else |params|
  }

  /** The callback of re.sub; `drawn` is the position of its parameter iterator. */
  method Replacement(digits: string, params: seq<Param>, drawn: nat, ghost k: nat) returns (text: string, next: nat)
    requires AllDigits(digits) && drawn == Drawn(params, k)
    ensures text == Render(Placeholder(digits), params, k)
    ensures next == Drawn(params, k + (if digits == "" then 1 else 0))
  {
    next := drawn;
    if digits != "" {
      var index := Number(digits) - 1;
      text := if 0 <= index < |params| then Serialize(params[index]) else "?" + digits;
    } else if drawn < |params| {
      text := Serialize(params[drawn]);
      next := drawn + 1;
    } else {
      text := "?";
    }
  }

  /** The greedy run of digits after a question mark. */
  method MatchDigits(query: string, pos: nat) returns (end: nat)
    requires pos < |query| && query[pos] == '?'
    ensures pos < end <= |query|
    ensures AllDigits(query[pos + 1..end]) && !IsDigit(At(query[end..], 0))
    ensures query[pos..] == "?" + query[pos + 1..end] + query[end..]
  {
    end := pos + 1;
    while end < |query| && IsDigit(query[end])
      invariant pos < end <= |query|
      invariant forall j :: pos < j < end ==> IsDigit(query[j])
    {
      end := end + 1;
    }
  }

  /** _client_side_prepare: re.sub with a callback that draws bare parameters from one iterator. */
  method ClientSidePrepare(query: string, params: seq<Param>) returns (out: string)
    ensures out == Prepared(query, params, 0)
    ensures exists texts :: IsSubstitution(Split(query), params, 0, texts) && out == Concat(texts)
  {
    hide Prepared, Render, Split, IsSubstitution, Concat;
    var pos, drawn := 0, 0;
    out := "";
    ghost var k: nat := 0;
    assert query[0..] == query;
    while pos < |query|
      invariant 0 <= pos <= |query| && drawn == Drawn(params, k)
      invariant out + Prepared(query[pos..], params, k) == Prepared(query, params, 0)
    {
      if query[pos] != '?' {
        PreparedVerbatim(query[pos..], params, k);
        assert query[pos..][1..] == query[pos + 1..];
        out := out + [query[pos]];
        pos := pos + 1;
      } else {
        var end := MatchDigits(query, pos);
        var digits := query[pos + 1..end];
        PreparedPlaceholder(query[pos..], digits, query[end..], params, k);
        var text;
        text, drawn := Replacement(digits, params, drawn, k);
        k := k + if digits == "" then 1 else 0;
        out := out + text;
        pos := end;
      }
    }
    assert query[pos..] == "";
    PreparedEmpty(params, k);
    ghost var texts := PreparedSubstitutes(query, params);
  }
}
