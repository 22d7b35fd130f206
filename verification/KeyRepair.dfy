/**
 * The lenient key repair of parse_request (RequestHandler.cpp): every leftmost match of
 *   (['"])?([a-zA-Z0-9]+)(['"])?:
 * is replaced by its middle group in double quotes and the colon.
 */
module KeyRepair {
  import opened Wrappers
  import opened Characters

  predicate IsQuote(c: char) {
    c == '\'' || c == '"'
  }

  predicate IsKeyChar(c: char) {
    'a' <= c <= 'z' || 'A' <= c <= 'Z' || '0' <= c <= '9'
  }

  const LOWER := "abcdefghijklmnopqrstuvwxyz"
  const UPPER := "ABCDEFGHIJKLMNOPQRSTUVWXYZ"
  const DIGITS := "0123456789"

  /** The character classes of the expression, by their characters. */
  lemma CharacterClasses(c: char)
    ensures IsQuote(c) <==> c in ['\'', '"']
    ensures IsKeyChar(c) <==> c in LOWER || c in UPPER || c in DIGITS
  {
    LowerLetters(c);
    UpperLetters(c);
    DecimalDigits(c);
  }

  lemma LowerLetters(c: char)
    ensures 'a' <= c <= 'z' <==> c in LOWER
  {
    if 'a' <= c <= 'z' {
      assert c == LOWER[c as int - 'a' as int];
    }
  }

  lemma UpperLetters(c: char)
    ensures 'A' <= c <= 'Z' <==> c in UPPER
  {
    if 'A' <= c <= 'Z' {
      assert c == UPPER[c as int - 'A' as int];
    }
  }

  lemma DecimalDigits(c: char)
    ensures '0' <= c <= '9' <==> c in DIGITS
  {
    if '0' <= c <= '9' {
      assert c == DIGITS[c as int - '0' as int];
    }
  }

  predicate IsKey(s: string) {
    s != "" && forall i :: 0 <= i < |s| ==> IsKeyChar(s[i])
  }

  /** At most one quote mark. */
  predicate IsMark(s: string) {
    s == "" || (|s| == 1 && IsQuote(s[0]))
  }

  // ----- The regular expression, declaratively -----

  datatype Match = Match(open: string, key: string, close: string)

  predicate WellFormed(m: Match) {
    IsMark(m.open) && IsKey(m.key) && IsMark(m.close)
  }

  function Matched(m: Match): (text: string)
    ensures |text| == |m.open| + |m.key| + |m.close| + 1 && text[|text| - 1] == ':'
  {
    m.open + m.key + m.close + ":"
  }

  function Replacement(m: Match): string {
    "\"" + m.key + "\":"
  }

  /** The expression matches a text at position i. */
  ghost predicate MatchesAt(s: string, i: nat, m: Match) {
    i <= |s| && WellFormed(m) && Matched(m) <= s[i..]
  }

  ghost predicate HasMatchAt(s: string, i: nat) {
    exists m :: MatchesAt(s, i, m)
  }

  // ----- Finding a match -----

  /** The length of the run of key characters at the front. */
  function Run(s: string): (n: nat)
    ensures n <= |s| && (forall i :: 0 <= i < n ==> IsKeyChar(s[i])) && (n < |s| ==> !IsKeyChar(s[n]))
  {
    if s == "" || !IsKeyChar(s[0]) then 0 else 1 + Run(s[1..])
  }

  lemma RunIs(s: string, n: nat)
    requires n <= |s| && (forall i :: 0 <= i < n ==> IsKeyChar(s[i])) && (n < |s| ==> !IsKeyChar(s[n]))
    ensures Run(s) == n
  {
  }

  /** The quote mark at the front of a text, if there is one. */
  function Mark(s: string): (mark: string)
    ensures IsMark(mark) && mark <= s
  {
    if s != "" && IsQuote(s[0]) then s[..1] else ""
  }

  /** The match at the front of a text, found as the regex engine does: greedily, left to right. */
  function MatchFront(s: string): (m: Option<Match>)
    ensures m.Some? ==> WellFormed(m.value) && Matched(m.value) <= s
  {
    var open := Mark(s);
    var t := s[|open|..];
    var n := Run(t);
    var close := Mark(t[n..]);
    if n > 0 && n + |close| < |t| && t[n + |close|] == ':' then
      MatchedAtFront(s, open, t, n, close);
      Some(Match(open, t[..n], close))
    else None
  }

  lemma MatchedAtFront(s: string, open: string, t: string, n: nat, close: string)
    requires open <= s && t == s[|open|..] && n <= |t| && close <= t[n..]
    requires n + |close| < |t| && t[n + |close|] == ':'
    ensures Matched(Match(open, t[..n], close)) <= s
  {
    assert s == open + t && t == t[..n] + t[n..];
    assert t[n..] == close + t[n + |close|..] && t[n + |close|..] == ":" + t[n + |close| + 1..];
  }

  lemma MarkAtFront(s: string, m: Match)
    requires WellFormed(m) && Matched(m) <= s
    ensures m.open == Mark(s)
  {
    assert s[0] == Matched(m)[0];
    if m.open == "" {
      assert Matched(m)[0] == m.key[0];
    } else {
      assert Matched(m)[0] == m.open[0];
      assert s[..1] == m.open;
    }
  }

  lemma KeyAtFront(t: string, key: string, close: string)
    requires IsKey(key) && IsMark(close) && key + close + ":" <= t
    ensures Run(t) == |key| < |t| && t[..|key|] == key
    ensures close == Mark(t[|key|..])
    ensures |key| + |close| < |t| && t[|key| + |close|] == ':'
  {
    var text, n := key + close + ":", |key|;
    assert forall i :: 0 <= i < |text| ==> t[i] == text[i];
    assert forall i :: 0 <= i < n ==> text[i] == key[i];
    RunIs(t, n);
    assert t[..n] == key;
    if close != "" {
      assert t[n..][..1] == close;
    }
  }

  lemma BehindMark(s: string, m: Match)
    requires Matched(m) <= s
    ensures m.key + m.close + ":" <= s[|m.open|..]
  {
    var text := m.key + m.close + ":";
    assert Matched(m) == m.open + text;
    assert text == Matched(m)[|m.open|..] == s[|m.open|..][..|text|];
  }

  /** It is the only match there is at that position. */
  lemma MatchFrontIsUnique(s: string, m: Match)
    requires MatchesAt(s, 0, m)
    ensures MatchFront(s) == Some(m)
  {
    assert s == s[0..];
    MarkAtFront(s, m);
    BehindMark(s, m);
    KeyAtFront(s[|m.open|..], m.key, m.close);
    hide Matched, Run, Mark, IsKey, IsMark;
  }

  lemma MatchFrontIsComplete(s: string)
    ensures MatchFront(s).Some? <==> HasMatchAt(s, 0)
  {
    assert s[0..] == s;
    if MatchFront(s).Some? {
      assert MatchesAt(s, 0, MatchFront(s).value);
    }
    if m :| MatchesAt(s, 0, m) {
      MatchFrontIsUnique(s, m);
    }
  }

  // ----- Global leftmost replacement -----

  /** The specification: copy up to the leftmost match, replace it, continue behind it. */
  ghost predicate LeftmostMatch(s: string, i: nat, m: Match) {
    MatchesAt(s, i, m) && forall j :: 0 <= j < i ==> !HasMatchAt(s, j)
  }

  function Repair(s: string): string
    decreases |s|
  {
    if s == "" then "" else
    var m := MatchFront(s);
    if m.Some? then Replacement(m.value) + Repair(s[|Matched(m.value)|..])
    else [s[0]] + Repair(s[1..])
  }

  lemma MatchInSuffix(s: string, k: nat)
    requires k <= |s|
    ensures HasMatchAt(s, k) <==> MatchFront(s[k..]).Some?
  {
    assert s[k..][0..] == s[k..];
    MatchFrontIsComplete(s[k..]);
    if m :| MatchesAt(s, k, m) {
      assert MatchesAt(s[k..], 0, m);
    }
    if m :| MatchesAt(s[k..], 0, m) {
      assert MatchesAt(s, k, m);
    }
  }

  /** Characters at which no match starts are copied. */
  lemma {:induction false} RepairCopies(s: string, i: nat)
    requires i <= |s| && forall j :: 0 <= j < i ==> MatchFront(s[j..]).None?
    ensures Repair(s) == s[..i] + Repair(s[i..])
    decreases i
  {
    hide MatchFront;
    if i == 0 {
      assert s[0..] == s && s[..0] == "";
    } else {
      assert MatchFront(s[0..]).None? && s[0..] == s;
      forall j | 0 <= j < i - 1 ensures MatchFront(s[1..][j..]).None? {
        assert s[1..][j..] == s[j + 1..];
      }
      RepairCopies(s[1..], i - 1);
      assert s[1..][i - 1..] == s[i..];
      assert [s[0]] + s[1..][..i - 1] == s[..i];
    }
  }

  /** The scan replaces exactly the leftmost match, copies what precedes it, and goes on behind it. */
  lemma RepairIsLeftmost(s: string, i: nat, m: Match)
    requires LeftmostMatch(s, i, m)
    ensures Repair(s) == s[..i] + Replacement(m) + Repair(s[i + |Matched(m)|..])
  {
    hide MatchFront, Repair;
    forall j | 0 <= j < i ensures MatchFront(s[j..]).None? {
      MatchInSuffix(s, j);
    }
    RepairCopies(s, i);
    var rest := s[i..][|Matched(m)|..];
    assert s[i..] == Matched(m) + rest;
    hide Matched, HasMatchAt, MatchesAt;
    RepairOfKey(m, rest);
    assert rest == s[i + |Matched(m)|..];
  }

  /** A text without a match is returned unchanged. */
  lemma RepairWithoutMatch(s: string)
    requires forall j :: 0 <= j < |s| ==> !HasMatchAt(s, j)
    ensures Repair(s) == s
  {
    forall j | 0 <= j < |s| ensures MatchFront(s[j..]).None? {
      MatchInSuffix(s, j);
    }
    RepairCopies(s, |s|);
  }

  /** regex_replace as a scanner over positions that appends to `result`. */
  method RegexReplace(req: string) returns (result: string)
    ensures result == Repair(req)
  {
    hide MatchFront, Matched, Replacement, Repair;
    result := "";
    var pos := 0;
    RepairOfNothing();
    assert req[0..] == req && "" + Repair(req) == Repair(req);
    while pos < |req|
      invariant 0 <= pos <= |req|
      invariant result + Repair(req[pos..]) == Repair(req)
    {
      var rest := req[pos..];
      var m := MatchFront(rest);
      if m.Some? {
        var n := |Matched(m.value)|;
        RepairReplacesFirst(rest, m.value);
        assert rest[n..] == req[pos + n..];
        Associates(result, Replacement(m.value), Repair(rest[n..]));
        result, pos := result + Replacement(m.value), pos + n;
      } else {
        RepairCopiesFirst(rest);
        assert rest[1..] == req[pos + 1..] && rest[0] == req[pos];
        Associates(result, [req[pos]], Repair(rest[1..]));
        result, pos := result + [req[pos]], pos + 1;
      }
    }
    assert req[pos..] == "" && result + "" == result;
  }

  lemma RepairOfNothing()
    ensures Repair("") == ""
  {
  }

  lemma RepairReplacesFirst(s: string, m: Match)
    requires MatchFront(s) == Some(m)
    ensures Repair(s) == Replacement(m) + Repair(s[|Matched(m)|..])
  {
  }

  lemma RepairCopiesFirst(s: string)
    requires s != "" && MatchFront(s).None?
    ensures Repair(s) == [s[0]] + Repair(s[1..])
  {
  }

  // ----- Idempotence -----

  /** Either the text is copied up to k, or a replacement starts inside the first k characters. */
  lemma {:induction false} CopiedUpTo(s: string, k: nat) returns (i: nat)
    requires k <= |Repair(s)|
    ensures i <= k && i <= |s| && s[..i] == Repair(s)[..i]
    ensures i < k ==> MatchFront(s[i..]).Some? && Repair(s)[i..] == Repair(s[i..])
    decreases |s|
  {
    hide MatchFront;
    if k == 0 || MatchFront(s).Some? {
      i := 0;
      assert s[0..] == s;
    } else {
      var i' := CopiedUpTo(s[1..], k - 1);
      i := i' + 1;
      assert s[1..][..i'] == s[1..i];
      assert s[..i] == [s[0]] + s[1..i];
      assert Repair(s)[..i] == [s[0]] + Repair(s[1..])[..i'];
      if i < k {
        assert s[1..][i'..] == s[i..];
        assert Repair(s)[i..] == Repair(s[1..])[i'..];
      }
    }
  }

  /** A quote mark inside a match is its first character or is followed by the colon. */
  lemma QuoteInMatch(m: Match, i: nat)
    requires WellFormed(m) && i < |Matched(m)| && IsQuote(Matched(m)[i])
    ensures i == 0 || (i + 1 < |Matched(m)| && Matched(m)[i + 1] == ':')
  {
    var text := Matched(m);
    if i > 0 {
      assert forall k :: 0 <= k < |m.key| ==> text[|m.open| + k] == m.key[k];
      assert i >= |m.open| + |m.key|;
    }
  }

  /**
   * The front of the repaired text matches only where the text itself does: a match at the
   * front of Repair(s) cannot reach into a replacement, which starts with a quote mark that
   * is followed by a key character.
   */
  lemma RepairedFront(s: string)
    requires MatchFront(s).None?
    ensures MatchFront(Repair(s)).None?
  {
    hide MatchFront;
    if MatchFront(Repair(s)).Some? {
      var r, m := Repair(s), MatchFront(Repair(s)).value;
      var n := |Matched(m)|;
      var i := CopiedUpTo(s, n);
      if i < n {
        ReplacementBreaksMatch(s, i, m);
      }
      assert Matched(m) == r[..n] == s[..n];
      assert s[0..] == s;
      assert MatchesAt(s, 0, m);
      MatchFrontIsUnique(s, m);
    }
  }

  lemma RepairAtMatch(t: string)
    requires MatchFront(t).Some?
    ensures |Repair(t)| >= 2 && Repair(t)[0] == '"' && IsKeyChar(Repair(t)[1])
  {
    var m := MatchFront(t).value;
    hide MatchFront;
    assert t != "" by {
      assert |Matched(m)| > 0;
    }
    assert Repair(t) == Replacement(m) + Repair(t[|Matched(m)|..]);
    assert Replacement(m)[1] == m.key[0];
  }

  lemma ReplacementBreaksMatch(s: string, i: nat, m: Match)
    requires MatchFront(s).None? && WellFormed(m) && Matched(m) <= Repair(s)
    requires i <= |s| && MatchFront(s[i..]).Some? && i <= |Repair(s)| && Repair(s)[i..] == Repair(s[i..])
    ensures i >= |Matched(m)|
  {
    hide MatchFront, Repair, Matched;
    var r := Repair(s);
    RepairAtMatch(s[i..]);
    assert s[0..] == s;
    assert r[i] == r[i..][0] && r[i + 1] == r[i..][1];
    if i < |Matched(m)| {
      assert Matched(m)[i] == r[i];
      assert i + 1 < |Matched(m)| ==> Matched(m)[i + 1] == r[i + 1];
      QuoteInMatch(m, i);
    }
  }

  lemma RepairedMatch(m: Match, rest: string)
    requires WellFormed(m)
    ensures MatchFront(Replacement(m) + rest) == Some(Match("\"", m.key, "\""))
  {
    var m' := Match("\"", m.key, "\"");
    assert Matched(m') == Replacement(m);
    assert (Replacement(m) + rest)[0..] == Replacement(m) + rest;
    assert MatchesAt(Replacement(m) + rest, 0, m');
    MatchFrontIsUnique(Replacement(m) + rest, m');
  }

  /** Repairing twice is repairing once, on every text. */
  lemma {:induction false} RepairIsIdempotent(s: string)
    ensures Repair(Repair(s)) == Repair(s)
    decreases |s|
  {
    hide MatchFront, Repair, Matched, Replacement;
    if s == "" {
      RepairOfNothing();
    } else if MatchFront(s).Some? {
      var m := MatchFront(s).value;
      var rest := s[|Matched(m)|..];
      RepairReplacesFirst(s, m);
      RepairIsIdempotent(rest);
      RepairOfReplacement(m, Repair(rest));
    } else {
      RepairCopiesFirst(s);
      RepairIsIdempotent(s[1..]);
      RepairedFront(s);
      assert Repair(s)[1..] == Repair(s[1..]) && Repair(s)[0] == s[0];
      RepairCopiesFirst(Repair(s));
    }
  }

  /** A replacement is a match itself, and replaced by itself. */
  lemma RepairOfReplacement(m: Match, rest: string)
    requires WellFormed(m)
    ensures Repair(Replacement(m) + rest) == Replacement(m) + Repair(rest)
  {
    var m' := Match("\"", m.key, "\"");
    assert Matched(m') == Replacement(m) == Replacement(m');
    RepairedMatch(m, rest);
    hide MatchFront, Repair;
    RepairReplacesFirst(Replacement(m) + rest, m');
    assert (Replacement(m) + rest)[|Replacement(m)|..] == rest;
  }

  // ----- Nothing but quote marks changes -----

  function Kept(c: char): string {
    if IsQuote(c) then "" else [c]
  }

  function Unquoted(s: string): string {
    if s == "" then "" else Kept(s[0]) + Unquoted(s[1..])
  }

  lemma UnquotedFirst(s: string)
    requires s != ""
    ensures Unquoted(s) == Kept(s[0]) + Unquoted(s[1..])
  {
  }

  lemma {:induction false} UnquotedConcat(a: string, b: string)
    ensures Unquoted(a + b) == Unquoted(a) + Unquoted(b)
  {
    if a == "" {
      assert a + b == b;
      assert "" + Unquoted(b) == Unquoted(b);
    } else {
      UnquotedFirst(a);
      UnquotedFirst(a + b);
      hide Unquoted, Kept;
      assert (a + b)[1..] == a[1..] + b;
      UnquotedConcat(a[1..], b);
      Associates(Kept(a[0]), Unquoted(a[1..]), Unquoted(b));
    }
  }

  lemma UnquotedMark(mark: string)
    requires IsMark(mark)
    ensures Unquoted(mark) == ""
  {
    assert mark != "" ==> mark[1..] == "";
  }

  /** Only the middle of a text in marks is kept. */
  lemma UnquotedAround(open: string, key: string, close: string)
    requires IsMark(open) && IsMark(close)
    ensures Unquoted(open + key + close + ":") == Unquoted(key) + Unquoted(":")
  {
    UnquotedMark(open);
    UnquotedMark(close);
    hide Unquoted;
    UnquotedConcat(open + key + close, ":");
    UnquotedConcat(open + key, close);
    UnquotedConcat(open, key);
    assert "" + Unquoted(key) + "" == Unquoted(key);
  }

  lemma UnquotedMatch(m: Match)
    requires WellFormed(m)
    ensures Unquoted(Matched(m)) == Unquoted(Replacement(m))
  {
    hide Unquoted;
    UnquotedAround(m.open, m.key, m.close);
    UnquotedAround("\"", m.key, "\"");
    assert Replacement(m) == "\"" + m.key + "\"" + ":";
  }

  /** Erasing all quote marks from input and output leaves the same text. */
  lemma {:induction false} RepairKeepsText(s: string)
    ensures Unquoted(Repair(s)) == Unquoted(s)
    decreases |s|
  {
    hide MatchFront, Unquoted, Matched, Replacement;
    if s == "" {
      assert Repair(s) == s;
    } else if MatchFront(s).Some? {
      var m := MatchFront(s).value;
      var rest := s[|Matched(m)|..];
      assert s == Matched(m) + rest;
      assert Repair(s) == Replacement(m) + Repair(rest);
      hide Repair;
      RepairKeepsText(rest);
      UnquotedMatch(m);
      UnquotedConcat(Matched(m), rest);
      UnquotedConcat(Replacement(m), Repair(rest));
    } else {
      var rest := s[1..];
      assert s == [s[0]] + rest;
      assert Repair(s) == [s[0]] + Repair(rest);
      hide Repair;
      RepairKeepsText(rest);
      UnquotedConcat([s[0]], rest);
      UnquotedConcat([s[0]], Repair(rest));
    }
  }

  lemma {:induction false} RepairNeverShrinks(s: string)
    ensures |Repair(s)| >= |s|
    decreases |s|
  {
    if s != "" {
      RepairNeverShrinks(if MatchFront(s).Some? then s[|Matched(MatchFront(s).value)|..] else s[1..]);
    }
  }

  // ----- Objects -----

  /** A character that no match contains. */
  predicate Inert(c: char) {
    !IsQuote(c) && !IsKeyChar(c) && c != ':'
  }

  lemma MatchExtends(a: string, b: string)
    requires MatchFront(a).Some?
    ensures MatchFront(a + b) == MatchFront(a)
  {
    var m := MatchFront(a).value;
    assert (a + b)[0..] == a + b;
    assert MatchesAt(a + b, 0, m);
    MatchFrontIsUnique(a + b, m);
  }

  lemma InertNotInMatch(m: Match, i: nat)
    requires WellFormed(m) && i < |Matched(m)|
    ensures !Inert(Matched(m)[i])
  {
  }

  lemma MatchWithin(a: string, b: string, m: Match)
    requires MatchFront(a + b) == Some(m) && |Matched(m)| <= |a|
    ensures MatchFront(a) == Some(m)
  {
    hide MatchFront;
    assert Matched(m) == (a + b)[..|Matched(m)|] == a[..|Matched(m)|];
    assert a[0..] == a;
    assert MatchesAt(a, 0, m);
    MatchFrontIsUnique(a, m);
  }

  lemma MatchAvoidsInert(a: string, c: char, b: string)
    requires Inert(c)
    ensures MatchFront(a + [c] + b) == MatchFront(a)
  {
    hide MatchFront, Matched;
    var s := a + [c] + b;
    var b' := [c] + b;
    assert a + b' == s;
    if MatchFront(a).Some? {
      MatchExtends(a, b');
    } else if MatchFront(s).Some? {
      var m := MatchFront(s).value;
      assert s[|a|] == c;
      assert forall k :: 0 <= k < |Matched(m)| ==> Matched(m)[k] == s[k];
      if |Matched(m)| > |a| {
        InertNotInMatch(m, |a|);
      }
      MatchWithin(a, b', m);
    }
  }

  /** An inert character separates the text before it from the text behind it. */
  lemma {:induction false} RepairSplits(a: string, c: char, b: string)
    requires Inert(c)
    ensures Repair(a + [c] + b) == Repair(a) + [c] + Repair(b)
    decreases |a|
  {
    hide MatchFront;
    var s := a + [c] + b;
    MatchAvoidsInert(a, c, b);
    if a == "" {
      assert s == [c] + b && s[1..] == b;
    } else if MatchFront(a).Some? {
      var n := |Matched(MatchFront(a).value)|;
      assert s[n..] == a[n..] + [c] + b;
      RepairSplits(a[n..], c, b);
    } else {
      assert s[1..] == a[1..] + [c] + b;
      RepairSplits(a[1..], c, b);
    }
  }

  /** A key, directly followed by its colon, and the text behind it. */
  lemma RepairOfKey(m: Match, rest: string)
    requires WellFormed(m)
    ensures Repair(Matched(m) + rest) == Replacement(m) + Repair(rest)
  {
    var s := Matched(m) + rest;
    assert s[0..] == s;
    assert MatchesAt(s, 0, m);
    MatchFrontIsUnique(s, m);
    assert s[|Matched(m)|..] == rest;
  }

  /** A member of a flat object: white space, a key with any quoting, and the text of its value. */
  datatype Member = Member(pad: string, key: Match, value: string)

  predicate IsPadding(pad: string) {
    forall i :: 0 <= i < |pad| ==> Inert(pad[i])
  }

  predicate ValidMember(x: Member) {
    IsPadding(x.pad) && WellFormed(x.key)
  }

  predicate ValidMembers(members: seq<Member>) {
    forall i :: 0 <= i < |members| ==> ValidMember(members[i])
  }

  /** A member as it is printed: the key is directly followed by its colon. */
  function PrintMember(x: Member): string {
    x.pad + (Matched(x.key) + x.value)
  }

  function Print(members: seq<Member>): string {
    "{" + PrintMembers(members) + "}"
  }

  function PrintMembers(members: seq<Member>): string {
    if members == [] then ""
    else if |members| == 1 then PrintMember(members[0])
    else PrintMember(members[0]) + [','] + PrintMembers(members[1..])
  }

  /** The same member with its key in double quotes. */
  function QuotedMember(x: Member): Member {
    x.(key := Match("\"", x.key.key, "\""))
  }

  function Quoted(members: seq<Member>): seq<Member> {
    seq(|members|, i requires 0 <= i < |members| => QuotedMember(members[i]))
  }

  /** The same member with the text of its value repaired. */
  function RepairedMember(x: Member): Member {
    x.(value := Repair(x.value))
  }

  function RepairedValues(members: seq<Member>): seq<Member> {
    seq(|members|, i requires 0 <= i < |members| => RepairedMember(members[i]))
  }

  lemma {:induction false} RepairOfPadded(pad: string, rest: string)
    requires IsPadding(pad)
    ensures Repair(pad + rest) == pad + Repair(rest)
  {
    if pad == "" {
      assert pad + rest == rest && pad + Repair(rest) == Repair(rest);
    } else {
      assert Repair("") == "";
      hide Repair;
      RepairOfPadded(pad[1..], rest);
      RepairSplits("", pad[0], pad[1..] + rest);
      PaddedFirst(pad, rest);
      PaddedFirst(pad, Repair(rest));
    }
  }

  lemma PaddedFirst(pad: string, rest: string)
    requires pad != ""
    ensures "" + [pad[0]] + (pad[1..] + rest) == pad + rest
  {
  }

  lemma RepairOfMember(x: Member)
    requires ValidMember(x)
    ensures Repair(PrintMember(x)) == PrintMember(RepairedMember(QuotedMember(x)))
  {
    RepairOfPadded(x.pad, Matched(x.key) + x.value);
    hide Repair;
    RepairOfKey(x.key, x.value);
    assert Matched(Match("\"", x.key.key, "\"")) == Replacement(x.key);
  }

  lemma TailOfRepaired(members: seq<Member>)
    requires members != []
    ensures RepairedValues(members)[1..] == RepairedValues(members[1..])
    ensures Quoted(members)[1..] == Quoted(members[1..])
  {
  }

  lemma {:induction false} RepairOfMembers(members: seq<Member>)
    requires ValidMembers(members)
    ensures Repair(PrintMembers(members)) == PrintMembers(RepairedValues(Quoted(members)))
  {
    if members == [] {
      assert Repair("") == "";
    } else {
      hide Repair, PrintMember, IsPadding, WellFormed, RepairedMember, QuotedMember;
      RepairOfMember(members[0]);
      TailOfRepaired(members);
      TailOfRepaired(Quoted(members));
      if |members| > 1 {
        RepairOfMembers(members[1..]);
        RepairSplits(PrintMember(members[0]), ',', PrintMembers(members[1..]));
      }
    }
  }

  /**
   * Every object is repaired to its printing with double-quoted keys, but the repair reaches
   * into the values too.
   */
  lemma RepairOfObject(members: seq<Member>)
    requires ValidMembers(members)
    ensures Repair(Print(members)) == Print(RepairedValues(Quoted(members)))
  {
    RepairOfMembers(members);
    RepairInBraces(PrintMembers(members));
  }

  lemma RepairInBraces(inner: string)
    ensures Repair("{" + inner + "}") == "{" + Repair(inner) + "}"
  {
    assert Repair("") == "";
    hide Repair;
    RepairSplits(inner, '}', "");
    RepairSplits("", '{', inner + ['}'] + "");
    InBraces(inner);
    InBraces(Repair(inner));
  }

  lemma InBraces(inner: string)
    ensures "" + ['{'] + (inner + ['}'] + "") == "{" + inner + "}"
  {
  }

  predicate StableValues(members: seq<Member>) {
    forall i :: 0 <= i < |members| ==> Repair(members[i].value) == members[i].value
  }

  lemma PartsAgreeAround(a: string, b: string, a': string, b': string, c: char)
    requires |a| <= |a'| && |b| <= |b'|
    ensures a + [c] + b == a' + [c] + b' <==> a == a' && b == b'
  {
    PartsAgree(a + [c], b, a' + [c], b');
    PartsAgree(a, [c], a', [c]);
  }

  lemma RepairedMemberPrints(x: Member)
    ensures |PrintMember(x)| <= |PrintMember(RepairedMember(x))|
    ensures PrintMember(RepairedMember(x)) == PrintMember(x) <==> Repair(x.value) == x.value
  {
    RepairNeverShrinks(x.value);
    hide Repair;
    var key := Matched(x.key);
    if PrintMember(RepairedMember(x)) == PrintMember(x) {
      assert PrintMember(x)[|x.pad| + |key|..] == x.value;
      assert PrintMember(RepairedMember(x))[|x.pad| + |key|..] == Repair(x.value);
    }
  }

  lemma {:induction false} StableValuesPrintAlike(members: seq<Member>)
    ensures |PrintMembers(members)| <= |PrintMembers(RepairedValues(members))|
    ensures PrintMembers(RepairedValues(members)) == PrintMembers(members) <==> StableValues(members)
  {
    if members != [] {
      hide Repair, PrintMember;
      RepairedMemberPrints(members[0]);
      assert RepairedValues(members)[0] == RepairedMember(members[0]);
      if |members| > 1 {
        TailOfRepaired(members);
        StableValuesPrintAlike(members[1..]);
        PartsAgreeAround(PrintMember(members[0]), PrintMembers(members[1..]),
                         PrintMember(RepairedMember(members[0])), PrintMembers(RepairedValues(members[1..])), ',');
        StableTail(members);
      }
    }
  }

  lemma StableTail(members: seq<Member>)
    requires members != []
    ensures StableValues(members) <==> Repair(members[0].value) == members[0].value && StableValues(members[1..])
  {
    hide Repair;
    if StableValues(members[1..]) && Repair(members[0].value) == members[0].value {
      forall i | 0 <= i < |members| ensures Repair(members[i].value) == members[i].value {
        assert i > 0 ==> members[1..][i - 1] == members[i];
      }
    }
  }

  /**
   * The repair yields exactly the double-quoted printing of a flat object if and only if it
   * leaves the text of every value alone.
   */
  lemma RepairQuotesKeys(members: seq<Member>)
    requires ValidMembers(members)
    ensures Repair(Print(members)) == Print(Quoted(members)) <==> StableValues(members)
  {
    hide Repair, PrintMembers, RepairedValues;
    RepairOfObject(members);
    var quoted := Quoted(members);
    StableValuesPrintAlike(quoted);
    SameInBraces(PrintMembers(RepairedValues(quoted)), PrintMembers(quoted));
    assert StableValues(quoted) <==> StableValues(members) by {
      assert forall i :: 0 <= i < |members| ==> quoted[i].value == members[i].value;
    }
  }

  lemma SameInBraces(a: string, b: string)
    ensures "{" + a + "}" == "{" + b + "}" <==> a == b
  {
    if "{" + a + "}" == "{" + b + "}" {
      assert ("{" + a + "}")[1..|a| + 1] == a && ("{" + b + "}")[1..|b| + 1] == b;
    }
  }

  lemma MatchHasColon(s: string, j: nat, m: Match)
    requires MatchesAt(s, j, m)
    ensures ':' in s
  {
    var n := |Matched(m)|;
    assert Matched(m) == s[j..][..n];
    assert s[j + n - 1] == Matched(m)[n - 1];
  }

  /** Values without a colon are such values. */
  lemma ColonFreeIsStable(value: string)
    requires ':' !in value
    ensures Repair(value) == value
  {
    forall j | 0 <= j < |value| ensures !HasMatchAt(value, j) {
      if m :| MatchesAt(value, j, m) {
        MatchHasColon(value, j, m);
      }
    }
    RepairWithoutMatch(value);
  }

  /** Double-quoted printings of objects with colon-free values are fixed points. */
  lemma QuotedObjectsAreFixed(members: seq<Member>)
    requires ValidMembers(members) && forall i :: 0 <= i < |members| ==> ':' !in members[i].value
    ensures Repair(Print(members)) == Print(Quoted(members))
    ensures Repair(Print(Quoted(members))) == Print(Quoted(members))
  {
    forall i | 0 <= i < |members| ensures Repair(members[i].value) == members[i].value {
      ColonFreeIsStable(members[i].value);
    }
    RepairQuotesKeys(members);
    RepairIsIdempotent(Print(members));
  }

  // ----- Which texts are stable -----

  /** A run of key characters, and at most one quote mark, ends at p. */
  predicate KeyBefore(s: string, p: nat)
    requires p <= |s|
  {
    (p >= 1 && IsKeyChar(s[p - 1])) || (p >= 2 && IsQuote(s[p - 1]) && IsKeyChar(s[p - 2]))
  }

  /** A key in double quotes lies from i to p. */
  predicate QuotedKey(s: string, i: nat, p: nat)
    requires p <= |s|
  {
    i + 2 < p && s[i] == '"' && s[p - 1] == '"' && forall j :: i < j < p - 1 ==> IsKeyChar(s[j])
  }

  ghost predicate QuotedKeyBefore(s: string, p: nat)
    requires p <= |s|
  {
    exists i: nat :: QuotedKey(s, i, p)
  }

  ghost predicate ColonIsFine(s: string, p: nat)
    requires p < |s|
  {
    s[p] == ':' && KeyBefore(s, p) ==> QuotedKeyBefore(s, p)
  }

  /** Every colon that comes directly after a key comes after a key in double quotes. */
  ghost predicate KeysQuoted(s: string) {
    forall p :: 0 <= p < |s| ==> ColonIsFine(s, p)
  }

  lemma NotAtFront(s: string, m: Match)
    requires MatchFront(s).None? && WellFormed(m)
    ensures !(Matched(m) <= s)
  {
    if Matched(m) <= s {
      assert s[0..] == s;
      assert MatchesAt(s, 0, m);
      MatchFrontIsUnique(s, m);
    }
  }

  /** Without a match at the front, the first character matters to no colon. */
  lemma ColonAfterCopy(s: string, p: nat)
    requires 1 <= p < |s| && MatchFront(s).None?
    ensures ColonIsFine(s, p) <==> ColonIsFine(s[1..], p - 1)
  {
    hide MatchFront;
    var t := s[1..];
    if s[p] == ':' {
      if p == 1 && IsKeyChar(s[0]) {
        assert s[..1] + ":" == s[..2];
        NotAtFront(s, Match("", s[..1], ""));
      }
      if p == 2 && IsKeyChar(s[0]) && IsQuote(s[1]) {
        assert s[..1] + s[1..2] + ":" == s[..3];
        NotAtFront(s, Match("", s[..1], s[1..2]));
      }
      assert KeyBefore(s, p) <==> KeyBefore(t, p - 1);
      if QuotedKeyBefore(t, p - 1) {
        var i: nat :| QuotedKey(t, i, p - 1);
        assert QuotedKey(s, i + 1, p);
      }
      if QuotedKeyBefore(s, p) {
        var i: nat :| QuotedKey(s, i, p);
        if i == 0 {
          QuotedKeyMatches(s, p);
        } else {
          assert QuotedKey(t, i - 1, p - 1);
        }
      }
    }
  }

  lemma QuotedKeyMatches(s: string, p: nat)
    requires p < |s| && s[p] == ':' && QuotedKey(s, 0, p)
    ensures MatchFront(s).Some?
  {
    var m := Match("\"", s[1..p - 1], "\"");
    assert Matched(m) == s[..p + 1];
    if MatchFront(s).None? {
      NotAtFront(s, m);
    }
  }

  /** Behind a colon, nothing before it matters. */
  lemma ColonAfterColon(s: string, n: nat, p: nat)
    requires 1 <= n <= p < |s| && s[n - 1] == ':'
    ensures ColonIsFine(s, p) <==> ColonIsFine(s[n..], p - n)
  {
    var t := s[n..];
    assert KeyBefore(s, p) <==> KeyBefore(t, p - n);
    if QuotedKeyBefore(t, p - n) {
      var i: nat :| QuotedKey(t, i, p - n);
      assert QuotedKey(s, i + n, p);
    }
    assert !IsKeyChar(s[n - 1]);
    if QuotedKeyBefore(s, p) {
      var i: nat :| QuotedKey(s, i, p);
      assert i >= n;
      assert QuotedKey(t, i - n, p - n);
    }
  }

  lemma ColonOfMatch(m: Match, rest: string)
    requires WellFormed(m)
    ensures var s, n := Matched(m) + rest, |Matched(m)|;
            && (forall p :: 0 <= p < n - 1 ==> s[p] != ':')
            && (ColonIsFine(s, n - 1) <==> Matched(m) == Replacement(m))
  {
    var s, p := Matched(m) + rest, |Matched(m)| - 1;
    var k := |m.open|;
    assert forall j :: k <= j < k + |m.key| ==> s[j] == m.key[j - k];
    assert s[k + |m.key| - 1] == m.key[|m.key| - 1];
    assert m.close != "" ==> s[p - 1] == m.close[0];
    assert KeyBefore(s, p);
    if Matched(m) == Replacement(m) {
      assert m.open == [Matched(m)[0]] && m.close == [Matched(m)[p - 1]];
    }
    if m.open == "\"" && m.close == "\"" {
      assert QuotedKey(s, 0, p);
    }
    if QuotedKeyBefore(s, p) {
      var i: nat :| QuotedKey(s, i, p);
      assert m.close == [s[p - 1]];
      assert i < k;
      assert m.open == [s[0]];
    }
  }

  /** The repair leaves a text alone exactly when all keys in front of colons have their double quotes. */
  lemma {:induction false} StableMeansKeysQuoted(s: string)
    ensures Repair(s) == s <==> KeysQuoted(s)
    decreases |s|
  {
    hide MatchFront, KeysQuoted, Repair, Matched;
    if s == "" {
      EmptyIsStable();
    } else if MatchFront(s).Some? {
      StableMeansKeysQuoted(s[|Matched(MatchFront(s).value)|..]);
      MatchIsStable(s, MatchFront(s).value);
    } else {
      StableMeansKeysQuoted(s[1..]);
      CopyIsStable(s);
    }
  }

  lemma EmptyIsStable()
    ensures Repair("") == "" && KeysQuoted("")
  {
  }

  lemma MatchIsStable(s: string, m: Match)
    requires MatchFront(s) == Some(m)
    ensures var rest := s[|Matched(m)|..];
            Repair(s) == s <==> (ColonIsFine(s, |Matched(m)| - 1) && Repair(rest) == rest)
    ensures KeysQuoted(s) <==> ColonIsFine(s, |Matched(m)| - 1) && KeysQuoted(s[|Matched(m)|..])
  {
    hide MatchFront, KeysQuoted, Repair, ColonIsFine;
    var rest := s[|Matched(m)|..];
    assert s == Matched(m) + rest;
    StableAfterMatch(s, m);
    ColonOfMatch(m, rest);
    RepairOfKey(m, rest);
    RepairNeverShrinks(rest);
    PartsAgree(Matched(m), rest, Replacement(m), Repair(rest));
  }

  lemma CopyIsStable(s: string)
    requires s != "" && MatchFront(s).None?
    ensures Repair(s) == s <==> Repair(s[1..]) == s[1..]
    ensures KeysQuoted(s) <==> KeysQuoted(s[1..])
  {
    hide MatchFront, KeysQuoted, Repair;
    RepairCopiesFirst(s);
    StableAfterCopy(s);
    RepairNeverShrinks(s[1..]);
    var first, rest := [s[0]], s[1..];
    assert s == first + rest;
    PartsAgree(first, rest, first, Repair(rest));
  }

  lemma StableAfterCopy(s: string)
    requires s != "" && MatchFront(s).None?
    ensures KeysQuoted(s) <==> KeysQuoted(s[1..])
  {
    assert ColonIsFine(s, 0);
    forall p | 1 <= p < |s| ensures ColonIsFine(s, p) <==> ColonIsFine(s[1..], p - 1) {
      ColonAfterCopy(s, p);
    }
    hide ColonIsFine, MatchFront;
    if KeysQuoted(s) {
      forall p | 0 <= p < |s| - 1 ensures ColonIsFine(s[1..], p) {
        assert ColonIsFine(s, p + 1);
      }
    }
  }

  lemma StableAfterMatch(s: string, m: Match)
    requires WellFormed(m) && Matched(m) <= s
    ensures KeysQuoted(s) <==> ColonIsFine(s, |Matched(m)| - 1) && KeysQuoted(s[|Matched(m)|..])
  {
    var n := |Matched(m)|;
    var rest := s[n..];
    assert s == Matched(m) + rest;
    ColonOfMatch(m, rest);
    forall p | 0 <= p < n - 1 ensures ColonIsFine(s, p) {
    }
    forall p | n <= p < |s| ensures ColonIsFine(s, p) <==> ColonIsFine(rest, p - n) {
      ColonAfterColon(s, n, p);
    }
    hide ColonIsFine;
    if KeysQuoted(s) {
      forall p | 0 <= p < |rest| ensures ColonIsFine(rest, p) {
        assert ColonIsFine(s, p + n);
      }
    }
  }

  /** So an object is printed with its keys double-quoted exactly when the values' own keys are. */
  lemma RepairQuotesKeysExactly(members: seq<Member>)
    requires ValidMembers(members)
    ensures Repair(Print(members)) == Print(Quoted(members))
            <==> forall i :: 0 <= i < |members| ==> KeysQuoted(members[i].value)
  {
    RepairQuotesKeys(members);
    hide Repair, KeysQuoted;
    forall i | 0 <= i < |members|
      ensures Repair(members[i].value) == members[i].value <==> KeysQuoted(members[i].value)
    {
      StableMeansKeysQuoted(members[i].value);
    }
  }
}
