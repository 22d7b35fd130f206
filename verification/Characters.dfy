/** Character classes, C strings and decimal notation, shared by the modules about texts. */
module Characters {
  predicate IsDigit(c: char) {
    '0' <= c <= '9'
  }

  /** isspace() in the classic locale. */
  predicate IsSpace(c: char) {
    c == ' ' || 9 <= c as int <= 13
  }

  predicate AllDigits(s: string) {
    forall i :: 0 <= i < |s| ==> IsDigit(s[i])
  }

  function DigitValue(c: char): (v: nat)
    requires IsDigit(c)
    ensures v < 10 && "0123456789"[v] == c
  {
    c as int - '0' as int
  }

  function Digit(v: nat): (c: char)
    requires v < 10
    ensures IsDigit(c) && DigitValue(c) == v
  {
    ('0' as int + v) as char
  }

  /** The number a run of digits denotes; leading zeros are allowed. */
  function Number(s: string): nat
    requires AllDigits(s)
  {
    if s == "" then 0 else 10 * Number(s[..|s| - 1]) + DigitValue(s[|s| - 1])
  }

  /** Printing is inverted by reading, and prints no leading zero. */
  function Print(n: nat): (s: string)
    ensures AllDigits(s) && s != ""
    ensures Number(s) == n
    ensures s[0] == '0' ==> s == "0"
  {
    if n < 10 then
      [Digit(n)]
    else
      var s := Print(n / 10) + [Digit(n % 10)];
      assert s[..|s| - 1] == Print(n / 10);
      s
  }

  /** A run of digits without a leading zero is what Print makes of its number. */
  lemma {:induction false} PrintOfNumber(s: string)
    requires AllDigits(s) && s != "" && (s[0] == '0' ==> |s| == 1)
    ensures Print(Number(s)) == s
  {
    var front := s[..|s| - 1];
    if front == "" {
      assert Number(front) == 0;
      assert s == [s[0]];
    } else {
      PrintOfNumber(front);
      assert Number(s) / 10 == Number(front) && Number(s) % 10 == DigitValue(s[|s| - 1]);
      NotZero(front);
      assert s == front + [s[|s| - 1]];
    }
  }

  lemma {:induction false} NotZero(s: string)
    requires AllDigits(s) && s != "" && s[0] != '0'
    ensures Number(s) > 0
  {
    if |s| > 1 {
      NotZero(s[..|s| - 1]);
    } else {
      assert s[|s| - 1] == s[0];
    }
  }

  predicate IsHexDigit(c: char) {
    '0' <= c <= '9' || 'a' <= c <= 'f' || 'A' <= c <= 'F'
  }

  function HexValue(c: char): (v: nat)
    requires IsHexDigit(c)
    ensures v < 16 && ("0123456789abcdef"[v] == c || "0123456789ABCDEF"[v] == c)
  {
    if c <= '9' then c as int - '0' as int
    else if c <= 'F' then c as int - 'A' as int + 10
    else c as int - 'a' as int + 10
  }

  predicate AllHex(s: string) {
    forall i :: 0 <= i < |s| ==> IsHexDigit(s[i])
  }

  /** What a C string ends at: the part before the first NUL. */
  function CString(s: string): string {
    if s == "" || s[0] == '\0' then "" else [s[0]] + CString(s[1..])
  }

  lemma {:induction false} CStringIsPrefix(s: string)
    ensures CString(s) <= s && '\0' !in CString(s)
    ensures |CString(s)| < |s| ==> s[|CString(s)|] == '\0'
    ensures '\0' !in s <==> CString(s) == s
  {
    if s != "" && s[0] != '\0' {
      CStringIsPrefix(s[1..]);
      assert s == [s[0]] + s[1..];
    }
  }

  // ----- Concatenation -----

  lemma Associates(a: string, b: string, c: string)
    ensures a + (b + c) == a + b + c
  {
  }

  /** When no part shrinks, concatenations agree exactly when their parts do. */
  lemma PartsAgree(a: string, b: string, a': string, b': string)
    requires |a| <= |a'| && |b| <= |b'|
    ensures a + b == a' + b' <==> a == a' && b == b'
  {
    if a + b == a' + b' {
      assert |a| == |a'|;
      assert (a + b)[..|a|] == a && (a' + b')[..|a|] == a';
      assert (a + b)[|a|..] == b && (a' + b')[|a|..] == b';
    }
  }
}
