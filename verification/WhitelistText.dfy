/**
 * The IP whitelist of Config.cpp: how entries are read, stored and printed. Reading and printing
 * an IPv6 address is the library's business and stays a parameter.
 */
module WhitelistText {
  import opened Wrappers
  import opened Characters
  import opened Cidr

  // ----- Splitting and trimming -----

  function IndexOf(s: string, c: char): (e: nat)
    ensures e <= |s| && (e < |s| ==> s[e] == c) && c !in s[..e]
  {
    if s == "" || s[0] == c then 0 else 1 + IndexOf(s[1..], c)
  }

  function SplitOn(s: string, c: char): (parts: seq<string>)
    ensures parts != []
  {
    var e := IndexOf(s, c);
    [s[..e]] + if e < |s| then SplitOn(s[e + 1..], c) else []
  }

  function TrimLeft(s: string): string {
    if s != "" && IsSpace(s[0]) then TrimLeft(s[1..]) else s
  }

  function TrimRight(s: string): string {
    if s != "" && IsSpace(s[|s| - 1]) then TrimRight(s[..|s| - 1]) else s
  }

  function Trim(s: string): string {
    TrimRight(TrimLeft(s))
  }

  /** Blanks, tabs, line feeds, vertical tabs, form feeds and carriage returns. */
  predicate AllWhite(s: string) {
    forall i :: 0 <= i < |s| ==> s[i] in [' ', '\t', '\n', 11 as char, 12 as char, '\r']
  }

  lemma {:induction false} TrimLeftDrops(left: string, text: string)
    requires AllWhite(left) && (text != "" ==> !IsSpace(text[0]))
    ensures TrimLeft(left + text) == text
  {
    if left == "" {
      assert left + text == text;
    } else {
      assert (left + text)[1..] == left[1..] + text;
      TrimLeftDrops(left[1..], text);
    }
  }

  lemma {:induction false} TrimRightDrops(text: string, right: string)
    requires AllWhite(right) && (text != "" ==> !IsSpace(text[|text| - 1]))
    ensures TrimRight(text + right) == text
  {
    if right == "" {
      assert text + right == text;
    } else {
      var s := text + right;
      assert s[|s| - 1] == right[|right| - 1] && s[..|s| - 1] == text + right[..|right| - 1];
      TrimRightDrops(text, right[..|right| - 1]);
    }
  }

  /** Trimming takes away the white space on both sides, and nothing else. */
  lemma TrimIs(left: string, text: string, right: string)
    requires AllWhite(left) && AllWhite(right)
    requires text != "" ==> !AllWhite(text[..1]) && !AllWhite(text[|text| - 1..])
    ensures Trim(left + text + right) == text
  {
    assert left + text + right == left + (text + right);
    hide TrimLeft, TrimRight;
    if text == "" {
      WhiteIsTrimmed(left + (text + right));
    } else {
      assert text[..1] == [text[0]] && text[|text| - 1..] == [text[|text| - 1]];
      assert (text + right)[0] == text[0];
      TrimLeftDrops(left, text + right);
      TrimRightDrops(text, right);
    }
  }

  lemma WhiteIsTrimmed(white: string)
    requires AllWhite(white)
    ensures Trim(white) == ""
  {
    TrimLeftDrops(white, "");
    assert white + "" == white;
  }

  /** A part trimmed, or nothing when it is blank. */
  function Item(part: string): seq<string> {
    if Trim(part) == "" then [] else [Trim(part)]
  }

  function Csv(s: string): seq<string> {
    var e := IndexOf(s, ',');
    if e == |s| then Item(s) else Item(s[..e]) + Csv(s[e + 1..])
  }

  lemma CsvLast(s: string)
    requires IndexOf(s, ',') == |s|
    ensures Csv(s) == Item(s)
  {
  }

  lemma CsvFirst(s: string, e: nat)
    requires e == IndexOf(s, ',') < |s|
    ensures Csv(s) == Item(s[..e]) + Csv(s[e + 1..])
  {
  }

  lemma CsvOfNothing()
    ensures Csv("") == []
  {
  }

  function WithCommas(parts: seq<string>): string {
    if parts == [] then "" else if |parts| == 1 then parts[0] else parts[0] + "," + WithCommas(parts[1..])
  }

  function Items(parts: seq<string>): seq<string> {
    if parts == [] then [] else (if Trim(parts[0]) == "" then [] else [Trim(parts[0])]) + Items(parts[1..])
  }

  /** The items are what is between commas, trimmed, without the blank ones, in order. */
  lemma {:induction false} CsvOfParts(parts: seq<string>)
    requires forall i :: 0 <= i < |parts| ==> ',' !in parts[i]
    ensures Csv(WithCommas(parts)) == Items(parts)
  {
    hide Trim, Csv;
    var z := WithCommas(parts);
    if parts == [] {
      CsvOfNothing();
    } else if |parts| == 1 {
      IndexIs(z, ',', "");
      assert z + "" == z;
      CsvLast(z);
    } else {
      var rest := WithCommas(parts[1..]);
      assert z == parts[0] + ("," + rest);
      IndexIs(parts[0], ',', "," + rest);
      assert z[..|parts[0]|] == parts[0] && z[|parts[0]| + 1..] == rest;
      CsvFirst(z, |parts[0]|);
      CsvOfParts(parts[1..]);
    }
  }

  /** split_csv: getline up to each comma, trim, drop empty items. */
  method SplitCsv(s: string) returns (out: seq<string>)
    ensures out == Csv(s)
  {
    hide Csv, Trim, IndexOf;
    out := [];
    var pos := 0;
    assert s[0..] == s;
    while pos < |s|
      invariant 0 <= pos <= |s|
      invariant out + Csv(s[pos..]) == Csv(s)
    {
      var end := GetLine(s, pos);
      var item := Trim(s[pos..end]);
      if item != "" {
        out := out + [item];
      }
      if end < |s| {
        CsvFirst(s[pos..], end - pos);
        assert s[pos..][end - pos + 1..] == s[end + 1..];
        pos := end + 1;
      } else {
        CsvLast(s[pos..]);
        assert s[pos..end] == s[pos..];
        assert s[end..] == "";
        CsvOfNothing();
        pos := end;
      }
    }
    assert s[pos..] == "";
    CsvOfNothing();
  }

  /** std::getline with the comma as delimiter. */
  method GetLine(s: string, pos: nat) returns (end: nat)
    requires pos < |s|
    ensures pos <= end <= |s| && end - pos == IndexOf(s[pos..], ',')
    ensures s[pos..][..end - pos] == s[pos..end]
  {
    end := pos;
    while end < |s| && s[end] != ','
      invariant pos <= end <= |s|
      invariant end - pos + IndexOf(s[end..], ',') == IndexOf(s[pos..], ',')
    {
      assert s[end..][1..] == s[end + 1..];
      end := end + 1;
    }
  }

  // ----- Printing a list and reading it back -----

  /** What ip_whitelist_repr puts between networks. */
  function Joined(texts: seq<string>): string {
    if texts == [] then "" else if |texts| == 1 then texts[0] else texts[0] + ", " + Joined(texts[1..])
  }

  predicate Plain(text: string) {
    text != "" && ',' !in text && !IsSpace(text[0]) && !IsSpace(text[|text| - 1])
  }

  lemma {:induction false} IndexIs(a: string, c: char, b: string)
    requires c !in a && (b != "" ==> b[0] == c)
    ensures IndexOf(a + b, c) == |a|
  {
    if a == "" {
      assert a + b == b;
    } else {
      assert (a + b)[1..] == a[1..] + b;
      IndexIs(a[1..], c, b);
    }
  }

  lemma PlainIsItem(pad: string, text: string)
    requires Plain(text) && (pad == "" || pad == " ")
    ensures Item(pad + text) == [text] && ',' !in pad + text
  {
    if pad == "" {
      assert pad + text == text;
    } else {
      assert pad + text == " " + text;
      assert (" " + text)[1..] == text;
      assert TrimLeft(" " + text) == text;
    }
  }

  lemma {:induction false} CsvOfJoined(pad: string, texts: seq<string>)
    requires pad == "" || pad == " "
    requires forall i :: 0 <= i < |texts| ==> Plain(texts[i])
    ensures Csv(pad + Joined(texts)) == texts
    decreases |texts|
  {
    hide Csv, Item, Plain, IndexOf;
    var z := pad + Joined(texts);
    if texts == [] {
      assert z == pad;
      CsvOfPad(pad);
    } else {
      var first := pad + texts[0];
      PlainIsItem(pad, texts[0]);
      if |texts| == 1 {
        IndexIs(first, ',', "");
        assert first + "" == z;
        CsvLast(z);
      } else {
        var rest := " " + Joined(texts[1..]);
        assert z == first + ("," + rest);
        IndexIs(first, ',', "," + rest);
        assert z[..|first|] == first && z[|first| + 1..] == rest;
        CsvFirst(z, |first|);
        CsvOfJoined(" ", texts[1..]);
      }
    }
  }

  lemma CsvOfPad(pad: string)
    requires pad == "" || pad == " "
    ensures Csv(pad) == []
  {
    assert " "[1..] == "";
    assert IndexOf(pad, ',') == |pad|;
  }

  // ----- IPv4 addresses -----

  function Combine(a: nat, b: nat, c: nat, d: nat): nat {
    ((a * 0x100 + b) * 0x100 + c) * 0x100 + d
  }

  function DottedText(a: string, b: string, c: string, d: string): string {
    a + ['.'] + (b + ['.'] + (c + ['.'] + d))
  }

  /** to_string of an IPv4 address. */
  function Dotted(v: nat): string {
    DottedText(Print(v / 0x100_0000), Print(v / 0x1_0000 % 0x100), Print(v / 0x100 % 0x100), Print(v % 0x100))
  }

  /** inet_pton's octets: up to 255, without leading zeros. */
  predicate IsOctet(s: string) {
    s != "" && AllDigits(s) && (s[0] == '0' ==> |s| == 1) && Number(s) < 0x100
  }

  function ParseAddress4(s: string): Option<nat> {
    var parts := SplitOn(s, '.');
    if |parts| == 4 && IsOctet(parts[0]) && IsOctet(parts[1]) && IsOctet(parts[2]) && IsOctet(parts[3]) then
      Some(Combine(Number(parts[0]), Number(parts[1]), Number(parts[2]), Number(parts[3])))
    else
      None
  }

  lemma LastOctet(q: nat, d: nat, v: nat)
    requires d < 0x100
    ensures v == q * 0x100 + d <==> q == v / 0x100 && d == v % 0x100
  {
  }

  lemma DivideTwice(v: nat)
    ensures v / 0x100 / 0x100 == v / 0x1_0000
    ensures v / 0x1_0000 / 0x100 == v / 0x100_0000
  {
  }

  lemma CombineIsBijective(a: nat, b: nat, c: nat, d: nat, v: nat)
    requires a < 0x100 && b < 0x100 && c < 0x100 && d < 0x100
    ensures v == Combine(a, b, c, d)
            <==> a == v / 0x100_0000 && b == v / 0x1_0000 % 0x100 && c == v / 0x100 % 0x100 && d == v % 0x100
    ensures Combine(a, b, c, d) < 0x1_0000_0000
  {
    var ab := a * 0x100 + b;
    var abc := ab * 0x100 + c;
    LastOctet(abc, d, v);
    LastOctet(ab, c, v / 0x100);
    LastOctet(a, b, v / 0x100 / 0x100);
    DivideTwice(v);
  }

  lemma WidthOf4()
    ensures Pow2(32) == 0x1_0000_0000
  {
    assert Pow2(8) == 0x100;
    Pow2Adds(8, 8);
    Pow2Adds(16, 16);
  }

  lemma {:induction false} SplitJoins(s: string, c: char)
    ensures var parts := SplitOn(s, c);
            (|parts| == 1 ==> s == parts[0]) &&
            (|parts| > 1 ==> |parts[0]| < |s| && s == parts[0] + [c] + s[|parts[0]| + 1..] &&
                             SplitOn(s[|parts[0]| + 1..], c) == parts[1..])
  {
    var e := IndexOf(s, c);
    if e < |s| {
      assert s == s[..e] + [c] + s[e + 1..];
    }
  }

  lemma FourParts(s: string) returns (a: string, b: string, c: string, d: string)
    requires |SplitOn(s, '.')| == 4
    ensures SplitOn(s, '.') == [a, b, c, d] && s == DottedText(a, b, c, d)
  {
    hide SplitOn;
    SplitJoins(s, '.');
    a := SplitOn(s, '.')[0];
    var s1 := s[|a| + 1..];
    SplitJoins(s1, '.');
    b := SplitOn(s1, '.')[0];
    var s2 := s1[|b| + 1..];
    SplitJoins(s2, '.');
    c := SplitOn(s2, '.')[0];
    d := s2[|c| + 1..];
    SplitJoins(d, '.');
  }

  lemma PartsOfDotted(a: string, b: string, c: string, d: string)
    requires '.' !in a && '.' !in b && '.' !in c && '.' !in d
    ensures SplitOn(DottedText(a, b, c, d), '.') == [a, b, c, d]
  {
    hide SplitOn;
    SplitsAt(d, '.', "");
    SplitsAt(c, '.', d);
    SplitsAt(b, '.', c + ['.'] + d);
    SplitsAt(a, '.', b + ['.'] + (c + ['.'] + d));
  }

  lemma {:induction false} SplitsAt(a: string, c: char, b: string)
    requires c !in a
    ensures SplitOn(a, c) == [a]
    ensures SplitOn(a + [c] + b, c) == [a] + SplitOn(b, c)
  {
    IndexIs(a, c, "");
    assert a + "" == a;
    assert a[..|a|] == a;
    var z := a + [c] + b;
    assert z == a + ([c] + b);
    IndexIs(a, c, [c] + b);
    assert z[|a| + 1..] == b && z[..|a|] == a;
  }

  lemma OctetPrints(n: nat)
    requires n < 0x100
    ensures IsOctet(Print(n)) && Number(Print(n)) == n && '.' !in Print(n)
  {
  }

  /** Dotted decimal is the only text an IPv4 address is read from. */
  lemma DottedRoundTrip(s: string, v: nat)
    ensures ParseAddress4(s) == Some(v) <==> v < Pow2(32) && s == Dotted(v)
  {
    WidthOf4();
    hide Pow2;
    if v < 0x1_0000_0000 && s == Dotted(v) {
      ReadsDotted(v);
    }
    if ParseAddress4(s) == Some(v) {
      var a, b, c, d := FourParts(s);
      hide SplitOn;
      CombineIsBijective(Number(a), Number(b), Number(c), Number(d), v);
      PrintOfNumber(a);
      PrintOfNumber(b);
      PrintOfNumber(c);
      PrintOfNumber(d);
    }
  }

  lemma ReadsDotted(v: nat)
    requires v < 0x1_0000_0000
    ensures ParseAddress4(Dotted(v)) == Some(v)
  {
    var a, b, c, d := v / 0x100_0000, v / 0x1_0000 % 0x100, v / 0x100 % 0x100, v % 0x100;
    OctetPrints(a);
    OctetPrints(b);
    OctetPrints(c);
    OctetPrints(d);
    CombineIsBijective(a, b, c, d, v);
    hide SplitOn, Print, IsOctet, Combine;
    PartsOfDotted(Print(a), Print(b), Print(c), Print(d));
  }
}
