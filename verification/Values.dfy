/**
 * Result values: how handle_query turns SQLite values into JSON (RequestHandler.cpp), and how
 * the Python client reads them back (examples/python/sqlite.py).
 */
module Values {
  import opened Wrappers
  import opened Arithmetic
  import opened Characters
  import opened Framing

  type int64 = i: int | -0x8000_0000_0000_0000 <= i < 0x8000_0000_0000_0000

  datatype SqlValue = Integer(i: int64) | Float(f: real) | Text(s: string) | Blob(b: seq<byte>) | Null

  datatype Json = JsonInteger(i: int) | JsonFloat(f: real) | JsonString(s: string) | JsonNull

  // ----- Blobs as hexadecimal literals -----

  /** A C++ `char` on the server's platform. */
  type schar = c: int | -128 <= c < 128

  function SignedChar(b: byte): schar {
    if b < 128 then b else b - 256
  }

  function SignedChars(bs: seq<byte>): seq<schar> {
    seq(|bs|, i requires 0 <= i < |bs| => SignedChar(bs[i]))
  }

  const HEXMAP: string := "0123456789abcdef"

  function HexByte(b: byte): (h: string)
    ensures |h| == 2
  {
    [HEXMAP[b / 16], HEXMAP[b % 16]]
  }

  function Hex(bs: seq<byte>): (h: string)
    ensures |h| == 2 * |bs|
  {
    if bs == [] then "" else HexByte(bs[0]) + Hex(bs[1..])
  }

  function HexLiteral(bs: seq<byte>): string {
    "X'" + Hex(bs) + "'"
  }

  /** Masking to the low nibble takes the low digit, of a negative char too. */
  lemma LowNibble(d: int)
    ensures BitAnd(d, 0x0F) == d % 16
  {
    assert BitAnd(d / 2 / 2 / 2 / 2, 0) == 0;
    hide BitAnd;
    var d1 := d / 2;
    var d2 := d1 / 2;
    var d3 := d2 / 2;
    BitAndStep(d, 7);
    BitAndStep(d1, 3);
    BitAndStep(d2, 1);
    BitAndStep(d3, 0);
  }

  lemma HighNibble(d: int)
    ensures BitAnd(d, 0xF0) / 16 == (d / 16) % 16
  {
    hide BitAnd;
    var d1 := d / 2;
    var d2 := d1 / 2;
    var d3 := d2 / 2;
    BitAndStep(d, 0x78);
    BitAndStep(d1, 0x3C);
    BitAndStep(d2, 0x1E);
    BitAndStep(d3, 0x0F);
    assert d3 / 2 == d / 16;
    LowNibble(d / 16);
  }

  lemma SignedNibbles(b: byte)
    ensures BitAnd(SignedChar(b), 0xF0) / 16 == b / 16
    ensures BitAnd(SignedChar(b), 0x0F) == b % 16
  {
    hide BitAnd;
    HighNibble(SignedChar(b));
    LowNibble(SignedChar(b));
  }

  lemma {:induction false} HexAt(bs: seq<byte>, j: nat)
    requires j < |bs|
    ensures Hex(bs)[2 * j] == HEXMAP[bs[j] / 16] && Hex(bs)[2 * j + 1] == HEXMAP[bs[j] % 16]
  {
    if j > 0 {
      HexAt(bs[1..], j - 1);
    }
  }

  /** The server's loop: fills all 2n characters of the string in place. */
  method HexStr(data: seq<schar>, ghost bs: seq<byte>) returns (text: string)
    requires data == SignedChars(bs)
    ensures text == Hex(bs)
  {
    hide BitAnd;
    var n := |data|;
    var s := new char[n * 2](_ => ' ');
    var j := 0;
    while j < n
      invariant 0 <= j <= n
      invariant forall k :: 0 <= k < 2 * j ==> s[k] == Hex(bs)[k]
    {
      SignedNibbles(bs[j]);
      HexAt(bs, j);
      s[2 * j] := HEXMAP[BitAnd(data[j], 0xF0) / 16];
      s[2 * j + 1] := HEXMAP[BitAnd(data[j], 0x0F)];
      j := j + 1;
    }
    text := s[..];
    assert |text| == |Hex(bs)| && forall k :: 0 <= k < |text| ==> text[k] == Hex(bs)[k];
  }

  /** bytes.fromhex on hexadecimal digits, and SQLite's reading of a blob literal. */
  function FromHex(s: string): seq<byte>
    requires AllHex(s) && |s| % 2 == 0
  {
    if s == "" then [] else [16 * HexValue(s[0]) + HexValue(s[1])] + FromHex(s[2..])
  }

  lemma HexDigitTrip(v: nat)
    requires v < 16
    ensures IsHexDigit(HEXMAP[v]) && HexValue(HEXMAP[v]) == v
  {
  }

  lemma {:induction false} HexRoundTrip(bs: seq<byte>)
    ensures AllHex(Hex(bs)) && FromHex(Hex(bs)) == bs
  {
    if bs != [] {
      HexRoundTrip(bs[1..]);
      var h := Hex(bs);
      assert h[2..] == Hex(bs[1..]);
      HexDigitTrip(bs[0] / 16);
      HexDigitTrip(bs[0] % 16);
      assert h[0] == HEXMAP[bs[0] / 16] && h[1] == HEXMAP[bs[0] % 16];
      forall i | 0 <= i < |h| ensures IsHexDigit(h[i]) {
        if i >= 2 {
          assert h[i] == h[2..][i - 2];
        }
      }
    }
  }

  /** A value handed to decode_blob_literal. */
  datatype PyValue = PyNone | PyBytes(bytes: seq<byte>) | PyStr(str: string) | PyOther

  /** The hexadecimal digits of an X'..' literal; `$` also matches before a final newline. */
  function LiteralDigits(s: string): Option<string> {
    var t := if s != "" && s[|s| - 1] == '\n' then s[..|s| - 1] else s;
    if |t| >= 3 && (t[0] == 'X' || t[0] == 'x') && t[1] == '\'' && t[|t| - 1] == '\'' && AllHex(t[2..|t| - 1])
    then Some(t[2..|t| - 1]) else None
  }

  /** decode_blob_literal; Err stands for its ValueError. */
  function DecodeBlobLiteral(value: PyValue): Result<Option<seq<byte>>, ()> {
    match value
    case PyNone => Ok(None)
    case PyBytes(bytes) => Ok(Some(bytes))
    case PyOther => Err(())
    case PyStr(s) =>
      var digits := LiteralDigits(s);
      if digits.Some? && |digits.value| % 2 == 0 then Ok(Some(FromHex(digits.value))) else Err(())
  }

  lemma LiteralIsRead(s: string, x: char, digits: string)
    requires (x == 'X' || x == 'x') && AllHex(digits)
    requires s == [x] + "'" + digits + "'" || s == [x] + "'" + digits + "'\n"
    ensures LiteralDigits(s) == Some(digits)
  {
    var t := [x] + "'" + digits + "'";
    if s != t {
      assert s == t + "\n";
      assert s[..|s| - 1] == t;
    }
    assert t[|t| - 1] == '\'';
    assert t[2..|t| - 1] == digits;
  }

  /** What the server answers for a blob is decoded by the client to the same bytes. */
  lemma BlobTrip(bs: seq<byte>)
    ensures Encode(Blob(bs)).JsonString?
    ensures DecodeBlobLiteral(PyStr(Encode(Blob(bs)).s)) == Ok(Some(bs))
  {
    HexRoundTrip(bs);
    hide Hex, FromHex, AllHex, LiteralDigits;
    assert HexLiteral(bs) == ['X'] + "'" + Hex(bs) + "'";
    LiteralIsRead(HexLiteral(bs), 'X', Hex(bs));
  }

  function Lower(c: char): char {
    if 'A' <= c <= 'F' then (c as int + 32) as char else c
  }

  function LowerAll(s: string): (t: string)
    ensures |t| == |s|
  {
    seq(|s|, i requires 0 <= i < |s| => Lower(s[i]))
  }

  lemma HexDigitOfValue(c: char)
    requires IsHexDigit(c)
    ensures HEXMAP[HexValue(c)] == Lower(c)
  {
  }

  lemma {:induction false} HexOfFromHex(s: string)
    requires AllHex(s) && |s| % 2 == 0
    ensures Hex(FromHex(s)) == LowerAll(s)
  {
    if s != "" {
      HexOfFromHex(s[2..]);
      var b: byte := 16 * HexValue(s[0]) + HexValue(s[1]);
      assert FromHex(s) == [b] + FromHex(s[2..]);
      assert b / 16 == HexValue(s[0]) && b % 16 == HexValue(s[1]);
      HexDigitOfValue(s[0]);
      HexDigitOfValue(s[1]);
      assert HexByte(b) == [Lower(s[0]), Lower(s[1])];
      hide Lower, HexByte;
      assert LowerAll(s) == HexByte(b) + LowerAll(s[2..]);
    }
  }

  /**
   * A string is accepted as the bytes bs exactly when, up to letter case and one final
   * newline, it is the server's literal for bs.
   */
  lemma DecodesExactlyLiterals(s: string, bs: seq<byte>)
    ensures DecodeBlobLiteral(PyStr(s)) == Ok(Some(bs))
       <==> exists digits, x :: (x == 'X' || x == 'x') && AllHex(digits) && LowerAll(digits) == Hex(bs)
              && (s == [x] + "'" + digits + "'" || s == [x] + "'" + digits + "'\n")
  {
    if DecodeBlobLiteral(PyStr(s)) == Ok(Some(bs)) {
      var digits := LiteralDigits(s).value;
      HexOfFromHex(digits);
      ReadIsLiteral(s, digits);
    }
    forall digits, x | (x == 'X' || x == 'x') && AllHex(digits) && LowerAll(digits) == Hex(bs)
                       && (s == [x] + "'" + digits + "'" || s == [x] + "'" + digits + "'\n")
      ensures DecodeBlobLiteral(PyStr(s)) == Ok(Some(bs))
    {
      hide LiteralDigits;
      LiteralIsRead(s, x, digits);
      assert |digits| == |LowerAll(digits)| == 2 * |bs|;
      HexOfFromHex(digits);
      HexRoundTrip(bs);
      HexRoundTrip(FromHex(digits));
    }
  }

  lemma ReadIsLiteral(s: string, digits: string)
    requires LiteralDigits(s) == Some(digits)
    ensures exists x :: (x == 'X' || x == 'x') && (s == [x] + "'" + digits + "'" || s == [x] + "'" + digits + "'\n")
  {
    var t := if s[|s| - 1] == '\n' then s[..|s| - 1] else s;
    assert t == [t[0]] + "'" + digits + "'";
    if s != t {
      assert s == t + "\n";
      assert t + "\n" == [t[0]] + "'" + digits + "'\n";
    }
  }

  // ----- Rows -----

  function Encode(v: SqlValue): Json {
    match v
    case Integer(i) => JsonInteger(i)
    case Float(f) => JsonFloat(f)
    case Text(s) => JsonString(CString(s))  // value_text is a C string
    case Blob(b) => JsonString(HexLiteral(b))
    case Null => JsonNull
  }

  /**
   * What a JSON value says of an SQL value: the same number, the text as far as its first NUL, a
   * literal the client reads as the same bytes, or null.
   */
  ghost predicate Represents(j: Json, v: SqlValue) {
    match v
    case Integer(i) => j == JsonInteger(i)
    case Float(f) => j == JsonFloat(f)
    case Text(s) =>
      && j.JsonString? && j.s <= s && '\0' !in j.s
      && (j.s == s || s[|j.s|] == '\0')
    case Blob(b) => j.JsonString? && DecodeBlobLiteral(PyStr(j.s)) == Ok(Some(b))
    case Null => j == JsonNull
  }

  lemma EncodeRepresents(v: SqlValue)
    ensures Represents(Encode(v), v)
  {
    match v
    case Text(s) => CStringIsPrefix(s);
    case Blob(b) => BlobTrip(b);
    case _ =>
  }

  type Row = map<string, Json>

  /** The last column with the given name. */
  function LastColumn(columns: seq<string>, name: string): (i: nat)
    requires name in columns
    ensures i < |columns| && columns[i] == name
    ensures forall k :: i < k < |columns| ==> columns[k] != name
  {
    if columns[|columns| - 1] == name then |columns| - 1
    else
      assert columns == columns[..|columns| - 1] + [columns[|columns| - 1]];
      LastColumn(columns[..|columns| - 1], name)
  }

  /** The row object: under each name the value of the last column of that name. */
  function RowObject(columns: seq<string>, values: seq<SqlValue>): Row
    requires |values| == |columns|
  {
    map name | name in columns :: Encode(values[LastColumn(columns, name)])
  }

  /** The inner loop of handle_query over the columns of one row. */
  method BuildRow(columns: seq<string>, values: seq<SqlValue>) returns (row: Row)
    requires |values| == |columns|
    ensures row == RowObject(columns, values)
    ensures forall i :: 0 <= i < |columns| && columns[i] !in columns[i + 1..] ==>
              columns[i] in row && Represents(row[columns[i]], values[i])
  {
    hide RowObject, Represents, Hex, CString;
    row := map[];
    var i := 0;
    EmptyRow();
    while i < |columns|
      invariant 0 <= i <= |columns|
      invariant row == RowObject(columns[..i], values[..i])
    {
      var name := columns[i];
      match values[i] {
        case Integer(n) => row := row[name := JsonInteger(n)];
        case Float(f) => row := row[name := JsonFloat(f)];
        case Text(s) => row := row[name := JsonString(CString(s))];
        case Blob(b) =>
          var hex := HexStr(SignedChars(b), b);
          row := row[name := JsonString("X'" + hex + "'")];
        case Null => row := row[name := JsonNull];
      }
      TakeOneMore(columns, i);
      TakeOneMore(values, i);
      RowObjectExtends(columns[..i], values[..i], name, values[i]);
      i := i + 1;
    }
    assert columns[..i] == columns && values[..i] == values;
    RowObjectRepresents(columns, values);
  }

  lemma EmptyRow()
    ensures RowObject([], []) == map[]
  {
  }

  lemma TakeOneMore<T>(s: seq<T>, i: nat)
    requires i < |s|
    ensures s[..i + 1] == s[..i] + [s[i]]
  {
  }

  lemma OccursLater(columns: seq<string>, i: nat, j: nat)
    requires i <= j < |columns| && columns[j] == columns[i]
    ensures j == i || columns[i] in columns[i + 1..]
  {
    if j > i {
      assert columns[i + 1..][j - i - 1] == columns[j];
    }
  }

  /** Under each name a row says what the last column of that name holds, and it has no other names. */
  lemma RowObjectRepresents(columns: seq<string>, values: seq<SqlValue>)
    requires |values| == |columns|
    ensures RowObject(columns, values).Keys == set c | c in columns
    ensures forall i :: 0 <= i < |columns| && columns[i] !in columns[i + 1..] ==>
              columns[i] in RowObject(columns, values) && Represents(RowObject(columns, values)[columns[i]], values[i])
  {
    hide Represents, Encode;
    forall i | 0 <= i < |columns| && columns[i] !in columns[i + 1..]
      ensures columns[i] in RowObject(columns, values) && Represents(RowObject(columns, values)[columns[i]], values[i])
    {
      var last := LastColumn(columns, columns[i]);
      OccursLater(columns, i, last);
      EncodeRepresents(values[i]);
    }
  }

  lemma RowObjectExtends(columns: seq<string>, values: seq<SqlValue>, name: string, v: SqlValue)
    requires |values| == |columns|
    ensures RowObject(columns + [name], values + [v]) == RowObject(columns, values)[name := Encode(v)]
  {
    var row, row' := RowObject(columns, values), RowObject(columns + [name], values + [v]);
    assert (columns + [name])[..|columns|] == columns;
    forall n | n in columns + [name] ensures row'[n] == row[name := Encode(v)][n] {
    }
  }

  // ----- The client's view of a result -----

  /** The payload of a successful query as QueryResult holds it. */
  datatype QueryResult = QueryResult(columns: seq<string>, rows: seq<Row>)

  /** The columns of one row, looked up in SELECT order. */
  function Lookup(columns: seq<string>, row: Row): seq<Json>
    requires forall c :: c in columns ==> c in row
  {
    seq(|columns|, i requires 0 <= i < |columns| => row[columns[i]])
  }

  function EncodeAll(values: seq<SqlValue>): seq<Json> {
    seq(|values|, i requires 0 <= i < |values| => Encode(values[i]))
  }

  predicate Distinct(columns: seq<string>) {
    forall i, j :: 0 <= i < j < |columns| ==> columns[i] != columns[j]
  }

  predicate Rectangular(columns: seq<string>, tuples: seq<seq<SqlValue>>) {
    forall k :: 0 <= k < |tuples| ==> |tuples[k]| == |columns|
  }

  /** The answer to a query that yields the given tuples. */
  function Answer(columns: seq<string>, tuples: seq<seq<SqlValue>>): QueryResult
    requires Rectangular(columns, tuples)
  {
    QueryResult(columns, seq(|tuples|, k requires 0 <= k < |tuples| => RowObject(columns, tuples[k])))
  }

  /** The result holds the columns, and a row for each tuple in order. */
  ghost predicate IsTableOf(result: QueryResult, columns: seq<string>, tuples: seq<seq<SqlValue>>)
    requires Rectangular(columns, tuples)
  {
    && result.columns == columns && |result.rows| == |tuples|
    && forall k, i :: 0 <= k < |tuples| && 0 <= i < |columns| && columns[i] !in columns[i + 1..] ==>
         columns[i] in result.rows[k] && Represents(result.rows[k][columns[i]], tuples[k][i])
  }

  lemma AnswerIsTable(columns: seq<string>, tuples: seq<seq<SqlValue>>)
    requires Rectangular(columns, tuples)
    ensures IsTableOf(Answer(columns, tuples), columns, tuples)
  {
    hide Represents, RowObject;
    forall k | 0 <= k < |tuples|
      ensures forall i :: 0 <= i < |columns| && columns[i] !in columns[i + 1..] ==>
                columns[i] in RowObject(columns, tuples[k])
                && Represents(RowObject(columns, tuples[k])[columns[i]], tuples[k][i])
    {
      RowObjectRepresents(columns, tuples[k]);
    }
  }

  /**
   * QueryResult.scalar for a payload with a columns list, as the server always sends it:
   * `columns[0]` of the first row unless there is no row or the row is empty.
   */
  function Scalar(result: QueryResult, default: Json): Json {
    if result.rows == [] || result.rows[0] == map[] || result.columns == [] then default
    else if result.columns[0] in result.rows[0] then result.rows[0][result.columns[0]]
    else default
  }

  /** Looking a row up by `columns` yields the tuple exactly when every value equals its last namesake's. */
  lemma LookupOfRow(columns: seq<string>, values: seq<SqlValue>)
    requires |values| == |columns|
    ensures forall c :: c in columns <==> c in RowObject(columns, values)
    ensures Lookup(columns, RowObject(columns, values)) == EncodeAll(values)
       <==> forall i, j :: 0 <= i < j < |columns| && columns[i] == columns[j] ==> Encode(values[i]) == Encode(values[j])
  {
    var row := RowObject(columns, values);
    var looked := Lookup(columns, row);
    if looked == EncodeAll(values) {
      forall i, j | 0 <= i < j < |columns| && columns[i] == columns[j]
        ensures Encode(values[i]) == Encode(values[j])
      {
        assert looked[i] == row[columns[i]] == looked[j];
      }
    }
    if forall i, j :: 0 <= i < j < |columns| && columns[i] == columns[j] ==> Encode(values[i]) == Encode(values[j]) {
      forall i | 0 <= i < |columns| ensures looked[i] == Encode(values[i]) {
        var last := LastColumn(columns, columns[i]);
      }
    }
  }

  /** With distinct column names the client gets back every tuple, in order, and scalar() the first value. */
  lemma RowsReconstructed(columns: seq<string>, tuples: seq<seq<SqlValue>>, default: Json)
    requires Distinct(columns) && Rectangular(columns, tuples)
    ensures var result := Answer(columns, tuples);
            && result.columns == columns && |result.rows| == |tuples|
            && (forall k :: 0 <= k < |tuples| ==>
                  && (forall c :: c in columns ==> c in result.rows[k])
                  && Lookup(columns, result.rows[k]) == EncodeAll(tuples[k])
                  && forall i :: 0 <= i < |columns| ==> Represents(Lookup(columns, result.rows[k])[i], tuples[k][i]))
            && Scalar(result, default) == (if tuples == [] || columns == [] then default else Encode(tuples[0][0]))
            && (tuples != [] && columns != [] ==> Represents(Scalar(result, default), tuples[0][0]))
  {
    hide Encode, Represents, RowObject;
    var result := Answer(columns, tuples);
    forall k | 0 <= k < |tuples|
      ensures forall c :: c in columns ==> c in result.rows[k]
      ensures Lookup(columns, result.rows[k]) == EncodeAll(tuples[k])
      ensures forall i :: 0 <= i < |columns| ==> Represents(Lookup(columns, result.rows[k])[i], tuples[k][i])
    {
      TupleComesBack(columns, tuples[k]);
    }
    if tuples != [] && columns != [] {
      assert Lookup(columns, result.rows[0])[0] == EncodeAll(tuples[0])[0];
      assert columns[0] in result.rows[0];
    }
  }

  lemma TupleComesBack(columns: seq<string>, values: seq<SqlValue>)
    requires Distinct(columns) && |values| == |columns|
    ensures forall c :: c in columns ==> c in RowObject(columns, values)
    ensures Lookup(columns, RowObject(columns, values)) == EncodeAll(values)
    ensures forall i :: 0 <= i < |columns| ==> Represents(Lookup(columns, RowObject(columns, values))[i], values[i])
  {
    hide Represents;
    LookupOfRow(columns, values);
    hide Encode, RowObject;
    forall i | 0 <= i < |columns|
      ensures Represents(Lookup(columns, RowObject(columns, values))[i], values[i])
    {
      EncodeRepresents(values[i]);
      assert EncodeAll(values)[i] == Encode(values[i]);
    }
  }
}
