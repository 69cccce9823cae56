/**
 * The SQL writer of `generate_sql_file`: quote doubling (`escape_sql_string`),
 * the per-record INSERT statement with its `year`/`NULL` rule, and a reader
 * for the statements it writes, so that what is written can be shown to hold
 * exactly the records that went in.
 */
module SqlExport {
  import opened Wrappers
  import opened Text
  import opened Lists
  import opened Annotation
  import opened Catalog

  /** The number of single quotes in `s`. */
  function Quotes(s: string): nat
  {
    if s == [] then 0 else (if s[0] == '\'' then 1 else 0) + Quotes(s[1..])
  }

  /** `str.replace("'", "''")`. */
  function DoubleQuotes(s: string): (r: string)
    ensures |r| == |s| + Quotes(s)
  {
    if s == [] then [] else (if s[0] == '\'' then "''" else [s[0]]) + DoubleQuotes(s[1..])
  }

  /** `escape_sql_string`: "" for `None`, otherwise every single quote doubled. */
  function EscapeSqlString(value: Option<string>): (r: string)
    ensures value.None? ==> r == []
    ensures value.Some? ==> |r| == |value.value| + Quotes(value.value)
  {
    match value
    case None => []
    case Some(s) => DoubleQuotes(s)
  }

  /** A text without quotes is written unchanged. */
  lemma {:induction false} DoubleQuotesNoQuote(s: string)
    requires Quotes(s) == 0
    ensures DoubleQuotes(s) == s
  {
    if s != [] {
      DoubleQuotesNoQuote(s[1..]);
    }
  }

  /** The text of a quoted literal as an SQL reader takes it: `''` stands for
      one quote and a lone quote ends the literal. `s` starts after the opening
      quote; the result is the text and what follows the closing quote. */
  function ReadQuoted(s: string): (r: Option<(string, string)>)
    ensures r.Some? ==> |r.value.1| < |s|
    decreases |s|
  {
    if s == [] then None
    else if s[0] == '\'' then
      if |s| >= 2 && s[1] == '\'' then
        match ReadQuoted(s[2..])
        case None => None
        case Some(p) => Some(("'" + p.0, p.1))
      else Some(([], s[1..]))
    else
      match ReadQuoted(s[1..])
      case None => None
      case Some(p) => Some(([s[0]] + p.0, p.1))
  }

  /** Reading past a doubled quote. */
  lemma ReadQuotedDoubled(t: string)
    ensures ReadQuoted("''" + t)
            == match ReadQuoted(t) case None => None case Some(p) => Some(("'" + p.0, p.1))
  {
    assert ("''" + t)[2..] == t;
  }

  /** Reading past a character that is not a quote. */
  lemma ReadQuotedOther(c: char, t: string)
    requires c != '\''
    ensures ReadQuoted([c] + t)
            == match ReadQuoted(t) case None => None case Some(p) => Some(([c] + p.0, p.1))
  {
    assert ([c] + t)[1..] == t;
  }

  /** One character of `v` read back, given the rest of `v` reads back. */
  lemma ReadEscapedStep(v: string, rest: string)
    requires v != []
    requires ReadQuoted(DoubleQuotes(v[1..]) + "'" + rest) == Some((v[1..], rest))
    ensures ReadQuoted(DoubleQuotes(v) + "'" + rest) == Some((v, rest))
  {
    var tail := DoubleQuotes(v[1..]) + "'" + rest;
    var head := if v[0] == '\'' then "''" else [v[0]];
    assert DoubleQuotes(v) + "'" + rest == head + tail by {
      assert DoubleQuotes(v) == head + DoubleQuotes(v[1..]);
    }
    if v[0] == '\'' {
      ReadQuotedDoubled(tail);
    } else {
      ReadQuotedOther(v[0], tail);
    }
    assert [v[0]] + v[1..] == v;
  }

  /** Undoubling recovers the text: reading back an escaped literal gives the
      original, provided what follows it does not start with a quote. */
  lemma {:induction false} ReadEscaped(v: string, rest: string)
    requires rest == [] || rest[0] != '\''
    ensures ReadQuoted(DoubleQuotes(v) + "'" + rest) == Some((v, rest))
  {
    if v == [] {
      assert DoubleQuotes(v) + "'" + rest == "'" + rest;
    } else {
      ReadEscaped(v[1..], rest);
      ReadEscapedStep(v, rest);
    }
  }

  /** A string value between single quotes, as the insert statement writes it. */
  function Literal(v: string): (r: string)
    ensures |r| == |v| + Quotes(v) + 2 && r[0] == '\'' && r[|r| - 1] == '\''
  {
    "'" + EscapeSqlString(Some(v)) + "'"
  }

  function ParseLiteral(s: string): (r: Option<(string, string)>)
    ensures r.Some? ==> |r.value.1| < |s|
  {
    if s != [] && s[0] == '\'' then ReadQuoted(s[1..]) else None
  }

  lemma LiteralRoundTrip(v: string, rest: string)
    requires rest == [] || rest[0] != '\''
    ensures ParseLiteral(Literal(v) + rest) == Some((v, rest))
  {
    var body := DoubleQuotes(v) + "'" + rest;
    assert Literal(v) + rest == "'" + body;
    assert ("'" + body)[1..] == body;
    ReadEscaped(v, rest);
  }

  /** A `character` of `Tom's` is written `'Tom''s'`. */
  lemma TomsLiteral(v: string)
    requires v == "Tom's"
    ensures Literal(v) == "'Tom''s'"
  {
    assert DoubleQuotes("s") == "s";
    assert DoubleQuotes("'s") == "''s";
    assert DoubleQuotes("m's") == "m''s";
    assert DoubleQuotes("om's") == "om''s";
    assert DoubleQuotes("Tom's") == "Tom''s";
  }

  /** The `year` value: the year itself, unquoted, when there is one, and the
      bare token `NULL` otherwise. */
  function YearValue(year: Option<string>): (r: string)
    ensures year.None? ==> r == "NULL"
    ensures year.Some? && year.value != [] ==> r == year.value
  {
    match year
    case Some(y) => if y != [] then y else "NULL"
    case None => "NULL"
  }

  /** The `type` value: the tier's code as a decimal digit. */
  function TypeValue(t: ItemType): (r: string)
    ensures |r| == 1 && r[0] as int - '0' as int == t.Code()
  {
    [('0' as int + t.Code()) as char]
  }

  const InsertHead: string :=
    "INSERT INTO popmart_items (`character`, series, main_name, image_url, thumbnail_url, `year`, `type`, created_at) VALUES \n("
  const Comma: string := ", "
  const InsertTail: string := ");\n"

  /** A string value followed by the separator and then `rest`. */
  function Field(v: string, rest: string): (r: string)
    ensures EndsWith(r, rest)
  {
    Literal(v) + (Comma + rest)
  }

  /** The INSERT statement written for `m`, followed by `rest`. The capture
      time is put between quotes without escaping. */
  function InsertRowThen(m: Metadata, rest: string): (r: string)
    ensures StartsWith(r, InsertHead) && EndsWith(r, InsertTail + rest)
  {
    var codes := CodesThen(m, rest);
    var f5 := Field(m.thumbnailUrl, codes);
    var f4 := Field(m.imageUrl, f5);
    var f3 := Field(m.mainName, f4);
    var f2 := Field(m.series, f3);
    var f1 := Field(m.character, f2);
    EndsWithTrans(f5, codes, InsertTail + rest);
    EndsWithTrans(f4, f5, InsertTail + rest);
    EndsWithTrans(f3, f4, InsertTail + rest);
    EndsWithTrans(f2, f3, InsertTail + rest);
    EndsWithTrans(f1, f2, InsertTail + rest);
    assert EndsWith(InsertHead + f1, f1);
    EndsWithTrans(InsertHead + f1, f1, InsertTail + rest);
    InsertHead + f1
  }

  /** The year, the type code and the quoted capture time that end the
      statement, followed by `rest`. */
  function CodesThen(m: Metadata, rest: string): (r: string)
    ensures EndsWith(r, InsertTail + rest)
  {
    YearValue(m.year) + (Comma + (TypeValue(m.itemType) + (Comma + ("'" + (m.createdAt + ("'" + (InsertTail + rest)))))))
  }

  /** The INSERT statement written for one record. */
  function InsertRow(m: Metadata): (r: string)
    ensures StartsWith(r, InsertHead) && EndsWith(r, InsertTail)
  {
    assert InsertTail + [] == InsertTail;
    InsertRowThen(m, [])
  }

  lemma FieldThen(v: string, x: string, rest: string)
    ensures Field(v, x + rest) == Field(v, x) + rest
  {
  }

  lemma CodesThenAppend(m: Metadata, rest: string)
    ensures CodesThen(m, rest) == CodesThen(m, []) + rest
  {
    var a := InsertTail;
    assert a + rest == (a + []) + rest;
    var b := "'" + a;
    assert "'" + (a + rest) == b + rest;
    var c := m.createdAt + b;
    assert m.createdAt + (b + rest) == c + rest;
    var d := "'" + c;
    assert "'" + (c + rest) == d + rest;
    var e := Comma + d;
    assert Comma + (d + rest) == e + rest;
    var f := TypeValue(m.itemType) + e;
    assert TypeValue(m.itemType) + (e + rest) == f + rest;
    var g := Comma + f;
    assert Comma + (f + rest) == g + rest;
    assert YearValue(m.year) + (g + rest) == (YearValue(m.year) + g) + rest;
  }

  /** `InsertRowThen` is the statement followed by `rest`. */
  lemma InsertRowAppend(m: Metadata, rest: string)
    ensures InsertRowThen(m, rest) == InsertRow(m) + rest
  {
    var inner := CodesThen(m, []);
    CodesThenAppend(m, rest);
    FieldThen(m.thumbnailUrl, inner, rest);
    var f5 := Field(m.thumbnailUrl, inner);
    FieldThen(m.imageUrl, f5, rest);
    var f4 := Field(m.imageUrl, f5);
    FieldThen(m.mainName, f4, rest);
    var f3 := Field(m.mainName, f4);
    FieldThen(m.series, f3, rest);
    var f2 := Field(m.series, f3);
    FieldThen(m.character, f2, rest);
    var f1 := Field(m.character, f2);
    assert InsertHead + (f1 + rest) == (InsertHead + f1) + rest;
  }

  // A reader for the statements, used to state what they hold.

  function Expect(lit: string, s: string): (r: Option<string>)
    ensures r.Some? ==> |r.value| == |s| - |lit|
  {
    if StartsWith(s, lit) then Some(s[|lit|..]) else None
  }

  lemma ExpectRoundTrip(lit: string, rest: string)
    ensures Expect(lit, lit + rest) == Some(rest)
  {
    assert (lit + rest)[..|lit|] == lit;
    assert (lit + rest)[|lit|..] == rest;
  }

  function DigitRun(s: string): (n: nat)
    ensures n <= |s|
    ensures forall i :: 0 <= i < n ==> IsDigit(s[i])
    ensures n < |s| ==> !IsDigit(s[n])
  {
    if s != [] && IsDigit(s[0]) then 1 + DigitRun(s[1..]) else 0
  }

  function ParseYear(s: string): (r: Option<(Option<string>, string)>)
    ensures r.Some? ==> |r.value.1| < |s|
  {
    if StartsWith(s, "NULL") then Some((None, s[4..]))
    else
      var n := DigitRun(s);
      if n == 0 then None else Some((Some(s[..n]), s[n..]))
  }

  function ParseType(s: string): (r: Option<(ItemType, string)>)
    ensures r.Some? ==> |r.value.1| < |s|
  {
    if s == [] then None
    else if s[0] == '0' then Some((Normal, s[1..]))
    else if s[0] == '2' then Some((Secret, s[1..]))
    else if s[0] == '3' then Some((SuperSecret, s[1..]))
    else None
  }

  /** Reads a string value and the separator after it. */
  function ParseField(s: string): (r: Option<(string, string)>)
    ensures r.Some? ==> |r.value.1| < |s|
  {
    var p :- ParseLiteral(s);
    var rest :- Expect(Comma, p.1);
    Some((p.0, rest))
  }

  lemma FieldRoundTrip(v: string, rest: string)
    ensures ParseField(Field(v, rest)) == Some((v, rest))
  {
    LiteralRoundTrip(v, Comma + rest);
    ExpectRoundTrip(Comma, rest);
  }

  /** Reads the year, type and capture time that end a statement. */
  function ParseCodes(s: string): (r: Option<(Option<string>, ItemType, string, string)>)
    ensures r.Some? ==> |r.value.3| < |s|
  {
    var year :- ParseYear(s);
    var s1 :- Expect(Comma, year.1);
    var itemType :- ParseType(s1);
    var s2 :- Expect(Comma, itemType.1);
    var createdAt :- ParseLiteral(s2);
    var rest :- Expect(InsertTail, createdAt.1);
    Some((year.0, itemType.0, createdAt.0, rest))
  }

  lemma CodesRoundTrip(m: Metadata, rest: string)
    requires Writable(m)
    ensures ParseCodes(CodesThen(m, rest)) == Some((m.year, m.itemType, m.createdAt, rest))
  {
    DoubleQuotesNoQuote(m.createdAt);
    var t2 := "'" + (m.createdAt + ("'" + (InsertTail + rest)));
    assert t2 == Literal(m.createdAt) + (InsertTail + rest);
    var t1 := TypeValue(m.itemType) + (Comma + t2);
    YearRoundTrip(m.year, Comma + t1);
    ExpectRoundTrip(Comma, t1);
    TypeRoundTrip(m.itemType, Comma + t2);
    ExpectRoundTrip(Comma, t2);
    LiteralRoundTrip(m.createdAt, InsertTail + rest);
    ExpectRoundTrip(InsertTail, rest);
  }

  /** Reads one INSERT statement from the front of `s`. */
  function ParseRow(s: string): (r: Option<(Metadata, string)>)
    ensures r.Some? ==> |r.value.1| < |s|
  {
    var s0 :- Expect(InsertHead, s);
    var character :- ParseField(s0);
    var series :- ParseField(character.1);
    var mainName :- ParseField(series.1);
    var imageUrl :- ParseField(mainName.1);
    var thumbnailUrl :- ParseField(imageUrl.1);
    var codes :- ParseCodes(thumbnailUrl.1);
    Some((Metadata(character.0, series.0, mainName.0, imageUrl.0, thumbnailUrl.0, codes.0, codes.1, codes.2), codes.3))
  }

  /** What a record must be like for its statement to read back as itself: the
      year, when present, is a digit string, and the capture time has no quote.
      Every extracted record is like this (`ExtractedRecordsWritable`). */
  predicate Writable(m: Metadata) {
    (m.year.None? || IsDigitString(m.year.value)) && Quotes(m.createdAt) == 0
  }

  lemma YearRoundTrip(year: Option<string>, rest: string)
    requires year.None? || IsDigitString(year.value)
    requires rest == [] || !IsDigit(rest[0])
    ensures ParseYear(YearValue(year) + rest) == Some((year, rest))
  {
    var s := YearValue(year) + rest;
    if year.Some? {
      var y := year.value;
      assert s[..|y|] == y && s[|y|..] == rest;
      assert !StartsWith(s, "NULL") by {
        assert IsDigit(s[0]);
      }
      assert DigitRun(s) == |y|;
    } else {
      assert s[..4] == "NULL" && s[4..] == rest;
    }
  }

  lemma TypeRoundTrip(t: ItemType, rest: string)
    ensures ParseType(TypeValue(t) + rest) == Some((t, rest))
  {
    assert (TypeValue(t) + rest)[1..] == rest;
  }

  /** Every statement reads back as the record it was written from, whatever
      follows it. */
  lemma RowRoundTrip(m: Metadata, rest: string)
    requires Writable(m)
    ensures ParseRow(InsertRowThen(m, rest)) == Some((m, rest))
  {
    var inner := CodesThen(m, rest);
    CodesRoundTrip(m, rest);
    var f5 := Field(m.thumbnailUrl, inner);
    var f4 := Field(m.imageUrl, f5);
    var f3 := Field(m.mainName, f4);
    var f2 := Field(m.series, f3);
    var f1 := Field(m.character, f2);
    ExpectRoundTrip(InsertHead, f1);
    FieldRoundTrip(m.character, f2);
    FieldRoundTrip(m.series, f3);
    FieldRoundTrip(m.mainName, f4);
    FieldRoundTrip(m.imageUrl, f5);
    FieldRoundTrip(m.thumbnailUrl, inner);
  }

  /** The statements for `ms`, one after the other, in record order. */
  function Rows(ms: seq<Metadata>): string
  {
    Flatten(InsertRow, ms)
  }

  const InsertComment: string := "-- Insert data\n"

  /** The part of the SQL file after the schema: a comment line, then one
      statement per record. */
  function InsertSection(ms: seq<Metadata>): string
  {
    InsertComment + Rows(ms)
  }

  function ParseRows(s: string): Option<seq<Metadata>>
  {
    ParseAll(ParseRow, s)
  }

  function ParseInsertSection(s: string): Option<seq<Metadata>>
  {
    var rows :- Expect(InsertComment, s);
    ParseRows(rows)
  }

  lemma RowsRoundTrip(ms: seq<Metadata>)
    requires forall k :: 0 <= k < |ms| ==> Writable(ms[k])
    ensures ParseRows(Rows(ms)) == Some(ms)
  {
    forall m | Writable(m) ensures InsertRow(m) != [] {
      RowRoundTrip(m, []);
    }
    forall m, rest | Writable(m) ensures ParseRow(InsertRow(m) + rest) == Some((m, rest)) {
      RowRoundTrip(m, rest);
      InsertRowAppend(m, rest);
    }
    ParseAllFlatten(ParseRow, InsertRow, Writable, ms);
  }

  /** The insert section holds exactly the records it was written from, in
      their order. */
  lemma SectionRoundTrip(ms: seq<Metadata>)
    requires forall k :: 0 <= k < |ms| ==> Writable(ms[k])
    ensures ParseInsertSection(InsertSection(ms)) == Some(ms)
  {
    ExpectRoundTrip(InsertComment, Rows(ms));
    RowsRoundTrip(ms);
  }

  /** Every record the extractor produces can be written and read back, when
      the capture time has no quote (a formatted timestamp has none). */
  lemma ExtractedRecordsWritable(containers: seq<Container>, now: string)
    requires Quotes(now) == 0
    ensures var ms := FilterMap(MetadataOf(now), containers);
            forall k :: 0 <= k < |ms| ==> Writable(ms[k])
  {
    var ms := FilterMap(MetadataOf(now), containers);
    FilterMapOrigin(MetadataOf(now), containers);
    forall k | 0 <= k < |ms| ensures Writable(ms[k]) {
      var c := containers[Kept(MetadataOf(now), containers)[k]];
      assert ContainerMetadata(c, now) == Some(ms[k]);
    }
  }

  /** The `for item in metadata_list` loop of `generate_sql_file`, collecting
      what it writes after the schema. */
  method WriteInsertStatements(metadataList: seq<Metadata>) returns (out: string)
    ensures out == InsertSection(metadataList)
  {
    var rows: string := [];
    for i := 0 to |metadataList|
      invariant rows == Rows(metadataList[..i])
    {
      FlattenStep(InsertRow, metadataList, i);
      rows := rows + InsertRow(metadataList[i]);
    }
    assert metadataList[..|metadataList|] == metadataList;
    out := InsertComment + rows;
  }

  /** `generate_sql_file` after the page is fetched: nothing is written when
      the page could not be fetched (`page` is `None`) or holds no records;
      otherwise the insert section for the extracted records. */
  method GenerateSqlFile(page: Option<seq<Container>>, now: string) returns (written: Option<string>)
    ensures page.None? ==> written.None?
    ensures page.Some? ==>
              var ms := FilterMap(MetadataOf(now), page.value);
              written == if ms == [] then None else Some(InsertSection(ms))
    ensures written.Some? && Quotes(now) == 0 ==>
              ParseInsertSection(written.value) == Some(FilterMap(MetadataOf(now), page.value))
  {
    if page.None? {
      return None;
    }
    var metadataList := ParseMetadataOnly(page.value, now);
    if metadataList == [] {
      return None;
    }
    var out := WriteInsertStatements(metadataList);
    if Quotes(now) == 0 {
      ExtractedRecordsWritable(page.value, now);
      SectionRoundTrip(metadataList);
    }
    written := Some(out);
  }
}
