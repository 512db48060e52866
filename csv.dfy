/**
 * The CSV text `handleDownloadCsv` builds (src/App.tsx): a header line of
 * `id`, `imageName` and the sorted field names, then one line per record
 * with the id unquoted and every other cell quoted, embedded quotes doubled
 * (section 2, rule 7 of RFC 4180). Lines end in a bare line feed, not the
 * CRLF of rule 1, and header names are written without quotes.
 *
 * A reader for this text is the partner of the writer: reading back a
 * document gives the header names and, per record, its id, image name and
 * field values.
 */
module Csv {
  import opened Wrappers
  import opened Strings
  import opened Records
  import opened StringOrder
  import opened Seqs

  // ---------------------------------------------------------------------------
  // Cells

  /** `value.replace(/"/g, '""')`: every double quote doubled; a value without quotes is left as it is. */
  function EscapeQuotes(v: string): (r: string)
    ensures |r| >= |v|
    ensures '"' !in v ==> r == v
    decreases |v|
  {
    if |v| == 0 then "" else (if v[0] == '"' then "\"\"" else [v[0]]) + EscapeQuotes(v[1..])
  }

  /** `"${value.replace(/"/g, '""')}"`: the escaped value between two quotes. */
  function QuoteCell(v: string): (r: string)
    ensures |r| >= |v| + 2 && r[0] == '"' && r[|r| - 1] == '"'
    ensures '"' !in v ==> r == "\"" + v + "\""
  {
    "\"" + EscapeQuotes(v) + "\""
  }

  /**
   * Reads the inside of a quoted cell up to its closing quote, taking a
   * doubled quote as one quote: the value and the text after the closing
   * quote, or none when the closing quote is missing.
   */
  function ReadQuotedBody(s: string): (r: Option<(string, string)>)
    ensures r.Some? ==> |r.value.1| < |s|
    decreases |s|
  {
    if |s| == 0 then None
    else if s[0] == '"' then
      if |s| >= 2 && s[1] == '"' then
        match ReadQuotedBody(s[2..])
        case None => None
        case Some((v, rest)) => Some(("\"" + v, rest))
      else Some(("", s[1..]))
    else
      match ReadQuotedBody(s[1..])
      case None => None
      case Some((v, rest)) => Some(([s[0]] + v, rest))
  }

  /** Reads one quoted cell from the start of `s`. */
  function ReadQuoted(s: string): (r: Option<(string, string)>)
    ensures r.Some? ==> |r.value.1| < |s|
  {
    if |s| > 0 && s[0] == '"' then ReadQuotedBody(s[1..]) else None
  }

  /** A doubled quote inside a quoted cell reads as one quote. */
  lemma ReadDoubledQuote(t: string)
    ensures ReadQuotedBody("\"\"" + t)
         == match ReadQuotedBody(t)
            case None => None
            case Some((v, rest)) => Some(("\"" + v, rest))
  {
    assert ("\"\"" + t)[2..] == t;
  }

  /** Any other character inside a quoted cell reads as itself. */
  lemma ReadPlainChar(c: char, t: string)
    requires c != '"'
    ensures ReadQuotedBody([c] + t)
         == match ReadQuotedBody(t)
            case None => None
            case Some((v, rest)) => Some(([c] + v, rest))
  {
    assert ([c] + t)[1..] == t;
  }

  lemma {:induction false} QuotedBodyRoundTrip(v: string, rest: string)
    requires rest == "" || rest[0] != '"'
    ensures ReadQuotedBody(EscapeQuotes(v) + "\"" + rest) == Some((v, rest))
    decreases |v|
  {
    if |v| == 0 {
      assert EscapeQuotes(v) + "\"" + rest == "\"" + rest;
      assert ("\"" + rest)[1..] == rest;
    } else {
      var head := if v[0] == '"' then "\"\"" else [v[0]];
      var escaped := EscapeQuotes(v[1..]);
      var tail := escaped + "\"" + rest;
      QuotedBodyRoundTrip(v[1..], rest);
      AppendAssociative(head, escaped, "\"");
      AppendAssociative(head, escaped + "\"", rest);
      assert EscapeQuotes(v) + "\"" + rest == head + tail;
      if v[0] == '"' {
        ReadDoubledQuote(tail);
      } else {
        ReadPlainChar(v[0], tail);
      }
      assert v == [v[0]] + v[1..];
    }
  }

  /**
   * Reading a quoted cell gives back exactly the value that was quoted, and
   * stops right after the closing quote, whatever follows it (a comma, a
   * line feed, the end of the text).
   */
  lemma QuotedRoundTrip(v: string, rest: string)
    requires rest == "" || rest[0] != '"'
    ensures ReadQuoted(QuoteCell(v) + rest) == Some((v, rest))
  {
    QuotedBodyRoundTrip(v, rest);
    assert (QuoteCell(v) + rest)[1..] == EscapeQuotes(v) + "\"" + rest;
  }

  // ---------------------------------------------------------------------------
  // Lines and the document

  /** `entry.data[key] ?? ''`: the stored string, or empty for a null or missing field. */
  function CellValue(data: Fields, key: string): string
  {
    if key in data && data[key].Some? then data[key].value else ""
  }

  function QuoteAll(vs: seq<string>): (r: seq<string>)
    ensures |r| == |vs| && forall i :: 0 <= i < |vs| ==> r[i] == QuoteCell(vs[i])
  {
    seq(|vs|, i requires 0 <= i < |vs| => QuoteCell(vs[i]))
  }

  /** The image name and the field values of a record, column by column. */
  function RowValues(rec: Record, keys: seq<string>): (r: seq<string>)
    ensures |r| == 1 + |keys| && r[0] == rec.imageName
    ensures forall j :: 0 <= j < |keys| ==> r[j + 1] == CellValue(rec.data, keys[j])
  {
    [rec.imageName] + seq(|keys|, j requires 0 <= j < |keys| => CellValue(rec.data, keys[j]))
  }

  /** `headers.join(',') + '\n'`. */
  function HeaderLine(keys: seq<string>): string
  {
    Join(["id", "imageName"] + keys, ',') + "\n"
  }

  /** `row.join(',') + '\n'`: the id, then the quoted image name and values. */
  function RowLine(rec: Record, keys: seq<string>): string
  {
    Join([IntToString(rec.id)] + QuoteAll(RowValues(rec, keys)), ',') + "\n"
  }

  function Rows(records: seq<Record>, keys: seq<string>): string
    decreases |records|
  {
    if |records| == 0 then "" else RowLine(records[0], keys) + Rows(records[1..], keys)
  }

  /** The whole text: the header line, then one line per record in list order. */
  function Document(records: seq<Record>, keys: seq<string>): string
  {
    HeaderLine(keys) + Rows(records, keys)
  }

  /**
   * What the export produces: nothing for an empty record list (the "No data
   * to download." alert), otherwise the document over the sorted union of all
   * field names.
   */
  function Export(records: seq<Record>): (r: Option<string>)
    ensures r.None? <==> |records| == 0
  {
    if |records| == 0 then None else Some(Document(records, SortedSeq(KeyUnion(records))))
  }

  /** The text of a list of records is the text of its first part followed by that of the rest. */
  lemma {:induction false} RowsAppend(a: seq<Record>, b: seq<Record>, keys: seq<string>)
    ensures Rows(a + b, keys) == Rows(a, keys) + Rows(b, keys)
    decreases |a|
  {
    var ab := a + b;
    if |a| == 0 {
      assert ab == b;
    } else {
      var line := RowLine(a[0], keys);
      assert Rows(ab, keys) == line + Rows(a[1..] + b, keys) by {
        assert ab[0] == a[0];
        assert ab[1..] == a[1..] + b;
      }
      RowsAppend(a[1..], b, keys);
      AppendAssociative(line, Rows(a[1..], keys), Rows(b, keys));
    }
  }

  // ---------------------------------------------------------------------------
  // Reading the text back

  /** One data line as read back: the id and the unquoted cells after it. */
  datatype ParsedRow = ParsedRow(id: int, cells: seq<string>)

  /** Reads `"a","b",...,"z"` up to and including the line feed that ends the line. */
  function ReadQuotedCells(s: string): (r: Option<(seq<string>, string)>)
    ensures r.Some? ==> |r.value.1| < |s|
    decreases |s|
  {
    match ReadQuoted(s)
    case None => None
    case Some((v, rest)) =>
      if |rest| > 0 && rest[0] == '\n' then Some(([v], rest[1..]))
      else if |rest| > 0 && rest[0] == ',' then
        match ReadQuotedCells(rest[1..])
        case None => None
        case Some((vs, after)) => Some(([v] + vs, after))
      else None
  }

  /** Reads one data line: the id up to the first comma, then the quoted cells. */
  function ReadRow(s: string): (r: Option<(ParsedRow, string)>)
    ensures r.Some? ==> |r.value.1| < |s|
  {
    match IndexOf(s, ',')
    case None => None
    case Some(i) =>
      match ReadQuotedCells(s[i + 1..])
      case None => None
      case Some((cells, rest)) => Some((ParsedRow(ParseInt(s[..i]), cells), rest))
  }

  function ReadRows(s: string): Option<seq<ParsedRow>>
    decreases |s|
  {
    if |s| == 0 then Some([])
    else match ReadRow(s)
      case None => None
      case Some((row, rest)) =>
        match ReadRows(rest)
        case None => None
        case Some(rows) => Some([row] + rows)
  }

  /** Reads a document: the header names up to the first line feed, then the data lines. */
  function ReadDocument(s: string): Option<(seq<string>, seq<ParsedRow>)>
  {
    match IndexOf(s, '\n')
    case None => None
    case Some(i) =>
      match ReadRows(s[i + 1..])
      case None => None
      case Some(rows) => Some((Split(s[..i], ','), rows))
  }

  /** What reading back the line of each record should give. */
  function Expected(records: seq<Record>, keys: seq<string>): (r: seq<ParsedRow>)
    ensures |r| == |records|
  {
    seq(|records|, i requires 0 <= i < |records| => ParsedRow(records[i].id, RowValues(records[i], keys)))
  }

  /** A cell followed by a line feed is the last cell of its line. */
  lemma ReadLastCell(s: string, v: string, rest: string)
    requires ReadQuoted(s) == Some((v, "\n" + rest))
    ensures ReadQuotedCells(s) == Some(([v], rest))
  {
    assert ("\n" + rest)[1..] == rest;
  }

  /** A cell followed by a comma is followed by the further cells of its line. */
  lemma ReadNextCells(s: string, v: string, more: string, vs: seq<string>, rest: string)
    requires ReadQuoted(s) == Some((v, "," + more))
    requires ReadQuotedCells(more) == Some((vs, rest))
    ensures ReadQuotedCells(s) == Some(([v] + vs, rest))
  {
    assert ("," + more)[1..] == more;
  }

  lemma {:induction false} QuotedCellsRoundTrip(vs: seq<string>, rest: string)
    requires |vs| >= 1
    ensures ReadQuotedCells(Join(QuoteAll(vs), ',') + "\n" + rest) == Some((vs, rest))
    decreases |vs|
  {
    var q := QuoteAll(vs);
    var text := Join(q, ',') + "\n" + rest;
    if |vs| == 1 {
      assert text == QuoteCell(vs[0]) + ("\n" + rest);
      QuotedRoundTrip(vs[0], "\n" + rest);
      ReadLastCell(text, vs[0], rest);
      assert vs == [vs[0]];
    } else {
      var more := Join(QuoteAll(vs[1..]), ',') + "\n" + rest;
      assert text == QuoteCell(vs[0]) + ("," + more) by {
        assert q[1..] == QuoteAll(vs[1..]);
        assert Join(q, ',') == q[0] + [','] + Join(q[1..], ',');
      }
      QuotedRoundTrip(vs[0], "," + more);
      QuotedCellsRoundTrip(vs[1..], rest);
      ReadNextCells(text, vs[0], more, vs[1..], rest);
      assert vs == [vs[0]] + vs[1..];
    }
  }

  /** Reading back one record's line gives its id, image name and field values. */
  lemma RowRoundTrip(rec: Record, keys: seq<string>, rest: string)
    ensures ReadRow(RowLine(rec, keys) + rest)
         == Some((ParsedRow(rec.id, RowValues(rec, keys)), rest))
  {
    var id := IntToString(rec.id);
    var q := QuoteAll(RowValues(rec, keys));
    var body := Join(q, ',') + "\n" + rest;
    var s := RowLine(rec, keys) + rest;
    assert ([id] + q)[1..] == q;
    assert s == id + [','] + body;
    assert ',' !in id;
    assert s[..|id|] == id;
    IndexOfAt(s, ',', |id|);
    assert s[|id| + 1..] == body;
    QuotedCellsRoundTrip(RowValues(rec, keys), rest);
    IntToStringRoundTrip(rec.id);
  }

  lemma ExpectedFirst(records: seq<Record>, keys: seq<string>)
    requires |records| > 0
    ensures Expected(records, keys)
         == [ParsedRow(records[0].id, RowValues(records[0], keys))] + Expected(records[1..], keys)
  {
  }

  /** A line that reads as `row`, followed by lines that read as `rows`, reads as `row` then `rows`. */
  lemma ReadRowsStep(s: string, row: ParsedRow, rest: string, rows: seq<ParsedRow>)
    requires ReadRow(s) == Some((row, rest)) && ReadRows(rest) == Some(rows)
    ensures ReadRows(s) == Some([row] + rows)
  {
  }

  lemma {:induction false} RowsRoundTrip(records: seq<Record>, keys: seq<string>)
    ensures ReadRows(Rows(records, keys)) == Some(Expected(records, keys))
    decreases |records|
  {
    if |records| > 0 {
      var text, tail := Rows(records, keys), Rows(records[1..], keys);
      var row := ParsedRow(records[0].id, RowValues(records[0], keys));
      assert ReadRow(text) == Some((row, tail)) by {
        RowRoundTrip(records[0], keys, tail);
      }
      assert ReadRows(tail) == Some(Expected(records[1..], keys)) by {
        RowsRoundTrip(records[1..], keys);
      }
      ReadRowsStep(text, row, tail, Expected(records[1..], keys));
      ExpectedFirst(records, keys);
    }
  }

  lemma {:induction false} JoinAvoids(parts: seq<string>, sep: char, c: char)
    requires c != sep && forall p :: p in parts ==> c !in p
    ensures c !in Join(parts, sep)
    decreases |parts|
  {
    if |parts| > 1 {
      JoinAvoids(parts[1..], sep, c);
    }
  }

  /**
   * The document reads back as written: the header gives `id`, `imageName`
   * and the keys, and there is one data line per record, in list order,
   * carrying its id, its image name and one value per key (a null or
   * missing field read back as the empty string). This holds when no key
   * contains a comma or a line feed; header names are not quoted, so a key
   * with a comma would split into two header names.
   */
  lemma DocumentRoundTrip(records: seq<Record>, keys: seq<string>)
    requires forall k :: k in keys ==> ',' !in k && '\n' !in k
    ensures ReadDocument(Document(records, keys)) == Some((["id", "imageName"] + keys, Expected(records, keys)))
  {
    var names := ["id", "imageName"] + keys;
    assert ',' !in "id" && ',' !in "imageName" && '\n' !in "id" && '\n' !in "imageName";
    assert forall p :: p in names ==> ',' !in p && '\n' !in p;
    var h := Join(names, ',');
    JoinAvoids(names, ',', '\n');
    var s := Document(records, keys);
    assert s == h + ['\n'] + Rows(records, keys);
    assert s[..|h|] == h;
    IndexOfAt(s, '\n', |h|);
    assert s[|h| + 1..] == Rows(records, keys);
    SplitJoin(names, ',');
    RowsRoundTrip(records, keys);
  }

  /** A key holding a comma: the header line then names one column more than each data line has. */
  lemma CommaInKeySplitsHeader()
    ensures |Split(Join(["id", "imageName", "a,b"], ','), ',')| == 4
  {
    assert Join(["id", "imageName", "a,b"], ',') == "id" + [','] + ("imageName" + [','] + ("a" + [','] + "b"));
    SplitConcat("a", "b", ',');
    SplitConcat("imageName", "a" + [','] + "b", ',');
    SplitConcat("id", "imageName" + [','] + ("a" + [','] + "b"), ',');
  }
}
