/** The data table rows of `buildTableRows` and the download files of
    `downloadData`: the eight-column projection of the filtered rows, the CSV
    writer with its field quoting, and the tab-separated text writer. Number
    formatting (`toFixed(4)` in the table, `String(number)` in the files) is a
    parameter. */
module Export {
  import opened Seqs
  import opened Text
  import opened Dates
  import opened Records
  import opened Filters

  // ---------------------------------------------------------------- sources

  /** `s.split(/,\s*\/)`: the pieces between commas, with the white space that
      follows each comma taken into the separator. */
  function SplitSources(s: string): (pieces: seq<string>)
    ensures |pieces| >= 1
  {
    var parts := Split(s, ',');
    [parts[0]] + Map(parts[1..], TrimStart)
  }

  predicate NonEmpty(u: string) { u != [] }

  /** `.map(u => u.trim()).filter(Boolean)`: the trimmed pieces that are not empty. */
  function KeepUrls(pieces: seq<string>): seq<string>
  {
    if pieces == [] then []
    else
      var u := Trim(pieces[0]);
      (if u == [] then [] else [u]) + KeepUrls(pieces[1..])
  }

  /** `(r.sources || '').split(/,\s*\/).map(u => u.trim()).filter(Boolean)`. */
  function SourceUrls(sources: Option<string>): seq<string>
  {
    KeepUrls(SplitSources(sources.GetOr("")))
  }

  /** The link of one source address. */
  function Anchor(u: string): string
  {
    "<a href=\"" + u + "\" target=\"_blank\" rel=\"noopener\">" + u + "</a>"
  }

  /** `.map(anchor).join('<br>')`: the links, one per line. */
  function Links(us: seq<string>): string
  {
    if us == [] then ""
    else if |us| == 1 then Anchor(us[0])
    else Anchor(us[0]) + "<br>" + Links(us[1..])
  }

  /** The Sources cell of the table. */
  function SourceLinks(sources: Option<string>): string
  {
    Links(SourceUrls(sources))
  }

  /** Keeping the addresses is mapping `trim` and then filtering out the empty ones. */
  lemma {:induction false} KeepUrlsSpec(pieces: seq<string>)
    ensures KeepUrls(pieces) == Filter(Map(pieces, Trim), NonEmpty)
  {
    if pieces != [] {
      KeepUrlsSpec(pieces[1..]);
      assert Map(pieces, Trim)[1..] == Map(pieces[1..], Trim);
    }
  }

  /** The links are the anchors of the addresses joined by line breaks. */
  lemma {:induction false} LinksSpec(us: seq<string>)
    ensures Links(us) == Join(Map(us, Anchor), "<br>")
  {
    if |us| >= 2 {
      LinksSpec(us[1..]);
      assert Map(us, Anchor)[1..] == Map(us[1..], Anchor);
    }
  }

  lemma {:induction false} SplitPieces(s: string, c: char)
    ensures forall p :: p in Split(s, c) ==> c !in p
  {
    if s != [] {
      SplitPieces(s[1..], c);
      var rest := Split(s[1..], c);
      assert forall p :: p in rest[1..] ==> p in rest;
    }
  }

  /** A source address as the table shows it: not empty, without surrounding white
      space, without a comma. */
  predicate Bare(u: string)
  {
    u != [] && !IsSpace(u[0]) && !IsSpace(u[|u| - 1]) && ',' !in u
  }

  lemma {:induction false} KeepUrlsShape(pieces: seq<string>)
    requires forall i :: 0 <= i < |pieces| ==> ',' !in pieces[i]
    ensures forall u :: u in KeepUrls(pieces) ==> Bare(u)
  {
    if pieces != [] {
      KeepUrlsShape(pieces[1..]);
      TrimWithin(pieces[0], ',');
    }
  }

  /** Every address is non-empty, has no surrounding white space and no comma. */
  lemma SourceUrlsShape(sources: Option<string>)
    ensures forall u :: u in SourceUrls(sources) ==> Bare(u)
  {
    var parts := Split(sources.GetOr(""), ',');
    SplitPieces(sources.GetOr(""), ',');
    var pieces := SplitSources(sources.GetOr(""));
    forall i | 0 <= i < |pieces|
      ensures ',' !in pieces[i]
    {
      assert parts[i] in parts;
      if i > 0 {
        TrimWithin(parts[i], ',');
      }
    }
    KeepUrlsShape(pieces);
  }

  /** Text written as `a, b, c` splits at commas into `a`, ` b` and ` c`. */
  lemma {:induction false} SplitSpaced(us: seq<string>, pre: string, s: string)
    requires |us| >= 1 && ',' !in pre && s == pre + Join(us, ", ")
    requires forall i :: 0 <= i < |us| ==> ',' !in us[i]
    ensures var parts := Split(s, ',');
      && |parts| == |us| && parts[0] == pre + us[0]
      && forall k :: 1 <= k < |us| ==> parts[k] == " " + us[k]
  {
    if |us| == 1 {
      SplitNoSeparator(pre + us[0], ',');
    } else {
      var tail := Join(us[1..], ", ");
      assert pre + Join(us, ", ") == (pre + us[0]) + [','] + (" " + tail);
      SplitFirst(pre + us[0], ',', " " + tail);
      SplitSpaced(us[1..], " ", " " + tail);
    }
  }

  lemma SplitSourcesPieces(s: string)
    ensures var parts := Split(s, ',');
      var pieces := SplitSources(s);
      && |pieces| == |parts| && pieces[0] == parts[0]
      && forall k :: 1 <= k < |parts| ==> pieces[k] == TrimStart(parts[k])
  {
  }

  /** Text written as `a, b, c` splits at `/,\s*\/` into `a`, `b` and `c`. */
  lemma SplitSourcesSpaced(us: seq<string>)
    requires |us| >= 1
    requires forall i :: 0 <= i < |us| ==> Bare(us[i])
    ensures SplitSources(Join(us, ", ")) == us
  {
    var s := Join(us, ", ");
    assert s == "" + s;
    SplitSpaced(us, "", s);
    assert "" + us[0] == us[0];
    SplitSourcesPieces(s);
    SpaceTrimmed(us);
    PiecesAreUrls(us, Split(s, ','), SplitSources(s));
  }

  lemma PiecesAreUrls(us: seq<string>, parts: seq<string>, pieces: seq<string>)
    requires |us| >= 1 && |parts| == |us| && |pieces| == |parts|
    requires parts[0] == us[0] && pieces[0] == parts[0]
    requires forall k :: 1 <= k < |us| ==> parts[k] == " " + us[k]
    requires forall k :: 1 <= k < |parts| ==> pieces[k] == TrimStart(parts[k])
    requires forall k :: 0 <= k < |us| ==> TrimStart(" " + us[k]) == us[k]
    ensures pieces == us
  {
    forall k | 0 <= k < |us|
      ensures pieces[k] == us[k]
    {
      if k > 0 {
        assert pieces[k] == TrimStart(" " + us[k]);
      }
    }
  }

  lemma SpaceTrimmed(us: seq<string>)
    requires forall i :: 0 <= i < |us| ==> Bare(us[i])
    ensures forall k :: 0 <= k < |us| ==> TrimStart(" " + us[k]) == us[k]
  {
    forall k | 0 <= k < |us|
      ensures TrimStart(" " + us[k]) == us[k]
    {
      assert (" " + us[k])[1..] == us[k];
    }
  }

  lemma {:induction false} KeepBare(us: seq<string>)
    requires forall i :: 0 <= i < |us| ==> Bare(us[i])
    ensures KeepUrls(us) == us
  {
    if us != [] {
      KeepBare(us[1..]);
      TrimIdentity(us[0]);
    }
  }

  /** A list of addresses without commas or surrounding white space, written out
      as `a, b, c`, is read back as exactly those addresses. */
  lemma SourceUrlsRoundTrip(us: seq<string>)
    requires |us| >= 1
    requires forall i :: 0 <= i < |us| ==> Bare(us[i])
    ensures SourceUrls(Some(Join(us, ", "))) == us
  {
    SplitSourcesSpaced(us);
    KeepBare(us);
  }

  // ---------------------------------------------------------------- table

  /** One row of the data table: identifier, date, status, state, the two
      coordinates written by `fixed4` (empty when missing), agency type, links. */
  function TableRow(r: Record, fixed4: real -> string): (cells: seq<string>)
    ensures |cells| == 8
  {
    [r.incidentid, FmtDate(r.date), r.status, r.state,
     if r.latitude.Some? then fixed4(r.latitude.value) else "",
     if r.longitude.Some? then fixed4(r.longitude.value) else "",
     r.agencyType, SourceLinks(r.sources)]
  }

  /** `buildTableRows`: one table row per filtered row, in order. */
  function BuildTableRows(filtered: seq<Decorated>, fixed4: real -> string): seq<seq<string>>
  {
    Map(filtered, (d: Decorated) => TableRow(d.row, fixed4))
  }

  /** A row's identifier, status, state and agency type are copied; its date cell
      is empty exactly when the date is missing and otherwise reads back to the
      date; a coordinate cell is empty exactly when the coordinate is missing (for
      a formatter that never writes the empty string). */
  lemma TableRowSpec(r: Record, fixed4: real -> string)
    requires forall x :: |fixed4(x)| > 0
    ensures var t := TableRow(r, fixed4);
      && t[0] == r.incidentid && t[2] == r.status && t[3] == r.state && t[6] == r.agencyType
      && (t[1] == "" <==> r.date.None?)
      && (r.date.Some? && r.date.value.year >= 0 ==> ReadDate(t[1]) == r.date)
      && (t[4] == "" <==> r.latitude.None?)
      && (t[5] == "" <==> r.longitude.None?)
  {
    if r.date.Some? && r.date.value.year >= 0 {
      FmtDateRoundTrip(r.date.value);
    }
    if r.latitude.Some? {
      var v := r.latitude.value;
      assert |fixed4(v)| > 0;
    }
    if r.longitude.Some? {
      var v := r.longitude.value;
      assert |fixed4(v)| > 0;
    }
  }

  /** The Sources cell of a row whose list is written as `a, b, c` links exactly
      those addresses, in order. */
  lemma SourceLinksOf(us: seq<string>)
    requires |us| >= 1
    requires forall i :: 0 <= i < |us| ==> Bare(us[i])
    ensures SourceLinks(Some(Join(us, ", "))) == Join(Map(us, Anchor), "<br>")
  {
    SourceUrlsRoundTrip(us);
    LinksSpec(us);
  }

  /** One table row per filtered row, in the order of the filtered rows. */
  lemma TableRowsSpec(filtered: seq<Decorated>, fixed4: real -> string)
    ensures |BuildTableRows(filtered, fixed4)| == |filtered|
    ensures forall k :: 0 <= k < |filtered| ==> BuildTableRows(filtered, fixed4)[k] == TableRow(filtered[k].row, fixed4)
  {
  }

  // ---------------------------------------------------------------- download

  /** A projected value: text, or a number that `String` writes with `numText`. */
  datatype Value = Str(s: string) | Num(x: real)

  const COLUMNS: seq<string> :=
    ["Incident ID", "Date", "Injury Status", "State", "Latitude", "Longitude", "Agency Type", "Sources"]

  /** The download projection of one row: the object with one property per
      column title, in the order of `COLUMNS`. */
  datatype ExportRow = ExportRow(
    incidentId: Value, date: Value, status: Value, state: Value,
    latitude: Value, longitude: Value, agencyType: Value, sources: Value)

  function Project(r: Record): ExportRow
  {
    ExportRow(
      Str(r.incidentid),
      Str(FmtDate(r.date)),
      Str(r.status),
      Str(r.state),
      if r.latitude.Some? then Num(r.latitude.value) else Str(""),
      if r.longitude.Some? then Num(r.longitude.value) else Str(""),
      Str(r.agencyType),
      Str(r.sources.GetOr("")))
  }

  /** `String(v)`. */
  function Show(v: Value, numText: real -> string): string
  {
    match v
    case Str(s) => s
    case Num(x) => numText(x)
  }

  /** `cols.map(c => String(r[c] ?? ''))`: the properties read in column order;
      every column is a property, so `?? ''` never applies. */
  function Cells(row: ExportRow, numText: real -> string): (cells: seq<string>)
    ensures |cells| == |COLUMNS|
  {
    [Show(row.incidentId, numText), Show(row.date, numText), Show(row.status, numText), Show(row.state, numText),
     Show(row.latitude, numText), Show(row.longitude, numText), Show(row.agencyType, numText), Show(row.sources, numText)]
  }

  /** A row's fields in column order; a missing coordinate and a missing source
      list are written as the empty string. */
  lemma CellsSpec(r: Record, numText: real -> string)
    ensures var cells := Cells(Project(r), numText);
      && cells[0] == r.incidentid && cells[1] == FmtDate(r.date) && cells[2] == r.status && cells[3] == r.state
      && cells[4] == (if r.latitude.Some? then numText(r.latitude.value) else "")
      && cells[5] == (if r.longitude.Some? then numText(r.longitude.value) else "")
      && cells[6] == r.agencyType
      && cells[7] == (if r.sources.Some? then r.sources.value else "")
  {
  }

  /** The characters that make `esc` quote a field: `/[,"\n]/`. */
  predicate NeedsQuotes(s: string)
  {
    ',' in s || '"' in s || '\n' in s
  }

  /** `s.replace(/"/g, '""')`. */
  function DoubleQuotes(s: string): (r: string)
    ensures |r| >= |s|
  {
    if s == [] then []
    else (if s[0] == '"' then "\"\"" else [s[0]]) + DoubleQuotes(s[1..])
  }

  /** `esc`: a field with a comma, a double quote or a line feed is wrapped in
      double quotes with its own double quotes doubled; any other is unchanged. */
  function Esc(s: string): string
  {
    if NeedsQuotes(s) then "\"" + DoubleQuotes(s) + "\"" else s
  }

  /** Reading back a quoted field: each doubled quote stands for one. */
  function Halve(s: string): string
  {
    if s == [] then []
    else if |s| >= 2 && s[0] == '"' && s[1] == '"' then "\"" + Halve(s[2..])
    else [s[0]] + Halve(s[1..])
  }

  /** Removes the outer quotes of a quoted field and halves the inner ones. */
  function Unquote(e: string): string
  {
    if |e| >= 2 && e[0] == '"' && e[|e| - 1] == '"' then Halve(e[1..|e| - 1]) else e
  }

  lemma {:induction false} HalveDoubled(s: string)
    ensures Halve(DoubleQuotes(s)) == s
  {
    if s != [] {
      HalveDoubled(s[1..]);
      var d := DoubleQuotes(s);
      if s[0] == '"' {
        assert d[2..] == DoubleQuotes(s[1..]);
      } else {
        assert d[1..] == DoubleQuotes(s[1..]);
      }
    }
  }

  /** A field is left unchanged exactly when it has none of the three characters;
      otherwise it is quoted; either way removing the quoting gives it back. */
  lemma EscSpec(s: string)
    ensures Esc(s) == s <==> !NeedsQuotes(s)
    ensures NeedsQuotes(s) ==> Esc(s) == "\"" + DoubleQuotes(s) + "\""
    ensures Unquote(Esc(s)) == s
  {
    var e := Esc(s);
    if NeedsQuotes(s) {
      assert e[1..|e| - 1] == DoubleQuotes(s);
      HalveDoubled(s);
    } else if |s| >= 2 {
      assert s[0] in s;
    }
  }

  /** A field read from the front of a line, and the text after it. */
  datatype Read = Read(field: string, rest: string)

  /** An unquoted field runs up to the next comma. */
  function ReadPlain(s: string): (r: Read)
    ensures |r.rest| <= |s|
  {
    if s == [] || s[0] == ',' then Read([], s)
    else
      var r := ReadPlain(s[1..]);
      Read([s[0]] + r.field, r.rest)
  }

  /** The text of a quoted field after its opening quote, up to the closing quote;
      a doubled quote stands for one. No closing quote: no field. */
  function ReadQuoted(s: string): (r: Option<Read>)
    ensures r.Some? ==> |r.value.rest| < |s|
  {
    if s == [] then None
    else if s[0] == '"' then
      if |s| >= 2 && s[1] == '"' then
        match ReadQuoted(s[2..])
        case None => None
        case Some(r) => Some(Read("\"" + r.field, r.rest))
      else Some(Read([], s[1..]))
    else
      match ReadQuoted(s[1..])
      case None => None
      case Some(r) => Some(Read([s[0]] + r.field, r.rest))
  }

  function ReadField(s: string): (r: Option<Read>)
    ensures r.Some? ==> |r.value.rest| <= |s|
  {
    if s != [] && s[0] == '"' then ReadQuoted(s[1..]) else Some(ReadPlain(s))
  }

  /** A CSV reader for one line in the dialect `esc` writes: fields separated by
      commas, each either plain or quoted with doubled inner quotes. */
  function ParseLine(s: string): Option<seq<string>>
    decreases |s|
  {
    match ReadField(s)
    case None => None
    case Some(r) =>
      if r.rest == [] then Some([r.field])
      else if r.rest[0] != ',' then None
      else
        match ParseLine(r.rest[1..])
        case None => None
        case Some(fs) => Some([r.field] + fs)
  }

  predicate FieldEnd(rest: string) { rest == [] || rest[0] == ',' }

  lemma {:induction false} ReadPlainOf(f: string, rest: string)
    requires ',' !in f && FieldEnd(rest)
    ensures ReadPlain(f + rest) == Read(f, rest)
  {
    if f != [] {
      assert (f + rest)[1..] == f[1..] + rest;
      ReadPlainOf(f[1..], rest);
      assert [f[0]] + f[1..] == f;
    } else {
      assert f + rest == rest;
    }
  }

  lemma {:induction false} ReadQuotedOf(f: string, rest: string)
    requires FieldEnd(rest)
    ensures ReadQuoted(DoubleQuotes(f) + "\"" + rest) == Some(Read(f, rest))
  {
    if f == [] {
      assert DoubleQuotes(f) + "\"" + rest == "\"" + rest;
    } else {
      ReadQuotedOf(f[1..], rest);
      ReadQuotedStep(f[0], f[1..], rest);
      assert [f[0]] + f[1..] == f;
    }
  }

  /** One more character in front of a written quoted field is read back in front. */
  lemma ReadQuotedStep(c: char, f: string, rest: string)
    requires ReadQuoted(DoubleQuotes(f) + "\"" + rest) == Some(Read(f, rest))
    ensures ReadQuoted(DoubleQuotes([c] + f) + "\"" + rest) == Some(Read([c] + f, rest))
  {
    if c == '"' {
      ReadQuotedStepQuote(c, f, rest);
    } else {
      ReadQuotedStepOther(c, f, rest);
    }
  }

  lemma ReadQuotedStepQuote(c: char, f: string, rest: string)
    requires c == '"' && ReadQuoted(DoubleQuotes(f) + "\"" + rest) == Some(Read(f, rest))
    ensures ReadQuoted(DoubleQuotes([c] + f) + "\"" + rest) == Some(Read([c] + f, rest))
  {
    var tail := DoubleQuotes(f) + "\"" + rest;
    DoubleQuotesCons(c, f);
    assert DoubleQuotes([c] + f) + "\"" + rest == "\"\"" + tail;
    ReadQuotedQuote(tail, f, rest);
  }

  lemma ReadQuotedStepOther(c: char, f: string, rest: string)
    requires c != '"' && ReadQuoted(DoubleQuotes(f) + "\"" + rest) == Some(Read(f, rest))
    ensures ReadQuoted(DoubleQuotes([c] + f) + "\"" + rest) == Some(Read([c] + f, rest))
  {
    var tail := DoubleQuotes(f) + "\"" + rest;
    DoubleQuotesCons(c, f);
    assert DoubleQuotes([c] + f) + "\"" + rest == [c] + tail;
    ReadQuotedOther(c, tail, f, rest);
  }

  lemma DoubleQuotesCons(c: char, f: string)
    ensures DoubleQuotes([c] + f) == (if c == '"' then "\"\"" else [c]) + DoubleQuotes(f)
  {
    assert ([c] + f)[1..] == f;
  }

  lemma ReadQuotedQuote(tail: string, f: string, rest: string)
    requires ReadQuoted(tail) == Some(Read(f, rest))
    ensures ReadQuoted("\"\"" + tail) == Some(Read("\"" + f, rest))
  {
    var s := "\"\"" + tail;
    assert s[2..] == tail;
  }

  lemma ReadQuotedOther(c: char, tail: string, f: string, rest: string)
    requires c != '"' && ReadQuoted(tail) == Some(Read(f, rest))
    ensures ReadQuoted([c] + tail) == Some(Read([c] + f, rest))
  {
    var s := [c] + tail;
    assert s[1..] == tail;
  }

  /** A written field followed by a comma or the end of the line reads back as itself. */
  lemma ReadFieldOf(f: string, rest: string)
    requires FieldEnd(rest)
    ensures ReadField(Esc(f) + rest) == Some(Read(f, rest))
  {
    if NeedsQuotes(f) {
      ReadFieldQuoted(f, rest);
    } else {
      ReadFieldPlain(f, rest);
    }
  }

  lemma ReadFieldQuoted(f: string, rest: string)
    requires FieldEnd(rest) && NeedsQuotes(f)
    ensures ReadField(Esc(f) + rest) == Some(Read(f, rest))
  {
    var inner := DoubleQuotes(f) + "\"" + rest;
    assert Esc(f) + rest == "\"" + inner;
    ReadFieldOpenQuote(inner);
    ReadQuotedOf(f, rest);
  }

  lemma ReadFieldOpenQuote(x: string)
    ensures ReadField("\"" + x) == ReadQuoted(x)
  {
    var s := "\"" + x;
    assert s[0] == '"' && s[1..] == x;
  }

  lemma ReadFieldPlain(f: string, rest: string)
    requires FieldEnd(rest) && !NeedsQuotes(f)
    ensures ReadField(Esc(f) + rest) == Some(Read(f, rest))
  {
    assert Esc(f) + rest == f + rest;
    ReadPlainOf(f, rest);
    if f != [] {
      assert f[0] in f;
      assert (f + rest)[0] == f[0];
    } else {
      assert f + rest == rest;
    }
  }

  /** `fields.map(esc).join(',')`. */
  function CsvLine(fields: seq<string>): string
  {
    Join(Map(fields, Esc), ",")
  }

  /** Any non-empty list of fields, written as a CSV line, reads back as itself:
      commas, quotes and line feeds inside fields survive the quoting. */
  lemma {:induction false} CsvLineRoundTrip(fields: seq<string>)
    requires |fields| >= 1
    ensures ParseLine(CsvLine(fields)) == Some(fields)
  {
    var e := Map(fields, Esc);
    if |fields| == 1 {
      assert e == [Esc(fields[0])];
      assert CsvLine(fields) == Esc(fields[0]) + "";
      ReadFieldOf(fields[0], "");
      assert [fields[0]] == fields;
    } else {
      assert e[1..] == Map(fields[1..], Esc);
      var tail := CsvLine(fields[1..]);
      assert CsvLine(fields) == Esc(fields[0]) + ("," + tail);
      ReadFieldOf(fields[0], "," + tail);
      assert ("," + tail)[1..] == tail;
      CsvLineRoundTrip(fields[1..]);
      assert [fields[0]] + fields[1..] == fields;
    }
  }

  /** The fields of one filtered row as the download writes them. */
  function RowFields(d: Decorated, numText: real -> string): seq<string>
  {
    Cells(Project(d.row), numText)
  }

  /** The escaped lines of the rows, one per filtered row. */
  function CsvRows(filtered: seq<Decorated>, numText: real -> string): (lines: seq<string>)
    ensures |lines| == |filtered|
    ensures forall k :: 0 <= k < |filtered| ==> lines[k] == CsvLine(RowFields(filtered[k], numText))
  {
    Map(filtered, (d: Decorated) => CsvLine(RowFields(d, numText)))
  }

  /** The CSV file: the escaped header, a line feed, and the escaped rows joined
      by line feeds. */
  function CsvContent(filtered: seq<Decorated>, numText: real -> string): string
  {
    CsvLine(COLUMNS) + "\n" + Join(CsvRows(filtered, numText), "\n")
  }

  /** `cols.map(c => String(r[c] ?? '')).join('\t')`. */
  function TsvLine(fields: seq<string>): string
  {
    Join(fields, "\t")
  }

  /** The unescaped lines of the rows, one per filtered row. */
  function TsvRows(filtered: seq<Decorated>, numText: real -> string): (lines: seq<string>)
    ensures |lines| == |filtered|
    ensures forall k :: 0 <= k < |filtered| ==> lines[k] == TsvLine(RowFields(filtered[k], numText))
  {
    Map(filtered, (d: Decorated) => TsvLine(RowFields(d, numText)))
  }

  /** The text file: the header, a line feed, and the rows joined by line feeds,
      with no escaping. */
  function TsvContent(filtered: seq<Decorated>, numText: real -> string): string
  {
    TsvLine(COLUMNS) + "\n" + Join(TsvRows(filtered, numText), "\n")
  }

  /** What the download writes: the content, its media type and the file extension. */
  datatype Download = Download(content: string, mimeType: string, ext: string)

  /** The download for a format choice: `TXT` gives the text file, any other choice
      but `JSON` the CSV file; the JSON file is not part of this model. */
  function DownloadFile(filtered: seq<Decorated>, format: string, numText: real -> string): (r: Option<Download>)
    ensures r.None? <==> format == "JSON"
  {
    if format == "JSON" then None
    else if format == "TXT" then Some(Download(TsvContent(filtered, numText), "text/plain", "txt"))
    else Some(Download(CsvContent(filtered, numText), "text/csv", "csv"))
  }

  lemma {:induction false} JoinSingle(parts: seq<string>, sep: string, first: string)
    requires |parts| >= 1
    ensures first + sep + Join(parts, sep) == Join([first] + parts, sep)
  {
    assert ([first] + parts)[1..] == parts;
  }

  lemma {:induction false} JoinWithout(parts: seq<string>, sep: string, c: char)
    requires c !in sep && forall i :: 0 <= i < |parts| ==> c !in parts[i]
    ensures c !in Join(parts, sep)
  {
    if |parts| >= 2 {
      JoinWithout(parts[1..], sep, c);
    }
  }

  lemma {:induction false} DoubleQuotesWithout(s: string, c: char)
    requires c !in s && c != '"'
    ensures c !in DoubleQuotes(s)
  {
    if s != [] {
      DoubleQuotesWithout(s[1..], c);
    }
  }

  lemma EscWithout(s: string, c: char)
    requires c !in s && c != '"'
    ensures c !in Esc(s)
  {
    if NeedsQuotes(s) {
      DoubleQuotesWithout(s, c);
    }
  }

  /** Escaping and joining by commas adds no character other than quotes and commas. */
  lemma CsvLineWithout(fields: seq<string>, c: char)
    requires c != '"' && c != ','
    requires forall i :: 0 <= i < |fields| ==> c !in fields[i]
    ensures c !in CsvLine(fields)
  {
    var e := Map(fields, Esc);
    forall j | 0 <= j < |fields|
      ensures c !in e[j]
    {
      EscWithout(fields[j], c);
    }
    JoinWithout(e, ",", c);
  }

  /** A header and lines without line feeds, written one per line, split back at
      the line feeds; with no lines, one empty line follows the header. */
  lemma SplitLines(header: string, lines: seq<string>)
    requires '\n' !in header
    requires forall i :: 0 <= i < |lines| ==> '\n' !in lines[i]
    ensures Split(header + "\n" + Join(lines, "\n"), '\n') == [header] + (if lines == [] then [""] else lines)
  {
    if lines == [] {
      assert header + "\n" + Join(lines, "\n") == header + ['\n'] + "";
      SplitFirst(header, '\n', "");
      SplitNoSeparator("", '\n');
    } else {
      JoinSingle(lines, "\n", header);
      var all := [header] + lines;
      forall i | 0 <= i < |all|
        ensures '\n' !in all[i]
      {
        if i > 0 {
          assert all[i] == lines[i - 1];
        }
      }
      SplitJoin(all, '\n');
    }
  }

  /** Characters that occur in no field of any exported row. */
  predicate Absent(filtered: seq<Decorated>, numText: real -> string, c: char)
  {
    forall k, i :: 0 <= k < |filtered| && 0 <= i < |COLUMNS| ==> c !in RowFields(filtered[k], numText)[i]
  }

  lemma HeaderWithout(c: char)
    requires c == '\n' || c == '\t'
    ensures forall i :: 0 <= i < |COLUMNS| ==> c !in COLUMNS[i]
  {
  }

  /** The header and each row line read back as their fields. */
  lemma CsvRowsSpec(filtered: seq<Decorated>, numText: real -> string)
    ensures ParseLine(CsvLine(COLUMNS)) == Some(COLUMNS)
    ensures forall k :: 0 <= k < |filtered| ==>
      ParseLine(CsvRows(filtered, numText)[k]) == Some(RowFields(filtered[k], numText))
  {
    CsvLineRoundTrip(COLUMNS);
    forall k | 0 <= k < |filtered|
      ensures ParseLine(CsvRows(filtered, numText)[k]) == Some(RowFields(filtered[k], numText))
    {
      CsvLineRoundTrip(RowFields(filtered[k], numText));
    }
  }

  /** When no field holds a line feed, the CSV file splits at line feeds into the
      header and one line per row (a single empty line when there are no rows). */
  lemma CsvContentSpec(filtered: seq<Decorated>, numText: real -> string)
    requires Absent(filtered, numText, '\n')
    ensures Split(CsvContent(filtered, numText), '\n')
      == [CsvLine(COLUMNS)] + (if filtered == [] then [""] else CsvRows(filtered, numText))
  {
    var lines := CsvRows(filtered, numText);
    HeaderWithout('\n');
    CsvLineWithout(COLUMNS, '\n');
    forall k | 0 <= k < |lines|
      ensures '\n' !in lines[k]
    {
      CsvLineWithout(RowFields(filtered[k], numText), '\n');
    }
    SplitLines(CsvLine(COLUMNS), lines);
  }

  /** When no field holds a tab, the header and each row line split at tabs into
      their fields. */
  lemma TsvRowsSpec(filtered: seq<Decorated>, numText: real -> string)
    requires Absent(filtered, numText, '\t')
    ensures Split(TsvLine(COLUMNS), '\t') == COLUMNS
    ensures forall k :: 0 <= k < |filtered| ==>
      Split(TsvRows(filtered, numText)[k], '\t') == RowFields(filtered[k], numText)
  {
    HeaderWithout('\t');
    SplitJoin(COLUMNS, '\t');
    forall k | 0 <= k < |filtered|
      ensures Split(TsvRows(filtered, numText)[k], '\t') == RowFields(filtered[k], numText)
    {
      SplitJoin(RowFields(filtered[k], numText), '\t');
    }
  }

  /** When no field holds a line feed, the text file splits at line feeds into the
      header and one line per row (a single empty line when there are no rows). */
  lemma TsvContentSpec(filtered: seq<Decorated>, numText: real -> string)
    requires Absent(filtered, numText, '\n')
    ensures Split(TsvContent(filtered, numText), '\n')
      == [TsvLine(COLUMNS)] + (if filtered == [] then [""] else TsvRows(filtered, numText))
  {
    var lines := TsvRows(filtered, numText);
    HeaderWithout('\n');
    JoinWithout(COLUMNS, "\t", '\n');
    forall k | 0 <= k < |lines|
      ensures '\n' !in lines[k]
    {
      JoinWithout(RowFields(filtered[k], numText), "\t", '\n');
    }
    SplitLines(TsvLine(COLUMNS), lines);
  }
}
