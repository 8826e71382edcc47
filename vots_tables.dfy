/**
 * The VOTS (VOTable Simple) reader of Ska/Table.py (parse_vots_table): stripped
 * lines starting "##" are dropped, lines starting "#" form the header (without the
 * "#"), every other line is data; the header is parsed into sections, and the data
 * is parsed as an ASCII table without header row whose columns are named by the
 * `name` column of the FIELD:: section.
 */
module VotsTables {
  import opened Wrappers
  import opened Text
  import opened Dialects
  import opened DialectSearch
  import opened RecordArrays
  import opened AsciiTables
  import opened VotsHeader

  /** The reader's defaults: space delimiter, single quote, spaces cleaned. */
  const DefaultVotsOptions := VotsOptions([' '], [SingleQuote], true)

  /** The header lines of stripped lines `ls`, each without its leading "#". */
  function HeaderPart(ls: seq<string>): (h: seq<string>)
    ensures |h| <= |ls|
  {
    if ls == [] then []
    else
      var init, line := ls[..|ls| - 1], ls[|ls| - 1];
      if !StartsWith(line, "##") && StartsWith(line, "#") then HeaderPart(init) + [line[1..]]
      else HeaderPart(init)
  }

  /** The data lines of stripped lines `ls`: those not starting with "#". */
  function DataPart(ls: seq<string>): (d: seq<string>)
    ensures |d| <= |ls|
    ensures forall i :: 0 <= i < |d| ==> !StartsWith(d[i], "#")
  {
    if ls == [] then []
    else
      var init, line := ls[..|ls| - 1], ls[|ls| - 1];
      if StartsWith(line, "#") then DataPart(init) else DataPart(init) + [line]
  }

  /** How many of the stripped lines `ls` start with "##". */
  function SkippedCount(ls: seq<string>): nat {
    if ls == [] then 0
    else SkippedCount(ls[..|ls| - 1]) + if StartsWith(ls[|ls| - 1], "##") then 1 else 0
  }

  /** Every line is dropped, header or data, and only one of them. */
  lemma {:induction false} PartitionCount(ls: seq<string>)
    ensures |HeaderPart(ls)| + |DataPart(ls)| + SkippedCount(ls) == |ls|
  {
    if ls != [] {
      var line := ls[|ls| - 1];
      PartitionCount(ls[..|ls| - 1]);
      if StartsWith(line, "##") {
        DoubleHash(line);
      }
    }
  }

  /** The partition loop of the reader. */
  method SplitLines(lines: seq<string>) returns (headerLines: seq<string>, dataLines: seq<string>)
    ensures headerLines == HeaderPart(StripAll(lines))
    ensures dataLines == DataPart(StripAll(lines))
  {
    ghost var ls := StripAll(lines);
    headerLines, dataLines := [], [];
    for i := 0 to |lines|
      invariant headerLines == HeaderPart(ls[..i])
      invariant dataLines == DataPart(ls[..i])
    {
      var line := Strip(lines[i]);
      assert line == ls[i];
      PartsStep(ls, i);
      if StartsWith(line, "##") {
        continue;
      }
      if StartsWith(line, "#") {
        headerLines := headerLines + [line[1..]];
      } else {
        dataLines := dataLines + [line];
      }
    }
    assert ls[..|lines|] == ls;
  }

  /** One more line: a "##" line is dropped, a "#" line joins the header without its
      "#", any other line joins the data. */
  lemma PartsStep(ls: seq<string>, i: nat)
    requires i < |ls|
    ensures StartsWith(ls[i], "##") ==>
              HeaderPart(ls[..i + 1]) == HeaderPart(ls[..i]) && DataPart(ls[..i + 1]) == DataPart(ls[..i])
    ensures !StartsWith(ls[i], "##") && StartsWith(ls[i], "#") ==>
              HeaderPart(ls[..i + 1]) == HeaderPart(ls[..i]) + [ls[i][1..]] && DataPart(ls[..i + 1]) == DataPart(ls[..i])
    ensures !StartsWith(ls[i], "#") ==>
              HeaderPart(ls[..i + 1]) == HeaderPart(ls[..i]) && DataPart(ls[..i + 1]) == DataPart(ls[..i]) + [ls[i]]
  {
    assert ls[..i + 1][..i] == ls[..i];
    if StartsWith(ls[i], "##") {
      DoubleHash(ls[i]);
    }
  }

  lemma DoubleHash(line: string)
    requires StartsWith(line, "##")
    ensures StartsWith(line, "#")
  {
    assert line[..1] == line[..2][..1];
  }

  /** The index of the first column called `name`, if any. */
  function ColumnIndex(cols: seq<Column>, name: string): (k: Option<nat>)
    ensures k.Some? ==> k.value < |cols| && cols[k.value].name == name
    ensures k.Some? ==> forall j :: 0 <= j < k.value ==> cols[j].name != name
    ensures k.None? ==> forall j :: 0 <= j < |cols| ==> cols[j].name != name
  {
    if cols == [] then None
    else if cols[0].name == name then Some(0)
    else match ColumnIndex(cols[1..], name)
      case None => None
      case Some(j) => Some(j + 1)
  }

  /** The values of a column as strings, when every one of them is a string. */
  function Texts(values: seq<Value>): (r: Option<seq<string>>)
    ensures r.Some? <==> forall i :: 0 <= i < |values| ==> values[i].TextCell?
    ensures r.Some? ==> |r.value| == |values| && forall i :: 0 <= i < |values| ==> r.value[i] == values[i].text
  {
    if forall i :: 0 <= i < |values| ==> values[i].TextCell? then
      Some(seq(|values|, i requires 0 <= i < |values| => values[i].text))
    else None
  }

  /** The column names the FIELD:: section provides: its `name` column, as strings. */
  function FieldColumnNames(header: map<string, HeaderValue>): (r: Result<seq<string>, TableError>)
    ensures "field" !in header ==> r == Failure(MissingFieldSection)
    ensures "field" in header && !header["field"].TableSection? ==> r == Failure(FieldSectionNotTable)
    ensures r.Success? <==>
              "field" in header && header["field"].TableSection? &&
              exists c :: 0 <= c < |header["field"].table.table.columns| &&
                          header["field"].table.table.columns[c].name == "name" &&
                          (forall j :: 0 <= j < c ==> header["field"].table.table.columns[j].name != "name") &&
                          forall v :: v in header["field"].table.table.columns[c].values ==> v.TextCell?
    ensures r.Success? ==>
              var cols := header["field"].table.table.columns;
              exists c :: 0 <= c < |cols| && cols[c].name == "name" &&
                          |r.value| == |cols[c].values| &&
                          forall i :: 0 <= i < |r.value| ==> cols[c].values[i] == TextCell(r.value[i])
  {
    if "field" !in header then Failure(MissingFieldSection)
    else match header["field"]
      case TableSection(t) =>
        (match ColumnIndex(t.table.columns, "name")
         case None => Failure(NoNameColumn)
         case Some(c) =>
           match Texts(t.table.columns[c].values)
           case None => Failure(NameColumnNotText)
           case Some(names) => Success(names))
      case _ => Failure(FieldSectionNotTable)
  }

  /** A VOTS table: its header sections and its data. */
  datatype Vots = Vots(header: map<string, HeaderValue>, data: AsciiTable)

  function WithHeader(h: map<string, HeaderValue>, d: Result<AsciiTable, TableError>): Result<Vots, TableError> {
    match d
    case Failure(e) => Failure(e)
    case Success(t) => Success(Vots(h, t))
  }

  /** r is what parse_vots_table gives: the header's failure, the failure to find the
      field names, or the data parsed without header row under those names. */
  ghost predicate VotsParsesAs(lines: seq<string>, opts: VotsOptions, r: Result<Vots, TableError>) {
    var ls := StripAll(lines);
    exists hr :: HeaderParsesAs(HeaderPart(ls), opts, hr) &&
      match hr
      case Failure(e) => r == Failure(e)
      case Success(h) =>
        match FieldColumnNames(h)
        case Failure(e) => r == Failure(e)
        case Success(names) =>
          exists d :: ParsesAs(SectionConfig(DataPart(ls), opts), DefaultLayout, Some("none"), names, d) &&
                      r == WithHeader(h, d)
  }

  /** parse_vots_table on lines already read. */
  method ParseVotsTable(lines: seq<string>, opts: VotsOptions) returns (r: Result<Vots, TableError>)
    ensures VotsParsesAs(lines, opts, r)
  {
    var headerLines, dataLines := SplitLines(lines);
    var hr := ParseVotsHeader(headerLines, opts);
    if hr.Failure? {
      return Failure(hr.error);
    }
    var names := FieldColumnNames(hr.value);
    if names.Failure? {
      return Failure(names.error);
    }
    var d := ParseAsciiTable(SectionConfig(dataLines, opts), DefaultLayout, Some("none"), names.value);
    r := WithHeader(hr.value, d);
  }

  /** A parsed VOTS table has a FIELD:: table with a `name` column of strings, and its
      data columns carry those names, stripped and cut or padded to the column count. */
  lemma DataColumnsNamed(lines: seq<string>, opts: VotsOptions, r: Result<Vots, TableError>)
    requires VotsParsesAs(lines, opts, r) && r.Success?
    ensures FieldColumnNames(r.value.header).Success?
    ensures var names := FieldColumnNames(r.value.header).value;
            var n := |r.value.data.table.columns|;
            ColNames(r.value.data.table) == FieldNames(if names != [] then names else AutoNames(n), n)
  {
    var ls := StripAll(lines);
    var hr :| HeaderParsesAs(HeaderPart(ls), opts, hr) &&
      match hr
      case Failure(e) => r == Failure(e)
      case Success(h) =>
        match FieldColumnNames(h)
        case Failure(e) => r == Failure(e)
        case Success(names) =>
          exists d :: ParsesAs(SectionConfig(DataPart(ls), opts), DefaultLayout, Some("none"), names, d) &&
                      r == WithHeader(h, d);
    var names := FieldColumnNames(hr.value).value;
    var d :| ParsesAs(SectionConfig(DataPart(ls), opts), DefaultLayout, Some("none"), names, d) &&
             r == WithHeader(hr.value, d);
    UnheadedColumnNames(SectionConfig(DataPart(ls), opts), DefaultLayout, names, d);
  }

  /** Without a FIELD:: section (no FIELD:: marker followed by a header line) the table
      cannot be read: the result is the header's own failure or the missing-section
      error. */
  lemma NoFieldSectionFails(lines: seq<string>, opts: VotsOptions, r: Result<Vots, TableError>)
    requires VotsParsesAs(lines, opts, r)
    requires "field" !in Sections(StripAll(HeaderPart(StripAll(lines))))
    ensures r.Failure?
    ensures r == Failure(MissingFieldSection) || HeaderParsesAs(HeaderPart(StripAll(lines)), opts, Failure(r.error))
  {
    var ls := StripAll(lines);
    var hr :| HeaderParsesAs(HeaderPart(ls), opts, hr) &&
      match hr
      case Failure(e) => r == Failure(e)
      case Success(h) =>
        match FieldColumnNames(h)
        case Failure(e) => r == Failure(e)
        case Success(names) =>
          exists d :: ParsesAs(SectionConfig(DataPart(ls), opts), DefaultLayout, Some("none"), names, d) &&
                      r == WithHeader(h, d);
    if hr.Success? {
      assert "field" !in hr.value;
    }
  }
}
