/**
 * parse_ascii_table of Ska/Table.py: the dialect search picks how the lines split
 * into rows, then the record-array builder turns the rows into named, typed
 * columns; the result carries the dialect that was used.
 */
module AsciiTables {
  import opened Wrappers
  import opened Text
  import opened Dialects
  import opened DialectSearch
  import opened RecordArrays

  /** The parsed table together with the dialect that split it (None for the
      one-column fallback). */
  datatype AsciiTable = AsciiTable(table: Table, dialect: Option<Dialect>)

  /** The default layout: column names on row 1, data from the row after. */
  const DefaultLayout := Layout(Some(1), None)

  /** The column names of a table, in order. */
  function ColNames(t: Table): (names: seq<string>)
    ensures |names| == |t.columns|
    ensures forall c :: 0 <= c < |t.columns| ==> names[c] == t.columns[c].name
  {
    seq(|t.columns|, c requires 0 <= c < |t.columns| => t.columns[c].name)
  }

  /** An accepted batch has every row as wide as the first. */
  lemma AcceptedRectangular(lines: seq<string>, d: Dialect)
    requires IsQuoteChar(d.quotechar) && Evaluate(lines, d).Accepted?
    ensures Rectangular(Evaluate(lines, d).rows)
  {
    var rows := Evaluate(lines, d).rows;
    forall i | 0 <= i < |rows|
      ensures |rows[i]| == |rows[0]|
    {
      assert |rows[i]| == Width(lines[i], d);
      assert |rows[0]| == Width(lines[0], d);
    }
  }

  lemma AcceptedCellRectangular(cfg: SearchConfig, qi: int, di: int)
    requires ValidQuoteChars(cfg.quotechars) && InRange(cfg, qi, di)
    requires OutcomeTable(cfg)[qi][di].Accepted?
    ensures Rectangular(OutcomeTable(cfg)[qi][di].rows)
  {
    OutcomeTableAt(cfg, qi, di);
    var d := CandidateAt(cfg, qi, di);
    AcceptedRectangular(LinesFor(DataLines(cfg.input, cfg.comment), d), d);
  }

  /** Whatever the search selects is a rectangular batch of rows. */
  lemma SelectedRectangular(cfg: SearchConfig, r: Result<Selection, TableError>)
    requires Selects(cfg, r) && r.Success?
    ensures Rectangular(r.value.rows)
  {
    if |cfg.quotechars| > 0 && |cfg.delimiters| > 0 {
      var t := OutcomeTable(cfg);
      if SomeClean(t) {
        var qi, di :| FirstClean(t, qi, di) && r == Success(SelectionOf(t[qi][di]));
        AcceptedCellRectangular(cfg, qi, di);
      } else if SomeAccepted(t) {
        var qi, di :| FewestWarningsLast(t, qi, di) && r == Success(SelectionOf(t[qi][di]));
        AcceptedCellRectangular(cfg, qi, di);
      }
    }
  }

  /** The table built from a selection, carrying its dialect. */
  function Assemble(s: Selection, layout: Layout, headertype: Option<string>, colnames: seq<string>): Result<AsciiTable, TableError>
    requires Rectangular(s.rows)
  {
    match RecordArray(s.rows, layout, headertype, colnames)
    case Failure(e) => Failure(e)
    case Success(t) => Success(AsciiTable(t, s.dialect))
  }

  /** r is what parse_ascii_table gives: the search's failure, or the table built
      from the rows it selected. */
  ghost predicate ParsesAs(cfg: SearchConfig, layout: Layout, headertype: Option<string>, colnames: seq<string>,
                           r: Result<AsciiTable, TableError>)
  {
    exists s :: Selects(cfg, s) &&
      match s
      case Failure(e) => r == Failure(e)
      case Success(sel) => Rectangular(sel.rows) && r == Assemble(sel, layout, headertype, colnames)
  }

  /** parse_ascii_table on lines already read. */
  method ParseAsciiTable(cfg: SearchConfig, layout: Layout, headertype: Option<string>, colnames: seq<string>)
    returns (r: Result<AsciiTable, TableError>)
    ensures ParsesAs(cfg, layout, headertype, colnames, r)
  {
    var s := SelectDialect(cfg);
    if s.Failure? {
      r := Failure(s.error);
      return;
    }
    SelectedRectangular(cfg, s);
    var t := MakeRecordArray(s.value.rows, layout, headertype, colnames);
    if t.Failure? {
      r := Failure(t.error);
    } else {
      r := Success(AsciiTable(t.value, s.value.dialect));
    }
  }

  /** The parse has exactly one outcome for given lines and options. */
  lemma ParsesAsDeterministic(cfg: SearchConfig, layout: Layout, headertype: Option<string>, colnames: seq<string>,
                              a: Result<AsciiTable, TableError>, b: Result<AsciiTable, TableError>)
    requires ParsesAs(cfg, layout, headertype, colnames, a) && ParsesAs(cfg, layout, headertype, colnames, b)
    ensures a == b
  {
    var sa :| Selects(cfg, sa) &&
      match sa
      case Failure(e) => a == Failure(e)
      case Success(sel) => Rectangular(sel.rows) && a == Assemble(sel, layout, headertype, colnames);
    var sb :| Selects(cfg, sb) &&
      match sb
      case Failure(e) => b == Failure(e)
      case Success(sel) => Rectangular(sel.rows) && b == Assemble(sel, layout, headertype, colnames);
    SelectsDeterministic(cfg, sa, sb);
  }

  /** The one-column fallback under the default layout: a single column named by
      the first line, stripped, holding the other lines, and no dialect. A single
      line leaves no record for numpy to build. */
  lemma FallbackTable(lines: seq<string>)
    requires lines != []
    ensures Rectangular(FallbackRows(lines))
    ensures |lines| == 1 ==> Assemble(Selection(None, FallbackRows(lines)), DefaultLayout, None, []) == Failure(NoRecords)
    ensures var r := Assemble(Selection(None, FallbackRows(lines)), DefaultLayout, None, []);
            |lines| >= 2 ==>
              r.Success? && r.value.dialect == None &&
              ColNames(r.value.table) == [Strip(lines[0])] &&
              |r.value.table.columns[0].values| == |lines| - 1
  {
    var rows := FallbackRows(lines);
    var names := [Strip(lines[0])];
    FallbackBuilds(lines);
    if |lines| >= 2 {
      var t := Columns(names, rows[1..]);
      assert Assemble(Selection(None, rows), DefaultLayout, None, []) == Success(AsciiTable(t, None));
      assert ColNames(t) == names && |t.columns[0].values| == |lines| - 1 by {
        assert t.columns[0] == ColumnOf(names, rows[1..], 0);
      }
    }
  }

  lemma FallbackBuilds(lines: seq<string>)
    requires lines != []
    ensures Wide(FallbackRows(lines)[1..], 1)
    ensures |lines| == 1 ==> RecordArray(FallbackRows(lines), DefaultLayout, None, []) == Failure(NoRecords)
    ensures |lines| >= 2 ==> RecordArray(FallbackRows(lines), DefaultLayout, None, []) ==
                             Success(Columns([Strip(lines[0])], FallbackRows(lines)[1..]))
  {
    var rows := FallbackRows(lines);
    var res := Resolved(rows[0], rows[1..], None);
    assert rows[0] == [Strip(lines[0])];
    assert RecordArray(rows, DefaultLayout, None, []) == Records(res, []) by {
      HeaderRowDefaults(rows, 1);
    }
    if |lines| == 1 {
      assert res.data == [];
    } else {
      assert res.data != [];
      StrippedFieldName(lines[0]);
      assert Records(res, []) == Success(Columns([Strip(lines[0])], rows[1..]));
    }
  }

  lemma StrippedFieldName(line: string)
    ensures FieldNames([Strip(line)], 1) == [Strip(line)]
  {
    var name := Strip(line);
    var fields := FieldNames([name], 1);
    assert fields == [fields[0]];
    assert fields[0] == Strip(name);
    StripIdempotent(line);
  }

  /** With no delimiter to try, every line is one field. */
  lemma NoDelimitersOneColumn(cfg: SearchConfig, r: Result<AsciiTable, TableError>)
    requires ValidQuoteChars(cfg.quotechars) && cfg.delimiters == [] && cfg.input != []
    requires ParsesAs(cfg, DefaultLayout, None, [], r)
    ensures |cfg.input| == 1 ==> r == Failure(NoRecords)
    ensures |cfg.input| >= 2 ==>
              r.Success? && r.value.dialect == None &&
              ColNames(r.value.table) == [Strip(cfg.input[0])] &&
              |r.value.table.columns[0].values| == |cfg.input| - 1
  {
    var s :| Selects(cfg, s) &&
      match s
      case Failure(e) => r == Failure(e)
      case Success(sel) => Rectangular(sel.rows) && r == Assemble(sel, DefaultLayout, None, []);
    assert s == Success(Selection(None, FallbackRows(cfg.input)));
    FallbackTable(cfg.input);
  }

  /** With headertype 'none' the columns are named by `colnames` when given, else
      col1, col2, ...; numpy strips the names and cuts or pads them to the column count. */
  lemma UnheadedColumnNames(cfg: SearchConfig, layout: Layout, colnames: seq<string>, r: Result<AsciiTable, TableError>)
    requires ParsesAs(cfg, layout, Some("none"), colnames, r) && r.Success?
    ensures var n := |r.value.table.columns|;
            ColNames(r.value.table) == FieldNames(if colnames != [] then colnames else AutoNames(n), n)
  {
    var s :| Selects(cfg, s) &&
      match s
      case Failure(e) => r == Failure(e)
      case Success(sel) => Rectangular(sel.rows) && r == Assemble(sel, layout, Some("none"), colnames);
    var rows := s.value.rows;
    var t := RecordArray(rows, layout, Some("none"), colnames).value;
    assert r.value.table == t;
    var res := Resolved(AutoNames(|rows[0]|), rows, None);
    assert ResolveLayout(rows, layout, Some("none")) == Success(res) by {
      HeaderTypeMeaning(rows, layout, "none");
      NoHeaderRow(rows, None);
    }
    var names := FieldNames(if colnames != [] then colnames else res.header, |res.header|);
    assert |t.columns| == |res.header| && forall c :: 0 <= c < |t.columns| ==> t.columns[c].name == names[c] by {
      RecordArrayShape(rows, layout, Some("none"), colnames);
    }
    assert ColNames(t) == names;
  }
}
