/**
 * Typed table construction of Ska/Table.py (_make_record_array): the header row and
 * the first data row are resolved (the legacy headertype values, Python's row
 * indexing and slicing), every column is classified int, float or text by scanning
 * its values, the values are converted in place, and the rows become named columns.
 */
module RecordArrays {
  import opened Wrappers
  import opened Text
  import opened Literals

  datatype Kind = IntKind | FloatKind | TextKind

  /** A converted cell; a float keeps its literal text (the binary value is not modelled). */
  datatype Value = IntCell(i: int) | FloatCell(literal: string) | TextCell(text: string)

  datatype Column = Column(name: string, kind: Kind, values: seq<Value>)

  /** The record array, column by column. */
  datatype Table = Table(columns: seq<Column>)

  /** Header row and data start, both 1-based; None means "not given". */
  datatype Layout = Layout(headerrow: Option<int>, datastart: Option<int>)

  /** Header names and data rows of a batch. `headerAt` is the position of the header
      row among the data rows when the data slice includes it (an explicit data start
      at or before the header row): the header is then the very row object that the
      conversion pass converts in place. */
  datatype Resolved = Resolved(header: seq<string>, data: seq<seq<string>>, headerAt: Option<nat>)

  predicate Rectangular(rows: seq<seq<string>>) {
    forall i :: 0 <= i < |rows| ==> |rows[i]| == |rows[0]|
  }

  /** Python's a[i] on a list of length n: negative indices count from the end. */
  function PyIndex(n: nat, i: int): (k: Option<nat>)
    ensures k.Some? <==> -(n as int) <= i < n
    ensures k.Some? ==> k.value < n && (k.value == i || k.value == i + n)
  {
    if 0 <= i < n then Some(i) else if -(n as int) <= i < 0 then Some(i + n) else None
  }

  /** The first index of Python's slice a[i:] on a list of length n. */
  function PySliceStart(n: nat, i: int): (k: nat)
    ensures k <= n
    ensures 0 <= i <= n ==> k == i
    ensures i > n ==> k == n
    ensures i < 0 ==> k == if i + n < 0 then 0 else i + n
  {
    if i < 0 then (if i + n < 0 then 0 else i + n) else if i > n then n else i
  }

  /** The deprecated headertype option: 'names' is header row 1 with data from row 2,
      'rdb' is header row 1 with data from row 3, 'none' is no header row. */
  function ApplyHeaderType(headertype: Option<string>, given: Layout): Result<Layout, TableError> {
    match headertype
    case None => Success(given)
    case Some(h) =>
      if h == "names" then Success(Layout(Some(1), Some(2)))
      else if h == "rdb" then Success(Layout(Some(1), Some(3)))
      else if h == "none" then Success(Layout(None, None))
      else Failure(BadHeaderType)
  }

  function DigitChar(d: nat): char
    requires d < 10
  {
    ('0' as int + d) as char
  }

  /** The decimal rendering of n, as "%d" gives it. */
  function Decimal(n: nat): (s: string)
    ensures |s| >= 1
    ensures n >= 10 ==> |s| >= 2
    ensures s[|s| - 1] == DigitChar(n % 10)
  {
    if n < 10 then [DigitChar(n)] else Decimal(n / 10) + [DigitChar(n % 10)]
  }

  lemma {:induction false} DecimalInjective(a: nat, b: nat)
    requires Decimal(a) == Decimal(b)
    ensures a == b
  {
    assert a % 10 == b % 10 by {
      assert DigitChar(a % 10) == DigitChar(b % 10);
    }
    if a >= 10 && b >= 10 {
      var da, db := Decimal(a / 10), Decimal(b / 10);
      assert da == Decimal(a)[..|Decimal(a)| - 1];
      assert db == Decimal(b)[..|Decimal(b)| - 1];
      DecimalInjective(a / 10, b / 10);
    }
  }

  /** The generated name of column i (0-based): "col1", "col2", ... */
  function AutoName(i: nat): string {
    "col" + Decimal(i + 1)
  }

  function AutoNames(n: nat): (names: seq<string>)
    ensures |names| == n
  {
    seq(n, i requires 0 <= i < n => AutoName(i))
  }

  /** Generated names are pairwise distinct. */
  lemma AutoNamesDistinct(n: nat, i: nat, j: nat)
    requires i < n && j < n && i != j
    ensures AutoNames(n)[i] != AutoNames(n)[j]
  {
    if AutoName(i) == AutoName(j) {
      assert Decimal(i + 1) == AutoName(i)[3..];
      assert Decimal(j + 1) == AutoName(j)[3..];
      DecimalInjective(i + 1, j + 1);
    }
  }

  /** Header names and data rows of a parsed batch. */
  function ResolveLayout(rows: seq<seq<string>>, given: Layout, headertype: Option<string>): (r: Result<Resolved, TableError>)
    ensures r.Success? ==> exists k :: 0 <= k <= |rows| && r.value.data == rows[k..]
    ensures r.Success? && r.value.headerAt.Some? ==>
              r.value.headerAt.value < |r.value.data| && r.value.data[r.value.headerAt.value] == r.value.header
  {
    match ApplyHeaderType(headertype, given)
    case Failure(e) => Failure(e)
    case Success(layout) =>
      var named := layout.headerrow.Some? && layout.headerrow.value != 0;
      var index := if named then PyIndex(|rows|, layout.headerrow.value - 1)
                   else if |rows| > 0 then Some(0) else None;
      if index.None? then Failure(RowIndexOutOfRange)
      else
        var header := if named then rows[index.value] else AutoNames(|rows[0]|);
        var headerrow := if named then layout.headerrow.value else 0;
        var datastart := if layout.datastart.Some? then layout.datastart.value else headerrow + 1;
        var k := PySliceStart(|rows|, datastart - 1);
        var at := if named && index.value >= k then Some(index.value - k) else None;
        Success(Resolved(header, rows[k..], at))
  }

  predicate AllInt(data: seq<seq<string>>, c: nat)
    requires forall r :: 0 <= r < |data| ==> c < |data[r]|
  {
    forall r :: 0 <= r < |data| ==> IsIntLiteral(data[r][c])
  }

  predicate AllFloat(data: seq<seq<string>>, c: nat)
    requires forall r :: 0 <= r < |data| ==> c < |data[r]|
  {
    forall r :: 0 <= r < |data| ==> IsFloatLiteral(data[r][c])
  }

  /** The kind of column c: int if every value int-parses, else float if every value
      float-parses, else text. */
  function ColumnKind(data: seq<seq<string>>, c: nat): Kind
    requires forall r :: 0 <= r < |data| ==> c < |data[r]|
  {
    if AllInt(data, c) then IntKind else if AllFloat(data, c) then FloatKind else TextKind
  }

  function Convert(s: string, k: Kind): Value
  {
    match k
    case IntKind => IntCell(IntValue(s))
    case FloatKind => FloatCell(s)
    case TextKind => TextCell(s)
  }

  predicate Wide(data: seq<seq<string>>, ncols: nat) {
    forall r :: 0 <= r < |data| ==> |data[r]| == ncols
  }

  /** Column c: named by names[c], of the kind its values infer, holding them converted. */
  function ColumnOf(names: seq<string>, data: seq<seq<string>>, c: nat): (col: Column)
    requires c < |names| && Wide(data, |names|)
    ensures col.name == names[c] && col.kind == ColumnKind(data, c) && |col.values| == |data|
  {
    var k := ColumnKind(data, c);
    Column(names[c], k, seq(|data|, r requires 0 <= r < |data| => Convert(data[r][c], k)))
  }

  /** numpy's field names for `ncols` fields given `names`: each given name stripped,
      names past the last field dropped, missing ones generated as "f<i>". */
  function FieldNames(names: seq<string>, ncols: nat): (fields: seq<string>)
    ensures |fields| == ncols
    ensures forall i :: 0 <= i < ncols && i < |names| ==> fields[i] == Strip(names[i])
    ensures forall i :: |names| <= i < ncols ==> fields[i] == "f" + Decimal(i)
  {
    seq(ncols, i requires 0 <= i < ncols => if i < |names| then Strip(names[i]) else "f" + Decimal(i))
  }

  /** The columns of a table with the given field names over the data rows. */
  function Columns(names: seq<string>, data: seq<seq<string>>): (t: Table)
    requires Wide(data, |names|)
    ensures |t.columns| == |names|
    ensures forall c :: 0 <= c < |names| ==> t.columns[c] == ColumnOf(names, data, c)
  {
    Table(seq(|names|, c requires 0 <= c < |names| => ColumnOf(names, data, c)))
  }

  predicate Distinct(names: seq<string>) {
    forall i, j :: 0 <= i < j < |names| ==> names[i] != names[j]
  }

  /** Every column of the data is text, so the conversion pass leaves every value a string. */
  predicate AllText(data: seq<seq<string>>, ncols: nat)
    requires Wide(data, ncols)
  {
    forall c :: 0 <= c < ncols ==> ColumnKind(data, c) == TextKind
  }

  /** numpy.rec.fromrecords on the converted data, named by `colnames` when given, else
      by the header. numpy needs at least one record, and cannot take as names a header
      row whose cells the conversion pass turned into numbers. */
  function Records(res: Resolved, colnames: seq<string>): Result<Table, TableError>
    requires Wide(res.data, |res.header|)
  {
    if res.data == [] then Failure(NoRecords)
    else if |res.header| == 0 then Failure(NoFields)
    else if colnames == [] && res.headerAt.Some? && !AllText(res.data, |res.header|) then Failure(NumericFieldName)
    else
      var names := FieldNames(if colnames != [] then colnames else res.header, |res.header|);
      if !Distinct(names) then Failure(DuplicateNames)
      else Success(Columns(names, res.data))
  }

  /** The record array the builder returns. */
  function RecordArray(rows: seq<seq<string>>, given: Layout, headertype: Option<string>,
                       colnames: seq<string>): Result<Table, TableError>
    requires Rectangular(rows)
  {
    match ResolveLayout(rows, given, headertype)
    case Failure(e) => Failure(e)
    case Success(res) =>
      ResolvedWide(rows, given, headertype);
      Records(res, colnames)
  }

  /** Every data row is as wide as the header. */
  lemma ResolvedWide(rows: seq<seq<string>>, given: Layout, headertype: Option<string>)
    requires Rectangular(rows) && ResolveLayout(rows, given, headertype).Success?
    ensures var res := ResolveLayout(rows, given, headertype).value;
            Wide(res.data, |res.header|)
  {
  }

  /** headertype 'names' and 'rdb' stand for an explicit header row 1 with data from
      row 2 and row 3; 'none' for no header row at all; any other value is refused.
      Whatever header row and data start the caller gave are overridden. */
  lemma HeaderTypeMeaning(rows: seq<seq<string>>, given: Layout, h: string)
    ensures h == "names" ==> ResolveLayout(rows, given, Some(h)) == ResolveLayout(rows, Layout(Some(1), Some(2)), None)
    ensures h == "rdb" ==> ResolveLayout(rows, given, Some(h)) == ResolveLayout(rows, Layout(Some(1), Some(3)), None)
    ensures h == "none" ==> ResolveLayout(rows, given, Some(h)) == ResolveLayout(rows, Layout(None, None), None)
    ensures h != "names" && h != "rdb" && h != "none" ==> ResolveLayout(rows, given, Some(h)) == Failure(BadHeaderType)
  {
  }

  /** With a header row h counted from 1 inside the table and no data start, the header
      is row h and the data is every row after it. */
  lemma HeaderRowDefaults(rows: seq<seq<string>>, h: int)
    requires 1 <= h <= |rows|
    ensures ResolveLayout(rows, Layout(Some(h), None), None) == Success(Resolved(rows[h - 1], rows[h..], None))
  {
  }

  /** With an explicit data start d the data is Python's rows[d-1:], and header row h is
      among the data rows exactly when that slice starts at or before it. */
  lemma ExplicitDataStart(rows: seq<seq<string>>, h: int, d: int)
    requires 1 <= h <= |rows|
    ensures var k := PySliceStart(|rows|, d - 1);
            ResolveLayout(rows, Layout(Some(h), Some(d)), None) ==
              Success(Resolved(rows[h - 1], rows[k..], if k <= h - 1 then Some(h - 1 - k) else None))
  {
  }

  /** headertype 'rdb': the header is row 1, row 2 (the column types) is skipped and the
      data starts at row 3. */
  lemma RdbLayout(rows: seq<seq<string>>, given: Layout)
    requires rows != []
    ensures ResolveLayout(rows, given, Some("rdb")) ==
            Success(Resolved(rows[0], if |rows| >= 2 then rows[2..] else [], None))
  {
  }

  /** Python's a[i:] starts where a[i] is, for every index a[i] accepts. */
  lemma SliceStartAtIndex(n: nat, i: int)
    requires -(n as int) <= i < n
    ensures PySliceStart(n, i) == PyIndex(n, i).value
  {
  }

  /** Without a header row (None, or 0 which Python treats as false) the columns are named
      col1, col2, ... after the width of the first row and every row is data; a table
      with no rows has no first row. */
  lemma NoHeaderRow(rows: seq<seq<string>>, h: Option<int>)
    requires h == None || h == Some(0)
    ensures rows == [] ==> ResolveLayout(rows, Layout(h, None), None) == Failure(RowIndexOutOfRange)
    ensures rows != [] ==> ResolveLayout(rows, Layout(h, None), None) == Success(Resolved(AutoNames(|rows[0]|), rows, None))
  {
  }

  /** A header row past either end of the table is an index error; a non-positive one
      counts from the end, as Python indexing does, and so does the default data start
      one past it. */
  lemma HeaderRowIndexing(rows: seq<seq<string>>, h: int)
    requires h != 0
    ensures (h > |rows| || h < 1 - |rows|) ==> ResolveLayout(rows, Layout(Some(h), None), None) == Failure(RowIndexOutOfRange)
    ensures 1 - |rows| <= h < 0 ==>
      ResolveLayout(rows, Layout(Some(h), None), None) == Success(Resolved(rows[|rows| + h - 1], rows[|rows| + h..], None))
  {
  }

  /** Generated column names survive numpy untouched and never collide. */
  lemma AutoNamesAreFieldNames(n: nat)
    ensures FieldNames(AutoNames(n), n) == AutoNames(n)
    ensures Distinct(AutoNames(n))
  {
    var names := AutoNames(n);
    forall c | 0 <= c < n
      ensures Strip(names[c]) == names[c]
    {
      StripUnpadded(names[c]);
    }
    forall i, j | 0 <= i < j < n
      ensures names[i] != names[j]
    {
      AutoNamesDistinct(n, i, j);
    }
  }

  /** So a table without header row and without column names builds exactly when its
      rows have a field; rows with none leave numpy no field to build. */
  lemma AutoNamedTableBuilds(rows: seq<seq<string>>)
    requires Rectangular(rows) && rows != []
    ensures RecordArray(rows, Layout(None, None), None, []).Success? <==> |rows[0]| >= 1
    ensures |rows[0]| == 0 ==> RecordArray(rows, Layout(None, None), None, []) == Failure(NoFields)
    ensures |rows[0]| >= 1 ==>
            var t := RecordArray(rows, Layout(None, None), None, []).value;
            |t.columns| == |rows[0]| &&
            forall c :: 0 <= c < |t.columns| ==> t.columns[c].name == AutoName(c) && |t.columns[c].values| == |rows|
  {
    var names := AutoNames(|rows[0]|);
    AutoNamedRecords(rows);
    if |rows[0]| == 0 {
      return;
    }
    var t := Columns(names, rows);
    forall c | 0 <= c < |t.columns|
      ensures t.columns[c].name == AutoName(c) && |t.columns[c].values| == |rows|
    {
      assert t.columns[c] == ColumnOf(names, rows, c);
      assert names[c] == AutoName(c);
    }
  }

  lemma AutoNamedRecords(rows: seq<seq<string>>)
    requires Rectangular(rows) && rows != []
    ensures Wide(rows, |rows[0]|)
    ensures |rows[0]| == 0 ==> RecordArray(rows, Layout(None, None), None, []) == Failure(NoFields)
    ensures |rows[0]| >= 1 ==>
              RecordArray(rows, Layout(None, None), None, []) == Success(Columns(AutoNames(|rows[0]|), rows))
  {
    var names := AutoNames(|rows[0]|);
    var res := Resolved(names, rows, None);
    assert ResolveLayout(rows, Layout(None, None), None) == Success(res) by {
      NoHeaderRow(rows, None);
    }
    assert RecordArray(rows, Layout(None, None), None, []) == Records(res, []);
    if |rows[0]| >= 1 {
      UnnamedRecords(res);
    }
  }

  /** Records over rows that the generated names head build. */
  lemma UnnamedRecords(res: Resolved)
    requires res.data != [] && res.header != [] && res.headerAt == None && res.header == AutoNames(|res.header|)
    requires Wide(res.data, |res.header|)
    ensures Records(res, []) == Success(Columns(res.header, res.data))
  {
    AutoNamesAreFieldNames(|res.header|);
  }

  /** A built table has at least one record and at least one column, one per header
      field, all as long as the data, under distinct names: the caller's names when
      given, else the header's, stripped and cut or padded to the column count. A header
      row taken from inside the data slice names the columns only when every column
      stayed text. */
  lemma RecordArrayShape(rows: seq<seq<string>>, given: Layout, headertype: Option<string>, colnames: seq<string>)
    requires Rectangular(rows) && RecordArray(rows, given, headertype, colnames).Success?
    ensures ResolveLayout(rows, given, headertype).Success?
    ensures var res := ResolveLayout(rows, given, headertype).value;
            var t := RecordArray(rows, given, headertype, colnames).value;
            |res.data| >= 1 && |t.columns| >= 1 && |t.columns| == |res.header| &&
            (colnames == [] && res.headerAt.Some? ==> AllText(res.data, |res.header|)) &&
            (forall c :: 0 <= c < |t.columns| ==> |t.columns[c].values| == |res.data|) &&
            (forall c :: 0 <= c < |t.columns| ==>
               t.columns[c].name == FieldNames(if colnames != [] then colnames else res.header, |res.header|)[c]) &&
            (forall c, d :: 0 <= c < d < |t.columns| ==> t.columns[c].name != t.columns[d].name)
  {
    var res := ResolveLayout(rows, given, headertype).value;
    var names := FieldNames(if colnames != [] then colnames else res.header, |res.header|);
    ResolvedWide(rows, given, headertype);
    assert Records(res, colnames) == Success(Columns(names, res.data));
  }

  /** Rows without a field never build, whatever the layout and names: the layout fails,
      the data slice is empty, or numpy finds no field. */
  lemma NoFieldsNoTable(rows: seq<seq<string>>, given: Layout, headertype: Option<string>, colnames: seq<string>)
    requires Rectangular(rows) && rows != [] && |rows[0]| == 0
    ensures RecordArray(rows, given, headertype, colnames).Failure?
    ensures ResolveLayout(rows, given, headertype).Success? && ResolveLayout(rows, given, headertype).value.data != [] ==>
              RecordArray(rows, given, headertype, colnames) == Failure(NoFields)
  {
    var layout := ResolveLayout(rows, given, headertype);
    if layout.Success? && layout.value.data != [] {
      var res := layout.value;
      ResolvedWide(rows, given, headertype);
      var k :| 0 <= k <= |rows| && res.data == rows[k..];
      assert |res.data[0]| == |rows[k]| == 0;
      assert |res.header| == 0;
    }
  }

  /** Two empty rows under the default layout, header row 1: numpy has no field to build. */
  lemma NoFieldsExample(rows: seq<seq<string>>)
    requires rows == [[], []]
    ensures RecordArray(rows, Layout(Some(1), None), None, []) == Failure(NoFields)
  {
    HeaderRowDefaults(rows, 1);
    NoFieldsNoTable(rows, Layout(Some(1), None), None, []);
  }

  /** A header row inside the data slice cannot name the columns once some column of the
      data is numeric: its cells were converted along with the data. */
  lemma HeaderInsideDataFails(rows: seq<seq<string>>, h: int, d: int, c: nat)
    requires Rectangular(rows) && 1 <= h <= |rows| && PySliceStart(|rows|, d - 1) <= h - 1
    requires c < |rows[0]| && ColumnKind(rows[PySliceStart(|rows|, d - 1)..], c) != TextKind
    ensures RecordArray(rows, Layout(Some(h), Some(d)), None, []) == Failure(NumericFieldName)
  {
    var k := PySliceStart(|rows|, d - 1);
    var res := Resolved(rows[h - 1], rows[k..], Some(h - 1 - k));
    assert ResolveLayout(rows, Layout(Some(h), Some(d)), None) == Success(res) by {
      ExplicitDataStart(rows, h, d);
    }
    assert RecordArray(rows, Layout(Some(h), Some(d)), None, []) == Records(res, []);
    assert Wide(res.data, |res.header|) && !AllText(res.data, |res.header|);
  }

  /** For instance the rows "1 2" and "3 4" read with header row 1 and data from row 1. */
  lemma HeaderInsideDataExample(rows: seq<seq<string>>)
    requires rows == [["1", "2"], ["3", "4"]]
    ensures RecordArray(rows, Layout(Some(1), Some(1)), None, []) == Failure(NumericFieldName)
  {
    assert ColumnKind(rows, 0) == IntKind by {
      DigitIsInt(rows[0][0]);
      DigitIsInt(rows[1][0]);
    }
    assert rows[PySliceStart(|rows|, 0)..] == rows;
    HeaderInsideDataFails(rows, 1, 1, 0);
  }

  lemma DigitIsInt(s: string)
    requires |s| == 1 && IsDigit(s[0])
    ensures IsIntLiteral(s)
  {
    assert s[1..] == [];
  }

  /** A column is int when every value is an int literal, float when every value is a
      float literal but not every one an int, text otherwise; with no data rows every
      column is int. Int values keep their literal's value, text values their string. */
  lemma ColumnKinds(data: seq<seq<string>>, names: seq<string>, c: nat)
    requires c < |names| && Wide(data, |names|)
    ensures var col := ColumnOf(names, data, c);
            (col.kind == IntKind <==> forall r :: 0 <= r < |data| ==> IsIntLiteral(data[r][c])) &&
            (col.kind == FloatKind <==>
               (forall r :: 0 <= r < |data| ==> IsFloatLiteral(data[r][c])) &&
               exists r :: 0 <= r < |data| && !IsIntLiteral(data[r][c])) &&
            (data == [] ==> col.kind == IntKind) &&
            (col.kind == IntKind ==> forall r :: 0 <= r < |data| ==> col.values[r] == IntCell(IntValue(data[r][c]))) &&
            (col.kind == TextKind ==> forall r :: 0 <= r < |data| ==> col.values[r] == TextCell(data[r][c]))
  {
  }

  /** The first pass of the builder: per column, an int flag and a float flag start
      set and are cleared by the first value int() or float() rejects; the scan of a
      column stops once both are clear. */
  method InferKinds(data: seq<seq<string>>, ncols: nat) returns (kinds: seq<Kind>)
    requires Wide(data, ncols)
    ensures |kinds| == ncols
    ensures forall c :: 0 <= c < ncols ==> kinds[c] == ColumnKind(data, c)
  {
    var couldBeInt := new bool[ncols](_ => true);
    var couldBeFloat := new bool[ncols](_ => true);
    for c := 0 to ncols
      invariant forall k :: 0 <= k < c ==> couldBeInt[k] == AllInt(data, k) && couldBeFloat[k] == AllFloat(data, k)
      invariant forall k :: c <= k < ncols ==> couldBeInt[k] && couldBeFloat[k]
    {
      for r := 0 to |data|
        invariant forall k :: 0 <= k < c ==> couldBeInt[k] == AllInt(data, k) && couldBeFloat[k] == AllFloat(data, k)
        invariant forall k :: c < k < ncols ==> couldBeInt[k] && couldBeFloat[k]
        invariant couldBeInt[c] == forall i :: 0 <= i < r ==> IsIntLiteral(data[i][c])
        invariant couldBeFloat[c] == forall i :: 0 <= i < r ==> IsFloatLiteral(data[i][c])
      {
        if couldBeFloat[c] && !IsFloatLiteral(data[r][c]) {
          couldBeFloat[c] := false;
        }
        if couldBeInt[c] && !IsIntLiteral(data[r][c]) {
          couldBeInt[c] := false;
        }
        if !couldBeInt[c] && !couldBeFloat[c] {
          assert !IsIntLiteral(data[r][c]) || !AllInt(data, c);
          assert !IsFloatLiteral(data[r][c]) || !AllFloat(data, c);
          break;
        }
      }
    }
    var ints, floats := couldBeInt[..], couldBeFloat[..];
    kinds := seq(ncols, c requires 0 <= c < ncols =>
      if ints[c] then IntKind else if floats[c] then FloatKind else TextKind);
  }

  /** The second pass: the values of an int column become ints, of a float column
      floats; text columns keep their strings. */
  method ConvertCells(data: seq<seq<string>>, kinds: seq<Kind>) returns (cells: seq<seq<Value>>)
    requires Wide(data, |kinds|)
    ensures |cells| == |data|
    ensures forall r :: 0 <= r < |data| ==> |cells[r]| == |kinds|
    ensures forall r, c :: 0 <= r < |data| && 0 <= c < |kinds| ==> cells[r][c] == Convert(data[r][c], kinds[c])
  {
    cells := seq(|data|, r requires 0 <= r < |data| =>
      seq(|kinds|, c requires 0 <= c < |kinds| => TextCell(data[r][c])));
    for c := 0 to |kinds|
      invariant |cells| == |data| && forall r :: 0 <= r < |data| ==> |cells[r]| == |kinds|
      invariant forall r, k :: 0 <= r < |data| && 0 <= k < c ==> cells[r][k] == Convert(data[r][k], kinds[k])
      invariant forall r, k :: 0 <= r < |data| && c <= k < |kinds| ==> cells[r][k] == TextCell(data[r][k])
    {
      for r := 0 to |data|
        invariant |cells| == |data| && forall i :: 0 <= i < |data| ==> |cells[i]| == |kinds|
        invariant forall i, k :: 0 <= i < |data| && 0 <= k < c ==> cells[i][k] == Convert(data[i][k], kinds[k])
        invariant forall i, k :: 0 <= i < |data| && c < k < |kinds| ==> cells[i][k] == TextCell(data[i][k])
        invariant forall i :: 0 <= i < r ==> cells[i][c] == Convert(data[i][c], kinds[c])
        invariant forall i :: r <= i < |data| ==> cells[i][c] == TextCell(data[i][c])
      {
        if kinds[c] == IntKind {
          cells := cells[r := cells[r][c := IntCell(IntValue(data[r][c]))]];
        } else if kinds[c] == FloatKind {
          cells := cells[r := cells[r][c := FloatCell(data[r][c])]];
        }
      }
    }
  }

  /** A converted row keeps only strings exactly when every column is text, and then
      holds the row's own strings. */
  lemma ConvertedHeader(data: seq<seq<string>>, kinds: seq<Kind>, cells: seq<seq<Value>>, at: nat)
    requires Wide(data, |kinds|) && at < |data| && |cells| == |data| && |cells[at]| == |kinds|
    requires forall c :: 0 <= c < |kinds| ==> kinds[c] == ColumnKind(data, c)
    requires forall c :: 0 <= c < |kinds| ==> cells[at][c] == Convert(data[at][c], kinds[c])
    ensures (forall c :: 0 <= c < |kinds| ==> cells[at][c].TextCell?) <==> AllText(data, |kinds|)
    ensures AllText(data, |kinds|) ==> forall c :: 0 <= c < |kinds| ==> cells[at][c] == TextCell(data[at][c])
  {
  }

  /** A column gathered from the converted cells is the column the specification builds. */
  lemma ColumnFromCells(names: seq<string>, data: seq<seq<string>>, kinds: seq<Kind>,
                        cells: seq<seq<Value>>, c: nat)
    requires |kinds| == |names| && Wide(data, |names|) && c < |names|
    requires kinds[c] == ColumnKind(data, c)
    requires |cells| == |data| && forall i :: 0 <= i < |data| ==> |cells[i]| == |kinds|
    requires forall i :: 0 <= i < |data| ==> cells[i][c] == Convert(data[i][c], kinds[c])
    ensures Column(names[c], kinds[c], seq(|data|, i requires 0 <= i < |data| => cells[i][c])) ==
            ColumnOf(names, data, c)
  {
  }

  /** _make_record_array: resolves header and data rows, infers the column kinds,
      converts the values and names the columns. */
  method MakeRecordArray(rows: seq<seq<string>>, given: Layout, headertype: Option<string>,
                         colnames: seq<string>) returns (r: Result<Table, TableError>)
    requires Rectangular(rows)
    ensures r == RecordArray(rows, given, headertype, colnames)
  {
    var resolved := ResolveLayout(rows, given, headertype);
    if resolved.Failure? {
      return Failure(resolved.error);
    }
    var res := resolved.value;
    var header, data := res.header, res.data;
    ResolvedWide(rows, given, headertype);
    assert RecordArray(rows, given, headertype, colnames) == Records(res, colnames);
    var ncols := |header|;
    var kinds := InferKinds(data, ncols);
    var cells := ConvertCells(data, kinds);
    if |data| == 0 {
      return Failure(NoRecords);
    }
    if ncols == 0 {
      return Failure(NoFields);
    }
    var names: seq<string>;
    if colnames != [] {
      names := FieldNames(colnames, ncols);
    } else if res.headerAt.Some? {
      // The header is one of the rows the second pass converted.
      var at := res.headerAt.value;
      var row := cells[at];
      ConvertedHeader(data, kinds, cells, at);
      if exists c :: 0 <= c < ncols && !row[c].TextCell? {
        return Failure(NumericFieldName);
      }
      var texts := seq(ncols, c requires 0 <= c < ncols => row[c].text);
      assert texts == header by {
        assert forall c :: 0 <= c < ncols ==> texts[c] == data[at][c];
      }
      names := FieldNames(texts, ncols);
    } else {
      names := FieldNames(header, ncols);
    }
    assert names == FieldNames(if colnames != [] then colnames else header, ncols);
    if !Distinct(names) {
      return Failure(DuplicateNames);
    }
    var columns := seq(ncols, c requires 0 <= c < ncols =>
      Column(names[c], kinds[c], seq(|data|, i requires 0 <= i < |data| => cells[i][c])));
    assert Table(columns) == Columns(names, data) by {
      forall c | 0 <= c < ncols
        ensures columns[c] == ColumnOf(names, data, c)
      {
        ColumnFromCells(names, data, kinds, cells, c);
      }
    }
    r := Success(Table(columns));
  }
}
