/**
 * Dialects and the batch evaluator of Ska/Table.py (_parse_ascii_lines): one
 * candidate dialect is applied to every line; the batch is rejected when a line
 * yields exactly one field or when two lines yield different field counts, and
 * otherwise scored by counting fields wrapped in the other quote character.
 */
module Dialects {
  import opened Wrappers
  import opened Text
  import opened Tokenizer

  const DoubleQuote: char := '"'
  const SingleQuote: char := '\''

  predicate IsQuoteChar(q: char) {
    q == DoubleQuote || q == SingleQuote
  }

  /** The quote character not selected by the dialect. */
  function OtherQuote(q: char): (o: char)
    requires IsQuoteChar(q)
    ensures IsQuoteChar(o) && o != q
  {
    if q == DoubleQuote then SingleQuote else DoubleQuote
  }

  /** A comment pattern of the form ` *<marker>`: optional spaces, then the marker,
      matched at the start of a line; the default pattern has marker "#". */
  datatype CommentPattern = CommentPattern(marker: string)

  const DefaultComment: CommentPattern := CommentPattern("#")

  predicate IsComment(p: CommentPattern, line: string)
    decreases |line|
  {
    StartsWith(line, p.marker) || (line != [] && line[0] == ' ' && IsComment(p, line[1..]))
  }

  /** The settings of one candidate; nCols is filled in by a successful evaluation. */
  datatype Dialect = Dialect(delimiter: char, quotechar: char, skipInitialSpace: bool,
                             cleanspaces: bool, comment: CommentPattern, nCols: Option<nat>)

  /** The fields of one line, stripped when cleanspaces is set. */
  function RowOf(line: string, d: Dialect): (row: seq<string>)
    ensures |row| == |Tokenize(line, d.delimiter, d.quotechar, d.skipInitialSpace)|
  {
    var fields := Tokenize(line, d.delimiter, d.quotechar, d.skipInitialSpace);
    if d.cleanspaces then seq(|fields|, i requires 0 <= i < |fields| => Strip(fields[i])) else fields
  }

  function Width(line: string, d: Dialect): nat {
    |Tokenize(line, d.delimiter, d.quotechar, d.skipInitialSpace)|
  }

  /** Python's x.startswith(q) and x.endswith(q) for a one-character q. */
  predicate QuotedBy(field: string, q: char) {
    |field| >= 1 && field[0] == q && field[|field| - 1] == q
  }

  function CountQuoted(row: seq<string>, q: char): (n: nat)
    ensures n <= |row|
  {
    if row == [] then 0
    else CountQuoted(row[..|row| - 1], q) + (if QuotedBy(row[|row| - 1], q) then 1 else 0)
  }

  function TotalQuoted(rows: seq<seq<string>>, q: char): nat {
    if rows == [] then 0
    else TotalQuoted(rows[..|rows| - 1], q) + CountQuoted(rows[|rows| - 1], q)
  }

  /** The two rejection rules. */
  predicate Rejects(lines: seq<string>, d: Dialect) {
    (exists i :: 0 <= i < |lines| && Width(lines[i], d) == 1) ||
    (exists i :: 0 <= i < |lines| && Width(lines[i], d) != Width(lines[0], d))
  }

  datatype Evaluation =
    | Accepted(warnings: nat, rows: seq<seq<string>>, dialect: Dialect)
    | Rejected
    | NoLines

  /** What evaluating a batch yields. */
  function Evaluate(lines: seq<string>, d: Dialect): Evaluation
    requires IsQuoteChar(d.quotechar)
  {
    if lines == [] then NoLines
    else if Rejects(lines, d) then Rejected
    else
      var rows := seq(|lines|, i requires 0 <= i < |lines| => RowOf(lines[i], d));
      Accepted(TotalQuoted(rows, OtherQuote(d.quotechar)), rows,
               d.(nCols := Some(Width(lines[|lines| - 1], d))))
  }

  /** The batch evaluator: the loop keeps the warning count, the set of field counts
      seen and the rows parsed so far. */
  method ParseLines(lines: seq<string>, d: Dialect) returns (e: Evaluation)
    requires IsQuoteChar(d.quotechar)
    ensures e == Evaluate(lines, d)
    ensures e.Accepted? ==>
      && e.dialect.nCols.Some? && e.dialect.nCols.value != 1
      && |e.rows| == |lines|
      && forall i :: 0 <= i < |e.rows| ==> |e.rows[i]| == e.dialect.nCols.value
  {
    var other := OtherQuote(d.quotechar);
    var widths: set<nat> := {};
    var warnings: nat := 0;
    var parsed: seq<seq<string>> := [];
    var nCols: Option<nat> := None;
    var i := 0;
    while i < |lines|
      invariant 0 <= i <= |lines| && |parsed| == i
      invariant forall k :: 0 <= k < i ==> parsed[k] == RowOf(lines[k], d)
      invariant warnings == TotalQuoted(parsed, other)
      invariant forall k :: 0 <= k < i ==> Width(lines[k], d) != 1
      invariant i == 0 ==> widths == {} && nCols == None
      invariant i > 0 ==> widths == {Width(lines[0], d)} && nCols == Some(Width(lines[i - 1], d))
      invariant forall k :: 0 <= k < i ==> Width(lines[k], d) == Width(lines[0], d)
    {
      var n := Width(lines[i], d);
      if n == 1 {
        RejectedAt(lines, d, i);
        return Rejected;
      }
      var fields := RowOf(lines[i], d);
      warnings := warnings + CountQuoted(fields, other);
      SeenWidths(widths, n, if i == 0 then n else Width(lines[0], d));
      widths := widths + {n};
      if |widths| > 1 {
        RejectedAt(lines, d, i);
        return Rejected;
      }
      assert (parsed + [fields])[..i] == parsed;
      parsed := parsed + [fields];
      nCols := Some(n);
      i := i + 1;
    }
    if nCols == None {
      return NoLines;
    }
    AcceptedAll(lines, d, parsed);
    e := Accepted(warnings, parsed, d.(nCols := nCols));
  }

  lemma RejectedAt(lines: seq<string>, d: Dialect, i: nat)
    requires IsQuoteChar(d.quotechar)
    requires i < |lines| && (Width(lines[i], d) == 1 || Width(lines[i], d) != Width(lines[0], d))
    ensures Evaluate(lines, d) == Rejected
  {
  }

  lemma AcceptedAll(lines: seq<string>, d: Dialect, parsed: seq<seq<string>>)
    requires IsQuoteChar(d.quotechar) && lines != []
    requires forall k :: 0 <= k < |lines| ==> Width(lines[k], d) != 1 && Width(lines[k], d) == Width(lines[0], d)
    requires |parsed| == |lines| && forall k :: 0 <= k < |lines| ==> parsed[k] == RowOf(lines[k], d)
    ensures Evaluate(lines, d) == Accepted(TotalQuoted(parsed, OtherQuote(d.quotechar)), parsed,
                                           d.(nCols := Some(Width(lines[|lines| - 1], d))))
  {
    assert parsed == seq(|lines|, k requires 0 <= k < |lines| => RowOf(lines[k], d));
  }

  lemma SeenWidths(widths: set<nat>, n: nat, first: nat)
    requires widths == {} || widths == {first}
    requires widths == {} ==> first == n
    ensures |widths + {n}| > 1 <==> n != first
    ensures widths + {n} == {first} <==> n == first
  {
    if n != first && widths == {first} {
      assert widths + {n} == {first, n};
    }
  }

  /** A zero warning count means that no field of any row is wrapped in the quote
      character `q`, and conversely. */
  lemma {:induction false} NoWarningsIff(rows: seq<seq<string>>, q: char)
    ensures TotalQuoted(rows, q) == 0 <==>
            forall i, j :: 0 <= i < |rows| && 0 <= j < |rows[i]| ==> !QuotedBy(rows[i][j], q)
  {
    if rows != [] {
      var init, last := rows[..|rows| - 1], rows[|rows| - 1];
      NoWarningsIff(init, q);
      NoWarningsInRow(last, q);
      assert forall i :: 0 <= i < |init| ==> init[i] == rows[i];
      assert (forall i, j :: 0 <= i < |rows| && 0 <= j < |rows[i]| ==> !QuotedBy(rows[i][j], q)) <==>
             (forall i, j :: 0 <= i < |init| && 0 <= j < |init[i]| ==> !QuotedBy(init[i][j], q)) &&
             (forall j :: 0 <= j < |last| ==> !QuotedBy(last[j], q));
    }
  }

  lemma {:induction false} NoWarningsInRow(row: seq<string>, q: char)
    ensures CountQuoted(row, q) == 0 <==> forall j :: 0 <= j < |row| ==> !QuotedBy(row[j], q)
  {
    if row != [] {
      var init := row[..|row| - 1];
      NoWarningsInRow(init, q);
      assert forall j :: 0 <= j < |init| ==> init[j] == row[j];
    }
  }

  /** With cleanspaces set, every field of an accepted batch is already stripped. */
  lemma AcceptedFieldsStripped(lines: seq<string>, d: Dialect, i: nat, j: nat)
    requires IsQuoteChar(d.quotechar) && d.cleanspaces
    requires Evaluate(lines, d).Accepted?
    requires i < |Evaluate(lines, d).rows| && j < |Evaluate(lines, d).rows[i]|
    ensures Strip(Evaluate(lines, d).rows[i][j]) == Evaluate(lines, d).rows[i][j]
  {
    var fields := Tokenize(lines[i], d.delimiter, d.quotechar, d.skipInitialSpace);
    StripIdempotent(fields[j]);
  }
}
