/**
 * The line splitter that Ska/Table.py obtains from Python's csv.reader, reduced to
 * the states that matter for one line: start of field, inside a plain field, inside
 * a quoted field, and just after a quote inside a quoted field (a doubled quote
 * stands for one quote character).
 */
module Tokenizer {
  import opened Text

  datatype State = StartField | InField | InQuoted | QuoteInQuoted

  /** Feeds the characters of `s` to the reader; `field` is the field being built
      and `done` the fields already saved.  End of line saves the current field. */
  function Scan(s: string, delimiter: char, quote: char, skipInitialSpace: bool,
                st: State, field: string, done: seq<string>): (fields: seq<string>)
    ensures |fields| > |done| && fields[..|done|] == done
    decreases |s|
  {
    if s == [] then done + [field]
    else
      var c, rest := s[0], s[1..];
      match st
      case StartField =>
        if c == quote then Scan(rest, delimiter, quote, skipInitialSpace, InQuoted, field, done)
        else if c == ' ' && skipInitialSpace then Scan(rest, delimiter, quote, skipInitialSpace, StartField, field, done)
        else if c == delimiter then Scan(rest, delimiter, quote, skipInitialSpace, StartField, [], done + [field])
        else Scan(rest, delimiter, quote, skipInitialSpace, InField, field + [c], done)
      case InField =>
        if c == delimiter then Scan(rest, delimiter, quote, skipInitialSpace, StartField, [], done + [field])
        else Scan(rest, delimiter, quote, skipInitialSpace, InField, field + [c], done)
      case InQuoted =>
        if c == quote then Scan(rest, delimiter, quote, skipInitialSpace, QuoteInQuoted, field, done)
        else Scan(rest, delimiter, quote, skipInitialSpace, InQuoted, field + [c], done)
      case QuoteInQuoted =>
        if c == quote then Scan(rest, delimiter, quote, skipInitialSpace, InQuoted, field + [c], done)
        else if c == delimiter then Scan(rest, delimiter, quote, skipInitialSpace, StartField, [], done + [field])
        else Scan(rest, delimiter, quote, skipInitialSpace, InField, field + [c], done)
  }

  /** The fields csv.reader yields for one line: none for an empty line. */
  function Tokenize(line: string, delimiter: char, quote: char, skipInitialSpace: bool): (fields: seq<string>)
    ensures line == [] <==> fields == []
  {
    if line == [] then [] else Scan(line, delimiter, quote, skipInitialSpace, StartField, [], [])
  }

  lemma {:induction false} ScanUnquoted(s: string, delimiter: char, quote: char, st: State,
                                        field: string, done: seq<string>)
    requires quote !in s && quote != delimiter
    requires st == InField || (st == StartField && field == [])
    ensures var parts := SplitOn(s, delimiter);
            Scan(s, delimiter, quote, false, st, field, done) == done + [field + parts[0]] + parts[1..]
  {
    var parts := SplitOn(s, delimiter);
    if s == [] {
      assert field + parts[0] == field;
    } else {
      var c, rest := s[0], s[1..];
      assert quote !in rest by { assert forall x :: x in rest ==> x in s; }
      var tail := SplitOn(rest, delimiter);
      if c == delimiter {
        ScanUnquoted(rest, delimiter, quote, StartField, [], done + [field]);
        assert parts == [[]] + tail;
        assert [] + tail[0] == tail[0];
        assert field + parts[0] == field;
        assert done + [field] + ([tail[0]] + tail[1..]) == done + [field + parts[0]] + parts[1..];
      } else {
        ScanUnquoted(rest, delimiter, quote, InField, field + [c], done);
        assert parts == [[c] + tail[0]] + tail[1..];
        assert field + [c] + tail[0] == field + ([c] + tail[0]);
      }
    }
  }

  /** Without quote characters and without space skipping, the reader splits a
      non-empty line on every delimiter, and its fields join back to the line. */
  lemma TokenizeUnquoted(line: string, delimiter: char, quote: char)
    requires line != [] && quote !in line && quote != delimiter
    ensures Tokenize(line, delimiter, quote, false) == SplitOn(line, delimiter)
    ensures Join(Tokenize(line, delimiter, quote, false), [delimiter]) == line
  {
    ScanUnquoted(line, delimiter, quote, StartField, [], []);
    var parts := SplitOn(line, delimiter);
    calc {
      Tokenize(line, delimiter, quote, false);
      Scan(line, delimiter, quote, false, StartField, [], []);
      [] + [[] + parts[0]] + parts[1..];
      { assert [] + parts[0] == parts[0]; }
      parts;
    }
    JoinSplitOn(line, delimiter);
  }
}
