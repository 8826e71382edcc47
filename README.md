# Ska table parsing, modelled in Dafny

This project models the ASCII-table engine of `Ska/Table.py` and the path and glob
helpers of `Ska/File.py`, and proves properties of the model.

- **Dialect scoring** (`_parse_ascii_lines`). One candidate dialect splits every line.
  The batch is rejected when a line has one field or when field counts differ.
  Otherwise fields wrapped in the other quote character are counted as warnings.
- **Dialect search** (`_parse_ascii_table`). The quote characters are checked and
  comment lines removed. Candidates are then tried quote-outer, delimiter-inner.
  - The first candidate with zero warnings wins at once.
  - Otherwise the accepted candidate with the fewest warnings wins.
  - Otherwise every line becomes a one-field row and no dialect is reported.
- **Record array** (`_make_record_array`). The header row and the first data row are
  resolved, including the legacy `headertype` values and Python's negative indexing
  and slice clamping. Each column is classified int, float or text with two flag
  arrays, its values are converted, and the columns are named (`colnames` first,
  else the header, else `col1`, `col2`, ...). As in numpy, an empty data slice is an
  error, and so are rows with no field (blank lines all split to no field and pass the
  dialect check), and a header row that lies inside the data slice and was converted to
  numbers along with it.
- **parse_ascii_table**: the search followed by the record array.
- **VOTS header** (`_parse_vots_header`). Marker lines switch the current section,
  trailing blank lines are popped, the description is joined into text, and every
  other non-empty section is parsed as a table.
- **VOTS reader** (`parse_vots_table`). `##` lines are dropped, `#` lines are header,
  the rest is data. Data columns are named from the `name` column of `FIELD::`.
- **relpath** on component lists, and the file-count bounds of `get_globfiles`.

Modules: `Wrappers` (Option, Result, errors), `Text` (strip, lower, join, split),
`Tokenizer` (the csv reader on one line), `Dialects`, `DialectSearch`, `Literals`
(the strings `int()` and `float()` accept), `RecordArrays`, `AsciiTables`,
`VotsHeader`, `VotsTables`, `Files`.

Each loop of the source is a method proved against a specification function or
predicate. Lemmas state what the source promises about those specifications.
Python exceptions are `Failure` values of `Result`.

Three behaviours of the code are easy to misread:
- **Ties.** Among accepted candidates with the same fewest warnings, the *later* one
  wins, because the code overwrites `dialect_for[warnings]` (`DialectSearch.LaterTieWins`).
- **No data lines.** When comment removal leaves no line, the first candidate reads an
  unset `n_cols`. The error escapes the search, modelled as `ColumnCountUnset`.
- **Nothing to try.** With an empty quote or delimiter list, the fallback rows come
  from the raw input (comments included), because `lines` is never reassigned.

## Model

| member | source | states |
|---|---|---|
| Text.StripIsSlice | Ska/Table.py:51-52 | strip() yields a slice of the field, and what it removes at both ends is whitespace |
| Text.StripIdempotent | Ska/Table.py:194-195 | stripping an already stripped line changes nothing |
| Text.JoinSplitOn | Ska/File.py:69-70 | splitting a path on the separator and joining the parts back gives the path |
| Text.SplitOnJoin | Ska/File.py:84-85 | joining separator-free parts and splitting again gives the parts back |
| Tokenizer.TokenizeUnquoted | Ska/Table.py:33-37 | without quotes or space skipping, the reader splits a non-empty line on every delimiter, and its fields join back to the line |
| Dialects.OtherQuote | Ska/Table.py:41 | the other quote character is a quote character different from the selected one |
| Dialects.ParseLines | Ska/Table.py:27-66 | the loop yields exactly the batch evaluation. An accepted batch records n_cols, which is not 1, and has one row per line, each n_cols wide |
| Dialects.RejectedAt | Ska/Table.py:45-48 | a line with one field, or with a field count different from the first line's, rejects the batch |
| Dialects.NoWarningsIff | Ska/Table.py:54-55 | the warning count is zero iff no field of any row starts and ends with the other quote character |
| Dialects.AcceptedFieldsStripped | Ska/Table.py:50-52 | with cleanspaces set, every field of an accepted batch is stripped |
| DialectSearch.DataLines | Ska/Table.py:179 | no comment line survives, and every non-comment line is kept |
| DialectSearch.DataLinesStep | Ska/Table.py:179 | one more input line adds itself at the end of the kept lines when it is not a comment, and nothing otherwise, so the kept lines keep their order |
| DialectSearch.DataLinesConcat | Ska/Table.py:179 | filtering two batches one after the other gives the filtered concatenation |
| DialectSearch.SelectedDialect | Ska/Table.py:182-201 | a selected dialect uses a listed delimiter and quote character, carries the caller's cleanspaces and comment, skips initial spaces iff cleanspaces is set or its delimiter is a space, and its rows are the data lines, stripped when it skips spaces, each split by that dialect |
| DialectSearch.FallbackOfStripped | Ska/Table.py:194-197 | the one-field fallback rows are the same whether or not the lines were stripped first |
| DialectSearch.FewestWarnings | Ska/Table.py:222 | the chosen warning count is a recorded one and no recorded count is smaller |
| DialectSearch.SelectDialect | Ska/Table.py:159-227 | the search's result satisfies `Selects`: a bad quote list fails, an empty list of candidates gives the raw fallback, no data lines fail, else the first clean candidate, else the last fewest-warnings candidate, else the stripped fallback |
| DialectSearch.UnsetSelects | Ska/Table.py:65 | a batch with no lines makes the search fail with the unset column count |
| DialectSearch.CleanSelects | Ska/Table.py:206-209 | the first zero-warning candidate ends the search with its dialect and rows |
| DialectSearch.RankedSelects | Ska/Table.py:219-223 | without a clean candidate, the kept entry with the smallest warning count is the result |
| DialectSearch.UnrankedSelects | Ska/Table.py:224-227 | with no candidate accepted, every line becomes a one-field stripped row and no dialect is reported |
| DialectSearch.SelectsDeterministic | Ska/Table.py:159-227 | the characterisation of the search admits exactly one outcome |
| DialectSearch.LaterTieWins | Ska/Table.py:212-214 | of two accepted candidates tied on the fewest, non-zero warnings, a candidate after the earlier one is selected |
| Literals.IntLiteralIsFloat | Ska/Table.py:101-110 | every string int() accepts with no blank after its sign, float() accepts too |
| Literals.SpacedSignIntNotFloat | Ska/Table.py:101-110 | "- 1" is accepted by int(), with value -1, and refused by float() |
| RecordArrays.PyIndex | Ska/Table.py:84 | Python list indexing is defined iff -n <= i < n, counting negative indices from the end |
| RecordArrays.SliceStartAtIndex | Ska/Table.py:84-91 | for an index inside the list, the slice a[i:] starts where a[i] is |
| RecordArrays.DecimalInjective | Ska/Table.py:87 | "%d" gives different numbers different texts |
| RecordArrays.AutoNamesDistinct | Ska/Table.py:87 | the generated names col1, col2, ... are pairwise distinct |
| RecordArrays.ResolveLayout | Ska/Table.py:83-91 | the data rows are a suffix of the batch |
| RecordArrays.HeaderTypeMeaning | Ska/Table.py:70-81 | 'names' is header row 1 and data row 2, 'rdb' is rows 1 and 3, 'none' is no header; any other value is refused, and the caller's rows are overridden |
| RecordArrays.HeaderRowDefaults | Ska/Table.py:83-91 | with header row h in the table and no data start, the header is row h and the data is every later row |
| RecordArrays.ExplicitDataStart | Ska/Table.py:83-91 | with header row h and data start d, the header is row h, the data is Python's rows[d-1:], and the header is one of the data rows exactly when that slice starts at or before it |
| RecordArrays.RdbLayout | Ska/Table.py:74-91 | headertype 'rdb' takes row 1 as the header and rows 3 on as data, skipping the type row |
| RecordArrays.NoHeaderRow | Ska/Table.py:85-90 | without a header row (None or 0) the names are col1..colN after the first row and every row is data; an empty batch is an index error |
| RecordArrays.HeaderRowIndexing | Ska/Table.py:83-91 | a header row past either end is an index error, and a non-positive one counts from the end, as does the default data start |
| RecordArrays.FieldNames | Ska/Table.py:121 | numpy's field names: each given name stripped, cut to the field count, missing ones named f<i> |
| RecordArrays.AutoNamesAreFieldNames | Ska/Table.py:87 | generated names are unchanged by numpy's name handling and never collide |
| RecordArrays.AutoNamedRecords | Ska/Table.py:85-121 | a non-empty rectangular batch without header row and names builds the table of all its rows under col1..colN when its rows have a field, and fails with no fields otherwise |
| RecordArrays.AutoNamedTableBuilds | Ska/Table.py:85-121 | a non-empty batch without header row and column names builds iff its rows have at least one field, with columns col1..colN each as long as the batch; rows without a field fail |
| RecordArrays.RecordArrayShape | Ska/Table.py:83-121 | a built table has at least one record and at least one column, one per header field, each as long as the data, under distinct names taken from colnames when given, else from the header; a header row inside the data slice was all text |
| RecordArrays.NoFieldsNoTable | Ska/Table.py:83-121 | rows with no field never build: the layout fails, the data slice is empty, or numpy finds no field |
| RecordArrays.NoFieldsExample | Ska/Table.py:83-121 | two empty rows under header row 1 fail with no fields |
| RecordArrays.HeaderInsideDataFails | Ska/Table.py:83-121 | a header row that the data slice includes, in a column converted to numbers, leaves a number among the names, and the build fails |
| RecordArrays.HeaderInsideDataExample | Ska/Table.py:83-121 | rows "1 2" and "3 4" with header row 1 and data start 1 fail that way |
| RecordArrays.ColumnKinds | Ska/Table.py:93-119 | a column is int iff all its values int-parse, float iff all float-parse but not all int-parse, else text. With no rows it is int. Int and text values keep their literal's value and text |
| RecordArrays.InferKinds | Ska/Table.py:93-112 | the flag loops, with their early exit, give each column the kind of its values |
| RecordArrays.ConvertCells | Ska/Table.py:114-119 | every cell is converted according to its column's kind |
| RecordArrays.MakeRecordArray | Ska/Table.py:68-121 | the builder returns the record array its specification defines, or its error |
| AsciiTables.AcceptedRectangular | Ska/Table.py:57-60 | an accepted batch has every row as wide as the first |
| AsciiTables.SelectedRectangular | Ska/Table.py:159-227 | whatever the search selects is rectangular |
| AsciiTables.ParseAsciiTable | Ska/Table.py:123-157 | the result is the search's failure, or the record array of the selected rows carrying the dialect |
| AsciiTables.ParsesAsDeterministic | Ska/Table.py:123-157 | a parse has exactly one outcome |
| AsciiTables.FallbackTable | Ska/Table.py:224-227 | the one-column fallback under the default layout is a single column named by the stripped first line, holding the other lines, with no dialect; a single line leaves no record and fails |
| AsciiTables.StrippedFieldName | Ska/Table.py:121 | a stripped header name is kept by numpy as it is |
| AsciiTables.NoDelimitersOneColumn | Ska/Table.py:182-183 | with no delimiter to try, the table is that single fallback column, with no dialect, and one input line fails with no records |
| AsciiTables.UnheadedColumnNames | Ska/Table.py:77-79 | with headertype 'none' the columns are named by colnames when given, else col1..colN |
| VotsHeader.KeywordNames | Ska/Table.py:235-240 | the markers DESCRIPTION::, COOSYS::, PARAM:: and FIELD:: open the sections description, coosys, param and field |
| VotsHeader.GroupSections | Ska/Table.py:236-244 | the grouping loop builds the sections of the stripped lines |
| VotsHeader.SectionsStep | Ska/Table.py:238-244 | a marker line switches the section and is discarded; any other line joins the current section |
| VotsHeader.KeyAfterNamed | Ska/Table.py:236-241 | the current section is always "none" or one of the four marker names |
| VotsHeader.SectionKeys | Ska/Table.py:242-244 | only those five section names occur |
| VotsHeader.SectionsExtend | Ska/Table.py:242-244 | later lines only extend sections |
| VotsHeader.LineLands | Ska/Table.py:242-244 | every non-marker line is in the section in force before it |
| VotsHeader.TrimBlankTail | Ska/Table.py:247-249 | the trimmed section is a prefix of the section, what was removed is blank, and it does not end with a blank line |
| VotsHeader.TrimBlankLines | Ska/Table.py:247-249 | the popping loop yields the trimmed section |
| VotsHeader.ParseSection | Ska/Table.py:246-255 | the description is joined with newlines, a blank section stays empty, any other section is parsed as a table with header row 1 |
| VotsHeader.ParseVotsHeader | Ska/Table.py:229-257 | on success every section is parsed and no other key appears; on failure some section failed |
| VotsTables.DataPart | Ska/Table.py:295-298 | no data line starts with "#" |
| VotsTables.PartitionCount | Ska/Table.py:291-298 | every line is dropped, header or data, and only one of them |
| VotsTables.PartsStep | Ska/Table.py:291-298 | a "##" line is dropped, a "#" line joins the header without its "#", any other line joins the data |
| VotsTables.SplitLines | Ska/Table.py:289-298 | the partition loop yields the header and data parts of the stripped lines |
| VotsTables.ColumnIndex | Ska/Table.py:312 | the index found is that of the first column with the name, and there is none when no column has it |
| VotsTables.ParseVotsTable | Ska/Table.py:259-314 | the result is the header's failure, the failure to find field names, or the data parsed without header row under those names |
| VotsTables.FieldColumnNames | Ska/Table.py:312 | the names are found iff the header has a FIELD:: table whose first `name` column holds only strings, and they are that column's strings; no FIELD:: section and a FIELD:: section that is not a table are their own errors |
| VotsTables.NoFieldSectionFails | Ska/Table.py:312 | a header without a FIELD:: section makes the parse fail, with the missing section or with an earlier failure of the header |
| VotsTables.DataColumnsNamed | Ska/Table.py:306-313 | a parsed VOTS table has a FIELD:: name column of strings, and its data columns carry those names |
| Files.CheckGlobCount | Ska/File.py:36-43 | the match list is returned unchanged iff its size is within the non-None bounds; too few is reported first, then too many |
| Files.DefaultGlobNeedsOne | Ska/File.py:26 | with the default bounds exactly one match is accepted, and none is too few |
| Files.CommonPrefix | Ska/File.py:77-80 | the popped components are the longest common leading run |
| Files.Relpath | Ska/File.py:64-85 | the popping loop returns the relative path its specification defines |
| Files.RelPathResolves | Ska/File.py:72-85 | different first directories give the destination itself; otherwise walking the result from cwd ("..": up one, a name: down) reaches the destination |
| Files.RelPathFails | Ska/File.py:78-85 | relpath fails exactly when destination and cwd are the same path |
| Files.RelPathBelow | Ska/File.py:57-58 | a destination below cwd gives the remaining names joined, without "..": the loop strips all of cwd |
| Files.RelPartsJoin | Ska/File.py:84-85 | joining ".."s and names gives them separated by "/", and splitting gives them back |
| Files.JoinPathsPlain | Ska/File.py:85 | os.path.join of names that contain no "/" joins them with "/" |
| Files.RelPathExampleUp | Ska/File.py:55-56 | from /a/b/c/d, /a/b/hello/there is ../../hello/there |
| Files.RelPathExampleDown | Ska/File.py:57-58 | from /a/b/c/d, /a/b/c/d/e/hello/there is e/hello/there |
| Files.RelPathExampleElsewhere | Ska/File.py:60-62 | from /a/b/c/d, /x/y/hello/there is returned as it is |

## Left out

- File opening and the iterable check of `parse_ascii_table` and `parse_vots_table`
  are I/O. The model starts from the lines.
- Debug output (`loud`, `print >>debug`) writes to stderr and has no effect on results.
- `parse_fits_table`, `parse_table` and `main` are left out. They are calls into the
  FITS reader, stdout swapping and a demo driver.
- `TempDir`, `make_local_copy` and the `glob.glob` call itself are filesystem work.
  `get_globfiles` is modelled on the list the glob returned.
- `os.getcwd`, `os.path.abspath` and the join of cwd with the path in `relpath` are left
  out. The relpath specification takes the components of two normalised absolute paths.
- Tokenizer.Tokenize: multi-line quoted fields, line terminators, `doublequote` off and
  `strict` mode of the csv module are not modelled; one line is one record.
- Dialects.IsComment: the comment pattern is a `re.match` of a regular expression. The
  model accepts only patterns of the form ` *<marker>`, such as the default ` *#`.
- Literals.IsFloatLiteral: float literals are kept as text; binary floating-point values
  are not modelled. Hexadecimal floats, underscores and Unicode digits are not accepted.
- Literals.IntValue: Python 2's `long` range and digit grouping are not modelled.
- Literals.IsIntLiteral: the trailing `L` that Python 2's int() accepts once a literal
  overflows into a `long` is not modelled.
- Literals.IntLiteralIsFloat: holds only when no blank follows the sign. Python 2's int()
  skips blanks after the sign and float() does not, so "- 1" is an int literal and not
  a float literal (Literals.SpacedSignIntNotFloat).
- RecordArrays.RecordArray: numpy's dtype promotion, field widths and the record layout
  are not modelled. A table is a sequence of named, kinded columns.
- VotsHeader.ParseVotsHeader: a dictionary's iteration order is unspecified here, so a
  failure is stated only as the failure of some section.
- VotsHeader.TrimBlankTail: the regular expression `$\s*^` on a stripped line is
  modelled as the line being empty, the only stripped line it matches.
- VotsTables.FieldColumnNames: a `name` column of numbers is refused as
  `NameColumnNotText` before the data lines are parsed. The code first runs the data
  search and the record build, so a failing search or an empty data slice raises its
  own error first; only then does numpy fail on a name with no strip(). The parse fails
  in the same cases, but may report a different error.
