/**
 * The VOTS header parser of Ska/Table.py (_parse_vots_header): header lines are
 * grouped into sections opened by the markers DESCRIPTION::, COOSYS::, PARAM:: and
 * FIELD:: (lines before the first marker form section "none"); each section loses
 * its trailing blank lines, then the description is joined into one text and every
 * other non-empty section is parsed as an ASCII table.
 */
module VotsHeader {
  import opened Wrappers
  import opened Text
  import opened Dialects
  import opened DialectSearch
  import opened RecordArrays
  import opened AsciiTables

  /** The lines that open a section, compared after strip(). */
  const Keywords: seq<string> := ["DESCRIPTION::", "COOSYS::", "PARAM::", "FIELD::"]

  /** The section names the parser can produce. */
  const SectionNames: set<string> := {"none", "description", "coosys", "param", "field"}

  /** The section a marker opens: the marker without its last two characters (its
      "::"), lower-cased. */
  function SectionName(marker: string): string {
    Lower(marker[..if |marker| >= 2 then |marker| - 2 else 0])
  }

  /** Each marker opens the section named by its lower-cased word. */
  lemma KeywordNames()
    ensures SectionName(Keywords[0]) == "description" && SectionName(Keywords[1]) == "coosys"
    ensures SectionName(Keywords[2]) == "param" && SectionName(Keywords[3]) == "field"
    ensures forall m :: m in Keywords ==> SectionName(m) in SectionNames
  {
    assert Keywords[0][..11] == "DESCRIPTION";
    assert Keywords[1][..6] == "COOSYS";
    assert Keywords[2][..5] == "PARAM";
    assert Keywords[3][..5] == "FIELD";
  }

  /** The section in force after the (stripped) lines `ls`. */
  function KeyAfter(ls: seq<string>): string {
    if ls == [] then "none"
    else if ls[|ls| - 1] in Keywords then SectionName(ls[|ls| - 1])
    else KeyAfter(ls[..|ls| - 1])
  }

  /** The sections of the stripped lines `ls`: each non-marker line appended to the
      section in force; a section exists once a line has been appended to it. */
  function Sections(ls: seq<string>): (m: map<string, seq<string>>)
    ensures forall k :: k in m ==> m[k] != []
  {
    if ls == [] then map[]
    else
      var init, line := ls[..|ls| - 1], ls[|ls| - 1];
      var m := Sections(init);
      if line in Keywords then m
      else
        var k := KeyAfter(init);
        m[k := (if k in m then m[k] else []) + [line]]
  }

  /** The first loop of the parser: each line is stripped, then either switches the
      current key or is appended to that key's list (a list created empty on its
      first line). */
  method GroupSections(lines: seq<string>) returns (sections: map<string, seq<string>>)
    ensures sections == Sections(StripAll(lines))
  {
    ghost var ls := StripAll(lines);
    var key := "none";
    sections := map[];
    for i := 0 to |lines|
      invariant key == KeyAfter(ls[..i])
      invariant sections == Sections(ls[..i])
    {
      var line := Strip(lines[i]);
      assert line == ls[i];
      SectionsStep(ls, i);
      if line in Keywords {
        key := SectionName(line);
        continue;
      }
      var current := if key in sections then sections[key] else [];
      sections := sections[key := current + [line]];
    }
    assert ls[..|lines|] == ls;
  }

  /** One more line: a marker switches the section, any other line joins the current one. */
  lemma SectionsStep(ls: seq<string>, i: nat)
    requires i < |ls|
    ensures ls[i] in Keywords ==>
              KeyAfter(ls[..i + 1]) == SectionName(ls[i]) && Sections(ls[..i + 1]) == Sections(ls[..i])
    ensures ls[i] !in Keywords ==>
              var k, m := KeyAfter(ls[..i]), Sections(ls[..i]);
              KeyAfter(ls[..i + 1]) == k && Sections(ls[..i + 1]) == m[k := (if k in m then m[k] else []) + [ls[i]]]
  {
    assert ls[..i + 1][..i] == ls[..i];
  }

  lemma {:induction false} KeyAfterNamed(ls: seq<string>)
    ensures KeyAfter(ls) in SectionNames
  {
    if ls != [] {
      KeywordNames();
      KeyAfterNamed(ls[..|ls| - 1]);
    }
  }

  /** Only the five section names occur. */
  lemma {:induction false} SectionKeys(ls: seq<string>)
    ensures Sections(ls).Keys <= SectionNames
  {
    if ls != [] {
      SectionKeys(ls[..|ls| - 1]);
      KeyAfterNamed(ls[..|ls| - 1]);
    }
  }

  /** Later lines only extend sections: a section of a prefix is a prefix of the same
      section of the whole. */
  lemma {:induction false} SectionsExtend(ls: seq<string>, j: nat)
    requires j <= |ls|
    ensures forall k :: k in Sections(ls[..j]) ==>
              k in Sections(ls) && Sections(ls[..j])[k] <= Sections(ls)[k]
    decreases |ls| - j
  {
    if j < |ls| {
      var next := ls[..j + 1];
      assert next[..|next| - 1] == ls[..j];
      SectionsExtend(ls, j + 1);
    } else {
      assert ls[..j] == ls;
    }
  }

  /** Every line that is not a marker lands in the section in force before it. */
  lemma LineLands(ls: seq<string>, i: nat)
    requires i < |ls| && ls[i] !in Keywords
    ensures KeyAfter(ls[..i]) in Sections(ls)
    ensures ls[i] in Sections(ls)[KeyAfter(ls[..i])]
  {
    var upto := ls[..i + 1];
    assert upto[..|upto| - 1] == ls[..i];
    assert upto[|upto| - 1] == ls[i];
    var k := KeyAfter(ls[..i]);
    var early := Sections(upto);
    assert early[k][|early[k]| - 1] == ls[i];
    SectionsExtend(ls, i + 1);
    assert Sections(ls)[k][|early[k]| - 1] == ls[i];
  }

  /** The section without its trailing blank lines. */
  function TrimBlankTail(v: seq<string>): (r: seq<string>)
    ensures |r| <= |v| && r == v[..|r|]
    ensures forall i :: |r| <= i < |v| ==> v[i] == ""
    ensures r == [] || r[|r| - 1] != ""
  {
    if v != [] && v[|v| - 1] == "" then TrimBlankTail(v[..|v| - 1]) else v
  }

  /** The popping loop of the parser. */
  method TrimBlankLines(v: seq<string>) returns (r: seq<string>)
    ensures r == TrimBlankTail(v)
  {
    r := v;
    while |r| > 0 && r[|r| - 1] == ""
      invariant TrimBlankTail(r) == TrimBlankTail(v)
    {
      r := r[..|r| - 1];
    }
  }

  /** Options passed through to the table parser. */
  datatype VotsOptions = VotsOptions(delimiters: seq<char>, quotechars: seq<char>, cleanspaces: bool)

  /** A parsed header section: the description text, a table, or a section whose
      lines were all blank. */
  datatype HeaderValue =
    | Description(text: string)
    | TableSection(table: AsciiTable)
    | EmptySection

  function SectionConfig(lines: seq<string>, opts: VotsOptions): SearchConfig {
    SearchConfig(lines, opts.delimiters, opts.quotechars, DefaultComment, opts.cleanspaces)
  }

  function AsSection(a: Result<AsciiTable, TableError>): Result<HeaderValue, TableError> {
    match a
    case Failure(e) => Failure(e)
    case Success(t) => Success(TableSection(t))
  }

  /** r is what one section becomes. */
  ghost predicate SectionParsesAs(key: string, lines: seq<string>, opts: VotsOptions, r: Result<HeaderValue, TableError>) {
    var kept := TrimBlankTail(lines);
    if key == "description" then r == Success(Description(Join(kept, "\n")))
    else if kept == [] then r == Success(EmptySection)
    else
      exists a :: ParsesAs(SectionConfig(kept, opts), DefaultLayout, None, [], a) && r == AsSection(a)
  }

  method ParseSection(key: string, lines: seq<string>, opts: VotsOptions) returns (r: Result<HeaderValue, TableError>)
    ensures SectionParsesAs(key, lines, opts, r)
  {
    var kept := TrimBlankLines(lines);
    if key == "description" {
      return Success(Description(Join(kept, "\n")));
    }
    if kept == [] {
      return Success(EmptySection);
    }
    var a := ParseAsciiTable(SectionConfig(kept, opts), DefaultLayout, None, []);
    r := AsSection(a);
  }

  /** r is what the header parser gives: every section parsed, or the failure of
      one of them (which one, when several fail, depends on the dictionary order). */
  ghost predicate HeaderParsesAs(lines: seq<string>, opts: VotsOptions, r: Result<map<string, HeaderValue>, TableError>) {
    var sections := Sections(StripAll(lines));
    match r
    case Success(h) =>
      h.Keys == sections.Keys && forall k :: k in sections ==> SectionParsesAs(k, sections[k], opts, Success(h[k]))
    case Failure(e) =>
      exists k :: k in sections && SectionParsesAs(k, sections[k], opts, Failure(e))
  }

  /** _parse_vots_header. */
  method ParseVotsHeader(lines: seq<string>, opts: VotsOptions) returns (r: Result<map<string, HeaderValue>, TableError>)
    ensures HeaderParsesAs(lines, opts, r)
  {
    var sections := GroupSections(lines);
    var parsed: map<string, HeaderValue> := map[];
    var todo := sections.Keys;
    while todo != {}
      invariant todo <= sections.Keys
      invariant parsed.Keys == sections.Keys - todo
      invariant forall k :: k in parsed ==> SectionParsesAs(k, sections[k], opts, Success(parsed[k]))
      decreases todo
    {
      var k :| k in todo;
      var v := ParseSection(k, sections[k], opts);
      if v.Failure? {
        return Failure(v.error);
      }
      parsed := parsed[k := v.value];
      todo := todo - {k};
    }
    r := Success(parsed);
  }
}
