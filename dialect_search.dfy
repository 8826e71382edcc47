/**
 * The dialect search of Ska/Table.py (_parse_ascii_table): comment lines are
 * removed, then every quote character (outer loop) is tried with every delimiter
 * (inner loop).  The first candidate that parses with zero warnings is returned at
 * once; otherwise the accepted candidate with the fewest warnings, where a later
 * candidate replaces an earlier one with the same count; otherwise every line
 * becomes a one-field row and no dialect is reported.
 */
module DialectSearch {
  import opened Wrappers
  import opened Text
  import opened Dialects

  datatype SearchConfig = SearchConfig(input: seq<string>, delimiters: seq<char>, quotechars: seq<char>,
                                       comment: CommentPattern, cleanspaces: bool)

  /** The search result: the chosen dialect (None for the one-column fallback) and the rows. */
  datatype Selection = Selection(dialect: Option<Dialect>, rows: seq<seq<string>>)

  /** The default delimiter priority: pipe, ampersand, comma, tab, space. */
  const DefaultDelimiters: seq<char> := ['|', '&', ',', '\t', ' ']
  const DefaultQuoteChars: seq<char> := [DoubleQuote, SingleQuote]

  predicate ValidQuoteChars(qs: seq<char>) {
    forall i :: 0 <= i < |qs| ==> IsQuoteChar(qs[i])
  }

  /** The input without the lines that match the comment pattern, in order. */
  function DataLines(lines: seq<string>, p: CommentPattern): (data: seq<string>)
    ensures |data| <= |lines|
    ensures forall i :: 0 <= i < |data| ==> !IsComment(p, data[i])
    ensures forall i :: 0 <= i < |lines| && !IsComment(p, lines[i]) ==> lines[i] in data
  {
    if lines == [] then []
    else
      var init, last := lines[..|lines| - 1], lines[|lines| - 1];
      var kept := DataLines(init, p);
      assert forall i :: 0 <= i < |init| ==> init[i] == lines[i];
      if IsComment(p, last) then kept else kept + [last]
  }

  /** One more line: kept at the end unless it is a comment. */
  lemma DataLinesStep(lines: seq<string>, p: CommentPattern, i: nat)
    requires i < |lines|
    ensures DataLines(lines[..i + 1], p) ==
            DataLines(lines[..i], p) + (if IsComment(p, lines[i]) then [] else [lines[i]])
  {
    assert lines[..i + 1][..i] == lines[..i];
  }

  /** Filtering distributes over concatenation, so the kept lines keep their order. */
  lemma {:induction false} DataLinesConcat(a: seq<string>, b: seq<string>, p: CommentPattern)
    ensures DataLines(a + b, p) == DataLines(a, p) + DataLines(b, p)
    decreases |b|
  {
    if b == [] {
      assert a + b == a;
    } else {
      var init, last := b[..|b| - 1], b[|b| - 1];
      DataLinesConcat(a, init, p);
      assert (a + b)[..|a + b| - 1] == a + init;
      assert (a + b)[|a + b| - 1] == last;
    }
  }

  function StripAll(lines: seq<string>): (r: seq<string>)
    ensures |r| == |lines|
  {
    seq(|lines|, i requires 0 <= i < |lines| => Strip(lines[i]))
  }

  /** The one-column fallback: each line, stripped, as a row of its own. */
  function FallbackRows(lines: seq<string>): (rows: seq<seq<string>>)
    ensures |rows| == |lines|
    ensures forall i :: 0 <= i < |rows| ==> |rows[i]| == 1
  {
    seq(|lines|, i requires 0 <= i < |lines| => [Strip(lines[i])])
  }

  predicate InRange(cfg: SearchConfig, qi: int, di: int) {
    0 <= qi < |cfg.quotechars| && 0 <= di < |cfg.delimiters|
  }

  /** The candidate for quote index qi and delimiter index di; a space delimiter
      always skips initial spaces. */
  function CandidateAt(cfg: SearchConfig, qi: int, di: int): (d: Dialect)
    requires InRange(cfg, qi, di)
    ensures d.skipInitialSpace == (cfg.cleanspaces || cfg.delimiters[di] == ' ')
  {
    var delimiter := cfg.delimiters[di];
    Dialect(delimiter, cfg.quotechars[qi], cfg.cleanspaces || delimiter == ' ', cfg.cleanspaces, cfg.comment, None)
  }

  /** The lines a candidate is given: stripped first when it skips initial spaces. */
  function LinesFor(data: seq<string>, d: Dialect): (lines: seq<string>)
    ensures |lines| == |data|
  {
    if d.skipInitialSpace then StripAll(data) else data
  }

  function OutcomeAt(cfg: SearchConfig, qi: int, di: int): Evaluation
    requires ValidQuoteChars(cfg.quotechars) && InRange(cfg, qi, di)
  {
    var d := CandidateAt(cfg, qi, di);
    Evaluate(LinesFor(DataLines(cfg.input, cfg.comment), d), d)
  }

  /** Enumeration order: quote character first, then delimiter. */
  predicate Before(qa: int, da: int, qb: int, db: int) {
    qa < qb || (qa == qb && da < db)
  }

  predicate IsClean(e: Evaluation) {
    e.Accepted? && e.warnings == 0
  }

  function SelectionOf(e: Evaluation): Selection
    requires e.Accepted?
  {
    Selection(Some(e.dialect), e.rows)
  }

  /** The evaluation of every candidate, indexed by quote index then delimiter index. */
  type Outcomes = seq<seq<Evaluation>>

  ghost function OutcomeTable(cfg: SearchConfig): (t: Outcomes)
    requires ValidQuoteChars(cfg.quotechars)
    ensures |t| == |cfg.quotechars|
    ensures forall qi :: 0 <= qi < |t| ==> |t[qi]| == |cfg.delimiters|
  {
    seq(|cfg.quotechars|, qi requires 0 <= qi < |cfg.quotechars| =>
      seq(|cfg.delimiters|, di requires 0 <= di < |cfg.delimiters| => OutcomeAt(cfg, qi, di)))
  }

  lemma OutcomeTableAt(cfg: SearchConfig, qi: int, di: int)
    requires ValidQuoteChars(cfg.quotechars) && InRange(cfg, qi, di)
    ensures OutcomeTable(cfg)[qi][di] == OutcomeAt(cfg, qi, di)
  {
  }

  predicate Cell(t: Outcomes, qi: int, di: int) {
    0 <= qi < |t| && 0 <= di < |t[qi]|
  }

  /** (qi, di) is the first candidate, in enumeration order, with zero warnings. */
  ghost predicate FirstClean(t: Outcomes, qi: int, di: int) {
    && Cell(t, qi, di) && IsClean(t[qi][di])
    && forall qj, dj :: Cell(t, qj, dj) && Before(qj, dj, qi, di) ==> !IsClean(t[qj][dj])
  }

  /** (qi, di) is accepted with the fewest warnings, and no later accepted candidate
      has the same count. */
  ghost predicate FewestWarningsLast(t: Outcomes, qi: int, di: int) {
    && Cell(t, qi, di) && t[qi][di].Accepted?
    && (forall qj, dj :: Cell(t, qj, dj) && t[qj][dj].Accepted? ==> t[qi][di].warnings <= t[qj][dj].warnings)
    && (forall qj, dj :: Cell(t, qj, dj) && Before(qi, di, qj, dj) && t[qj][dj].Accepted? ==>
          t[qj][dj].warnings != t[qi][di].warnings)
  }

  ghost predicate SomeClean(t: Outcomes) {
    exists qi, di :: Cell(t, qi, di) && IsClean(t[qi][di])
  }

  ghost predicate SomeAccepted(t: Outcomes) {
    exists qi, di :: Cell(t, qi, di) && t[qi][di].Accepted?
  }

  /** How the search ends once the candidates are evaluated: the first clean
      candidate, else the last of those with the fewest warnings, else the fallback. */
  ghost predicate SelectsFrom(t: Outcomes, fallback: seq<seq<string>>, r: Result<Selection, TableError>) {
    if SomeClean(t) then
      exists qi, di :: FirstClean(t, qi, di) && r == Success(SelectionOf(t[qi][di]))
    else if SomeAccepted(t) then
      exists qi, di :: FewestWarningsLast(t, qi, di) && r == Success(SelectionOf(t[qi][di]))
    else r == Success(Selection(None, fallback))
  }

  /** The outcomes the search may end with, case by case. */
  ghost predicate Selects(cfg: SearchConfig, r: Result<Selection, TableError>) {
    if !ValidQuoteChars(cfg.quotechars) then r == Failure(BadQuoteChars)
    else if |cfg.quotechars| == 0 || |cfg.delimiters| == 0 then
      r == Success(Selection(None, FallbackRows(cfg.input)))
    else if DataLines(cfg.input, cfg.comment) == [] then r == Failure(ColumnCountUnset)
    else SelectsFrom(OutcomeTable(cfg), FallbackRows(DataLines(cfg.input, cfg.comment)), r)
  }

  datatype Pos = Pos(q: nat, d: nat)

  ghost predicate Tried(t: Outcomes, qj: int, dj: int, qi: int, di: int) {
    Cell(t, qj, dj) && Before(qj, dj, qi, di)
  }

  /** The entry kept for warning count w came from candidate p, and no later
      tried candidate has the same count. */
  ghost predicate KeptFrom(t: Outcomes, best: map<nat, Selection>, w: nat, p: Pos, qi: int, di: int) {
    && Tried(t, p.q, p.d, qi, di)
    && t[p.q][p.d].Accepted? && t[p.q][p.d].warnings == w
    && w in best && best[w] == SelectionOf(t[p.q][p.d])
    && forall qj, dj :: Tried(t, qj, dj, qi, di) && Before(p.q, p.d, qj, dj) && t[qj][dj].Accepted? ==>
         t[qj][dj].warnings != w
  }

  /** What the loops know after trying every candidate before (qi, di). */
  ghost predicate Ledger(t: Outcomes, best: map<nat, Selection>, bestAt: map<nat, Pos>, qi: int, di: int) {
    && (forall qj, dj :: Tried(t, qj, dj, qi, di) ==> !IsClean(t[qj][dj]))
    && (forall qj, dj :: Tried(t, qj, dj, qi, di) && t[qj][dj].Accepted? ==> t[qj][dj].warnings in best)
    && best.Keys == bestAt.Keys
    && (forall w :: w in bestAt ==> KeptFrom(t, best, w, bestAt[w], qi, di))
  }

  lemma LedgerSkip(t: Outcomes, best: map<nat, Selection>, bestAt: map<nat, Pos>, qi: nat, di: nat)
    requires Cell(t, qi, di) && Ledger(t, best, bestAt, qi, di) && !t[qi][di].Accepted?
    ensures Ledger(t, best, bestAt, qi, di + 1)
  {
    forall w | w in bestAt ensures KeptFrom(t, best, w, bestAt[w], qi, di + 1) {
      assert KeptFrom(t, best, w, bestAt[w], qi, di);
    }
    assert forall qj, dj :: Tried(t, qj, dj, qi, di + 1) ==> Tried(t, qj, dj, qi, di) || (qj == qi && dj == di);
  }

  lemma LedgerRecord(t: Outcomes, best: map<nat, Selection>, bestAt: map<nat, Pos>, qi: nat, di: nat)
    requires Cell(t, qi, di) && Ledger(t, best, bestAt, qi, di)
    requires t[qi][di].Accepted? && t[qi][di].warnings > 0
    ensures var w := t[qi][di].warnings;
            Ledger(t, best[w := SelectionOf(t[qi][di])], bestAt[w := Pos(qi, di)], qi, di + 1)
  {
    var e := t[qi][di];
    var w := e.warnings;
    var best', bestAt' := best[w := SelectionOf(e)], bestAt[w := Pos(qi, di)];
    forall v | v in bestAt' ensures KeptFrom(t, best', v, bestAt'[v], qi, di + 1) {
      if v != w {
        assert KeptFrom(t, best, v, bestAt[v], qi, di);
      }
    }
    assert forall qj, dj :: Tried(t, qj, dj, qi, di + 1) ==> Tried(t, qj, dj, qi, di) || (qj == qi && dj == di);
  }

  lemma LedgerNextQuote(t: Outcomes, best: map<nat, Selection>, bestAt: map<nat, Pos>, qi: nat, n: nat)
    requires forall q :: 0 <= q < |t| ==> |t[q]| == n
    requires Ledger(t, best, bestAt, qi, n)
    ensures Ledger(t, best, bestAt, qi + 1, 0)
  {
    assert forall qj, dj :: Tried(t, qj, dj, qi, n) <==> Tried(t, qj, dj, qi + 1, 0);
    forall w | w in bestAt ensures KeptFrom(t, best, w, bestAt[w], qi + 1, 0) {
      assert KeptFrom(t, best, w, bestAt[w], qi, n);
    }
  }

  lemma FallbackOfStripped(data: seq<string>)
    ensures FallbackRows(StripAll(data)) == FallbackRows(data)
  {
    forall i | 0 <= i < |data| ensures FallbackRows(StripAll(data))[i] == FallbackRows(data)[i] {
      StripIdempotent(data[i]);
    }
  }

  /** sorted(keys)[0]: the smallest warning count recorded. */
  method FewestWarnings(keys: set<nat>) returns (m: nat)
    requires keys != {}
    ensures m in keys && forall k :: k in keys ==> m <= k
  {
    m :| m in keys;
    var rest := keys - {m};
    while rest != {}
      invariant rest <= keys && m in keys
      invariant forall k :: k in keys && k !in rest ==> m <= k
      decreases rest
    {
      var k :| k in rest;
      if k < m {
        m := k;
      }
      rest := rest - {k};
    }
  }

  method SelectDialect(cfg: SearchConfig) returns (r: Result<Selection, TableError>)
    ensures Selects(cfg, r)
  {
    if !(forall i :: 0 <= i < |cfg.quotechars| ==> IsQuoteChar(cfg.quotechars[i])) {
      assert !ValidQuoteChars(cfg.quotechars);
      return Failure(BadQuoteChars);
    }
    var data := DataLines(cfg.input, cfg.comment);
    var best: map<nat, Selection> := map[];
    ghost var bestAt: map<nat, Pos> := map[];
    var lines := cfg.input;
    ghost var t := OutcomeTable(cfg);
    for qi := 0 to |cfg.quotechars|
      invariant Ledger(t, best, bestAt, qi, 0)
      invariant qi > 0 && |cfg.delimiters| > 0 ==> data != [] && (lines == data || lines == StripAll(data))
      invariant !(qi > 0 && |cfg.delimiters| > 0) ==> lines == cfg.input
    {
      for di := 0 to |cfg.delimiters|
        invariant Ledger(t, best, bestAt, qi, di)
        invariant (qi > 0 && |cfg.delimiters| > 0) || di > 0 ==> data != [] && (lines == data || lines == StripAll(data))
        invariant !((qi > 0 && |cfg.delimiters| > 0) || di > 0) ==> lines == cfg.input
      {
        var delimiter := cfg.delimiters[di];
        var dialect := Dialect(delimiter, cfg.quotechars[qi], cfg.cleanspaces || delimiter == ' ',
                               cfg.cleanspaces, cfg.comment, None);
        lines := if dialect.skipInitialSpace then StripAll(data) else data;
        var e := ParseLines(lines, dialect);
        OutcomeTableAt(cfg, qi, di);
        assert e == t[qi][di];
        if e.NoLines? {
          UnsetSelects(cfg, qi, di);
          return Failure(ColumnCountUnset);
        }
        if e.Rejected? {
          LedgerSkip(t, best, bestAt, qi, di);
          continue;
        }
        if e.warnings == 0 {
          r := Success(Selection(Some(e.dialect), e.rows));
          CleanSelects(cfg, best, bestAt, qi, di);
          return;
        }
        LedgerRecord(t, best, bestAt, qi, di);
        best := best[e.warnings := Selection(Some(e.dialect), e.rows)];
        bestAt := bestAt[e.warnings := Pos(qi, di)];
      }
      LedgerNextQuote(t, best, bestAt, qi, |cfg.delimiters|);
    }
    if |best| > 0 {
      var m := FewestWarnings(best.Keys);
      r := Success(best[m]);
      RankedSelects(cfg, best, bestAt, m);
      return;
    }
    UnrankedSelects(cfg, best, bestAt, lines);
    r := Success(Selection(None, FallbackRows(lines)));
  }

  /** With every line a comment, the first candidate finds no row to count columns of. */
  lemma UnsetSelects(cfg: SearchConfig, qi: int, di: int)
    requires ValidQuoteChars(cfg.quotechars) && InRange(cfg, qi, di)
    requires OutcomeTable(cfg)[qi][di].NoLines?
    ensures Selects(cfg, Failure(ColumnCountUnset))
  {
    OutcomeTableAt(cfg, qi, di);
  }

  /** The first clean candidate ends the search with its rows. */
  lemma CleanSelects(cfg: SearchConfig, best: map<nat, Selection>, bestAt: map<nat, Pos>, qi: int, di: int)
    requires ValidQuoteChars(cfg.quotechars) && InRange(cfg, qi, di)
    requires DataLines(cfg.input, cfg.comment) != []
    requires Ledger(OutcomeTable(cfg), best, bestAt, qi, di) && IsClean(OutcomeTable(cfg)[qi][di])
    ensures Selects(cfg, Success(SelectionOf(OutcomeTable(cfg)[qi][di])))
  {
    var t := OutcomeTable(cfg);
    assert FirstClean(t, qi, di);
  }

  /** With every candidate tried and none clean, the kept entry with the fewest
      warnings is the outcome. */
  lemma RankedSelects(cfg: SearchConfig, best: map<nat, Selection>, bestAt: map<nat, Pos>, m: nat)
    requires ValidQuoteChars(cfg.quotechars)
    requires |cfg.quotechars| > 0 && |cfg.delimiters| > 0 ==> DataLines(cfg.input, cfg.comment) != []
    requires Ledger(OutcomeTable(cfg), best, bestAt, |cfg.quotechars|, 0)
    requires m in best && forall k :: k in best ==> m <= k
    ensures Selects(cfg, Success(best[m]))
  {
    var t := OutcomeTable(cfg);
    var p := bestAt[m];
    assert KeptFrom(t, best, m, p, |cfg.quotechars|, 0);
    assert Cell(t, p.q, p.d);
    assert forall qj, dj :: Cell(t, qj, dj) ==> Tried(t, qj, dj, |cfg.quotechars|, 0);
    assert FewestWarningsLast(t, p.q, p.d);
  }

  /** With no candidate accepted, every line is a one-field row; without any
      candidate at all the lines are the input itself. */
  lemma UnrankedSelects(cfg: SearchConfig, best: map<nat, Selection>, bestAt: map<nat, Pos>, lines: seq<string>)
    requires ValidQuoteChars(cfg.quotechars)
    requires Ledger(OutcomeTable(cfg), best, bestAt, |cfg.quotechars|, 0) && |best| == 0
    requires |cfg.quotechars| > 0 && |cfg.delimiters| > 0 ==>
               var data := DataLines(cfg.input, cfg.comment);
               data != [] && (lines == data || lines == StripAll(data))
    requires !(|cfg.quotechars| > 0 && |cfg.delimiters| > 0) ==> lines == cfg.input
    ensures Selects(cfg, Success(Selection(None, FallbackRows(lines))))
  {
    var t := OutcomeTable(cfg);
    FallbackOfStripped(DataLines(cfg.input, cfg.comment));
    assert forall qj, dj :: Cell(t, qj, dj) ==> Tried(t, qj, dj, |cfg.quotechars|, 0);
  }

  /** The dialect a search selects is one of the candidates: one of the delimiters and
      quote characters tried, with the caller's cleanspaces and comment, skipping
      initial spaces exactly when cleanspaces is set or its delimiter is a space, with
      n_cols set. Its rows are the comment-free lines, stripped exactly then, split
      by that dialect. */
  lemma SelectedDialect(cfg: SearchConfig, r: Result<Selection, TableError>)
    requires Selects(cfg, r) && r.Success? && r.value.dialect.Some?
    ensures var d, data := r.value.dialect.value, DataLines(cfg.input, cfg.comment);
            && d.delimiter in cfg.delimiters && d.quotechar in cfg.quotechars
            && d.cleanspaces == cfg.cleanspaces && d.comment == cfg.comment
            && d.skipInitialSpace == (cfg.cleanspaces || d.delimiter == ' ')
            && d.nCols.Some?
            && |r.value.rows| == |data|
            && forall i :: 0 <= i < |data| ==>
                 r.value.rows[i] == RowOf(if d.skipInitialSpace then Strip(data[i]) else data[i], d)
  {
    var t := OutcomeTable(cfg);
    if SomeClean(t) {
      var qi, di :| FirstClean(t, qi, di) && r == Success(SelectionOf(t[qi][di]));
      AcceptedCandidate(cfg, qi, di);
    } else {
      var qi, di :| FewestWarningsLast(t, qi, di) && r == Success(SelectionOf(t[qi][di]));
      AcceptedCandidate(cfg, qi, di);
    }
  }

  lemma AcceptedCandidate(cfg: SearchConfig, qi: int, di: int)
    requires ValidQuoteChars(cfg.quotechars) && InRange(cfg, qi, di)
    requires OutcomeTable(cfg)[qi][di].Accepted?
    ensures var e, data := OutcomeTable(cfg)[qi][di], DataLines(cfg.input, cfg.comment);
            var d := e.dialect;
            && d.delimiter == cfg.delimiters[di] && d.quotechar == cfg.quotechars[qi]
            && d.cleanspaces == cfg.cleanspaces && d.comment == cfg.comment
            && d.skipInitialSpace == (cfg.cleanspaces || d.delimiter == ' ')
            && d.nCols.Some?
            && |e.rows| == |data|
            && forall i :: 0 <= i < |data| ==>
                 e.rows[i] == RowOf(if d.skipInitialSpace then Strip(data[i]) else data[i], d)
  {
    OutcomeTableAt(cfg, qi, di);
    var c := CandidateAt(cfg, qi, di);
    var data := DataLines(cfg.input, cfg.comment);
    var e := Evaluate(LinesFor(data, c), c);
    forall i | 0 <= i < |data|
      ensures e.rows[i] == RowOf(if c.skipInitialSpace then Strip(data[i]) else data[i], e.dialect)
    {
      assert LinesFor(data, c)[i] == if c.skipInitialSpace then Strip(data[i]) else data[i];
    }
  }

  lemma FirstCleanUnique(t: Outcomes, qa: int, da: int, qb: int, db: int)
    requires FirstClean(t, qa, da) && FirstClean(t, qb, db)
    ensures qa == qb && da == db
  {
    assert !Before(qa, da, qb, db);
    assert !Before(qb, db, qa, da);
  }

  lemma FewestWarningsLastUnique(t: Outcomes, qa: int, da: int, qb: int, db: int)
    requires FewestWarningsLast(t, qa, da) && FewestWarningsLast(t, qb, db)
    ensures qa == qb && da == db
  {
    assert t[qa][da].warnings == t[qb][db].warnings;
    assert !Before(qa, da, qb, db);
    assert !Before(qb, db, qa, da);
  }

  lemma SelectsFromDeterministic(t: Outcomes, fallback: seq<seq<string>>, a: Result<Selection, TableError>,
                                 b: Result<Selection, TableError>)
    requires SelectsFrom(t, fallback, a) && SelectsFrom(t, fallback, b)
    ensures a == b
  {
    if SomeClean(t) {
      var qa, da :| FirstClean(t, qa, da) && a == Success(SelectionOf(t[qa][da]));
      var qb, db :| FirstClean(t, qb, db) && b == Success(SelectionOf(t[qb][db]));
      FirstCleanUnique(t, qa, da, qb, db);
    } else if SomeAccepted(t) {
      var qa, da :| FewestWarningsLast(t, qa, da) && a == Success(SelectionOf(t[qa][da]));
      var qb, db :| FewestWarningsLast(t, qb, db) && b == Success(SelectionOf(t[qb][db]));
      FewestWarningsLastUnique(t, qa, da, qb, db);
    }
  }

  /** The search is deterministic: its characterisation admits exactly one outcome. */
  lemma SelectsDeterministic(cfg: SearchConfig, a: Result<Selection, TableError>, b: Result<Selection, TableError>)
    requires Selects(cfg, a) && Selects(cfg, b)
    ensures a == b
  {
    if ValidQuoteChars(cfg.quotechars) && |cfg.quotechars| > 0 && |cfg.delimiters| > 0
       && DataLines(cfg.input, cfg.comment) != [] {
      SelectsFromDeterministic(OutcomeTable(cfg), FallbackRows(DataLines(cfg.input, cfg.comment)), a, b);
    }
  }

  /** Of two accepted candidates with the same, positive, smallest warning count,
      the earlier one is never the one selected: a later candidate is. */
  lemma LaterTieWins(t: Outcomes, fallback: seq<seq<string>>, r: Result<Selection, TableError>,
                     qa: int, da: int, qb: int, db: int)
    requires SelectsFrom(t, fallback, r)
    requires Cell(t, qa, da) && Cell(t, qb, db) && Before(qa, da, qb, db)
    requires t[qa][da].Accepted? && t[qb][db].Accepted? && t[qa][da].warnings == t[qb][db].warnings > 0
    requires forall qi, di :: Cell(t, qi, di) && t[qi][di].Accepted? ==> t[qi][di].warnings >= t[qa][da].warnings
    ensures exists qi, di :: Before(qa, da, qi, di) && Cell(t, qi, di) && t[qi][di].Accepted? &&
                            r == Success(SelectionOf(t[qi][di]))
  {
    assert !SomeClean(t);
    assert SomeAccepted(t) by { assert Cell(t, qa, da); }
    var qi, di :| FewestWarningsLast(t, qi, di) && r == Success(SelectionOf(t[qi][di]));
    assert !Before(qi, di, qa, da);
    assert !(qi == qa && di == da);
    assert Before(qa, da, qi, di) && Cell(t, qi, di) && r == Success(SelectionOf(t[qi][di]));
  }
}
