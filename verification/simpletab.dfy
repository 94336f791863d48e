/**
 * Simple tabulation: the distinct values of one column (or of the pieces of its
 * multi-answer cells) with their counts and shares, over the rows a filter admits.
 */
module Simpletab {
  import opened Wrappers
  import opened Strings
  import opened Sql
  import opened Grouping
  import opened Queries
  import opened Types
  import opened Columns
  import opened Filters

  /** `CHR(10)`: the separator of answers in a multi-answer cell. */
  const NewlineSeparator: string := "\n"
  /** The separator of the values a merged derived column produces. */
  const MergeSeparator: string := "|||"

  /** Base columns exclude NULL cells; derived columns keep every row. */
  function NullExclusion(column: Column): seq<Predicate>
  {
    if column.isDerived then [] else [NotNull(column.name)]
  }

  /** The clauses of the filter, if there is one. */
  function FilterWhere(a: Analyzer, filter: Option<Filter>): seq<Predicate>
  {
    if filter.None? then [] else WhereClauses(filter.value.conditions, Listed(a))
  }

  /** The WHERE clause of both queries: the NULL exclusion AND the filter. */
  method BuildWhere(a: Analyzer, column: Column, filter: Option<Filter>) returns (whereClauses: seq<Predicate>)
    ensures whereClauses == NullExclusion(column) + FilterWhere(a, filter)
  {
    whereClauses := [];
    if !column.isDerived {
      whereClauses := whereClauses + [NotNull(column.name)];
    }
    if filter.Some? {
      var filterWhere := GenerateWhereClause(filter.value, a);
      if filterWhere != [] {
        whereClauses := whereClauses + filterWhere;
      }
    }
  }

  /** What the fan-out query unnests: a merged derived column on "|||", anything else on newline. */
  function SplitSource(column: Column): Fanout
  {
    if column.isDerived && column.isMulti then SplitOn(GetSQLExpression(column), MergeSeparator)
    else SplitOn(ColRef(column.name), NewlineSeparator)
  }

  method BuildSimpleSimpletabQuery(a: Analyzer, column: Column, filter: Option<Filter>) returns (q: GroupQuery)
    ensures q == GroupQuery(Whole(GetSQLExpression(column)), NullExclusion(column) + FilterWhere(a, filter))
  {
    var colExpr := GetSQLExpression(column);
    var whereClauses := BuildWhere(a, column, filter);
    q := GroupQuery(Whole(colExpr), whereClauses);
  }

  method BuildMultiAnswerSimpletabQuery(a: Analyzer, column: Column, filter: Option<Filter>) returns (q: GroupQuery)
    ensures q == GroupQuery(SplitSource(column), NullExclusion(column) + FilterWhere(a, filter))
  {
    var whereClauses := BuildWhere(a, column, filter);
    var valueExpr: Fanout;
    if column.isDerived && column.isMulti {
      valueExpr := SplitOn(GetSQLExpression(column), MergeSeparator);
    } else {
      valueExpr := SplitOn(ColRef(column.name), NewlineSeparator);
    }
    q := GroupQuery(valueExpr, whereClauses);
  }

  /** Splitting is honoured unless the column is derived without being multi-answer. */
  predicate SplitHonoured(column: Column, split: bool)
  {
    split && !(column.isDerived && !column.isMulti)
  }

  function SimpletabQuery(a: Analyzer, column: Column, split: bool, filter: Option<Filter>): GroupQuery
  {
    var where := NullExclusion(column) + FilterWhere(a, filter);
    if SplitHonoured(column, split) then GroupQuery(SplitSource(column), where)
    else GroupQuery(Whole(GetSQLExpression(column)), where)
  }

  /** One row of the query's answer: the value, `COUNT(*)`, and the count's share of the total. */
  datatype AnswerRow = AnswerRow(value: Value, count: nat, percentage: real)

  /** `COUNT(*) * 100.0 / SUM(COUNT(*))`, unrounded; no row exists when the sum is 0. */
  function Percentage(count: int, denominator: int): real
  {
    if denominator == 0 then 0.0 else (count as real) * 100.0 / (denominator as real)
  }

  /** The rows the query answers: each group with its share of `SUM(COUNT(*)) OVER ()`. */
  function AnswerRows(gs: seq<Group<Value>>): (rows: seq<AnswerRow>)
    ensures |rows| == |gs|
  {
    seq(|gs|, i requires 0 <= i < |gs| => AnswerRow(gs[i].value, gs[i].count, Percentage(gs[i].count, TotalCount(gs))))
  }

  /** The scanned rows; the value of each must be non-NULL to scan into a string. */
  function ScanRows(rows: seq<AnswerRow>): (rs: seq<SimpletabRow>)
    requires forall i :: 0 <= i < |rows| ==> rows[i].value.Some?
    ensures |rs| == |rows|
  {
    seq(|rows|, i requires 0 <= i < |rows| => SimpletabRow(rows[i].value.value, rows[i].count, rows[i].percentage))
  }

  /** The sum of the rows' counts. */
  function Counted(rows: seq<SimpletabRow>): int
  {
    if rows == [] then 0 else rows[0].count + Counted(rows[1..])
  }

  /**
   * The result of tabulating a query's answer: the query's error, a scan error when a value
   * is NULL, or the scanned rows in the query's order with the sum of their counts as the total.
   */
  function Tabulate(t: Option<Table>, q: GroupQuery, name: string): Result<SimpletabResult>
  {
    match RunGroupQuery(t, q)
    case Failure(e) => Failure("failed to execute simpletab query: " + e)
    case Success(gs) => ScanAnswer(AnswerRows(gs), name)
  }

  /** Scanning fails on a NULL value; otherwise the rows in order, totalled. */
  function ScanAnswer(rows: seq<AnswerRow>, name: string): Result<SimpletabResult>
  {
    if exists i :: 0 <= i < |rows| && rows[i].value.None? then Failure("failed to scan row")
    else Success(SimpletabResult(name, ScanRows(rows), Counted(ScanRows(rows))))
  }

  function SimpletabOutcome(a: Analyzer, column: Column, split: bool, filter: Option<Filter>): Result<SimpletabResult>
  {
    Tabulate(a.table, SimpletabQuery(a, column, split, filter), column.name)
  }

  lemma {:induction false} CountedAppend(a: seq<SimpletabRow>, b: seq<SimpletabRow>)
    ensures Counted(a + b) == Counted(a) + Counted(b)
  {
    if a != [] {
      assert (a + b)[1..] == a[1..] + b;
      CountedAppend(a[1..], b);
    } else {
      assert a + b == b;
    }
  }

  /** Scans the rows in order, summing their counts. */
  method ScanSimpletabRows(rows: seq<AnswerRow>, name: string) returns (r: Result<SimpletabResult>)
    ensures r == ScanAnswer(rows, name)
  {
    var resultRows: seq<SimpletabRow> := [];
    var total := 0;
    for k := 0 to |rows|
      invariant forall i :: 0 <= i < k ==> rows[i].value.Some?
      invariant resultRows == ScanRows(rows[..k])
      invariant total == Counted(resultRows)
    {
      if rows[k].value.None? {
        return Failure("failed to scan row");
      }
      var row := SimpletabRow(rows[k].value.value, rows[k].count, rows[k].percentage);
      CountedAppend(resultRows, [row]);
      assert ScanRows(rows[..k + 1]) == ScanRows(rows[..k]) + [row];
      resultRows := resultRows + [row];
      total := total + row.count;
    }
    assert rows[..|rows|] == rows;
    return Success(SimpletabResult(name, resultRows, total));
  }

  /** Runs the query and scans its answer. */
  method RunSimpletabQuery(t: Option<Table>, query: GroupQuery, name: string) returns (r: Result<SimpletabResult>)
    ensures r == Tabulate(t, query, name)
  {
    var answer := RunGroupQuery(t, query);
    if answer.Failure? {
      return Failure("failed to execute simpletab query: " + answer.error);
    }
    r := ScanSimpletabRows(AnswerRows(answer.value), name);
  }

  /** Builds the query, with split forced off for a derived column that is not multi-answer, and runs it. */
  method SimpletabWithFilter(a: Analyzer, column: Column, split: bool, filter: Option<Filter>) returns (r: Result<SimpletabResult>)
    ensures r == SimpletabOutcome(a, column, split, filter)
  {
    var doSplit := split;
    if column.isDerived && !column.isMulti {
      doSplit := false;
    }
    var query: GroupQuery;
    if doSplit {
      query := BuildMultiAnswerSimpletabQuery(a, column, filter);
    } else {
      query := BuildSimpleSimpletabQuery(a, column, filter);
    }
    r := RunSimpletabQuery(a.table, query, column.name);
  }

  // ---------------------------------------------------------------------------
  // Properties
  // ---------------------------------------------------------------------------

  /** Asking to split a derived column that is not multi-answer changes nothing. */
  lemma SplitForcedOff(a: Analyzer, column: Column, filter: Option<Filter>)
    requires column.isDerived && !column.isMulti
    ensures SimpletabOutcome(a, column, true, filter) == SimpletabOutcome(a, column, false, filter)
  {
  }

  /**
   * The rows the query counts: those with a value for a base column, admitted by the
   * filter's conditions when there is a filter.
   */
  lemma SimpletabWhereMeaning(a: Analyzer, column: Column, filter: Option<Filter>, r: Row)
    ensures AllPredicatesHold(NullExclusion(column) + FilterWhere(a, filter), r) <==>
      (!column.isDerived ==> Cell(r, column.name).Some?)
      && (filter.Some? ==> FilterAdmits(filter.value.conditions, Listed(a), r))
  {
    AllPredicatesHoldAppend(NullExclusion(column), FilterWhere(a, filter), r);
    if filter.Some? {
      WhereClausesMeaning(filter.value.conditions, Listed(a), r);
    }
    if !column.isDerived {
      assert NullExclusion(column)[0] == NotNull(column.name);
    }
  }

  lemma {:induction false} CountedMatches(rows: seq<SimpletabRow>, gs: seq<Group<Value>>)
    requires |rows| == |gs| && forall i :: 0 <= i < |rows| ==> rows[i].count == gs[i].count
    ensures Counted(rows) == TotalCount(gs)
  {
    if rows != [] {
      CountedMatches(rows[1..], gs[1..]);
    }
  }

  /**
   * A successful tabulation lists each distinct value once with the number of its
   * occurrences among the counted values, most frequent first; every counted value has
   * its row, and the total is the number of values counted (one per row, or per piece).
   */
  lemma TabulateMeaning(t: Option<Table>, q: GroupQuery, name: string)
    requires Tabulate(t, q, name).Success?
    ensures q.source.SplitOn? ==> |q.source.sep| > 0
    ensures var vs := GroupedValues(t.value.rows, q); var res := Tabulate(t, q, name).value;
      && res.column == name
      && res.total == Counted(res.rows) == |vs|
      && (forall i, j :: 0 <= i < j < |res.rows| ==> res.rows[i].count >= res.rows[j].count && res.rows[i].value != res.rows[j].value)
      && (forall i :: 0 <= i < |res.rows| ==> res.rows[i].count == CountOf(vs, Some(res.rows[i].value)) >= 1)
      && (forall i :: 0 <= i < |vs| ==> vs[i].Some? && exists k :: 0 <= k < |res.rows| && res.rows[k].value == vs[i].value)
  {
    var gs := RunGroupQuery(t, q).value;
    var res := Tabulate(t, q, name).value;
    ScanAnswerMeaning(gs, name, res);
    QueryRowsMeaning(t, q, res.rows);
  }

  /** Rows that copy the query's groups, in order, have the groups' properties. */
  lemma QueryRowsMeaning(t: Option<Table>, q: GroupQuery, rs: seq<SimpletabRow>)
    requires RunGroupQuery(t, q).Success?
    requires var gs := RunGroupQuery(t, q).value;
      |rs| == |gs| && forall i :: 0 <= i < |gs| ==> Some(rs[i].value) == gs[i].value && rs[i].count == gs[i].count
    ensures q.source.SplitOn? ==> |q.source.sep| > 0
    ensures var vs := GroupedValues(t.value.rows, q);
      && Counted(rs) == |vs|
      && (forall i, j :: 0 <= i < j < |rs| ==> rs[i].count >= rs[j].count && rs[i].value != rs[j].value)
      && (forall i :: 0 <= i < |rs| ==> rs[i].count == CountOf(vs, Some(rs[i].value)) >= 1)
      && (forall i :: 0 <= i < |vs| ==> vs[i].Some? && exists k :: 0 <= k < |rs| && rs[k].value == vs[i].value)
  {
    GroupQueryResult(t, q);
    RowsMeaning(RunGroupQuery(t, q).value, GroupedValues(t.value.rows, q), rs);
  }

  /** A successful scan keeps the groups' values and counts, in order, and totals the counts. */
  lemma ScanAnswerMeaning(gs: seq<Group<Value>>, name: string, res: SimpletabResult)
    requires ScanAnswer(AnswerRows(gs), name) == Success(res)
    ensures res.column == name && res.total == Counted(res.rows) && |res.rows| == |gs|
    ensures forall i :: 0 <= i < |gs| ==> Some(res.rows[i].value) == gs[i].value && res.rows[i].count == gs[i].count
  {
    var rows := AnswerRows(gs);
    assert forall i :: 0 <= i < |rows| ==> rows[i].value.Some?;
    var rs := ScanRows(rows);
    assert ScanAnswer(rows, name) == Success(SimpletabResult(name, rs, Counted(rs)));
  }

  lemma RowsMeaning(gs: seq<Group<Value>>, vs: seq<Value>, rs: seq<SimpletabRow>)
    requires |rs| == |gs| && forall i :: 0 <= i < |gs| ==> Some(rs[i].value) == gs[i].value && rs[i].count == gs[i].count
    requires forall i, j :: 0 <= i < j < |gs| ==> gs[i].count >= gs[j].count && gs[i].value != gs[j].value
    requires forall i :: 0 <= i < |gs| ==> gs[i].count == CountOf(vs, gs[i].value) >= 1
    requires forall x :: x in vs ==> exists i :: 0 <= i < |gs| && gs[i].value == x
    requires TotalCount(gs) == |vs|
    ensures Counted(rs) == |vs|
    ensures forall i, j :: 0 <= i < j < |rs| ==> rs[i].count >= rs[j].count && rs[i].value != rs[j].value
    ensures forall i :: 0 <= i < |rs| ==> rs[i].count == CountOf(vs, Some(rs[i].value)) >= 1
    ensures forall i :: 0 <= i < |vs| ==> vs[i].Some? && exists k :: 0 <= k < |rs| && rs[k].value == vs[i].value
  {
    CountedMatches(rs, gs);
    forall i | 0 <= i < |vs| ensures vs[i].Some? && exists k :: 0 <= k < |rs| && rs[k].value == vs[i].value {
      assert vs[i] in vs;
      var k :| 0 <= k < |gs| && gs[k].value == vs[i];
      assert Some(rs[k].value) == vs[i];
    }
  }

  /** Every value a fan-out or a non-NULL cell yields is non-NULL. */
  lemma {:induction false} SelectValuesSome(rows: seq<Row>, f: Fanout)
    requires f.SplitOn? ==> |f.sep| > 0
    requires f.Whole? ==> forall i :: 0 <= i < |rows| ==> Eval(f.e, rows[i]).Some?
    ensures forall v :: v in SelectValues(rows, f) ==> v.Some?
  {
    if rows != [] {
      assert forall i :: 1 <= i < |rows| ==> rows[i] == rows[1..][i - 1];
      SelectValuesSome(rows[1..], f);
    }
  }

  /** A NULL among the counted values makes the tabulation fail on scanning. */
  lemma NullValueFails(a: Analyzer, column: Column, split: bool, filter: Option<Filter>)
    requires RunGroupQuery(a.table, SimpletabQuery(a, column, split, filter)).Success?
    requires var q := SimpletabQuery(a, column, split, filter);
      (q.source.SplitOn? ==> |q.source.sep| > 0) && None in GroupedValues(a.table.value.rows, q)
    ensures SimpletabOutcome(a, column, split, filter) == Failure("failed to scan row")
  {
    var q := SimpletabQuery(a, column, split, filter);
    GroupQueryResult(a.table, q);
    var gs := RunGroupQuery(a.table, q).value;
    var k :| 0 <= k < |gs| && gs[k].value == None;
    assert AnswerRows(gs)[k].value.None?;
  }

  /**
   * A derived column that computes NULL for some row the filter admits (a rule-based
   * column with no default rule, on a row no rule matches) makes the tabulation fail.
   */
  lemma DerivedNullFails(a: Analyzer, column: Column, split: bool, filter: Option<Filter>, r: Row)
    requires column.isDerived && !column.isMulti
    requires a.table.Some? && r in a.table.value.rows
    requires RunGroupQuery(a.table, SimpletabQuery(a, column, split, filter)).Success?
    requires filter.Some? ==> FilterAdmits(filter.value.conditions, Listed(a), r)
    requires Eval(GetSQLExpression(column), r).None?
    ensures SimpletabOutcome(a, column, split, filter) == Failure("failed to scan row")
  {
    var q := SimpletabQuery(a, column, split, filter);
    var rows := a.table.value.rows;
    SimpletabWhereMeaning(a, column, filter, r);
    var i :| 0 <= i < |rows| && rows[i] == r;
    var sel := Selected(rows, q.where);
    assert r in sel;
    SelectValuesWhole(sel, GetSQLExpression(column), r);
    NullValueFails(a, column, split, filter);
  }

  lemma {:induction false} SelectValuesWhole(rows: seq<Row>, e: Expr, r: Row)
    requires r in rows
    ensures Eval(e, r) in SelectValues(rows, Whole(e))
  {
    if rows[0] != r {
      SelectValuesWhole(rows[1..], e, r);
    }
  }

  /** A base column never fails to scan: NULL cells are excluded, and pieces are never NULL. */
  lemma BaseColumnScans(a: Analyzer, column: Column, split: bool, filter: Option<Filter>)
    requires !column.isDerived
    requires RunGroupQuery(a.table, SimpletabQuery(a, column, split, filter)).Success?
    ensures SimpletabOutcome(a, column, split, filter).Success?
  {
    var q := SimpletabQuery(a, column, split, filter);
    assert q.where[0] == NotNull(column.name);
    SelectedNotNull(a.table.value.rows, q.where, column.name);
    SelectValuesSome(Selected(a.table.value.rows, q.where), q.source);
    GroupQueryResult(a.table, q);
    var gs := RunGroupQuery(a.table, q).value;
    forall i | 0 <= i < |gs| ensures gs[i].value.Some? {
      assert gs[i].value in GroupedValues(a.table.value.rows, q);
    }
    NonNullGroupsScan(gs, column.name);
  }

  /** Behind a NOT NULL clause on a column, every selected row has a value in it. */
  lemma SelectedNotNull(rows: seq<Row>, where: seq<Predicate>, name: string)
    requires |where| > 0 && where[0] == NotNull(name)
    ensures forall i :: 0 <= i < |Selected(rows, where)| ==> Cell(Selected(rows, where)[i], name).Some?
  {
    var sel := Selected(rows, where);
    forall i | 0 <= i < |sel| ensures Cell(sel[i], name).Some? {
      assert AllPredicatesHold(where, sel[i]);
    }
  }

  /** Groups of non-NULL values always scan. */
  lemma NonNullGroupsScan(gs: seq<Group<Value>>, name: string)
    requires forall i :: 0 <= i < |gs| ==> gs[i].value.Some?
    ensures ScanAnswer(AnswerRows(gs), name).Success?
  {
    var rows := AnswerRows(gs);
    assert forall i :: 0 <= i < |rows| ==> rows[i].value == gs[i].value;
  }

  /** No cell of the column in these rows holds a newline. */
  predicate NoNewlineCells(rows: seq<Row>, name: string)
  {
    forall i :: 0 <= i < |rows| && Cell(rows[i], name).Some? ==> !Contains(Cell(rows[i], name).value, NewlineSeparator)
  }

  /** Splitting a base column whose counted cells hold no newline gives the unsplit tabulation. */
  lemma SplitWithoutNewlines(a: Analyzer, column: Column, filter: Option<Filter>)
    requires !column.isDerived && a.table.Some?
    requires NoNewlineCells(Selected(a.table.value.rows, NullExclusion(column) + FilterWhere(a, filter)), column.name)
    ensures SimpletabOutcome(a, column, true, filter) == SimpletabOutcome(a, column, false, filter)
  {
    var where := NullExclusion(column) + FilterWhere(a, filter);
    var e := ColRef(column.name);
    assert where[0] == NotNull(column.name);
    SelectedNoNewlines(a.table.value.rows, where, column.name);
    assert SimpletabQuery(a, column, true, filter) == GroupQuery(SplitOn(e, NewlineSeparator), where);
    assert SimpletabQuery(a, column, false, filter) == GroupQuery(Whole(e), where);
    SameValuesSameTabulation(a.table, GroupQuery(SplitOn(e, NewlineSeparator), where), GroupQuery(Whole(e), where), column.name);
  }

  /** Behind a NOT NULL clause, cells without a newline split into themselves. */
  lemma SelectedNoNewlines(rows: seq<Row>, where: seq<Predicate>, name: string)
    requires |where| > 0 && where[0] == NotNull(name)
    requires NoNewlineCells(Selected(rows, where), name)
    ensures SelectValues(Selected(rows, where), SplitOn(ColRef(name), NewlineSeparator))
         == SelectValues(Selected(rows, where), Whole(ColRef(name)))
  {
    var sel := Selected(rows, where);
    SelectedNotNull(rows, where, name);
    forall i | 0 <= i < |sel| && Eval(ColRef(name), sel[i]).Some?
      ensures !Contains(Eval(ColRef(name), sel[i]).value, NewlineSeparator)
    {
      assert Eval(ColRef(name), sel[i]) == Cell(sel[i], name);
    }
    SelectValuesNoSeparator(sel, ColRef(name), NewlineSeparator);
  }

  /** Two queries over the same expression and WHERE clause that group the same values tabulate alike. */
  lemma SameValuesSameTabulation(t: Option<Table>, q1: GroupQuery, q2: GroupQuery, name: string)
    requires q1.where == q2.where && FanoutExpr(q1.source) == FanoutExpr(q2.source)
    requires q1.source.SplitOn? ==> |q1.source.sep| > 0
    requires q2.source.SplitOn? ==> |q2.source.sep| > 0
    requires t.Some? ==> GroupedValues(t.value.rows, q1) == GroupedValues(t.value.rows, q2)
    ensures Tabulate(t, q1, name) == Tabulate(t, q2, name)
  {
    if t.Some? {
      assert GroupQueryOk(q1, Names(t.value.columns)) == GroupQueryOk(q2, Names(t.value.columns));
    }
  }
}
