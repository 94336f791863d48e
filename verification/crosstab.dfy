/**
 * Cross tabulation: the distinct (x, y) value pairs of two columns with their counts and
 * their share within the x value, where either base axis may fan out its multi-answer cells.
 */
module Crosstab {
  import opened Wrappers
  import opened Strings
  import opened Sql
  import opened Grouping
  import opened Queries
  import opened Types
  import opened Columns
  import opened Filters
  import opened Simpletab

  /** The settings of one analysis. */
  datatype AnalysisConfig = AnalysisConfig(
    dbPath: string,
    table: string,
    analysisType: string,
    xColumn: Column,
    yColumn: Column,
    splitX: bool,
    splitY: bool,
    filter: Option<Filter>,
    outputPath: string)

  /** Splitting is switched off on a derived axis, whatever its multi-answer flag. */
  function Forced(config: AnalysisConfig): (c: AnalysisConfig)
    ensures c.splitX <==> config.splitX && !config.xColumn.isDerived
    ensures c.splitY <==> config.splitY && !config.yColumn.isDerived
    ensures c.xColumn == config.xColumn && c.yColumn == config.yColumn
  {
    config.(splitX := config.splitX && !config.xColumn.isDerived,
            splitY := config.splitY && !config.yColumn.isDerived)
  }

  /** Both axes by their expressions, NULL excluded on base axes only. */
  function SimpleCrosstabQuery(config: AnalysisConfig): PairQuery
  {
    PairQuery(Whole(GetSQLExpression(config.xColumn)), Whole(GetSQLExpression(config.yColumn)),
              NullExclusion(config.xColumn) + NullExclusion(config.yColumn))
  }

  method BuildSimpleCrosstabQuery(config: AnalysisConfig) returns (q: PairQuery)
    ensures q == SimpleCrosstabQuery(config)
  {
    var xExpr := GetSQLExpression(config.xColumn);
    var yExpr := GetSQLExpression(config.yColumn);
    var whereClauses: seq<Predicate> := [];
    if !config.xColumn.isDerived {
      whereClauses := whereClauses + [NotNull(config.xColumn.name)];
    }
    if !config.yColumn.isDerived {
      whereClauses := whereClauses + [NotNull(config.yColumn.name)];
    }
    q := PairQuery(Whole(xExpr), Whole(yExpr), whereClauses);
  }

  /** An axis of the fan-out query as written: the raw column name, unnested on newline if split. */
  function RawAxis(c: Column, split: bool): Fanout
  {
    if split then SplitOn(ColRef(c.name), NewlineSeparator) else Whole(ColRef(c.name))
  }

  /** The fan-out query as written: both axes by raw name, and NULL excluded on both by raw name. */
  function MultiAnswerCrosstabQueryAsWritten(config: AnalysisConfig): PairQuery
  {
    PairQuery(RawAxis(config.xColumn, config.splitX), RawAxis(config.yColumn, config.splitY),
              [NotNull(config.xColumn.name), NotNull(config.yColumn.name)])
  }

  /** An axis of the corrected fan-out query: split base axes by name, unsplit axes by their expression. */
  function Axis(c: Column, split: bool): Fanout
  {
    if split then SplitOn(ColRef(c.name), NewlineSeparator) else Whole(GetSQLExpression(c))
  }

  /** The corrected fan-out query: unsplit axes as in the simple query, NULL excluded on base axes. */
  function MultiAnswerCrosstabQuery(config: AnalysisConfig): PairQuery
  {
    PairQuery(Axis(config.xColumn, config.splitX), Axis(config.yColumn, config.splitY),
              NullExclusion(config.xColumn) + NullExclusion(config.yColumn))
  }

  method BuildMultiAnswerCrosstabQuery(config: AnalysisConfig) returns (q: PairQuery)
    ensures q == MultiAnswerCrosstabQuery(config)
  {
    var xExpr := Whole(GetSQLExpression(config.xColumn));
    if config.splitX {
      xExpr := SplitOn(ColRef(config.xColumn.name), NewlineSeparator);
    }
    var yExpr := Whole(GetSQLExpression(config.yColumn));
    if config.splitY {
      yExpr := SplitOn(ColRef(config.yColumn.name), NewlineSeparator);
    }
    var whereClauses: seq<Predicate> := [];
    if !config.xColumn.isDerived {
      whereClauses := whereClauses + [NotNull(config.xColumn.name)];
    }
    if !config.yColumn.isDerived {
      whereClauses := whereClauses + [NotNull(config.yColumn.name)];
    }
    q := PairQuery(xExpr, yExpr, whereClauses);
  }

  /** The query a cross tabulation runs: the fan-out query when an axis is still split. */
  function CrosstabQuery(config: AnalysisConfig): PairQuery
  {
    var c := Forced(config);
    if c.splitX || c.splitY then MultiAnswerCrosstabQuery(c) else SimpleCrosstabQuery(c)
  }

  /** One row of the query's answer. */
  datatype CrossAnswerRow = CrossAnswerRow(x: Value, y: Value, count: nat, percentage: real)

  /** Each group with its share of `SUM(COUNT(*)) OVER (PARTITION BY x)`. */
  function CrossAnswerRows(gs: seq<Group<Pair>>): (rows: seq<CrossAnswerRow>)
    ensures |rows| == |gs|
  {
    seq(|gs|, i requires 0 <= i < |gs| =>
      CrossAnswerRow(gs[i].value.x, gs[i].value.y, gs[i].count, Percentage(gs[i].count, XTotal(gs, gs[i].value.x))))
  }

  predicate Scannable(row: CrossAnswerRow)
  {
    row.x.Some? && row.y.Some?
  }

  function ScanCrossRows(rows: seq<CrossAnswerRow>): (rs: seq<CrosstabRow>)
    requires forall i :: 0 <= i < |rows| ==> Scannable(rows[i])
    ensures |rs| == |rows|
  {
    seq(|rows|, i requires 0 <= i < |rows| && Scannable(rows[i]) => CrosstabRow(rows[i].x.value, rows[i].y.value, rows[i].count, rows[i].percentage))
  }

  /** The sum of the rows' counts. */
  function CrossCounted(rows: seq<CrosstabRow>): int
  {
    if rows == [] then 0 else rows[0].count + CrossCounted(rows[1..])
  }

  /** Scanning fails on a NULL x or y; otherwise the rows in order, totalled. */
  function CrossScan(rows: seq<CrossAnswerRow>, xName: string, yName: string): Result<CrosstabResult>
  {
    if exists i :: 0 <= i < |rows| && !Scannable(rows[i]) then Failure("failed to scan row")
    else Success(CrosstabResult(xName, yName, ScanCrossRows(rows), CrossCounted(ScanCrossRows(rows))))
  }

  function CrossTabulate(t: Option<Table>, q: PairQuery, xName: string, yName: string): Result<CrosstabResult>
  {
    match RunPairQuery(t, q)
    case Failure(e) => Failure("failed to execute crosstab query: " + e)
    case Success(gs) => CrossScan(CrossAnswerRows(gs), xName, yName)
  }

  /** The result of a cross tabulation of the analyzer's table. */
  function CrosstabOutcome(a: Analyzer, config: AnalysisConfig): Result<CrosstabResult>
  {
    CrossTabulate(a.table, CrosstabQuery(config), config.xColumn.name, config.yColumn.name)
  }

  lemma {:induction false} CrossCountedAppend(a: seq<CrosstabRow>, b: seq<CrosstabRow>)
    ensures CrossCounted(a + b) == CrossCounted(a) + CrossCounted(b)
  {
    if a != [] {
      assert (a + b)[1..] == a[1..] + b;
      CrossCountedAppend(a[1..], b);
    } else {
      assert a + b == b;
    }
  }

  /** Scans the rows in order, then sums their counts. */
  method ScanCrosstabRows(rows: seq<CrossAnswerRow>, xName: string, yName: string) returns (r: Result<CrosstabResult>)
    ensures r == CrossScan(rows, xName, yName)
  {
    var resultRows: seq<CrosstabRow> := [];
    for k := 0 to |rows|
      invariant forall i :: 0 <= i < k ==> Scannable(rows[i])
      invariant resultRows == ScanCrossRows(rows[..k])
    {
      if rows[k].x.None? || rows[k].y.None? {
        return Failure("failed to scan row");
      }
      var row := CrosstabRow(rows[k].x.value, rows[k].y.value, rows[k].count, rows[k].percentage);
      assert ScanCrossRows(rows[..k + 1]) == ScanCrossRows(rows[..k]) + [row];
      resultRows := resultRows + [row];
    }
    assert rows[..|rows|] == rows;
    var total := 0;
    for k := 0 to |resultRows|
      invariant total == CrossCounted(resultRows[..k])
    {
      CrossCountedAppend(resultRows[..k], [resultRows[k]]);
      assert resultRows[..k + 1] == resultRows[..k] + [resultRows[k]];
      total := total + resultRows[k].count;
    }
    assert resultRows[..|resultRows|] == resultRows;
    return Success(CrosstabResult(xName, yName, resultRows, total));
  }

  /** Runs the query and scans its answer. */
  method RunCrosstabQuery(t: Option<Table>, query: PairQuery, xName: string, yName: string) returns (r: Result<CrosstabResult>)
    ensures r == CrossTabulate(t, query, xName, yName)
  {
    var answer := RunPairQuery(t, query);
    if answer.Failure? {
      return Failure("failed to execute crosstab query: " + answer.error);
    }
    r := ScanCrosstabRows(CrossAnswerRows(answer.value), xName, yName);
  }

  /**
   * Forces splitting off on derived axes, runs the fan-out query if an axis is still split
   * (in its corrected form) and the simple query otherwise, and scans and totals the rows.
   */
  method Crosstab(a: Analyzer, config: AnalysisConfig) returns (r: Result<CrosstabResult>)
    ensures r == CrosstabOutcome(a, config)
  {
    var forced := config;
    if forced.xColumn.isDerived {
      forced := forced.(splitX := false);
    }
    if forced.yColumn.isDerived {
      forced := forced.(splitY := false);
    }
    assert forced == Forced(config);
    var query: PairQuery;
    if forced.splitX || forced.splitY {
      query := BuildMultiAnswerCrosstabQuery(forced);
    } else {
      query := BuildSimpleCrosstabQuery(forced);
    }
    r := RunCrosstabQuery(a.table, query, config.xColumn.name, config.yColumn.name);
  }

  // ---------------------------------------------------------------------------
  // Properties
  // ---------------------------------------------------------------------------

  /** The fan-out query runs exactly when a base axis is asked to split; only such axes are unnested. */
  lemma FanoutChosen(config: AnalysisConfig)
    ensures var q := CrosstabQuery(config);
      && (q.x.SplitOn? <==> config.splitX && !config.xColumn.isDerived)
      && (q.y.SplitOn? <==> config.splitY && !config.yColumn.isDerived)
      && (q.x.SplitOn? ==> q.x == SplitOn(ColRef(config.xColumn.name), NewlineSeparator))
      && (q.y.SplitOn? ==> q.y == SplitOn(ColRef(config.yColumn.name), NewlineSeparator))
      && q.where == NullExclusion(config.xColumn) + NullExclusion(config.yColumn)
  {
  }

  /** The rows the query counts: those with a value on each base axis. */
  lemma CrosstabWhereMeaning(config: AnalysisConfig, r: Row)
    ensures AllPredicatesHold(CrosstabQuery(config).where, r) <==>
      (!config.xColumn.isDerived ==> Cell(r, config.xColumn.name).Some?)
      && (!config.yColumn.isDerived ==> Cell(r, config.yColumn.name).Some?)
  {
    var nx := NullExclusion(config.xColumn);
    var ny := NullExclusion(config.yColumn);
    AllPredicatesHoldAppend(nx, ny, r);
    if !config.xColumn.isDerived {
      assert nx[0] == NotNull(config.xColumn.name);
    }
    if !config.yColumn.isDerived {
      assert ny[0] == NotNull(config.yColumn.name);
    }
  }

  /** The counts of the rows with a given x value. */
  function XRowsTotal(rows: seq<CrosstabRow>, x: string): int
  {
    if rows == [] then 0 else (if rows[0].xValue == x then rows[0].count else 0) + XRowsTotal(rows[1..], x)
  }

  lemma {:induction false} CrossCountedMatches(rs: seq<CrosstabRow>, gs: seq<Group<Pair>>, x: string)
    requires |rs| == |gs|
    requires forall i :: 0 <= i < |gs| ==> Pair(Some(rs[i].xValue), Some(rs[i].yValue)) == gs[i].value && rs[i].count == gs[i].count
    ensures CrossCounted(rs) == TotalCount(gs)
    ensures XRowsTotal(rs, x) == XTotal(gs, Some(x))
  {
    if rs != [] {
      CrossCountedMatches(rs[1..], gs[1..], x);
    }
  }

  /** A successful scan keeps the groups' pairs and counts, in order, and totals the counts. */
  lemma CrossScanMeaning(gs: seq<Group<Pair>>, xName: string, yName: string, res: CrosstabResult)
    requires CrossScan(CrossAnswerRows(gs), xName, yName) == Success(res)
    ensures res.xColumn == xName && res.yColumn == yName
    ensures res.total == CrossCounted(res.rows) && |res.rows| == |gs|
    ensures forall i :: 0 <= i < |gs| ==>
      Pair(Some(res.rows[i].xValue), Some(res.rows[i].yValue)) == gs[i].value && res.rows[i].count == gs[i].count
    ensures forall i :: 0 <= i < |gs| ==> res.rows[i].percentage == Percentage(gs[i].count, XTotal(gs, gs[i].value.x))
  {
    CrossScanRows(gs, xName, yName);
  }

  lemma CrossScanRows(gs: seq<Group<Pair>>, xName: string, yName: string)
    requires CrossScan(CrossAnswerRows(gs), xName, yName).Success?
    ensures var res := CrossScan(CrossAnswerRows(gs), xName, yName).value;
      && res.xColumn == xName && res.yColumn == yName
      && res.total == CrossCounted(res.rows) && |res.rows| == |gs|
      && (forall i :: 0 <= i < |gs| ==>
            Pair(Some(res.rows[i].xValue), Some(res.rows[i].yValue)) == gs[i].value && res.rows[i].count == gs[i].count)
      && (forall i :: 0 <= i < |gs| ==> res.rows[i].percentage == Percentage(gs[i].count, XTotal(gs, gs[i].value.x)))
  {
    var rows := CrossAnswerRows(gs);
    assert forall i :: 0 <= i < |rows| ==> Scannable(rows[i]);
    var rs := ScanCrossRows(rows);
    assert CrossScan(rows, xName, yName) == Success(CrosstabResult(xName, yName, rs, CrossCounted(rs)));
  }

  lemma CrossRowsMeaning(gs: seq<Group<Pair>>, ps: seq<Pair>, rs: seq<CrosstabRow>)
    requires |rs| == |gs|
    requires forall i :: 0 <= i < |gs| ==> Pair(Some(rs[i].xValue), Some(rs[i].yValue)) == gs[i].value && rs[i].count == gs[i].count
    requires forall i, j :: 0 <= i < j < |gs| ==> gs[i].value != gs[j].value
    requires forall i, j :: 0 <= i < j < |gs| ==>
      ValueBefore(gs[i].value.x, gs[j].value.x) || (gs[i].value.x == gs[j].value.x && gs[i].count >= gs[j].count)
    requires forall i :: 0 <= i < |gs| ==> gs[i].count == CountOf(ps, gs[i].value) >= 1
    requires forall p :: p in ps ==> exists i :: 0 <= i < |gs| && gs[i].value == p
    requires TotalCount(gs) == |ps|
    ensures CrossCounted(rs) == |ps|
    ensures forall i, j :: 0 <= i < j < |rs| ==> (rs[i].xValue, rs[i].yValue) != (rs[j].xValue, rs[j].yValue)
    ensures forall i, j :: 0 <= i < j < |rs| ==>
      LexLess(rs[i].xValue, rs[j].xValue) || (rs[i].xValue == rs[j].xValue && rs[i].count >= rs[j].count)
    ensures forall i :: 0 <= i < |rs| ==> rs[i].count == CountOf(ps, Pair(Some(rs[i].xValue), Some(rs[i].yValue))) >= 1
    ensures forall i :: 0 <= i < |ps| ==>
      ps[i].x.Some? && ps[i].y.Some? && exists k :: 0 <= k < |rs| && Pair(Some(rs[k].xValue), Some(rs[k].yValue)) == ps[i]
  {
    CrossCountedMatches(rs, gs, "");
    CrossRowsDistinct(gs, rs);
    CrossRowsOrdered(gs, rs);
    CrossRowsCover(gs, ps, rs);
  }

  lemma CrossRowsDistinct(gs: seq<Group<Pair>>, rs: seq<CrosstabRow>)
    requires |rs| == |gs|
    requires forall i :: 0 <= i < |gs| ==> Pair(Some(rs[i].xValue), Some(rs[i].yValue)) == gs[i].value
    requires forall i, j :: 0 <= i < j < |gs| ==> gs[i].value != gs[j].value
    ensures forall i, j :: 0 <= i < j < |rs| ==> (rs[i].xValue, rs[i].yValue) != (rs[j].xValue, rs[j].yValue)
  {
    forall i, j | 0 <= i < j < |rs| ensures (rs[i].xValue, rs[i].yValue) != (rs[j].xValue, rs[j].yValue) {
      assert gs[i].value != gs[j].value;
    }
  }

  lemma CrossRowsOrdered(gs: seq<Group<Pair>>, rs: seq<CrosstabRow>)
    requires |rs| == |gs|
    requires forall i :: 0 <= i < |gs| ==> Pair(Some(rs[i].xValue), Some(rs[i].yValue)) == gs[i].value && rs[i].count == gs[i].count
    requires forall i, j :: 0 <= i < j < |gs| ==>
      ValueBefore(gs[i].value.x, gs[j].value.x) || (gs[i].value.x == gs[j].value.x && gs[i].count >= gs[j].count)
    ensures forall i, j :: 0 <= i < j < |rs| ==>
      LexLess(rs[i].xValue, rs[j].xValue) || (rs[i].xValue == rs[j].xValue && rs[i].count >= rs[j].count)
  {
    forall i, j | 0 <= i < j < |rs|
      ensures LexLess(rs[i].xValue, rs[j].xValue) || (rs[i].xValue == rs[j].xValue && rs[i].count >= rs[j].count)
    {
      assert gs[i].value.x == Some(rs[i].xValue) && gs[j].value.x == Some(rs[j].xValue);
    }
  }

  lemma CrossRowsCover(gs: seq<Group<Pair>>, ps: seq<Pair>, rs: seq<CrosstabRow>)
    requires |rs| == |gs|
    requires forall i :: 0 <= i < |gs| ==> Pair(Some(rs[i].xValue), Some(rs[i].yValue)) == gs[i].value
    requires forall p :: p in ps ==> exists i :: 0 <= i < |gs| && gs[i].value == p
    ensures forall i :: 0 <= i < |ps| ==>
      ps[i].x.Some? && ps[i].y.Some? && exists k :: 0 <= k < |rs| && Pair(Some(rs[k].xValue), Some(rs[k].yValue)) == ps[i]
  {
    forall i | 0 <= i < |ps| ensures ps[i].x.Some? && ps[i].y.Some?
      && exists k :: 0 <= k < |rs| && Pair(Some(rs[k].xValue), Some(rs[k].yValue)) == ps[i]
    {
      assert ps[i] in ps;
      var k :| 0 <= k < |gs| && gs[k].value == ps[i];
      assert Pair(Some(rs[k].xValue), Some(rs[k].yValue)) == ps[i];
    }
  }

  /**
   * A successful cross tabulation lists each distinct (x, y) pair once with the number of
   * its co-occurrences, ordered by x and, within one x, by count descending; every pair
   * produced has its row; the total is the number of pairs produced.
   */
  lemma CrossTabulateMeaning(t: Option<Table>, q: PairQuery, xName: string, yName: string)
    requires CrossTabulate(t, q, xName, yName).Success?
    ensures q.x.SplitOn? ==> |q.x.sep| > 0
    ensures q.y.SplitOn? ==> |q.y.sep| > 0
    ensures var ps := GroupedPairs(t.value.rows, q); var res := CrossTabulate(t, q, xName, yName).value;
      && res.xColumn == xName && res.yColumn == yName
      && res.total == CrossCounted(res.rows) == |ps|
      && (forall i, j :: 0 <= i < j < |res.rows| ==> (res.rows[i].xValue, res.rows[i].yValue) != (res.rows[j].xValue, res.rows[j].yValue))
      && (forall i, j :: 0 <= i < j < |res.rows| ==>
            LexLess(res.rows[i].xValue, res.rows[j].xValue)
            || (res.rows[i].xValue == res.rows[j].xValue && res.rows[i].count >= res.rows[j].count))
      && (forall i :: 0 <= i < |res.rows| ==>
            res.rows[i].count == CountOf(ps, Pair(Some(res.rows[i].xValue), Some(res.rows[i].yValue))) >= 1)
      && (forall i :: 0 <= i < |ps| ==>
            ps[i].x.Some? && ps[i].y.Some?
            && exists k :: 0 <= k < |res.rows| && Pair(Some(res.rows[k].xValue), Some(res.rows[k].yValue)) == ps[i])
  {
    var gs := RunPairQuery(t, q).value;
    var res := CrossTabulate(t, q, xName, yName).value;
    CrossScanMeaning(gs, xName, yName, res);
    QueryCrossRowsMeaning(t, q, res.rows);
  }

  /** Rows that copy the pair query's groups, in order, have the groups' properties. */
  lemma QueryCrossRowsMeaning(t: Option<Table>, q: PairQuery, rs: seq<CrosstabRow>)
    requires RunPairQuery(t, q).Success?
    requires var gs := RunPairQuery(t, q).value;
      |rs| == |gs| && forall i :: 0 <= i < |gs| ==>
        Pair(Some(rs[i].xValue), Some(rs[i].yValue)) == gs[i].value && rs[i].count == gs[i].count
    ensures q.x.SplitOn? ==> |q.x.sep| > 0
    ensures q.y.SplitOn? ==> |q.y.sep| > 0
    ensures var ps := GroupedPairs(t.value.rows, q);
      && CrossCounted(rs) == |ps|
      && (forall i, j :: 0 <= i < j < |rs| ==> (rs[i].xValue, rs[i].yValue) != (rs[j].xValue, rs[j].yValue))
      && (forall i, j :: 0 <= i < j < |rs| ==>
            LexLess(rs[i].xValue, rs[j].xValue) || (rs[i].xValue == rs[j].xValue && rs[i].count >= rs[j].count))
      && (forall i :: 0 <= i < |rs| ==> rs[i].count == CountOf(ps, Pair(Some(rs[i].xValue), Some(rs[i].yValue))) >= 1)
      && (forall i :: 0 <= i < |ps| ==>
            ps[i].x.Some? && ps[i].y.Some? && exists k :: 0 <= k < |rs| && Pair(Some(rs[k].xValue), Some(rs[k].yValue)) == ps[i])
  {
    PairQueryResult(t, q);
    CrossRowsMeaning(RunPairQuery(t, q).value, GroupedPairs(t.value.rows, q), rs);
  }

  /** A row's percentage is its count's share of the counts of all rows with the same x value. */
  lemma PartitionPercentages(t: Option<Table>, q: PairQuery, xName: string, yName: string)
    requires CrossTabulate(t, q, xName, yName).Success?
    ensures var rows := CrossTabulate(t, q, xName, yName).value.rows;
      forall i :: 0 <= i < |rows| ==> rows[i].percentage == Percentage(rows[i].count, XRowsTotal(rows, rows[i].xValue))
  {
    var gs := RunPairQuery(t, q).value;
    CrossScanMeaning(gs, xName, yName, CrossTabulate(t, q, xName, yName).value);
    var rows := CrossTabulate(t, q, xName, yName).value.rows;
    forall i | 0 <= i < |rows| ensures rows[i].percentage == Percentage(rows[i].count, XRowsTotal(rows, rows[i].xValue)) {
      CrossCountedMatches(rows, gs, rows[i].xValue);
    }
  }

  // ---------------------------------------------------------------------------
  // The fan-out query with a derived axis
  // ---------------------------------------------------------------------------

  /**
   * As written, the fan-out query names an unsplit derived X axis by its raw name, which
   * is no column of the table: a derived X beside a split base Y is always rejected.
   */
  lemma AsWrittenRejectsDerivedX(t: Table, config: AnalysisConfig)
    requires config.xColumn.isDerived && config.xColumn.name !in Names(t.columns)
    requires config.splitY && !config.yColumn.isDerived
    ensures Forced(config).splitY && !Forced(config).splitX
    ensures CrossTabulate(Some(t), MultiAnswerCrosstabQueryAsWritten(Forced(config)), config.xColumn.name, config.yColumn.name)
      == Failure("failed to execute crosstab query: binder error")
  {
    var q := MultiAnswerCrosstabQueryAsWritten(Forced(config));
    assert q.x == Whole(ColRef(config.xColumn.name));
    assert !ExprOk(ColRef(config.xColumn.name), Names(t.columns));
  }

  /**
   * The corrected fan-out query selects the derived X axis by its expression: when that
   * expression and the split Y column are known to the table, the query runs.
   */
  lemma CorrectedAcceptsDerivedX(t: Table, config: AnalysisConfig)
    requires config.xColumn.isDerived && ExprOk(GetSQLExpression(config.xColumn), Names(t.columns))
    requires config.splitY && !config.yColumn.isDerived && config.yColumn.name in Names(t.columns)
    ensures CrosstabQuery(config) == MultiAnswerCrosstabQuery(Forced(config))
    ensures RunPairQuery(Some(t), CrosstabQuery(config)).Success?
  {
    var q := CrosstabQuery(config);
    assert q.x == Whole(GetSQLExpression(config.xColumn));
    assert q.y == SplitOn(ColRef(config.yColumn.name), NewlineSeparator);
    assert q.where == [NotNull(config.yColumn.name)];
  }

  /** On two base axes the corrected fan-out query is the query as written. */
  lemma CorrectionKeepsBaseAxes(config: AnalysisConfig)
    requires !config.xColumn.isDerived && !config.yColumn.isDerived
    ensures MultiAnswerCrosstabQuery(config) == MultiAnswerCrosstabQueryAsWritten(config)
  {
  }

  // ---------------------------------------------------------------------------
  // Fan-out and scanning
  // ---------------------------------------------------------------------------

  lemma {:induction false} SelectPairsNoSeparator(rows: seq<Row>, ex: Expr, ey: Expr, sep: string)
    requires |sep| > 0
    requires forall i :: 0 <= i < |rows| ==> Eval(ey, rows[i]).Some? && !Contains(Eval(ey, rows[i]).value, sep)
    ensures SelectPairs(rows, Whole(ex), SplitOn(ey, sep)) == SelectPairs(rows, Whole(ex), Whole(ey))
  {
    if rows != [] {
      var v := Eval(ey, rows[0]).value;
      SplitNoSeparator(v, sep);
      assert FanoutValues(SplitOn(ey, sep), rows[0]) == [Some(v)];
      assert PairValues(Whole(ex), SplitOn(ey, sep), rows[0]) == PairValues(Whole(ex), Whole(ey), rows[0]);
      assert forall i :: 1 <= i < |rows| ==> rows[i] == rows[1..][i - 1];
      SelectPairsNoSeparator(rows[1..], ex, ey, sep);
    }
  }

  /**
   * Splitting the Y axis when none of its counted cells holds a newline gives the same
   * cross tabulation as not splitting it.
   */
  lemma SplitYWithoutNewlines(t: Table, config: AnalysisConfig)
    requires config.splitY && !config.yColumn.isDerived && !(config.splitX && !config.xColumn.isDerived)
    requires NoNewlineCells(Selected(t.rows, CrosstabQuery(config).where), config.yColumn.name)
    ensures CrossTabulate(Some(t), CrosstabQuery(config), config.xColumn.name, config.yColumn.name)
      == CrossTabulate(Some(t), SimpleCrosstabQuery(Forced(config)), config.xColumn.name, config.yColumn.name)
  {
    var q := CrosstabQuery(config);
    var simple := SimpleCrosstabQuery(Forced(config));
    assert q.where == simple.where;
    var sel := Selected(t.rows, q.where);
    forall i | 0 <= i < |sel|
      ensures Eval(ColRef(config.yColumn.name), sel[i]).Some?
      ensures !Contains(Eval(ColRef(config.yColumn.name), sel[i]).value, NewlineSeparator)
    {
      CrosstabWhereMeaning(config, sel[i]);
      assert Eval(ColRef(config.yColumn.name), sel[i]) == Cell(sel[i], config.yColumn.name);
    }
    SelectPairsNoSeparator(sel, GetSQLExpression(config.xColumn), ColRef(config.yColumn.name), NewlineSeparator);
    assert GroupedPairs(t.rows, q) == GroupedPairs(t.rows, simple);
  }

  /** With at most one axis unnested, every pair carries a value wherever the plain axis has one. */
  lemma {:induction false} SelectPairsSome(rows: seq<Row>, x: Fanout, y: Fanout)
    requires x.SplitOn? ==> |x.sep| > 0
    requires y.SplitOn? ==> |y.sep| > 0
    requires !(x.SplitOn? && y.SplitOn?)
    requires x.Whole? ==> forall i :: 0 <= i < |rows| ==> Eval(x.e, rows[i]).Some?
    requires y.Whole? ==> forall i :: 0 <= i < |rows| ==> Eval(y.e, rows[i]).Some?
    ensures forall p :: p in SelectPairs(rows, x, y) ==> p.x.Some? && p.y.Some?
  {
    if rows != [] {
      var r := rows[0];
      var ps := PairValues(x, y, r);
      forall k | 0 <= k < |ps| ensures ps[k].x.Some? && ps[k].y.Some? {
        if x.SplitOn? {
          assert ps[k].x == FanoutValues(x, r)[k];
        }
        if y.SplitOn? {
          assert ps[k].y == FanoutValues(y, r)[k];
        }
      }
      assert forall i :: 1 <= i < |rows| ==> rows[i] == rows[1..][i - 1];
      SelectPairsSome(rows[1..], x, y);
    }
  }

  /** Two base axes, at most one of them split: a query that runs never fails to scan. */
  lemma BaseAxesScan(t: Table, config: AnalysisConfig)
    requires !config.xColumn.isDerived && !config.yColumn.isDerived && !(config.splitX && config.splitY)
    requires RunPairQuery(Some(t), CrosstabQuery(config)).Success?
    ensures CrossTabulate(Some(t), CrosstabQuery(config), config.xColumn.name, config.yColumn.name).Success?
  {
    var q := CrosstabQuery(config);
    var sel := Selected(t.rows, q.where);
    forall i | 0 <= i < |sel|
      ensures Eval(ColRef(config.xColumn.name), sel[i]).Some? && Eval(ColRef(config.yColumn.name), sel[i]).Some?
    {
      CrosstabWhereMeaning(config, sel[i]);
    }
    SelectPairsSome(sel, q.x, q.y);
    PairQueryResult(Some(t), q);
    var gs := RunPairQuery(Some(t), q).value;
    forall i | 0 <= i < |gs| ensures Scannable(CrossAnswerRows(gs)[i]) {
      assert gs[i].value in GroupedPairs(t.rows, q);
    }
  }

  lemma {:induction false} SelectPairsHas(rows: seq<Row>, x: Fanout, y: Fanout, r: Row, k: nat)
    requires x.SplitOn? ==> |x.sep| > 0
    requires y.SplitOn? ==> |y.sep| > 0
    requires r in rows && k < |PairValues(x, y, r)|
    ensures PairValues(x, y, r)[k] in SelectPairs(rows, x, y)
  {
    if rows[0] != r {
      SelectPairsHas(rows[1..], x, y, r, k);
    }
  }

  /**
   * Two split axes are unnested side by side, not crossed: a counted row with more X
   * answers than Y answers pairs its last X answer with NULL, and the tabulation fails
   * on scanning.
   */
  lemma BothSplitPadsWithNull(t: Table, config: AnalysisConfig, r: Row)
    requires !config.xColumn.isDerived && !config.yColumn.isDerived && config.splitX && config.splitY
    requires RunPairQuery(Some(t), CrosstabQuery(config)).Success?
    requires r in t.rows
    requires Cell(r, config.xColumn.name).Some? && Cell(r, config.yColumn.name).Some?
    requires |Split(Cell(r, config.xColumn.name).value, NewlineSeparator)| > |Split(Cell(r, config.yColumn.name).value, NewlineSeparator)|
    ensures CrossTabulate(Some(t), CrosstabQuery(config), config.xColumn.name, config.yColumn.name) == Failure("failed to scan row")
  {
    var q := CrosstabQuery(config);
    CrosstabWhereMeaning(config, r);
    var sel := Selected(t.rows, q.where);
    assert r in sel;
    var xs := FanoutValues(q.x, r);
    var ys := FanoutValues(q.y, r);
    assert xs == Somes(Split(Cell(r, config.xColumn.name).value, NewlineSeparator));
    assert ys == Somes(Split(Cell(r, config.yColumn.name).value, NewlineSeparator));
    var k := |ys|;
    assert PairValues(q.x, q.y, r)[k].y == None;
    SelectPairsHas(sel, q.x, q.y, r, k);
    PairQueryResult(Some(t), q);
    var gs := RunPairQuery(Some(t), q).value;
    var j :| 0 <= j < |gs| && gs[j].value == PairValues(q.x, q.y, r)[k];
    assert !Scannable(CrossAnswerRows(gs)[j]);
  }
}
