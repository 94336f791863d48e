/**
 * The column list the analyzer offers: the table's columns in schema order, each
 * flagged as multi-answer or not, followed by the configured derived columns.
 */
module Columns {
  import opened Wrappers
  import opened Strings
  import opened Sql
  import opened Types
  import opened Derived

  /**
   * What the detection query returns for a column: the number of non-NULL cells and the
   * number of them containing a newline. The latter is a SUM, which is NULL over no rows.
   */
  datatype ProbeRow = ProbeRow(total: nat, multiCount: Option<nat>)

  /**
   * An analyzer: the table it reads (absent when the table cannot be described or queried),
   * the result of the detection query for each column name (the database is not modelled),
   * and the configured derived columns.
   */
  datatype Analyzer = Analyzer(
    table: Option<Table>,
    probe: string -> Result<ProbeRow>,
    derivedColumns: seq<DerivedColumn>)

  const MultiKeywords: seq<string> := ["複数回答可", "複数回答", "（複数選択可）", "複数選択可"]

  predicate HasMultiKeyword(name: string)
  {
    exists k :: 0 <= k < |MultiKeywords| && Contains(name, MultiKeywords[k])
  }

  /**
   * The outcome of multi-answer detection for a column name: a name with a marker phrase
   * is multi-answer; otherwise the detection query decides, by a share of values with a
   * newline strictly above 5%, and an error of the query (a NULL count included) is an error.
   */
  function MultiAnswerDecision(name: string, probe: string -> Result<ProbeRow>): Result<bool>
  {
    if HasMultiKeyword(name) then Success(true)
    else
      match probe(name)
      case Failure(e) => Failure(e)
      case Success(row) =>
        if row.multiCount.None? then Failure("converting NULL to int is unsupported")
        else if row.total == 0 then Success(false)
        else Success((row.multiCount.value as real) / (row.total as real) > 0.05)
  }

  /** Marker phrases are checked in order; the detection query runs only when none occurs. */
  method DetectMultiAnswer(name: string, probe: string -> Result<ProbeRow>) returns (r: Result<bool>)
    ensures r == MultiAnswerDecision(name, probe)
  {
    for k := 0 to |MultiKeywords|
      invariant forall j :: 0 <= j < k ==> !Contains(name, MultiKeywords[j])
    {
      if Contains(name, MultiKeywords[k]) {
        return Success(true);
      }
    }
    var row := probe(name);
    if row.Failure? {
      return Failure(row.error);
    }
    if row.value.multiCount.None? {
      return Failure("converting NULL to int is unsupported");
    }
    var total, multiCount := row.value.total, row.value.multiCount.value;
    if total == 0 {
      return Success(false);
    }
    var ratio := (multiCount as real) / (total as real);
    return Success(ratio > 0.05);
  }

  lemma ProductPositive(a: real, b: real)
    requires a > 0.0 && b > 0.0
    ensures a * b > 0.0
  {
  }

  lemma ProductNonNegative(a: real, b: real)
    requires a >= 0.0 && b > 0.0
    ensures a * b >= 0.0
  {
  }

  lemma RatioAboveTwentieth(m: nat, t: nat)
    requires t > 0
    ensures (m as real) / (t as real) > 0.05 <==> m * 20 > t
  {
    var q := (m as real) / (t as real);
    var tr := t as real;
    assert q * tr == m as real;
    if q > 0.05 {
      ProductPositive(q - 0.05, tr);
      assert (q - 0.05) * tr == q * tr - 0.05 * tr;
    } else {
      ProductNonNegative(0.05 - q, tr);
      assert (0.05 - q) * tr == 0.05 * tr - q * tr;
    }
  }

  /**
   * Without a marker phrase, a column with values is multi-answer exactly when more than
   * one value in twenty contains a newline; exactly 5% is not multi-answer.
   */
  lemma MultiAnswerThreshold(name: string, probe: string -> Result<ProbeRow>, total: nat, multiCount: nat)
    requires !HasMultiKeyword(name)
    requires probe(name) == Success(ProbeRow(total, Some(multiCount))) && total > 0
    ensures MultiAnswerDecision(name, probe) == Success(multiCount * 20 > total)
    ensures multiCount * 20 == total ==> MultiAnswerDecision(name, probe) == Success(false)
  {
    RatioAboveTwentieth(multiCount, total);
  }

  /** A marker phrase anywhere in the name decides, whatever the data. */
  lemma MultiKeywordDecides(name: string, probe: string -> Result<ProbeRow>, k: nat)
    requires k < |MultiKeywords| && Contains(name, MultiKeywords[k])
    ensures MultiAnswerDecision(name, probe) == Success(true)
  {
  }

  /** The flag a listed column gets: a failed detection counts as not multi-answer. */
  function IsMultiAnswer(name: string, probe: string -> Result<ProbeRow>): bool
  {
    var d := MultiAnswerDecision(name, probe);
    d.Success? && d.value
  }

  /**
   * A column with no non-NULL value is not multi-answer (unless its name has a marker):
   * its detection query counts nothing, or fails on the NULL sum, and either way the flag
   * is off.
   */
  lemma EmptyColumnNotMulti(name: string, probe: string -> Result<ProbeRow>)
    requires !HasMultiKeyword(name)
    requires probe(name).Success? ==> probe(name).value.total == 0
    ensures !IsMultiAnswer(name, probe)
  {
  }

  function BaseColumn(def: ColumnDef, index: int, probe: string -> Result<ProbeRow>): Column
  {
    Column(index, def.name, def.typeName, IsMultiAnswer(def.name, probe), 0, false, Blank)
  }

  /** The list of columns, or the error of describing the table. */
  function ColumnsOf(a: Analyzer): Result<seq<Column>>
  {
    if a.table.None? then Failure("failed to describe table")
    else
      var defs := a.table.value.columns;
      Success(BaseColumns(defs, a.probe) + DerivedColumns(a.derivedColumns, |defs|))
  }

  /** The table's columns, numbered from 1. */
  function BaseColumns(defs: seq<ColumnDef>, probe: string -> Result<ProbeRow>): (cols: seq<Column>)
    ensures |cols| == |defs| && forall i :: 0 <= i < |defs| ==> cols[i] == BaseColumn(defs[i], i + 1, probe)
  {
    seq(|defs|, i requires 0 <= i < |defs| => BaseColumn(defs[i], i + 1, probe))
  }

  /** The derived columns, numbered on from the `offset` columns before them. */
  function DerivedColumns(dcs: seq<DerivedColumn>, offset: int): (cols: seq<Column>)
    ensures |cols| == |dcs| && forall i :: 0 <= i < |dcs| ==> cols[i] == GetDerivedColumn(dcs[i], offset + i + 1)
  {
    if dcs == [] then [] else [GetDerivedColumn(dcs[0], offset + 1)] + DerivedColumns(dcs[1..], offset + 1)
  }

  /** Lists the base columns with their detection result, then the derived columns, numbering from 1. */
  method GetColumns(a: Analyzer) returns (r: Result<seq<Column>>)
    ensures r == ColumnsOf(a)
  {
    if a.table.None? {
      return Failure("failed to describe table");
    }
    var defs := a.table.value.columns;
    var columns: seq<Column> := [];
    var index := 1;
    for k := 0 to |defs|
      invariant index == k + 1 && |columns| == k
      invariant forall i :: 0 <= i < k ==> columns[i] == BaseColumn(defs[i], i + 1, a.probe)
    {
      var isMulti := DetectMultiAnswer(defs[k].name, a.probe);
      var column := Column(index, defs[k].name, defs[k].typeName, false, 0, false, Blank);
      if isMulti.Failure? {
        column := column.(isMulti := false);
      } else {
        column := column.(isMulti := isMulti.value);
      }
      columns := columns + [column];
      index := index + 1;
    }
    var dcs := a.derivedColumns;
    for k := 0 to |dcs|
      invariant index == |defs| + k + 1 && |columns| == |defs| + k
      invariant forall i :: 0 <= i < |defs| ==> columns[i] == BaseColumn(defs[i], i + 1, a.probe)
      invariant forall i :: 0 <= i < k ==> columns[|defs| + i] == GetDerivedColumn(dcs[i], |defs| + i + 1)
    {
      var col := GetDerivedColumn(dcs[k], index);
      columns := columns + [col];
      index := index + 1;
    }
    ListingShape(a, columns);
    return Success(columns);
  }

  lemma ListingShape(a: Analyzer, columns: seq<Column>)
    requires a.table.Some?
    requires |columns| == |a.table.value.columns| + |a.derivedColumns|
    requires forall i :: 0 <= i < |a.table.value.columns| ==> columns[i] == BaseColumn(a.table.value.columns[i], i + 1, a.probe)
    requires forall i :: 0 <= i < |a.derivedColumns| ==>
      columns[|a.table.value.columns| + i] == GetDerivedColumn(a.derivedColumns[i], |a.table.value.columns| + i + 1)
    ensures ColumnsOf(a) == Success(columns)
  {
    var defs, dcs := a.table.value.columns, a.derivedColumns;
    ConcatOfParts(columns, BaseColumns(defs, a.probe), DerivedColumns(dcs, |defs|));
  }

  lemma ConcatOfParts<T>(s: seq<T>, front: seq<T>, back: seq<T>)
    requires |s| == |front| + |back|
    requires forall i :: 0 <= i < |front| ==> s[i] == front[i]
    requires forall i :: 0 <= i < |back| ==> s[|front| + i] == back[i]
    ensures s == front + back
  {
    forall i | |front| <= i < |s|
      ensures s[i] == (front + back)[i]
    {
      assert s[|front| + (i - |front|)] == back[i - |front|];
    }
  }

  /**
   * The listing numbers its columns 1, 2, ... in order; the first ones are the table's
   * columns in schema order with their names and types, none derived; the rest are the
   * derived columns in configuration order. Without a table the listing fails.
   */
  lemma ColumnListing(a: Analyzer)
    ensures ColumnsOf(a).Failure? <==> a.table.None?
    ensures ColumnsOf(a).Success? ==>
      var cols := ColumnsOf(a).value;
      var defs := a.table.value.columns;
      && |cols| == |defs| + |a.derivedColumns|
      && (forall i :: 0 <= i < |cols| ==> cols[i].index == i + 1)
      && (forall i :: 0 <= i < |defs| ==>
            cols[i].name == defs[i].name && cols[i].typeName == defs[i].typeName && !cols[i].isDerived
            && cols[i].isMulti == IsMultiAnswer(defs[i].name, a.probe))
      && (forall i :: |defs| <= i < |cols| ==>
            cols[i].name == a.derivedColumns[i - |defs|].name && cols[i].isDerived && !cols[i].isMulti)
  {
    if ColumnsOf(a).Success? {
      forall i | 0 <= i < |ColumnsOf(a).value| {
        ListedColumnIs(a, i);
      }
    }
  }

  /** A base column reads its own cell; a derived column computes its CASE expression. */
  lemma ListedColumnValues(a: Analyzer, i: nat, r: Row)
    requires ColumnsOf(a).Success? && i < |ColumnsOf(a).value|
    ensures var c := ColumnsOf(a).value[i]; var defs := a.table.value.columns;
      (i < |defs| ==> Eval(GetSQLExpression(c), r) == Cell(r, defs[i].name))
      && (i >= |defs| ==> Eval(GetSQLExpression(c), r) == Eval(CaseExpression(a.derivedColumns[i - |defs|]), r))
  {
    ListedColumnIs(a, i);
  }

  lemma ListedColumnIs(a: Analyzer, i: nat)
    requires ColumnsOf(a).Success? && i < |ColumnsOf(a).value|
    ensures var defs := a.table.value.columns;
      (i < |defs| ==> ColumnsOf(a).value[i] == BaseColumn(defs[i], i + 1, a.probe))
      && (i >= |defs| ==> ColumnsOf(a).value[i] == GetDerivedColumn(a.derivedColumns[i - |defs|], i + 1))
  {
    var defs := a.table.value.columns;
    var bases, derived := BaseColumns(defs, a.probe), DerivedColumns(a.derivedColumns, |defs|);
    if i < |defs| {
      assert (bases + derived)[i] == bases[i];
    } else {
      assert (bases + derived)[i] == derived[i - |defs|];
    }
  }
}
