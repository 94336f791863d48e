/**
 * Filters: named lists of conditions on columns, compiled into a WHERE clause that
 * keeps the rows whose value is among the included values and not among the excluded ones.
 */
module Filters {
  import opened Wrappers
  import opened Sql
  import opened Types
  import opened Columns

  datatype FilterCondition = FilterCondition(column: string, includeValues: seq<string>, excludeValues: seq<string>)

  datatype Filter = Filter(name: string, description: string, conditions: seq<FilterCondition>)

  /** The first column called `name`, base or derived. */
  function FirstNamed(cols: seq<Column>, name: string): (c: Option<Column>)
    ensures c.None? <==> forall i :: 0 <= i < |cols| ==> cols[i].name != name
    ensures c.Some? ==> exists i :: 0 <= i < |cols| && cols[i] == c.value && c.value.name == name
                          && forall j :: 0 <= j < i ==> cols[j].name != name
  {
    if cols == [] then None
    else if cols[0].name == name then Some(cols[0])
    else
      var c := FirstNamed(cols[1..], name);
      assert forall i :: 1 <= i < |cols| ==> cols[i] == cols[1..][i - 1];
      c
  }

  /** The columns a filter can refer to: none when the listing fails. */
  function Listed(a: Analyzer): seq<Column>
  {
    match ColumnsOf(a)
    case Failure(_) => []
    case Success(cols) => cols
  }

  /** Lists the columns and returns the first one with the name, if any. */
  method FindColumnByName(a: Analyzer, name: string) returns (c: Option<Column>)
    ensures c == FirstNamed(Listed(a), name)
  {
    var columns := GetColumns(a);
    if columns.Failure? {
      return None;
    }
    var cols := columns.value;
    for i := 0 to |cols|
      invariant forall j :: 0 <= j < i ==> cols[j].name != name
    {
      if cols[i].name == name {
        FirstNamedAt(cols, name, i);
        return Some(cols[i]);
      }
    }
    return None;
  }

  lemma FirstNamedAt(cols: seq<Column>, name: string, i: nat)
    requires i < |cols| && cols[i].name == name
    requires forall j :: 0 <= j < i ==> cols[j].name != name
    ensures FirstNamed(cols, name) == Some(cols[i])
  {
    var c := FirstNamed(cols, name);
    var k :| 0 <= k < |cols| && cols[k] == c.value && c.value.name == name && forall j :: 0 <= j < k ==> cols[j].name != name;
    assert k == i;
  }

  /** The clauses of one condition on a resolved column: IN for the included values, then NOT IN for the excluded. */
  function ConditionClauses(cond: FilterCondition, col: Column): seq<Predicate>
  {
    (if |cond.includeValues| > 0 then [InList(GetSQLExpression(col), cond.includeValues)] else [])
    + (if |cond.excludeValues| > 0 then [NotInList(GetSQLExpression(col), cond.excludeValues)] else [])
  }

  /** The clauses of the conditions in order; a condition on an unknown column contributes none. */
  function WhereClauses(conds: seq<FilterCondition>, cols: seq<Column>): seq<Predicate>
  {
    if conds == [] then []
    else
      var last := conds[|conds| - 1];
      WhereClauses(conds[..|conds| - 1], cols) + ClausesFor(last, cols)
  }

  function ClausesFor(cond: FilterCondition, cols: seq<Column>): seq<Predicate>
  {
    match FirstNamed(cols, cond.column)
    case None => []
    case Some(col) => ConditionClauses(cond, col)
  }

  /**
   * Appends the IN clause, then the NOT IN clause, of a condition on a resolved column. The
   * values enter the clauses as literals; the quoting that writes them into SQL text is not
   * represented.
   */
  method AppendConditionClauses(whereClauses: seq<Predicate>, cond: FilterCondition, column: Column) returns (out: seq<Predicate>)
    ensures out == whereClauses + ConditionClauses(cond, column)
  {
    out := whereClauses;
    var colExpr := GetSQLExpression(column);
    if |cond.includeValues| > 0 {
      out := out + [InList(colExpr, cond.includeValues)];
    }
    if |cond.excludeValues| > 0 {
      out := out + [NotInList(colExpr, cond.excludeValues)];
    }
  }

  /**
   * Compiles the filter into the conjunction of its clauses; the empty list of clauses
   * is the empty WHERE text, which restricts nothing.
   */
  method GenerateWhereClause(f: Filter, a: Analyzer) returns (whereClauses: seq<Predicate>)
    ensures whereClauses == WhereClauses(f.conditions, Listed(a))
  {
    whereClauses := [];
    ghost var listed := Listed(a);
    for k := 0 to |f.conditions|
      invariant whereClauses == WhereClauses(f.conditions[..k], listed)
    {
      var cond := f.conditions[k];
      assert WhereClauses(f.conditions[..k + 1], listed) == WhereClauses(f.conditions[..k], listed) + ClausesFor(cond, listed) by {
        assert f.conditions[..k + 1][..k] == f.conditions[..k];
      }
      var column := FindColumnByName(a, cond.column);
      if column.None? {
        continue;
      }
      whereClauses := AppendConditionClauses(whereClauses, cond, column.value);
    }
    assert f.conditions[..|f.conditions|] == f.conditions;
  }

  /**
   * What a condition means for a row: when its column resolves, a non-empty include list
   * requires the value to be one of them, and a non-empty exclude list requires a value
   * that is none of them. A NULL value passes neither list.
   */
  predicate ConditionAdmits(cond: FilterCondition, cols: seq<Column>, r: Row)
  {
    FirstNamed(cols, cond.column).Some? ==>
      var v := Eval(GetSQLExpression(FirstNamed(cols, cond.column).value), r);
      && (|cond.includeValues| > 0 ==> v.Some? && v.value in cond.includeValues)
      && (|cond.excludeValues| > 0 ==> v.Some? && v.value !in cond.excludeValues)
  }

  /** A filter admits a row when every one of its conditions does. */
  predicate FilterAdmits(conds: seq<FilterCondition>, cols: seq<Column>, r: Row)
  {
    forall k :: 0 <= k < |conds| ==> ConditionAdmits(conds[k], cols, r)
  }

  lemma AllPredicatesHoldAppend(p: seq<Predicate>, q: seq<Predicate>, r: Row)
    ensures AllPredicatesHold(p + q, r) <==> AllPredicatesHold(p, r) && AllPredicatesHold(q, r)
  {
    if AllPredicatesHold(p, r) && AllPredicatesHold(q, r) {
      forall i | 0 <= i < |p + q| ensures PredicateHolds((p + q)[i], r) {
        if i >= |p| {
          assert (p + q)[i] == q[i - |p|];
        }
      }
    }
    if AllPredicatesHold(p + q, r) {
      forall i | 0 <= i < |q| ensures PredicateHolds(q[i], r) {
        assert (p + q)[|p| + i] == q[i];
      }
      forall i | 0 <= i < |p| ensures PredicateHolds(p[i], r) {
        assert (p + q)[i] == p[i];
      }
    }
  }

  lemma ClausesForMeaning(cond: FilterCondition, cols: seq<Column>, r: Row)
    ensures AllPredicatesHold(ClausesFor(cond, cols), r) <==> ConditionAdmits(cond, cols, r)
  {
    if FirstNamed(cols, cond.column).Some? {
      var col := FirstNamed(cols, cond.column).value;
      var inc := if |cond.includeValues| > 0 then [InList(GetSQLExpression(col), cond.includeValues)] else [];
      var exc := if |cond.excludeValues| > 0 then [NotInList(GetSQLExpression(col), cond.excludeValues)] else [];
      assert ClausesFor(cond, cols) == inc + exc;
      AllPredicatesHoldAppend(inc, exc, r);
      var v := Eval(GetSQLExpression(col), r);
      assert AllPredicatesHold(inc, r) <==> (|cond.includeValues| > 0 ==> v.Some? && v.value in cond.includeValues) by {
        if |cond.includeValues| > 0 {
          assert inc[0] == InList(GetSQLExpression(col), cond.includeValues);
        }
      }
      assert AllPredicatesHold(exc, r) <==> (|cond.excludeValues| > 0 ==> v.Some? && v.value !in cond.excludeValues) by {
        if |cond.excludeValues| > 0 {
          assert exc[0] == NotInList(GetSQLExpression(col), cond.excludeValues);
        }
      }
    }
  }

  lemma FilterAdmitsLast(conds: seq<FilterCondition>, cols: seq<Column>, r: Row)
    requires conds != []
    ensures FilterAdmits(conds, cols, r) <==>
      FilterAdmits(conds[..|conds| - 1], cols, r) && ConditionAdmits(conds[|conds| - 1], cols, r)
  {
    var init := conds[..|conds| - 1];
    assert forall k :: 0 <= k < |init| ==> conds[k] == init[k];
  }

  /** The compiled clauses hold for a row exactly when the filter admits it. */
  lemma {:induction false} WhereClausesMeaning(conds: seq<FilterCondition>, cols: seq<Column>, r: Row)
    ensures AllPredicatesHold(WhereClauses(conds, cols), r) <==> FilterAdmits(conds, cols, r)
  {
    if conds != [] {
      var init := conds[..|conds| - 1];
      var last := conds[|conds| - 1];
      WhereClausesMeaning(init, cols, r);
      AllPredicatesHoldAppend(WhereClauses(init, cols), ClausesFor(last, cols), r);
      ClausesForMeaning(last, cols, r);
      FilterAdmitsLast(conds, cols, r);
    }
  }

  /** A filter whose conditions all have empty lists, or name no known column, produces no clause. */
  lemma {:induction false} NoClauses(conds: seq<FilterCondition>, cols: seq<Column>)
    requires forall k :: 0 <= k < |conds| ==>
      FirstNamed(cols, conds[k].column).None? || (|conds[k].includeValues| == 0 && |conds[k].excludeValues| == 0)
    ensures WhereClauses(conds, cols) == []
  {
    if conds != [] {
      NoClauses(conds[..|conds| - 1], cols);
    }
  }

  /** A condition on a column that does not resolve can be dropped without changing the clauses. */
  lemma {:induction false} UnresolvedConditionIgnored(pre: seq<FilterCondition>, c: FilterCondition, post: seq<FilterCondition>, cols: seq<Column>)
    requires FirstNamed(cols, c.column).None?
    ensures WhereClauses(pre + [c] + post, cols) == WhereClauses(pre + post, cols)
    decreases |post|
  {
    if post == [] {
      assert pre + [c] + post == pre + [c];
      assert (pre + [c])[..|pre|] == pre;
      assert pre + post == pre;
    } else {
      var init := post[..|post| - 1];
      var last := post[|post| - 1];
      assert (pre + [c] + post)[..|pre + [c] + post| - 1] == pre + [c] + init;
      assert (pre + post)[..|pre + post| - 1] == pre + init;
      assert (pre + [c] + post)[|pre + [c] + post| - 1] == last;
      assert (pre + post)[|pre + post| - 1] == last;
      UnresolvedConditionIgnored(pre, c, init, cols);
    }
  }
}
