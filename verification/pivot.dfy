/**
 * The pivot of a cross tabulation: the distinct x and y values, each axis sorted, and a
 * dense matrix with a cell for every (x, y), flagged by whether some row has that pair.
 */
module Pivot {
  import opened Strings
  import opened Sorting
  import opened Grouping
  import opened Types

  function XValuesOf(rows: seq<CrosstabRow>): set<string>
  {
    set i | 0 <= i < |rows| :: rows[i].xValue
  }

  function YValuesOf(rows: seq<CrosstabRow>): set<string>
  {
    set i | 0 <= i < |rows| :: rows[i].yValue
  }

  /** A cell no row fills. */
  const NoData: CrosstabCell := CrosstabCell(0, 0.0, false)

  /** The cell of (x, y): the count and percentage of the last row with that pair, or no data. */
  function PivotCell(rows: seq<CrosstabRow>, x: string, y: string): CrosstabCell
  {
    if rows == [] then NoData
    else
      var last := rows[|rows| - 1];
      if last.xValue == x && last.yValue == y then CrosstabCell(last.count, last.percentage, true)
      else PivotCell(rows[..|rows| - 1], x, y)
  }

  /** `s` lists the elements of `xs`, each once, in ascending order. */
  predicate SortedListing(s: seq<string>, xs: set<string>)
  {
    && SortedBy(s, LexLe)
    && NoDuplicates(s)
    && (forall i :: 0 <= i < |s| ==> s[i] in xs)
    && (forall x :: x in xs ==> x in s)
  }

  /** Collects the set's elements in whatever order the set yields them, then sorts them in place. */
  method SortedSlice(xs: set<string>) returns (s: seq<string>)
    ensures SortedListing(s, xs)
  {
    var out: seq<string> := [];
    var remaining := xs;
    while remaining != {}
      invariant remaining <= xs
      invariant forall i :: 0 <= i < |out| ==> out[i] in xs && out[i] !in remaining
      invariant NoDuplicates(out)
      invariant forall x :: x in xs ==> x in remaining || x in out
      decreases |remaining|
    {
      var x :| x in remaining;
      out := out + [x];
      remaining := remaining - {x};
    }
    var a := new string[|out|](i requires 0 <= i < |out| => out[i]);
    assert a[..] == out;
    LexLeOrder();
    SortArray(a, LexLe);
    s := a[..];
    PermutationNoDuplicates(out, s);
    forall i | 0 <= i < |s| ensures s[i] in xs {
      assert s[i] in multiset(s);
    }
    forall x | x in xs ensures x in s {
      assert x in multiset(out);
    }
  }

  /** The sets of x and y values of the rows. */
  method CollectValues(rows: seq<CrosstabRow>) returns (xSet: set<string>, ySet: set<string>)
    ensures xSet == XValuesOf(rows) && ySet == YValuesOf(rows)
  {
    xSet, ySet := {}, {};
    for k := 0 to |rows|
      invariant xSet == XValuesOf(rows[..k]) && ySet == YValuesOf(rows[..k])
    {
      assert forall i :: 0 <= i < k ==> rows[..k + 1][i] == rows[..k][i];
      assert XValuesOf(rows[..k + 1]) == XValuesOf(rows[..k]) + {rows[k].xValue};
      assert YValuesOf(rows[..k + 1]) == YValuesOf(rows[..k]) + {rows[k].yValue};
      xSet := xSet + {rows[k].xValue};
      ySet := ySet + {rows[k].yValue};
    }
    assert rows[..|rows|] == rows;
  }

  /** A row of empty cells, one per y value. */
  method EmptyCells(yValues: seq<string>) returns (inner: map<string, CrosstabCell>)
    ensures forall y :: y in inner <==> y in yValues
    ensures forall y :: y in inner ==> inner[y] == NoData
  {
    inner := map[];
    for j := 0 to |yValues|
      invariant forall y :: y in inner <==> exists l :: 0 <= l < j && yValues[l] == y
      invariant forall y :: y in inner ==> inner[y] == NoData
    {
      inner := inner[yValues[j] := NoData];
    }
  }

  /** The matrix with every cell of `xValues` by `yValues` present and empty. */
  method EmptyMatrix(xValues: seq<string>, yValues: seq<string>) returns (matrix: map<string, map<string, CrosstabCell>>)
    ensures forall x :: x in matrix <==> x in xValues
    ensures forall x :: x in matrix ==> (forall y :: y in matrix[x] <==> y in yValues) && forall y :: y in matrix[x] ==> matrix[x][y] == NoData
  {
    matrix := map[];
    for i := 0 to |xValues|
      invariant forall x :: x in matrix <==> exists j :: 0 <= j < i && xValues[j] == x
      invariant forall x :: x in matrix ==> (forall y :: y in matrix[x] <==> y in yValues) && forall y :: y in matrix[x] ==> matrix[x][y] == NoData
    {
      var inner := EmptyCells(yValues);
      matrix := matrix[xValues[i] := inner];
    }
  }

  /** The matrix has a row per x of `xs` and, in each, a cell per y of `ys`. */
  predicate Shaped(m: map<string, map<string, CrosstabCell>>, xs: set<string>, ys: set<string>)
  {
    m.Keys == xs && forall x :: x in m ==> m[x].Keys == ys
  }

  /** Every cell of the matrix is the pivot cell of `rows`. */
  predicate FilledBy(m: map<string, map<string, CrosstabCell>>, rows: seq<CrosstabRow>)
  {
    forall x, y :: x in m && y in m[x] ==> m[x][y] == PivotCell(rows, x, y)
  }

  /** Writes each row's count and percentage into its cell, later rows overwriting earlier ones. */
  method FillMatrix(rows: seq<CrosstabRow>, empty: map<string, map<string, CrosstabCell>>) returns (matrix: map<string, map<string, CrosstabCell>>)
    requires Shaped(empty, XValuesOf(rows), YValuesOf(rows))
    requires forall x, y :: x in empty && y in empty[x] ==> empty[x][y] == NoData
    ensures Shaped(matrix, XValuesOf(rows), YValuesOf(rows))
    ensures FilledBy(matrix, rows)
  {
    matrix := empty;
    assert FilledBy(matrix, rows[..0]);
    for k := 0 to |rows|
      invariant Shaped(matrix, XValuesOf(rows), YValuesOf(rows))
      invariant FilledBy(matrix, rows[..k])
    {
      var row := rows[k];
      FillStep(rows, k, matrix);
      matrix := matrix[row.xValue := matrix[row.xValue][row.yValue := CrosstabCell(row.count, row.percentage, true)]];
    }
    assert rows[..|rows|] == rows;
  }

  lemma FillStep(rows: seq<CrosstabRow>, k: nat, m: map<string, map<string, CrosstabCell>>)
    requires k < |rows|
    requires Shaped(m, XValuesOf(rows), YValuesOf(rows)) && FilledBy(m, rows[..k])
    ensures rows[k].xValue in m
    ensures var m' := m[rows[k].xValue := m[rows[k].xValue][rows[k].yValue := CrosstabCell(rows[k].count, rows[k].percentage, true)]];
      Shaped(m', XValuesOf(rows), YValuesOf(rows)) && FilledBy(m', rows[..k + 1])
  {
    var row := rows[k];
    assert row.xValue in XValuesOf(rows) && row.yValue in YValuesOf(rows);
    var m' := m[row.xValue := m[row.xValue][row.yValue := CrosstabCell(row.count, row.percentage, true)]];
    forall x, y | x in m' && y in m'[x] ensures m'[x][y] == PivotCell(rows[..k + 1], x, y) {
      PivotCellStep(rows, k, x, y);
      assert y in m[x];
    }
  }

  lemma PivotCellStep(rows: seq<CrosstabRow>, k: nat, x: string, y: string)
    requires k < |rows|
    ensures PivotCell(rows[..k + 1], x, y) ==
      if rows[k].xValue == x && rows[k].yValue == y then CrosstabCell(rows[k].count, rows[k].percentage, true)
      else PivotCell(rows[..k], x, y)
  {
    assert rows[..k + 1][..k] == rows[..k];
  }

  /** Copies the labels and total, lists both axes sorted, and fills the matrix row by row. */
  method ToPivot(r: CrosstabResult) returns (p: CrosstabPivot)
    ensures p.xColumn == r.xColumn && p.yColumn == r.yColumn && p.total == r.total
    ensures SortedListing(p.xValues, XValuesOf(r.rows)) && SortedListing(p.yValues, YValuesOf(r.rows))
    ensures p.matrix.Keys == XValuesOf(r.rows)
    ensures forall x :: x in p.matrix ==> p.matrix[x].Keys == YValuesOf(r.rows)
    ensures forall x, y :: x in p.matrix && y in p.matrix[x] ==> p.matrix[x][y] == PivotCell(r.rows, x, y)
  {
    var xSet, ySet := CollectValues(r.rows);
    var xValues := SortedSlice(xSet);
    var yValues := SortedSlice(ySet);
    var matrix := EmptyMatrix(xValues, yValues);
    assert Shaped(matrix, xSet, ySet);
    matrix := FillMatrix(r.rows, matrix);
    p := CrosstabPivot(r.xColumn, r.yColumn, xValues, yValues, matrix, r.total);
  }

  // ---------------------------------------------------------------------------
  // Properties
  // ---------------------------------------------------------------------------

  /**
   * A cell has data exactly when some row has its pair, and then carries the count and
   * percentage of the last such row; otherwise it is the empty cell.
   */
  lemma {:induction false} PivotCellMeaning(rows: seq<CrosstabRow>, x: string, y: string)
    ensures PivotCell(rows, x, y).hasData <==> exists i :: 0 <= i < |rows| && rows[i].xValue == x && rows[i].yValue == y
    ensures !PivotCell(rows, x, y).hasData ==> PivotCell(rows, x, y) == NoData
    ensures PivotCell(rows, x, y).hasData ==>
      exists i :: 0 <= i < |rows| && rows[i].xValue == x && rows[i].yValue == y
        && PivotCell(rows, x, y) == CrosstabCell(rows[i].count, rows[i].percentage, true)
        && forall j :: i < j < |rows| ==> !(rows[j].xValue == x && rows[j].yValue == y)
  {
    if rows != [] {
      var init := rows[..|rows| - 1];
      PivotCellMeaning(init, x, y);
      assert forall i :: 0 <= i < |init| ==> init[i] == rows[i];
    }
  }

  lemma ListingCounts(s: seq<string>, xs: set<string>, x: string)
    requires SortedListing(s, xs)
    ensures multiset(s)[x] == if x in xs then 1 else 0
  {
    NoDuplicatesCount(s, x);
    if x !in xs {
      assert x !in s;
    }
  }

  /** An axis is determined by its set of values: whatever order the set yields, the axis is the same. */
  lemma SortedListingUnique(s: seq<string>, t: seq<string>, xs: set<string>)
    requires SortedListing(s, xs) && SortedListing(t, xs)
    ensures s == t
  {
    forall x ensures multiset(s)[x] == multiset(t)[x] {
      ListingCounts(s, xs, x);
      ListingCounts(t, xs, x);
    }
    assert multiset(s) == multiset(t);
    LexLeOrder();
    SortedUnique(s, t, LexLe);
  }

  /** When the rows have distinct pairs, as a cross tabulation's do, each row fills its own cell. */
  lemma DistinctPairsFill(rows: seq<CrosstabRow>, i: nat)
    requires i < |rows|
    requires forall j, k :: 0 <= j < k < |rows| ==> (rows[j].xValue, rows[j].yValue) != (rows[k].xValue, rows[k].yValue)
    ensures PivotCell(rows, rows[i].xValue, rows[i].yValue) == CrosstabCell(rows[i].count, rows[i].percentage, true)
  {
    var x, y := rows[i].xValue, rows[i].yValue;
    PivotCellMeaning(rows, x, y);
    var k :| 0 <= k < |rows| && rows[k].xValue == x && rows[k].yValue == y
      && PivotCell(rows, x, y) == CrosstabCell(rows[k].count, rows[k].percentage, true)
      && forall j :: k < j < |rows| ==> !(rows[j].xValue == x && rows[j].yValue == y);
    if k < i {
      assert rows[i].xValue == x && rows[i].yValue == y;
    }
  }
}
