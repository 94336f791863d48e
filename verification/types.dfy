/** The analyzer's column descriptor and result records. */
module Types {
  import opened Strings
  import opened Sql

  /**
   * A column offered for tabulation: a table column, or a derived column whose values
   * are computed by its CASE expression. `index` is 1-based.
   */
  datatype Column = Column(
    index: int,
    name: string,
    typeName: string,
    isMulti: bool,
    uniqueCount: int,
    isDerived: bool,
    sqlExpr: Expr)

  /** The expression a query selects for the column. */
  function GetSQLExpression(c: Column): (e: Expr)
    ensures c.isDerived ==> e == c.sqlExpr
    ensures !c.isDerived ==> forall r :: Eval(e, r) == Cell(r, c.name)
    ensures !c.isDerived ==> forall names :: ExprOk(e, names) <==> c.name in names
  {
    if c.isDerived then c.sqlExpr else ColRef(c.name)
  }

  const DerivedMarker: string := " [派生列]"
  const MultiMarker: string := " [複数回答]"

  function Marker(c: Column): string
  {
    if c.isDerived then DerivedMarker else if c.isMulti then MultiMarker else ""
  }

  /** A menu line: the index right-aligned to width 2, two spaces, the name and the marker. */
  function OptionText(c: Column): string
  {
    PadDecimal(c.index, 2) + "  " + c.name + Marker(c)
  }

  /** One menu line per column, in column order. */
  method ToOptions(cl: seq<Column>) returns (options: seq<string>)
    ensures |options| == |cl|
    ensures forall i :: 0 <= i < |cl| ==> options[i] == OptionText(cl[i])
  {
    var lines := new string[|cl|];
    for i := 0 to |cl|
      invariant forall k :: 0 <= k < i ==> lines[k] == OptionText(cl[k])
    {
      var col := cl[i];
      var marker := "";
      if col.isDerived {
        marker := DerivedMarker;
      } else if col.isMulti {
        marker := MultiMarker;
      }
      lines[i] := PadDecimal(col.index, 2) + "  " + col.name + marker;
    }
    options := lines[..];
  }

  datatype SimpletabRow = SimpletabRow(value: string, count: int, percentage: real)

  datatype SimpletabResult = SimpletabResult(column: string, rows: seq<SimpletabRow>, total: int)

  datatype CrosstabRow = CrosstabRow(xValue: string, yValue: string, count: int, percentage: real)

  datatype CrosstabResult = CrosstabResult(xColumn: string, yColumn: string, rows: seq<CrosstabRow>, total: int)

  /** A pivot cell; `hasData` tells a pair with no rows from a count that happens to be 0. */
  datatype CrosstabCell = CrosstabCell(count: int, percentage: real, hasData: bool)

  datatype CrosstabPivot = CrosstabPivot(
    xColumn: string,
    yColumn: string,
    xValues: seq<string>,
    yValues: seq<string>,
    matrix: map<string, map<string, CrosstabCell>>,
    total: int)
}
