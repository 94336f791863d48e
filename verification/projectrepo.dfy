/**
 * The query behind the project list of the transcription tool: which page of rows it asks
 * for, which projects its search keeps (SQLite's LIKE), and which ORDER BY clause a
 * caller's sort string can produce.
 */
module ProjectRepo {
  import opened Wrappers
  import opened Strings

  const DefaultOrder := "ORDER BY created_at DESC"
  const SearchWhere := "WHERE name LIKE :query OR description LIKE :query"
  const ValidColumns: set<string> := {"name", "created_at", "updated_at"}

  const Directions: set<string> := {"ASC", "DESC"}

  /** The six ORDER BY clauses: a whitelisted column and a direction. */
  const OrderClauses: set<string> := set column, direction | column in ValidColumns && direction in Directions :: "ORDER BY " + column + " " + direction

  /** The first row of a page. */
  function Offset(page: int, limit: int): int
  {
    (page - 1) * limit
  }

  /** Go's `strings.ToUpper`, for comparison with ASCII words. */
  function Upper(s: string): string
  {
    MapChars(s, UpperForAscii)
  }

  /**
   * A sort string "<column>.<direction>" orders by that column when the column is one of
   * three known ones and the direction, upper-cased, is ASC or DESC; anything else, the
   * empty string included, leaves the newest projects first.
   */
  function OrderClause(sort: string): string
  {
    if sort == "" then DefaultOrder
    else
      var parts := Split(sort, ".");
      if |parts| != 2 then DefaultOrder
      else
        var column := parts[0];
        var direction := Upper(parts[1]);
        if (direction == "ASC" || direction == "DESC") && column in ValidColumns then
          "ORDER BY " + column + " " + direction
        else DefaultOrder
  }

  /** The statements the list runs, with the values bound to their parameters. */
  datatype ListPlan = ListPlan(
    whereClause: string,
    queryArg: Option<string>,
    orderClause: string,
    limit: int,
    offset: int)

  function PlanList(page: int, limit: int, query: string, sort: string): (r: ListPlan)
    ensures r.orderClause == OrderClause(sort) && r.limit == limit && r.offset == Offset(page, limit)
    ensures query == "" <==> r.whereClause == "" && r.queryArg == None
    ensures query != "" ==> r.whereClause == SearchWhere && r.queryArg == Some("%" + query + "%")
  {
    var where := if query != "" then SearchWhere else "";
    var arg := if query != "" then Some("%" + query + "%") else None;
    ListPlan(where, arg, OrderClause(sort), limit, (page - 1) * limit)
  }

  // ---------------------------------------------------------------------------
  // SQLite's LIKE
  // ---------------------------------------------------------------------------

  /** SQLite folds only the ASCII capitals when comparing under LIKE. */
  function FoldCase(c: char): char
  {
    if 'A' <= c <= 'Z' then (c as int + 32) as char else c
  }

  /** `s LIKE p`: '%' matches any run of characters, '_' any one character, anything else itself up to ASCII case. */
  predicate Like(s: string, p: string)
    decreases |p|, |s|
  {
    if p == [] then s == []
    else if p[0] == '%' then Like(s, p[1..]) || (|s| > 0 && Like(s[1..], p))
    else |s| > 0 && (p[0] == '_' || FoldCase(p[0]) == FoldCase(s[0])) && Like(s[1..], p[1..])
  }

  /** Which projects the list keeps. */
  predicate Listed(plan: ListPlan, name: string, description: string)
  {
    match plan.queryArg
    case None => true
    case Some(pattern) => Like(name, pattern) || Like(description, pattern)
  }

  predicate Wildcards(c: char)
  {
    c == '%' || c == '_'
  }

  predicate Literal(q: string)
  {
    forall i :: 0 <= i < |q| ==> !Wildcards(q[i])
  }

  /** `t` starts with `q`, up to ASCII case. */
  predicate FoldedPrefix(q: string, t: string)
  {
    |q| <= |t| && forall i :: 0 <= i < |q| ==> FoldCase(q[i]) == FoldCase(t[i])
  }

  /** Reference: `q` occurs in `s` somewhere, up to ASCII case. */
  predicate FoldedOccurs(q: string, s: string)
  {
    exists k :: 0 <= k <= |s| && FoldedPrefix(q, s[k..])
  }

  // ---------------------------------------------------------------------------
  // Properties
  // ---------------------------------------------------------------------------

  lemma {:induction false} LikeAnything(s: string)
    ensures Like(s, "%")
    decreases |s|
  {
    if |s| > 0 {
      LikeAnything(s[1..]);
    }
  }

  lemma {:induction false} LikeLiteralThenAny(t: string, q: string)
    requires Literal(q)
    ensures Like(t, q + "%") <==> FoldedPrefix(q, t)
    decreases |q|
  {
    if q == [] {
      assert q + "%" == "%";
      LikeAnything(t);
    } else {
      assert (q + "%")[1..] == q[1..] + "%";
      assert !Wildcards(q[0]);
      if |t| > 0 {
        LikeLiteralThenAny(t[1..], q[1..]);
        assert FoldedPrefix(q, t) <==> FoldCase(q[0]) == FoldCase(t[0]) && FoldedPrefix(q[1..], t[1..]) by {
          if FoldCase(q[0]) == FoldCase(t[0]) && FoldedPrefix(q[1..], t[1..]) {
            forall i | 0 <= i < |q| ensures FoldCase(q[i]) == FoldCase(t[i]) {
              if i > 0 {
                assert q[i] == q[1..][i - 1] && t[i] == t[1..][i - 1];
              }
            }
          }
        }
      }
    }
  }

  lemma {:induction false} LikeAnyThen(s: string, p: string)
    ensures Like(s, "%" + p) <==> exists k :: 0 <= k <= |s| && Like(s[k..], p)
    decreases |s|
  {
    assert ("%" + p)[1..] == p;
    if Like(s, "%" + p) {
      if Like(s, p) {
        assert s[0..] == s;
      } else {
        LikeAnyThen(s[1..], p);
        var k :| 0 <= k <= |s[1..]| && Like(s[1..][k..], p);
        assert s[1..][k..] == s[k + 1..];
      }
    }
    if exists k :: 0 <= k <= |s| && Like(s[k..], p) {
      var k :| 0 <= k <= |s| && Like(s[k..], p);
      if k == 0 {
        assert s[0..] == s;
      } else {
        assert s[1..][k - 1..] == s[k..];
        LikeAnyThen(s[1..], p);
      }
    }
  }

  /**
   * For a search text without wildcards, a project is listed exactly when the text occurs,
   * up to ASCII case, in its name or its description; an empty search lists every project.
   */
  lemma ListedMeaning(page: int, limit: int, query: string, sort: string, name: string, description: string)
    requires Literal(query)
    ensures Listed(PlanList(page, limit, query, sort), name, description) <==>
      query == "" || FoldedOccurs(query, name) || FoldedOccurs(query, description)
  {
    if query != "" {
      SearchMeaning(name, query);
      SearchMeaning(description, query);
    }
  }

  lemma SearchMeaning(s: string, q: string)
    requires Literal(q)
    ensures Like(s, "%" + q + "%") <==> FoldedOccurs(q, s)
  {
    assert "%" + q + "%" == "%" + (q + "%");
    LikeAnyThen(s, q + "%");
    forall k | 0 <= k <= |s|
      ensures Like(s[k..], q + "%") <==> FoldedPrefix(q, s[k..])
    {
      LikeLiteralThenAny(s[k..], q);
    }
  }

  /** A literal '_' in the search is a wildcard: "_" finds every project with a non-empty name. */
  lemma UnderscoreMatchesAnything(s: string)
    requires |s| > 0
    ensures Like(s, "%_%")
  {
    LikeAnything(s[1..]);
    assert ("%_%")[1..] == "_%";
    assert ("_%")[1..] == "%";
    assert Like(s, "_%");
  }

  /** Consecutive pages are adjacent windows of `limit` rows, starting at row 0; each row is on exactly one page. */
  lemma PageWindows(page: int, limit: int, row: int)
    requires page >= 1 && limit >= 1 && row >= 0
    ensures Offset(1, limit) == 0 && Offset(page + 1, limit) == Offset(page, limit) + limit
    ensures Offset(page, limit) <= row < Offset(page, limit) + limit <==> page == row / limit + 1
  {
    var q, d := row / limit, page - 1;
    assert row == q * limit + row % limit;
    assert Offset(page, limit) == d * limit;
    if d < q {
      MulMonotone(d + 1, q, limit);
      assert d * limit + limit == (d + 1) * limit;
    } else if d > q {
      MulMonotone(q + 1, d, limit);
      assert q * limit + limit == (q + 1) * limit;
    }
  }

  lemma MulMonotone(a: int, b: int, l: int)
    requires a <= b && l >= 0
    ensures a * l <= b * l
  {
    assert b * l - a * l == (b - a) * l;
  }

  lemma {:induction false} LiteralNotContains(s: string, c: char)
    requires forall i :: 0 <= i < |s| ==> s[i] != c
    ensures !Contains(s, [c])
    decreases |s|
  {
    if |s| > 0 {
      assert s[0] != c;
      LiteralNotContains(s[1..], c);
    }
  }

  lemma {:induction false} SplitAtDot(a: string, b: string)
    requires NoDot(a) && NoDot(b)
    ensures Split(a + "." + b, ".") == [a, b]
    decreases |a|
  {
    var s := a + "." + b;
    if a == [] {
      assert s == "." + b;
      assert s[..1] == ".";
      assert s[1..] == b;
      LiteralNotContains(b, '.');
      SplitNoSeparator(b, ".");
      assert Split(s, ".") == [""] + Split(b, ".");
    } else {
      assert s[0] == a[0] && a[0] != '.';
      assert s[..1] != ".";
      assert s[1..] == a[1..] + "." + b;
      SplitAtDot(a[1..], b);
      assert Split(s, ".") == [[s[0]] + a[1..]] + [b];
      assert [s[0]] + a[1..] == a;
    }
  }

  lemma ColumnsHaveNoDot(column: string)
    requires column in ValidColumns
    ensures NoDot(column)
  {
  }

  /**
   * A whitelisted column, a dot and a direction whose upper-casing is ASC or DESC order by
   * that column in that direction, whatever the case of the direction as sent.
   */
  lemma SortHonoured(column: string, direction: string)
    requires column in ValidColumns && NoDot(direction)
    requires Upper(direction) == "ASC" || Upper(direction) == "DESC"
    ensures OrderClause(column + "." + direction) == "ORDER BY " + column + " " + Upper(direction)
  {
    ColumnsHaveNoDot(column);
    SplitAtDot(column, direction);
  }

  /**
   * Whatever the caller sends, the clause is one of six fixed texts; it differs from the
   * default only when the sort string is a whitelisted column, a dot and ASC or DESC in
   * some case.
   */
  lemma OrderClauseWhitelisted(sort: string)
    ensures OrderClause(sort) in OrderClauses
    ensures OrderClause(sort) != DefaultOrder ==>
      var parts := Split(sort, ".");
      && |parts| == 2 && sort == parts[0] + "." + parts[1]
      && parts[0] in ValidColumns && (Upper(parts[1]) == "ASC" || Upper(parts[1]) == "DESC")
  {
    DefaultListed();
    if sort != "" {
      var parts := Split(sort, ".");
      JoinSplit(sort, ".");
      if |parts| == 2 {
        assert Join(parts, ".") == parts[0] + "." + Join(parts[1..], ".");
        assert Join(parts[1..], ".") == parts[1];
        var direction := Upper(parts[1]);
        if (direction == "ASC" || direction == "DESC") && parts[0] in ValidColumns {
          ClauseListed(parts[0], direction);
        }
      }
    }
  }

  lemma DefaultListed()
    ensures DefaultOrder in OrderClauses
  {
    ClauseListed("created_at", "DESC");
    assert "ORDER BY " + "created_at" + " " + "DESC" == DefaultOrder;
  }

  lemma ClauseListed(column: string, direction: string)
    requires column in ValidColumns && (direction == "ASC" || direction == "DESC")
    ensures "ORDER BY " + column + " " + direction in OrderClauses
  {
    assert direction in Directions;
  }

  /** A lower-case direction works: "name.asc" orders by name, ascending. */
  lemma SortExample(sort: string)
    requires sort == "name" + "." + "asc"
    ensures OrderClause(sort) == "ORDER BY name ASC"
  {
    assert Upper("asc") == "ASC" by {
      assert MapChars("asc", UpperForAscii)[0] == 'A';
      assert MapChars("asc", UpperForAscii)[1] == 'S';
      assert MapChars("asc", UpperForAscii)[2] == 'C';
    }
    SortHonoured("name", "asc");
  }

  // ---------------------------------------------------------------------------
  // Lookups and writes by id
  // ---------------------------------------------------------------------------

  /** What a lookup of one row by id reports: the row, no row at all, or another error. */
  datatype Lookup<T> = Found(row: T) | NoRows | LookupError(error: string)

  /** What an INSERT reports: its own error, the error of asking for the new id, or the new id. */
  datatype InsertReport = InsertFailed(error: string) | IdUnknown(error: string) | Inserted(id: int)

  /** What an UPDATE or DELETE reports: its own error, the error of asking for the affected-row count, or that count. */
  datatype ExecReport = ExecFailed(error: string) | RowsUnknown(error: string) | Affected(rows: int)

  /** A missing row is "project not found"; any other error is wrapped. */
  function GetById<T>(lookup: Lookup<T>): (r: Result<T>)
    ensures r.Success? <==> lookup.Found?
    ensures r.Success? ==> r.value == lookup.row
    ensures lookup.NoRows? ==> r == Failure("project not found")
    ensures lookup.LookupError? ==> r == Failure("failed to get project: " + lookup.error)
  {
    match lookup
    case Found(row) => Success(row)
    case NoRows => Failure("project not found")
    case LookupError(e) => Failure("failed to get project: " + e)
  }

  /** Creating inserts the row, then reads it back by its new id (`reread`, as `GetById` does). */
  function Create<T>(report: InsertReport, reread: Lookup<T>): (r: Result<T>)
    ensures report.InsertFailed? ==> r == Failure("failed to create project: " + report.error)
    ensures report.IdUnknown? ==> r == Failure("failed to get last insert id: " + report.error)
    ensures report.Inserted? ==> r == GetById(reread)
  {
    match report
    case InsertFailed(e) => Failure("failed to create project: " + e)
    case IdUnknown(e) => Failure("failed to get last insert id: " + e)
    case Inserted(_) => GetById(reread)
  }

  /**
   * Updating changes the row, then reads it back (`reread`, as `GetById` does); no matching
   * row is "project not found".
   */
  function Update<T>(report: ExecReport, reread: Lookup<T>): (r: Result<T>)
    ensures report.ExecFailed? ==> r == Failure("failed to update project: " + report.error)
    ensures report.RowsUnknown? ==> r == Failure("failed to get rows affected: " + report.error)
    ensures report.Affected? && report.rows == 0 ==> r == Failure("project not found")
    ensures report.Affected? && report.rows != 0 ==> r == GetById(reread)
  {
    match report
    case ExecFailed(e) => Failure("failed to update project: " + e)
    case RowsUnknown(e) => Failure("failed to get rows affected: " + e)
    case Affected(n) => if n == 0 then Failure("project not found") else GetById(reread)
  }

  /** Deleting succeeds exactly when some row was deleted. */
  function Delete(report: ExecReport): (r: Outcome)
    ensures r.Pass? <==> report.Affected? && report.rows != 0
    ensures report.ExecFailed? ==> r == Fail("failed to delete project: " + report.error)
    ensures report.RowsUnknown? ==> r == Fail("failed to get rows affected: " + report.error)
    ensures report.Affected? && report.rows == 0 ==> r == Fail("project not found")
  {
    match report
    case ExecFailed(e) => Fail("failed to delete project: " + e)
    case RowsUnknown(e) => Fail("failed to get rows affected: " + e)
    case Affected(n) => if n == 0 then Fail("project not found") else Pass
  }

  /** A wrapped error starts with its prefix, so it is never the bare "project not found". */
  lemma WrappedIsNotNotFound(prefix: string, e: string)
    requires |prefix| > 0 && prefix[0] == 'f'
    ensures prefix + e != "project not found"
  {
    assert (prefix + e)[0] == 'f';
  }

  /**
   * "project not found" means that no row had the id: when the statement found none, or
   * when the row read back after a successful write was gone. A failing statement or a
   * failing count is reported with its own message, never with that one.
   */
  lemma NotFoundMeansNoRow<T>(report: ExecReport, insert: InsertReport, reread: Lookup<T>)
    ensures Delete(report) == Fail("project not found") <==> report.Affected? && report.rows == 0
    ensures Update(report, reread) == Failure("project not found")
      <==> report.Affected? && (report.rows == 0 || reread.NoRows?)
    ensures Create(insert, reread) == Failure("project not found") <==> insert.Inserted? && reread.NoRows?
    ensures GetById(reread) == Failure("project not found") <==> reread.NoRows?
  {
    if reread.LookupError? {
      WrappedIsNotNotFound("failed to get project: ", reread.error);
    }
    match report {
      case ExecFailed(e) =>
        WrappedIsNotNotFound("failed to delete project: ", e);
        WrappedIsNotNotFound("failed to update project: ", e);
      case RowsUnknown(e) =>
        WrappedIsNotNotFound("failed to get rows affected: ", e);
      case Affected(_) =>
    }
    match insert {
      case InsertFailed(e) =>
        WrappedIsNotNotFound("failed to create project: ", e);
      case IdUnknown(e) =>
        WrappedIsNotNotFound("failed to get last insert id: ", e);
      case Inserted(_) =>
    }
  }
}
