/**
 * The part of the SQL engine's semantics the analyzer's queries rely on: tables of
 * nullable text cells, the CASE expressions derived columns compile to, WHERE
 * predicates, `string_split`/`unnest` fan-out, and when a query is rejected.
 *
 * Queries are represented by their syntax tree rather than their text. NULL is `None`;
 * a comparison with NULL is never true, so a row whose cell is NULL fails every
 * condition except IS NULL.
 */
module Sql {
  import opened Wrappers
  import opened Strings

  /** A row maps column names to nullable text cells. */
  type Row = map<string, Option<string>>

  datatype ColumnDef = ColumnDef(name: string, typeName: string)

  /** A table: its columns in schema order (what DESCRIBE lists) and its rows. */
  datatype Table = Table(columns: seq<ColumnDef>, rows: seq<Row>)

  function Names(columns: seq<ColumnDef>): (r: seq<string>)
    ensures |r| == |columns| && forall i :: 0 <= i < |columns| ==> r[i] == columns[i].name
  {
    if columns == [] then [] else [columns[0].name] + Names(columns[1..])
  }

  function Cell(r: Row, column: string): Option<string>
  {
    if column in r then r[column] else None
  }

  // ---------------------------------------------------------------------------
  // Conditions and CASE expressions
  // ---------------------------------------------------------------------------

  /** One condition of a WHEN branch. */
  datatype Atom =
    | TrimEquals(column: string, value: string)                 // TRIM("c") = 'v'
    | TrimStartsWith(column: string, prefix: string)            // TRIM("c") LIKE 'v%'
    | TrimContains(column: string, infix: string)               // TRIM("c") LIKE '%v%'
    | AnyTrimStartsWith(column: string, prefixes: seq<string>)  // (TRIM("c") LIKE 'v1%' OR ...)
    | AtLeast(column: string, bound: string)                    // "c" >= 'b'
    | AtMost(column: string, bound: string)                     // "c" <= 'b'
    | After(column: string, bound: string)                      // "c" > 'b'
    | Before(column: string, bound: string)                     // "c" < 'b'
    | IsNull(column: string)                                    // "c" IS NULL

  /** `WHEN c1 AND c2 AND ... THEN 'result'`. */
  datatype When = When(conditions: seq<Atom>, result: string)

  /**
   * A column reference, a CASE expression (an absent ELSE yields NULL), or the empty
   * expression text a column without an expression carries.
   */
  datatype Expr =
    | ColRef(name: string)
    | Case(whens: seq<When>, otherwise: Option<string>)
    | Blank

  /**
   * The engine's case-sensitive `s LIKE p` without an ESCAPE clause: '%' matches any run
   * of characters, '_' any one character, and every other character itself. A configured
   * value is placed into the pattern as it is, so its own '%' and '_' are wildcards too.
   */
  predicate Like(s: string, p: string)
    decreases |p|, |s|
  {
    if p == [] then s == []
    else if p[0] == '%' then Like(s, p[1..]) || (|s| > 0 && Like(s[1..], p))
    else |s| > 0 && (p[0] == '_' || p[0] == s[0]) && Like(s[1..], p[1..])
  }

  /** `t LIKE 'v%'`. */
  predicate LikePrefix(t: string, v: string)
  {
    Like(t, v + "%")
  }

  /** `t LIKE '%v%'`. */
  predicate LikeInfix(t: string, v: string)
  {
    Like(t, "%" + v + "%")
  }

  /** A value with neither '%' nor '_': placed into a LIKE pattern it matches only itself. */
  predicate NoWildcards(v: string)
  {
    forall i :: 0 <= i < |v| ==> v[i] != '%' && v[i] != '_'
  }

  /** An atom is true for the row; a NULL operand makes every atom but IS NULL not true. */
  predicate AtomHolds(a: Atom, r: Row)
  {
    match a
    case IsNull(c) => Cell(r, c) == None
    case TrimEquals(c, value) => Cell(r, c).Some? && SqlTrim(Cell(r, c).value) == value
    case TrimStartsWith(c, prefix) => Cell(r, c).Some? && LikePrefix(SqlTrim(Cell(r, c).value), prefix)
    case TrimContains(c, infix) => Cell(r, c).Some? && LikeInfix(SqlTrim(Cell(r, c).value), infix)
    case AnyTrimStartsWith(c, prefixes) =>
      Cell(r, c).Some? && exists i :: 0 <= i < |prefixes| && LikePrefix(SqlTrim(Cell(r, c).value), prefixes[i])
    case AtLeast(c, bound) => Cell(r, c).Some? && LexLe(bound, Cell(r, c).value)
    case AtMost(c, bound) => Cell(r, c).Some? && LexLe(Cell(r, c).value, bound)
    case After(c, bound) => Cell(r, c).Some? && LexLess(bound, Cell(r, c).value)
    case Before(c, bound) => Cell(r, c).Some? && LexLess(Cell(r, c).value, bound)
  }

  predicate AllHold(conditions: seq<Atom>, r: Row)
  {
    forall i :: 0 <= i < |conditions| ==> AtomHolds(conditions[i], r)
  }

  lemma AllHoldCons(a: Atom, rest: seq<Atom>, r: Row)
    ensures AllHold([a] + rest, r) <==> AtomHolds(a, r) && AllHold(rest, r)
  {
    var atoms := [a] + rest;
    assert atoms[0] == a;
    assert forall i :: 1 <= i < |atoms| ==> atoms[i] == rest[i - 1];
    assert forall j :: 0 <= j < |rest| ==> rest[j] == atoms[j + 1];
  }

  /** On a NULL cell only IS NULL holds. */
  lemma NullOnlyIsNull(a: Atom, r: Row)
    requires Cell(r, a.column) == None
    ensures AtomHolds(a, r) <==> a.IsNull?
  {
  }

  lemma AllHoldOne(a: Atom, r: Row)
    ensures AllHold([a], r) <==> AtomHolds(a, r)
  {
    assert [a][0] == a;
  }

  lemma AllHoldTwo(a: Atom, b: Atom, r: Row)
    ensures AllHold([a, b], r) <==> AtomHolds(a, r) && AtomHolds(b, r)
  {
    assert [a, b][0] == a && [a, b][1] == b;
  }

  lemma {:induction false} LikeAnyRun(s: string)
    ensures Like(s, "%")
    decreases |s|
  {
    if |s| > 0 {
      LikeAnyRun(s[1..]);
    }
  }

  /** For a value without wildcards, `LIKE 'v%'` is the prefix test. */
  lemma {:induction false} LikePrefixLiteral(t: string, v: string)
    requires NoWildcards(v)
    ensures Like(t, v + "%") <==> v <= t
    decreases |v|
  {
    if v == [] {
      assert v + "%" == "%";
      LikeAnyRun(t);
    } else {
      assert (v + "%")[0] == v[0] && (v + "%")[1..] == v[1..] + "%";
      if |t| > 0 {
        LikePrefixLiteral(t[1..], v[1..]);
      }
    }
  }

  /** For a value without wildcards, `LIKE '%v%'` is the occurrence test. */
  lemma {:induction false} LikeContainsLiteral(t: string, v: string)
    requires NoWildcards(v)
    ensures Like(t, "%" + v + "%") <==> Contains(t, v)
    decreases |t|
  {
    var p := "%" + v + "%";
    assert p[0] == '%' && p[1..] == v + "%";
    LikePrefixLiteral(t, v);
    if |t| > 0 {
      LikeContainsLiteral(t[1..], v);
    }
  }

  /** A '_' in a configured prefix matches any character: "1_" selects "1A", which does not start with "1_". */
  lemma UnderscoreInPrefix()
    ensures Like("1A", "1_" + "%") && !("1_" <= "1A")
  {
    var s, p := "1A", "1_%";
    assert "1_" + "%" == p;
    assert p[0] == '1' && s[0] == '1' && s[1..] == "A" && p[1..] == "_%";
    assert p[1..][0] == '_' && p[1..][1..] == "%" && s[1..][1..] == "";
    LikeAnyRun("");
    assert Like(s[1..], p[1..]);
    assert "1_"[1] != "1A"[1];
  }

  /** The label of the first WHEN branch whose conditions all hold. */
  function FirstMatch(whens: seq<When>, r: Row): (m: Option<string>)
    ensures m.Some? <==> exists i :: 0 <= i < |whens| && AllHold(whens[i].conditions, r)
    ensures m.Some? ==> exists i :: 0 <= i < |whens| && AllHold(whens[i].conditions, r) && m.value == whens[i].result
                          && forall j :: 0 <= j < i ==> !AllHold(whens[j].conditions, r)
  {
    if whens == [] then None
    else if AllHold(whens[0].conditions, r) then Some(whens[0].result)
    else
      var m := FirstMatch(whens[1..], r);
      assert forall i :: 1 <= i < |whens| ==> whens[i] == whens[1..][i - 1];
      m
  }

  function Eval(e: Expr, r: Row): Option<string>
  {
    match e
    case ColRef(name) => Cell(r, name)
    case Case(whens, otherwise) => if FirstMatch(whens, r).Some? then FirstMatch(whens, r) else otherwise
    case Blank => None
  }

  // ---------------------------------------------------------------------------
  // When the engine rejects a query
  // ---------------------------------------------------------------------------

  /**
   * An atom the engine accepts: its column exists (otherwise a binder error), and a
   * disjunction of prefixes is not the empty "()" (a syntax error).
   */
  predicate AtomOk(a: Atom, names: seq<string>)
  {
    a.column in names && (a.AnyTrimStartsWith? ==> |a.prefixes| > 0)
  }

  /** An expression the engine accepts: a CASE needs at least one WHEN branch, each with a condition. */
  predicate ExprOk(e: Expr, names: seq<string>)
  {
    match e
    case ColRef(name) => name in names
    case Case(whens, _) =>
      && |whens| > 0
      && forall i :: 0 <= i < |whens| ==>
           |whens[i].conditions| > 0
           && forall j :: 0 <= j < |whens[i].conditions| ==> AtomOk(whens[i].conditions[j], names)
    case Blank => false
  }

  // ---------------------------------------------------------------------------
  // WHERE predicates and fan-out
  // ---------------------------------------------------------------------------

  datatype Predicate =
    | NotNull(column: string)                   // "c" IS NOT NULL
    | InList(e: Expr, values: seq<string>)      // e IN ('v1', ...)
    | NotInList(e: Expr, values: seq<string>)   // e NOT IN ('v1', ...)

  /** True for the row; IN and NOT IN on a NULL operand are NULL, which WHERE treats as false. */
  predicate PredicateHolds(p: Predicate, r: Row)
  {
    match p
    case NotNull(c) => Cell(r, c) != None
    case InList(e, values) => Eval(e, r).Some? && Eval(e, r).value in values
    case NotInList(e, values) => Eval(e, r).Some? && Eval(e, r).value !in values
  }

  predicate PredicateOk(p: Predicate, names: seq<string>)
  {
    match p
    case NotNull(c) => c in names
    case InList(e, values) => ExprOk(e, names) && |values| > 0
    case NotInList(e, values) => ExprOk(e, names) && |values| > 0
  }

  predicate AllPredicatesHold(where: seq<Predicate>, r: Row)
  {
    forall i :: 0 <= i < |where| ==> PredicateHolds(where[i], r)
  }

  predicate AllPredicatesOk(where: seq<Predicate>, names: seq<string>)
  {
    forall i :: 0 <= i < |where| ==> PredicateOk(where[i], names)
  }

  /** The rows that pass the WHERE clause, in table order. */
  function Selected(rows: seq<Row>, where: seq<Predicate>): (s: seq<Row>)
    ensures |s| <= |rows|
    ensures forall i :: 0 <= i < |s| ==> AllPredicatesHold(where, s[i]) && s[i] in rows
    ensures forall i :: 0 <= i < |rows| && AllPredicatesHold(where, rows[i]) ==> rows[i] in s
  {
    if rows == [] then []
    else
      var rest := Selected(rows[1..], where);
      assert forall i :: 1 <= i < |rows| ==> rows[i] == rows[1..][i - 1];
      if AllPredicatesHold(where, rows[0]) then [rows[0]] + rest else rest
  }

  /** WHERE keeps every passing row as often as the table holds it, and no other row. */
  lemma {:induction false} SelectedCounts(rows: seq<Row>, where: seq<Predicate>)
    ensures forall r :: multiset(Selected(rows, where))[r] == (if AllPredicatesHold(where, r) then multiset(rows)[r] else 0)
    decreases |rows|
  {
    if rows != [] {
      SelectedCounts(rows[1..], where);
      assert rows == [rows[0]] + rows[1..];
    }
  }

  /** WHERE filters each part of the table on its own and keeps the parts in table order. */
  lemma {:induction false} SelectedAppend(a: seq<Row>, b: seq<Row>, where: seq<Predicate>)
    ensures Selected(a + b, where) == Selected(a, where) + Selected(b, where)
    decreases |a|
  {
    if a == [] {
      assert a + b == b;
    } else {
      var ab := a + b;
      assert ab[0] == a[0];
      assert ab[1..] == a[1..] + b;
      SelectedAppend(a[1..], b, where);
      var head := if AllPredicatesHold(where, a[0]) then [a[0]] else [];
      assert Selected(ab, where) == head + Selected(a[1..] + b, where);
      AppendAssociative(head, Selected(a[1..], where), Selected(b, where));
    }
  }

  lemma AppendAssociative<T>(x: seq<T>, y: seq<T>, z: seq<T>)
    ensures (x + y) + z == x + (y + z)
  {
  }

  /** A selected value: an expression, or `unnest(string_split(e, sep))`. */
  datatype Fanout = Whole(e: Expr) | SplitOn(e: Expr, sep: string)

  function FanoutExpr(f: Fanout): Expr
  {
    match f
    case Whole(e) => e
    case SplitOn(e, _) => e
  }

  predicate FanoutOk(f: Fanout, names: seq<string>)
  {
    ExprOk(FanoutExpr(f), names) && (f.SplitOn? ==> |f.sep| > 0)
  }

  function Somes(parts: seq<string>): (r: seq<Option<string>>)
    ensures |r| == |parts| && forall i :: 0 <= i < |parts| ==> r[i] == Some(parts[i])
  {
    if parts == [] then [] else [Some(parts[0])] + Somes(parts[1..])
  }

  /** The values a row contributes: one, or one per piece; splitting NULL yields no piece. */
  function FanoutValues(f: Fanout, r: Row): seq<Option<string>>
    requires f.SplitOn? ==> |f.sep| > 0
  {
    match f
    case Whole(e) => [Eval(e, r)]
    case SplitOn(e, sep) =>
      match Eval(e, r)
      case None => []
      case Some(v) => Somes(Split(v, sep))
  }

  /** The column of values `SELECT f FROM t WHERE ...` produces, row after row. */
  function SelectValues(rows: seq<Row>, f: Fanout): seq<Option<string>>
    requires f.SplitOn? ==> |f.sep| > 0
  {
    if rows == [] then [] else FanoutValues(f, rows[0]) + SelectValues(rows[1..], f)
  }

  /** Splitting on a separator the cells do not contain gives back each non-NULL cell. */
  lemma {:induction false} SelectValuesNoSeparator(rows: seq<Row>, e: Expr, sep: string)
    requires |sep| > 0
    requires forall i :: 0 <= i < |rows| && Eval(e, rows[i]).Some? ==> !Contains(Eval(e, rows[i]).value, sep)
    requires forall i :: 0 <= i < |rows| ==> Eval(e, rows[i]).Some?
    ensures SelectValues(rows, SplitOn(e, sep)) == SelectValues(rows, Whole(e))
  {
    if rows != [] {
      FanoutNoSeparator(rows[0], e, sep);
      assert forall i :: 1 <= i < |rows| ==> rows[i] == rows[1..][i - 1];
      SelectValuesNoSeparator(rows[1..], e, sep);
    }
  }

  lemma FanoutNoSeparator(r: Row, e: Expr, sep: string)
    requires |sep| > 0 && Eval(e, r).Some? && !Contains(Eval(e, r).value, sep)
    ensures FanoutValues(SplitOn(e, sep), r) == FanoutValues(Whole(e), r)
  {
    SplitNoSeparator(Eval(e, r).value, sep);
  }
}
