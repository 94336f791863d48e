/**
 * Derived columns: virtual columns whose value for a row is computed by a CASE
 * expression, either from classification rules or from a birthdate, bucketed into the
 * Japanese school grades of a target school year (elementary 1-6 and junior high 1-3;
 * the school year runs from April 2 to April 1).
 */
module Derived {
  import opened Wrappers
  import opened Strings
  import opened Sql
  import opened Types

  /** A configuration parameter as the YAML decoder delivers it: an int, a string, or anything else. */
  datatype ParamValue = IntParam(n: int) | StringParam(s: string) | OtherParam

  datatype Condition = Condition(column: string, operator: string, value: string, values: seq<string>)

  datatype Rule = Rule(ruleLabel: string, conditions: seq<Condition>, isDefault: bool)

  datatype DerivedColumn = DerivedColumn(
    name: string,
    description: string,
    sourceColumns: seq<string>,
    calculationType: string,
    parameters: map<string, ParamValue>,
    rules: seq<Rule>)

  // ---------------------------------------------------------------------------
  // Conditions
  // ---------------------------------------------------------------------------

  const KnownOperators: set<string> := {"equals", "starts_with", "starts_with_any", "contains"}

  predicate Known(c: Condition)
  {
    c.operator in KnownOperators
  }

  /**
   * What a condition of a known operator means for a row: the cell, with spaces trimmed
   * from both ends, equals the value, or matches `LIKE 'v%'` for the value or for one of
   * the values, or `LIKE '%v%'`. The values are placed into the patterns unescaped, so a
   * '%' or '_' in them is a wildcard. A NULL cell satisfies none of them.
   */
  predicate ConditionHolds(c: Condition, r: Row)
  {
    Cell(r, c.column).Some? &&
    var t := SqlTrim(Cell(r, c.column).value);
    if c.operator == "equals" then t == c.value
    else if c.operator == "starts_with" then LikePrefix(t, c.value)
    else if c.operator == "starts_with_any" then exists i :: 0 <= i < |c.values| && LikePrefix(t, c.values[i])
    else if c.operator == "contains" then LikeInfix(t, c.value)
    else true
  }

  /** The values of a condition contain no LIKE wildcard. */
  predicate LiteralValues(c: Condition)
  {
    NoWildcards(c.value) && forall i :: 0 <= i < |c.values| ==> NoWildcards(c.values[i])
  }

  /**
   * For values without wildcards the conditions are the plain text tests: the trimmed cell
   * equals the value, starts with it, starts with one of the values, or contains it.
   */
  lemma LiteralConditionMeaning(c: Condition, r: Row)
    requires Known(c) && LiteralValues(c) && Cell(r, c.column).Some?
    ensures var t := SqlTrim(Cell(r, c.column).value);
      ConditionHolds(c, r) <==>
        if c.operator == "equals" then t == c.value
        else if c.operator == "starts_with" then c.value <= t
        else if c.operator == "starts_with_any" then exists i :: 0 <= i < |c.values| && c.values[i] <= t
        else Contains(t, c.value)
  {
    var t := SqlTrim(Cell(r, c.column).value);
    LikePrefixLiteral(t, c.value);
    LikeContainsLiteral(t, c.value);
    forall i | 0 <= i < |c.values|
      ensures LikePrefix(t, c.values[i]) <==> c.values[i] <= t
    {
      LikePrefixLiteral(t, c.values[i]);
    }
  }

  /** A "starts_with" rule with the value "1_" fires on a cell "1A": its '_' is a wildcard. */
  lemma WildcardValueFires(r: Row, column: string)
    requires Cell(r, column) == Some("1A")
    ensures ConditionHolds(Condition(column, "starts_with", "1_", []), r)
  {
    SqlTrimUnpadded("1A");
    UnderscoreInPrefix();
  }

  /** The SQL condition for a configured condition; nothing for an unknown operator. */
  function ConditionAtom(c: Condition): (a: Option<Atom>)
    ensures a.None? <==> !Known(c)
    ensures a.Some? ==> a.value.column == c.column
  {
    if c.operator == "equals" then Some(TrimEquals(c.column, c.value))
    else if c.operator == "starts_with" then Some(TrimStartsWith(c.column, c.value))
    else if c.operator == "starts_with_any" then Some(AnyTrimStartsWith(c.column, c.values))
    else if c.operator == "contains" then Some(TrimContains(c.column, c.value))
    else None
  }

  /** The SQL condition of a known operator holds for a row exactly when the configured condition does. */
  lemma ConditionAtomMeaning(c: Condition, r: Row)
    requires Known(c)
    ensures AtomHolds(ConditionAtom(c).value, r) <==> ConditionHolds(c, r)
  {
  }

  /** The SQL conditions of the known-operator conditions, in order; unknown operators are dropped. */
  function KnownAtoms(cs: seq<Condition>): (atoms: seq<Atom>)
    ensures |atoms| <= |cs|
  {
    if cs == [] then []
    else (if Known(cs[0]) then [ConditionAtom(cs[0]).value] else []) + KnownAtoms(cs[1..])
  }

  /** The kept conditions hold exactly when every known-operator condition holds; none is kept when no operator is known. */
  lemma KnownAtomsMeaning(cs: seq<Condition>, r: Row)
    ensures |KnownAtoms(cs)| > 0 <==> exists i :: 0 <= i < |cs| && Known(cs[i])
    ensures AllHold(KnownAtoms(cs), r) <==> forall i :: 0 <= i < |cs| && Known(cs[i]) ==> ConditionHolds(cs[i], r)
  {
    KnownAtomsCount(cs);
    KnownAtomsHold(cs, r);
  }

  lemma {:induction false} KnownAtomsCount(cs: seq<Condition>)
    ensures |KnownAtoms(cs)| > 0 <==> exists i :: 0 <= i < |cs| && Known(cs[i])
  {
    if cs != [] {
      KnownAtomsCount(cs[1..]);
      assert forall i :: 1 <= i < |cs| ==> cs[i] == cs[1..][i - 1];
    }
  }

  lemma {:induction false} KnownAtomsHold(cs: seq<Condition>, r: Row)
    ensures AllHold(KnownAtoms(cs), r) <==> forall i :: 0 <= i < |cs| && Known(cs[i]) ==> ConditionHolds(cs[i], r)
  {
    if cs != [] {
      KnownAtomsHold(cs[1..], r);
      assert forall i :: 1 <= i < |cs| ==> cs[i] == cs[1..][i - 1];
      if Known(cs[0]) {
        AllHoldCons(ConditionAtom(cs[0]).value, KnownAtoms(cs[1..]), r);
        ConditionAtomMeaning(cs[0], r);
      } else {
        assert KnownAtoms(cs) == KnownAtoms(cs[1..]);
      }
    }
  }

  lemma {:induction false} KnownAtomsAppend(cs: seq<Condition>, c: Condition)
    ensures KnownAtoms(cs + [c]) == KnownAtoms(cs) + (if Known(c) then [ConditionAtom(c).value] else [])
  {
    if cs == [] {
      assert cs + [c] == [c];
      assert [c][1..] == [];
    } else {
      var head := if Known(cs[0]) then [ConditionAtom(cs[0]).value] else [];
      var last := if Known(c) then [ConditionAtom(c).value] else [];
      assert (cs + [c])[0] == cs[0] && (cs + [c])[1..] == cs[1..] + [c];
      KnownAtomsAppend(cs[1..], c);
      assert KnownAtoms(cs + [c]) == head + (KnownAtoms(cs[1..]) + last);
      assert KnownAtoms(cs) == head + KnownAtoms(cs[1..]);
    }
  }

  // ---------------------------------------------------------------------------
  // Rule-based classification
  // ---------------------------------------------------------------------------

  /** A rule becomes a WHEN branch when it is not a default rule and keeps at least one condition. */
  function RuleWhen(rule: Rule): Option<When>
  {
    if rule.isDefault then None
    else
      var atoms := KnownAtoms(rule.conditions);
      if |atoms| > 0 then Some(When(atoms, rule.ruleLabel)) else None
  }

  function RuleWhens(rules: seq<Rule>): (ws: seq<When>)
    ensures |ws| <= |rules|
  {
    if rules == [] then []
    else (if RuleWhen(rules[0]).Some? then [RuleWhen(rules[0]).value] else []) + RuleWhens(rules[1..])
  }

  lemma {:induction false} RuleWhensAppend(rules: seq<Rule>, rule: Rule)
    ensures RuleWhens(rules + [rule]) == RuleWhens(rules) + (if RuleWhen(rule).Some? then [RuleWhen(rule).value] else [])
  {
    if rules == [] {
      assert rules + [rule] == [rule];
      assert [rule][1..] == [];
    } else {
      assert (rules + [rule])[1..] == rules[1..] + [rule];
      RuleWhensAppend(rules[1..], rule);
    }
  }

  /** The label of the first default rule, if there is one. */
  function DefaultLabel(rules: seq<Rule>): (d: Option<string>)
    ensures d.None? <==> forall i :: 0 <= i < |rules| ==> !rules[i].isDefault
    ensures d.Some? ==> exists i :: 0 <= i < |rules| && rules[i].isDefault && d.value == rules[i].ruleLabel
                          && forall j :: 0 <= j < i ==> !rules[j].isDefault
  {
    if rules == [] then None
    else if rules[0].isDefault then Some(rules[0].ruleLabel)
    else
      assert forall i :: 1 <= i < |rules| ==> rules[i] == rules[1..][i - 1];
      DefaultLabel(rules[1..])
  }

  /** The CASE expression of a rule-based derived column. */
  function RuleBasedExpression(dc: DerivedColumn): Expr
  {
    Case(RuleWhens(dc.rules), DefaultLabel(dc.rules))
  }

  /** A rule fires for a row when it is not a default rule, keeps a condition, and all its kept conditions hold. */
  predicate Fires(rule: Rule, r: Row)
  {
    && !rule.isDefault
    && (exists i :: 0 <= i < |rule.conditions| && Known(rule.conditions[i]))
    && forall i :: 0 <= i < |rule.conditions| && Known(rule.conditions[i]) ==> ConditionHolds(rule.conditions[i], r)
  }

  /** The label of the first rule that fires. */
  function FirstFiring(rules: seq<Rule>, r: Row): Option<string>
  {
    if rules == [] then None
    else if Fires(rules[0], r) then Some(rules[0].ruleLabel)
    else FirstFiring(rules[1..], r)
  }

  /**
   * The classification the rules describe: the label of the first rule, in declaration
   * order, that fires; otherwise the first default rule's label; otherwise NULL.
   */
  function Classify(rules: seq<Rule>, r: Row): Option<string>
  {
    if FirstFiring(rules, r).Some? then FirstFiring(rules, r) else DefaultLabel(rules)
  }

  lemma FirstMatchCons(w: When, rest: seq<When>, r: Row)
    ensures FirstMatch([w] + rest, r) == if AllHold(w.conditions, r) then Some(w.result) else FirstMatch(rest, r)
  {
    assert ([w] + rest)[0] == w;
    assert ([w] + rest)[1..] == rest;
  }

  lemma {:induction false} FirstMatchRuleWhens(rules: seq<Rule>, r: Row)
    ensures FirstMatch(RuleWhens(rules), r) == FirstFiring(rules, r)
  {
    if rules != [] {
      FirstMatchRuleWhens(rules[1..], r);
      KnownAtomsMeaning(rules[0].conditions, r);
      var w := RuleWhen(rules[0]);
      var rest := RuleWhens(rules[1..]);
      if w.Some? {
        assert RuleWhens(rules) == [w.value] + rest;
        FirstMatchCons(w.value, rest, r);
        assert AllHold(w.value.conditions, r) <==> Fires(rules[0], r);
      } else {
        assert RuleWhens(rules) == rest;
        assert !Fires(rules[0], r);
      }
    }
  }

  /** Evaluating the generated CASE expression classifies the row as the rules say. */
  lemma RuleBasedMeaning(dc: DerivedColumn, r: Row)
    ensures Eval(RuleBasedExpression(dc), r) == Classify(dc.rules, r)
  {
    FirstMatchRuleWhens(dc.rules, r);
  }

  /**
   * Builds the rule-based CASE expression: a WHEN branch per non-default rule with a
   * kept condition, in order, and an ELSE with the first default rule's label.
   */
  method GenerateRuleBasedExpression(dc: DerivedColumn) returns (e: Expr)
    ensures e == RuleBasedExpression(dc)
  {
    var cases: seq<When> := [];
    for k := 0 to |dc.rules|
      invariant cases == RuleWhens(dc.rules[..k])
    {
      var rule := dc.rules[k];
      RuleWhensAppend(dc.rules[..k], rule);
      assert dc.rules[..k + 1] == dc.rules[..k] + [rule];
      if rule.isDefault {
        continue;
      }
      var conditions := ConditionAtoms(rule.conditions);
      if |conditions| > 0 {
        cases := cases + [When(conditions, rule.ruleLabel)];
      }
    }
    assert dc.rules[..|dc.rules|] == dc.rules;
    var elseClause := FindDefaultLabel(dc.rules);
    e := Case(cases, elseClause);
  }

  /** The SQL conditions of one rule, skipping conditions of unknown operators. */
  method ConditionAtoms(cs: seq<Condition>) returns (conditions: seq<Atom>)
    ensures conditions == KnownAtoms(cs)
  {
    conditions := [];
    for m := 0 to |cs|
      invariant conditions == KnownAtoms(cs[..m])
    {
      KnownAtomsAppend(cs[..m], cs[m]);
      assert cs[..m + 1] == cs[..m] + [cs[m]];
      var condSQL := ConditionAtom(cs[m]);
      if condSQL.Some? {
        conditions := conditions + [condSQL.value];
      }
    }
    assert cs[..|cs|] == cs;
  }

  /** The ELSE label: the first default rule's, if any. */
  method FindDefaultLabel(rules: seq<Rule>) returns (elseClause: Option<string>)
    ensures elseClause == DefaultLabel(rules)
  {
    elseClause := None;
    for k := 0 to |rules|
      invariant elseClause.None? ==> forall j :: 0 <= j < k ==> !rules[j].isDefault
      invariant elseClause.Some? ==> elseClause == DefaultLabel(rules)
    {
      if rules[k].isDefault {
        elseClause := Some(rules[k].ruleLabel);
        break;
      }
    }
  }

  /** With no rule that can become a WHEN branch the CASE expression has none, and the engine rejects it. */
  lemma NoUsableRuleRejected(dc: DerivedColumn, names: seq<string>)
    requires forall i :: 0 <= i < |dc.rules| ==> RuleWhen(dc.rules[i]).None?
    ensures !ExprOk(RuleBasedExpression(dc), names)
  {
    NoWhens(dc.rules);
  }

  lemma {:induction false} NoWhens(rules: seq<Rule>)
    requires forall i :: 0 <= i < |rules| ==> RuleWhen(rules[i]).None?
    ensures RuleWhens(rules) == []
  {
    if rules != [] {
      assert forall i :: 1 <= i < |rules| ==> rules[i] == rules[1..][i - 1];
      NoWhens(rules[1..]);
    }
  }

  // ---------------------------------------------------------------------------
  // Grade from birthdate
  // ---------------------------------------------------------------------------

  const DefaultTargetYear: int := 2025
  const DefaultBirthdateColumn: string := "生年月日"
  const OutOfRangeLabel: string := "データ不正"
  const NoDataLabel: string := "データなし"
  const YoungerLabel: string := "小1未満"
  const OlderLabel: string := "高1以上"

  /** The `target_year` parameter when it is an int, 2025 otherwise. */
  function TargetYear(p: map<string, ParamValue>): (y: int)
    ensures ("target_year" in p && p["target_year"].IntParam?) ==> y == p["target_year"].n
    ensures !("target_year" in p && p["target_year"].IntParam?) ==> y == DefaultTargetYear
  {
    if "target_year" in p && p["target_year"].IntParam? then p["target_year"].n else DefaultTargetYear
  }

  /** The `birthdate_column` parameter when it is a string, "生年月日" otherwise. */
  function BirthdateColumn(p: map<string, ParamValue>): (c: string)
    ensures ("birthdate_column" in p && p["birthdate_column"].StringParam?) ==> c == p["birthdate_column"].s
    ensures !("birthdate_column" in p && p["birthdate_column"].StringParam?) ==> c == DefaultBirthdateColumn
  {
    if "birthdate_column" in p && p["birthdate_column"].StringParam? then p["birthdate_column"].s else DefaultBirthdateColumn
  }

  /** The birthdates of one grade, inclusive, as YYYYMMDD strings. */
  datatype GradeRange = GradeRange(gradeLabel: string, startDate: string, endDate: string)

  /**
   * The range literal of one grade, labelled stage and grade number: children born from
   * April 2 of `birthYear` to April 1 of the next year.
   */
  function RangeFor(stage: string, grade: int, birthYear: int): GradeRange
  {
    GradeRange(stage + IntToDecimal(grade), ZeroPadDecimal(birthYear, 4) + "0402", ZeroPadDecimal(birthYear + 1, 4) + "0401")
  }

  /**
   * 小1 to 小6, then 中1 to 中3. Range j covers the children born in the school year
   * starting in y - 7 - j: one grade per school year, youngest first.
   */
  function GradeRanges(y: int): (rs: seq<GradeRange>)
    ensures |rs| == 9
    ensures forall j :: 0 <= j < 6 ==> rs[j] == RangeFor("小", j + 1, y - 7 - j)
    ensures forall j :: 6 <= j < 9 ==> rs[j] == RangeFor("中", j - 5, y - 7 - j)
  {
    seq(6, g => RangeFor("小", g + 1, y - (g + 1) - 6)) + seq(3, g => RangeFor("中", g + 1, y - (g + 1) - 12))
  }

  function RangeWhen(g: GradeRange, column: string): When
  {
    When([AtLeast(column, g.startDate), AtMost(column, g.endDate)], g.gradeLabel)
  }

  /** One WHEN branch per range, in order. */
  function RangeWhens(rs: seq<GradeRange>, column: string): (ws: seq<When>)
    ensures |ws| == |rs| && forall j :: 0 <= j < |rs| ==> ws[j] == RangeWhen(rs[j], column)
  {
    if rs == [] then [] else [RangeWhen(rs[0], column)] + RangeWhens(rs[1..], column)
  }

  /** The WHEN branches: the nine grades, then younger than 小1, older than 中3, and NULL. */
  function GradeWhens(y: int, column: string): seq<When>
  {
    var rs := GradeRanges(y);
    RangeWhens(rs, column)
    + [ When([After(column, rs[0].endDate)], YoungerLabel),
        When([Before(column, rs[8].startDate)], OlderLabel),
        When([IsNull(column)], NoDataLabel) ]
  }

  lemma GradeWhensShape(y: int, column: string)
    ensures |GradeWhens(y, column)| == 12
    ensures forall j :: 0 <= j < 9 ==> GradeWhens(y, column)[j] == RangeWhen(GradeRanges(y)[j], column)
    ensures GradeWhens(y, column)[9] == When([After(column, GradeRanges(y)[0].endDate)], YoungerLabel)
    ensures GradeWhens(y, column)[10] == When([Before(column, GradeRanges(y)[8].startDate)], OlderLabel)
    ensures GradeWhens(y, column)[11] == When([IsNull(column)], NoDataLabel)
  {
  }

  function GradeExpression(dc: DerivedColumn): Expr
  {
    Case(GradeWhens(TargetYear(dc.parameters), BirthdateColumn(dc.parameters)), Some(OutOfRangeLabel))
  }

  lemma AreGradeRanges(y: int, ranges: seq<GradeRange>)
    requires |ranges| == 9
    requires forall j :: 0 <= j < 6 ==> ranges[j] == RangeFor("小", j + 1, y - 7 - j)
    requires forall j :: 6 <= j < 9 ==> ranges[j] == RangeFor("中", j - 5, y - 7 - j)
    ensures ranges == GradeRanges(y)
  {
  }

  lemma AreRangeWhens(ranges: seq<GradeRange>, column: string, cases: seq<When>)
    requires |cases| == |ranges|
    requires forall j :: 0 <= j < |ranges| ==> cases[j] == RangeWhen(ranges[j], column)
    ensures cases == RangeWhens(ranges, column)
  {
  }

  lemma AreGradeWhens(y: int, column: string, ranges: seq<GradeRange>, gradeCases: seq<When>, cases: seq<When>)
    requires ranges == GradeRanges(y) && gradeCases == RangeWhens(ranges, column)
    requires cases == ((gradeCases + [When([After(column, ranges[0].endDate)], YoungerLabel)])
                                   + [When([Before(column, ranges[8].startDate)], OlderLabel)])
                                   + [When([IsNull(column)], NoDataLabel)]
    ensures cases == GradeWhens(y, column)
  {
  }

  /** Builds the grade CASE expression from the nine grade ranges and the three fallbacks. */
  method GenerateGradeCalculation(dc: DerivedColumn) returns (e: Expr)
    ensures e == GradeExpression(dc)
  {
    var targetYear := DefaultTargetYear;
    if "target_year" in dc.parameters && dc.parameters["target_year"].IntParam? {
      targetYear := dc.parameters["target_year"].n;
    }
    var birthdateColumn := DefaultBirthdateColumn;
    if "birthdate_column" in dc.parameters && dc.parameters["birthdate_column"].StringParam? {
      birthdateColumn := dc.parameters["birthdate_column"].s;
    }
    assert targetYear == TargetYear(dc.parameters) && birthdateColumn == BirthdateColumn(dc.parameters);
    var ranges := BuildGradeRanges(targetYear);
    var cases := BuildRangeCases(ranges, birthdateColumn);
    ghost var gradeCases := cases;
    var youngest := ranges[0];
    cases := cases + [When([After(birthdateColumn, youngest.endDate)], YoungerLabel)];
    var oldest := ranges[|ranges| - 1];
    cases := cases + [When([Before(birthdateColumn, oldest.startDate)], OlderLabel)];
    cases := cases + [When([IsNull(birthdateColumn)], NoDataLabel)];
    assert youngest == ranges[0] && oldest == ranges[8];
    AreGradeWhens(targetYear, birthdateColumn, ranges, gradeCases, cases);
    e := Case(cases, Some(OutOfRangeLabel));
  }

  /** The ranges of 小1 to 小6, then 中1 to 中3, for the school year starting in `targetYear`. */
  method BuildGradeRanges(targetYear: int) returns (ranges: seq<GradeRange>)
    ensures ranges == GradeRanges(targetYear)
  {
    ranges := [];
    for grade := 1 to 7
      invariant |ranges| == grade - 1
      invariant forall j :: 0 <= j < |ranges| ==> ranges[j] == RangeFor("小", j + 1, targetYear - 7 - j)
    {
      var birthYear := targetYear - grade - 6;
      ranges := ranges + [RangeFor("小", grade, birthYear)];
    }
    for grade := 1 to 4
      invariant |ranges| == grade + 5
      invariant forall j :: 0 <= j < 6 ==> ranges[j] == RangeFor("小", j + 1, targetYear - 7 - j)
      invariant forall j :: 6 <= j < |ranges| ==> ranges[j] == RangeFor("中", j - 5, targetYear - 7 - j)
    {
      var birthYear := targetYear - grade - 12;
      ranges := ranges + [RangeFor("中", grade, birthYear)];
    }
    AreGradeRanges(targetYear, ranges);
  }

  /** One WHEN branch per range: the birthdate lies between its first and last day. */
  method BuildRangeCases(ranges: seq<GradeRange>, birthdateColumn: string) returns (cases: seq<When>)
    ensures cases == RangeWhens(ranges, birthdateColumn)
  {
    cases := [];
    for k := 0 to |ranges|
      invariant |cases| == k
      invariant forall j :: 0 <= j < k ==> cases[j] == RangeWhen(ranges[j], birthdateColumn)
    {
      var r := ranges[k];
      cases := cases + [When([AtLeast(birthdateColumn, r.startDate), AtMost(birthdateColumn, r.endDate)], r.gradeLabel)];
    }
    AreRangeWhens(ranges, birthdateColumn, cases);
  }

  lemma FourDigitPower()
    ensures Pow10(4) == 10000
  {
    assert Pow10(1) == 10 && Pow10(2) == 100 && Pow10(3) == 1000;
  }

  /** The numeric value of a range bound: the year, then MMDD. */
  lemma BoundValue(year: int, mmdd: string, v: nat)
    requires 0 <= year <= 9999
    requires (mmdd == "0402" && v == 402) || (mmdd == "0401" && v == 401)
    ensures var s := ZeroPadDecimal(year, 4) + mmdd;
      |s| == 8 && AllDigits(s) && DigitsValue(s) == year * 10000 + v && s[..4] == ZeroPadDecimal(year, 4)
  {
    FourDigitPower();
    ZeroPadDigits(year, 4);
    var z := ZeroPadDecimal(year, 4);
    assert AllDigits(mmdd);
    FourDigitsValue(mmdd);
    DigitsValueConcat(z, mmdd);
    assert (z + mmdd)[..4] == z;
  }

  /** The two bounds of range j of target year y as numbers. */
  lemma RangeBounds(y: int, j: nat)
    requires 15 <= y <= 10005 && j < 9
    ensures var g := GradeRanges(y)[j];
      && |g.startDate| == 8 && AllDigits(g.startDate) && DigitsValue(g.startDate) == (y - 7 - j) * 10000 + 402
      && |g.endDate| == 8 && AllDigits(g.endDate) && DigitsValue(g.endDate) == (y - 6 - j) * 10000 + 401
      && g.startDate[..4] == ZeroPadDecimal(y - 7 - j, 4)
      && g.endDate[..4] == ZeroPadDecimal(y - 6 - j, 4)
  {
    BoundValue(y - 7 - j, "0402", 402);
    BoundValue(y - 6 - j, "0401", 401);
  }

  /** The school year a YYYYMMDD birthdate falls in, named by the calendar year it starts in (April 2). */
  function SchoolYearOfBirth(b: string): int
    requires |b| == 8 && AllDigits(b)
  {
    var year := DigitsValue(b[..4]);
    if DigitsValue(b[4..]) >= 402 then year else year - 1
  }

  /** The grade in target school year `y` of a child born in school year `fy`. */
  function GradeForSchoolYear(y: int, fy: int): string
  {
    var k := y - 7 - fy;
    if k < 0 then YoungerLabel
    else if k < 6 then "小" + IntToDecimal(k + 1)
    else if k < 9 then "中" + IntToDecimal(k - 5)
    else OlderLabel
  }

  /** A birthdate's value split into its year and its month and day. */
  lemma BirthdateValue(b: string)
    requires |b| == 8 && AllDigits(b)
    ensures DigitsValue(b) == DigitsValue(b[..4]) * 10000 + DigitsValue(b[4..])
    ensures DigitsValue(b[4..]) < 10000
  {
    FourDigitPower();
    assert b == b[..4] + b[4..];
    DigitsValueConcat(b[..4], b[4..]);
    DigitsValueBound(b[4..]);
  }

  lemma InRangeArith(year: int, mmdd: int, fy: int)
    requires 0 <= mmdd < 10000
    ensures (fy * 10000 + 402 <= year * 10000 + mmdd && year * 10000 + mmdd <= (fy + 1) * 10000 + 401)
            <==> (if mmdd >= 402 then year else year - 1) == fy
  {
  }

  lemma AfterArith(year: int, mmdd: int, fy: int)
    requires 0 <= mmdd < 10000
    ensures ((fy + 1) * 10000 + 401 < year * 10000 + mmdd) <==> (if mmdd >= 402 then year else year - 1) > fy
  {
  }

  lemma BeforeArith(year: int, mmdd: int, fy: int)
    requires 0 <= mmdd < 10000
    ensures (year * 10000 + mmdd < fy * 10000 + 402) <==> (if mmdd >= 402 then year else year - 1) < fy
  {
  }

  /** A birthdate lies in range j exactly when it falls in school year y - 7 - j. */
  lemma InRangeIffSchoolYear(y: int, j: nat, column: string, r: Row, b: string)
    requires 15 <= y <= 10005 && j < 9
    requires |b| == 8 && AllDigits(b) && Cell(r, column) == Some(b)
    ensures AllHold(RangeWhen(GradeRanges(y)[j], column).conditions, r) <==> SchoolYearOfBirth(b) == y - 7 - j
  {
    var g := GradeRanges(y)[j];
    RangeBounds(y, j);
    BetweenIffValue(column, g.startDate, g.endDate, r, b);
    BirthdateValue(b);
    var fy := y - 7 - j;
    assert (y - 6 - j) * 10000 == (fy + 1) * 10000;
    InRangeArith(DigitsValue(b[..4]), DigitsValue(b[4..]), fy);
  }

  /** Between two bounds of eight digits, the order of the strings is the order of their values. */
  lemma BetweenIffValue(column: string, start: string, end: string, r: Row, b: string)
    requires |start| == 8 && AllDigits(start) && |end| == 8 && AllDigits(end)
    requires |b| == 8 && AllDigits(b) && Cell(r, column) == Some(b)
    ensures AllHold([AtLeast(column, start), AtMost(column, end)], r) <==>
      DigitsValue(start) <= DigitsValue(b) && DigitsValue(b) <= DigitsValue(end)
  {
    AllHoldTwo(AtLeast(column, start), AtMost(column, end), r);
    LexLessIffValue(start, b);
    LexLessIffValue(b, end);
  }

  /** The "younger than 小1" branch holds exactly for school years after y - 7. */
  lemma YoungerIff(y: int, column: string, r: Row, b: string)
    requires 15 <= y <= 10005
    requires |b| == 8 && AllDigits(b) && Cell(r, column) == Some(b)
    ensures AllHold(GradeWhens(y, column)[9].conditions, r) <==> SchoolYearOfBirth(b) > y - 7
  {
    var g := GradeRanges(y)[0];
    GradeWhensShape(y, column);
    RangeBounds(y, 0);
    LexLessIffValue(g.endDate, b);
    BirthdateValue(b);
    AfterArith(DigitsValue(b[..4]), DigitsValue(b[4..]), y - 7);
    var c := GradeWhens(y, column)[9].conditions;
    assert c == [After(column, g.endDate)];
    AllHoldOne(After(column, g.endDate), r);
  }

  /** The "高1以上" branch holds exactly for school years before y - 15. */
  lemma OlderIff(y: int, column: string, r: Row, b: string)
    requires 15 <= y <= 10005
    requires |b| == 8 && AllDigits(b) && Cell(r, column) == Some(b)
    ensures AllHold(GradeWhens(y, column)[10].conditions, r) <==> SchoolYearOfBirth(b) < y - 15
  {
    var g := GradeRanges(y)[8];
    GradeWhensShape(y, column);
    RangeBounds(y, 8);
    LexLessIffValue(b, g.startDate);
    BirthdateValue(b);
    BeforeArith(DigitsValue(b[..4]), DigitsValue(b[4..]), y - 15);
    var c := GradeWhens(y, column)[10].conditions;
    assert c == [Before(column, g.startDate)];
    AllHoldOne(Before(column, g.startDate), r);
  }

  lemma FirstMatchAt(whens: seq<When>, r: Row, i: nat)
    requires i < |whens| && AllHold(whens[i].conditions, r)
    requires forall j :: 0 <= j < i ==> !AllHold(whens[j].conditions, r)
    ensures FirstMatch(whens, r) == Some(whens[i].result)
  {
  }

  /**
   * For an eight-digit birthdate the expression yields the grade of the school year of
   * birth: the school year y - 7 is 小1, each earlier year one grade up to 中3, later years
   * "小1未満" and earlier ones "高1以上". So "データ不正" is never the value of an eight-digit
   * birthdate. Holds for target years whose grade birth years all have four digits.
   */
  lemma GradeBySchoolYear(dc: DerivedColumn, r: Row, b: string)
    requires 15 <= TargetYear(dc.parameters) <= 10005
    requires Cell(r, BirthdateColumn(dc.parameters)) == Some(b) && |b| == 8 && AllDigits(b)
    ensures Eval(GradeExpression(dc), r) == Some(GradeForSchoolYear(TargetYear(dc.parameters), SchoolYearOfBirth(b)))
  {
    var y := TargetYear(dc.parameters);
    var column := BirthdateColumn(dc.parameters);
    var ws := GradeWhens(y, column);
    var rs := GradeRanges(y);
    var k := y - 7 - SchoolYearOfBirth(b);
    GradeWhensShape(y, column);
    forall j | 0 <= j < 9
      ensures AllHold(ws[j].conditions, r) <==> j == k
    {
      InRangeIffSchoolYear(y, j, column, r, b);
    }
    YoungerIff(y, column, r, b);
    OlderIff(y, column, r, b);
    forall j | 0 <= j < 9
      ensures ws[j].result == (if j < 6 then "小" + IntToDecimal(j + 1) else "中" + IntToDecimal(j - 5))
    {
      assert ws[j].result == rs[j].gradeLabel;
    }
    GradePick(ws, r, k);
    assert GradeExpression(dc) == Case(ws, Some(OutOfRangeLabel));
  }

  /** Which of the twelve cases fires, given which of the first eleven hold. */
  lemma GradePick(ws: seq<When>, r: Row, k: int)
    requires |ws| == 12
    requires forall j :: 0 <= j < 9 ==> (AllHold(ws[j].conditions, r) <==> j == k)
    requires forall j :: 0 <= j < 9 ==>
      ws[j].result == (if j < 6 then "小" + IntToDecimal(j + 1) else "中" + IntToDecimal(j - 5))
    requires AllHold(ws[9].conditions, r) <==> k < 0
    requires AllHold(ws[10].conditions, r) <==> k > 8
    requires ws[9].result == YoungerLabel && ws[10].result == OlderLabel
    ensures FirstMatch(ws, r) == Some(if k < 0 then YoungerLabel
      else if k < 6 then "小" + IntToDecimal(k + 1)
      else if k < 9 then "中" + IntToDecimal(k - 5)
      else OlderLabel)
  {
    if k < 0 {
      FirstMatchAt(ws, r, 9);
    } else if k < 9 {
      FirstMatchAt(ws, r, k);
    } else {
      FirstMatchAt(ws, r, 10);
    }
  }

  /** Target year 2025: a child born on 2018-04-10 is in 小1. */
  lemma GradeExample(dc: DerivedColumn, r: Row)
    requires TargetYear(dc.parameters) == 2025
    requires Cell(r, BirthdateColumn(dc.parameters)) == Some("20180410")
    ensures Eval(GradeExpression(dc), r) == Some("小1")
  {
    var b := "20180410";
    assert AllDigits(b);
    assert b[..4] == "2018" && b[4..] == "0410";
    FourDigitsValue("2018");
    FourDigitsValue("0410");
    assert SchoolYearOfBirth(b) == 2018;
    assert DigitChar(1) == '1';
    assert IntToDecimal(1) == "1";
    assert GradeForSchoolYear(2025, 2018) == "小1";
    GradeBySchoolYear(dc, r, b);
  }

  /** A NULL birthdate yields "データなし". */
  lemma GradeOfNull(dc: DerivedColumn, r: Row)
    requires Cell(r, BirthdateColumn(dc.parameters)) == None
    ensures Eval(GradeExpression(dc), r) == Some(NoDataLabel)
  {
    var column := BirthdateColumn(dc.parameters);
    var ws := GradeWhens(TargetYear(dc.parameters), column);
    GradeWhensShape(TargetYear(dc.parameters), column);
    forall j | 0 <= j < 11 ensures !AllHold(ws[j].conditions, r) {
      var a := ws[j].conditions[0];
      assert a.column == column && !a.IsNull?;
      NullOnlyIsNull(a, r);
    }
    NullOnlyIsNull(IsNull(column), r);
    AllHoldOne(IsNull(column), r);
    FirstMatchAt(ws, r, 11);
  }

  lemma OlderBirthYears(younger: int, older: int)
    requires older < younger
    ensures (older + 1) * 10000 + 401 < younger * 10000 + 402
  {
  }

  lemma RangeNonEmpty(y: int, j: nat)
    requires 15 <= y <= 10005 && j < 9
    ensures LexLess(GradeRanges(y)[j].startDate, GradeRanges(y)[j].endDate)
  {
    RangeBounds(y, j);
    LexLessIffValue(GradeRanges(y)[j].startDate, GradeRanges(y)[j].endDate);
  }

  lemma RangeAfterOlder(y: int, i: nat, j: nat)
    requires 15 <= y <= 10005 && i < j < 9
    ensures LexLess(GradeRanges(y)[j].endDate, GradeRanges(y)[i].startDate)
  {
    RangeBounds(y, i);
    RangeBounds(y, j);
    OlderBirthYears(y - 7 - i, y - 7 - j);
    LexLessIffValue(GradeRanges(y)[j].endDate, GradeRanges(y)[i].startDate);
  }

  lemma RangeFollowsOlder(y: int, j: nat)
    requires 15 <= y <= 10005 && j < 8
    ensures GradeRanges(y)[j].startDate[..4] == GradeRanges(y)[j + 1].endDate[..4]
    ensures GradeRanges(y)[j].startDate[4..] == "0402" && GradeRanges(y)[j + 1].endDate[4..] == "0401"
  {
    RangeBounds(y, j);
    RangeBounds(y, j + 1);
  }

  /**
   * The nine ranges are ordered from youngest to oldest without overlap: each starts
   * before it ends, each lies wholly after every older one, and each starts on April 2 of
   * the year on whose April 1 the next older one ends.
   */
  lemma GradeRangesAdjacent(y: int)
    requires 15 <= y <= 10005
    ensures forall j :: 0 <= j < 9 ==> LexLess(GradeRanges(y)[j].startDate, GradeRanges(y)[j].endDate)
    ensures forall i, j :: 0 <= i < j < 9 ==> LexLess(GradeRanges(y)[j].endDate, GradeRanges(y)[i].startDate)
    ensures forall i, j :: 0 <= i < 8 && j == i + 1 ==>
      && GradeRanges(y)[i].startDate[..4] == GradeRanges(y)[j].endDate[..4]
      && GradeRanges(y)[i].startDate[4..] == "0402" && GradeRanges(y)[j].endDate[4..] == "0401"
  {
    forall j | 0 <= j < 9 ensures LexLess(GradeRanges(y)[j].startDate, GradeRanges(y)[j].endDate) {
      RangeNonEmpty(y, j);
    }
    forall i, j | 0 <= i < j < 9 ensures LexLess(GradeRanges(y)[j].endDate, GradeRanges(y)[i].startDate) {
      RangeAfterOlder(y, i, j);
    }
    forall i, j | 0 <= i < 8 && j == i + 1
      ensures GradeRanges(y)[i].startDate[..4] == GradeRanges(y)[j].endDate[..4]
      ensures GradeRanges(y)[i].startDate[4..] == "0402" && GradeRanges(y)[j].endDate[4..] == "0401"
    {
      RangeFollowsOlder(y, i);
    }
  }

  // ---------------------------------------------------------------------------
  // Dispatch and the virtual column
  // ---------------------------------------------------------------------------

  /** "grade_from_birthdate" selects the grade expression; every other type, "" included, the rules. */
  function CaseExpression(dc: DerivedColumn): Expr
  {
    if dc.calculationType == "grade_from_birthdate" then GradeExpression(dc) else RuleBasedExpression(dc)
  }

  method GenerateCaseExpression(dc: DerivedColumn) returns (e: Expr)
    ensures dc.calculationType == "grade_from_birthdate" ==> e == GradeExpression(dc)
    ensures dc.calculationType != "grade_from_birthdate" ==> e == RuleBasedExpression(dc)
    ensures e == CaseExpression(dc)
  {
    if dc.calculationType == "grade_from_birthdate" {
      e := GenerateGradeCalculation(dc);
    } else if dc.calculationType == "rules" || dc.calculationType == "" {
      e := GenerateRuleBasedExpression(dc);
    } else {
      e := GenerateRuleBasedExpression(dc);
    }
  }

  /** The derived column as a virtual, single-answer column at the given index. */
  function GetDerivedColumn(dc: DerivedColumn, index: int): (c: Column)
    ensures c.index == index && c.name == dc.name && c.typeName == "VARCHAR (派生列)"
    ensures c.isDerived && !c.isMulti
  {
    Column(index, dc.name, "VARCHAR (派生列)", false, 0, true, CaseExpression(dc))
  }

  /** A rule-based derived column's value for a row is its classification of the row. */
  lemma DerivedValue(dc: DerivedColumn, index: int, r: Row)
    requires dc.calculationType != "grade_from_birthdate"
    ensures Eval(GetSQLExpression(GetDerivedColumn(dc, index)), r) == Classify(dc.rules, r)
  {
    RuleBasedMeaning(dc, r);
  }
}
