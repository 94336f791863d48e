# A verified model of calcanke's tabulation engine and whiscript's business rules

This project models two applications of one Go mono-repository in Dafny and proves properties
of the model.

**calcanke** tabulates survey data held in a DuckDB table. The model covers:

- the analyzer: the derived-column engine, the column list with multi-answer detection, the
  filter compiler, simple and cross tabulation, the pivot of a cross tabulation and the custom
  value order;
- the small parsers and formatters: the selection-index parser and the thousands separator;
- the project path builders;
- the list editing of the project HTTP handler: derived columns, filters and template import.

The analyzer builds SQL text; the model keeps what that text means. A table is a schema and a
sequence of rows, a row maps column names to `Option<string>` (`None` is SQL NULL), and the
queries the analyzer builds are values (`Sql.Expr`, `Queries.GroupQuery`,
`Queries.PairQuery`) with an evaluator. A WHERE clause is a list of predicates, a CASE
expression a list of WHEN branches. What the database answers for such a query
(`Queries.RunGroupQuery`, `Queries.RunPairQuery`) is defined from the rows: select, fan out,
group, count, order.

**whiscript** is a transcription tool. The model covers:

- the corpus service: upload checks, segment gaps, groups and the time-ordered merge of a
  group's files;
- the project service: paging and input validation;
- the audio-file service: upload checks and the stored file name;
- the project repository: the LIMIT/OFFSET, the search clause and the injection-safe ORDER BY
  clause of the list, and the error mapping of lookups and writes by id.

Whatever the database would answer is a parameter of the model; file I/O is left out.

Go code that loops becomes a Dafny `method` with loop invariants, proved equal to a function
that states the result. The custom value sort (`sortByOrder`) works in place on an `array`.
The properties are lemmas about those functions.

## Model

| member | source | states |
|---|---|---|
| Strings.LexLeOrder | apps/calcanke/internal/analyzer/crosstab_pivot.go:31-32 | the code-point order `sort.Strings` uses is a total order, so the sorted axes are unique |
| Strings.LexLessIffValue | apps/calcanke/internal/analyzer/derived.go:191-209 | for digit strings of one length, such as YYYYMMDD birthdates, string order and numeric order agree in both directions |
| Strings.JoinSplit | apps/calcanke/internal/analyzer/simpletab.go:136-139 | `string_split` loses nothing: joining the pieces with the separator gives the cell back |
| Strings.SplitNoSeparator | apps/calcanke/internal/analyzer/simpletab.go:136-139 | a cell without the separator splits into itself alone |
| Strings.GoTrimSpaceEmpty | apps/whiscript/internal/service/project.go:72-75 | `strings.TrimSpace` gives "" exactly when every character is white space |
| Strings.FieldsEmpty | apps/calcanke/internal/ui/interactive.go:227-230 | `strings.Fields` finds no field exactly when the line is all white space |
| Strings.FirstFieldOf | apps/calcanke/internal/ui/interactive.go:227-235 | a word after leading white space and before a space is the first field |
| Strings.ParseIntToDecimal | apps/calcanke/internal/ui/interactive.go:231-235 | `strconv.Atoi` reads back what `%d` printed, for every 64-bit value |
| Strings.FileExt | apps/whiscript/internal/service/audio_file.go:64-66 | `filepath.Ext` is a suffix of the path, empty or starting with '.' |
| Strings.TrimSuffix | apps/whiscript/internal/service/audio_file.go:97 | `strings.TrimSuffix` removes the suffix when present and changes nothing otherwise |
| Sql.LikePrefixLiteral | apps/calcanke/internal/analyzer/derived.go:117-118 | for a pattern text without wildcards, `LIKE 'v%'` holds exactly when the text starts with v |
| Sql.LikeContainsLiteral | apps/calcanke/internal/analyzer/derived.go:127-128 | for a pattern text without wildcards, `LIKE '%v%'` holds exactly when v occurs in the text |
| Sql.UnderscoreInPrefix | apps/calcanke/internal/analyzer/derived.go:117-118 | "1A" matches `LIKE '1_%'` although it does not start with "1_" |
| Sql.NullOnlyIsNull | apps/calcanke/internal/analyzer/derived.go:113-128 | on a NULL cell only IS NULL holds; every comparison and LIKE is not true |
| Sql.FirstMatch | apps/calcanke/internal/analyzer/derived.go:91-107 | a CASE picks the result of the first WHEN branch whose conditions all hold, and only when some branch holds |
| Sql.Selected | apps/calcanke/internal/analyzer/simpletab.go:87-90 | WHERE keeps a row exactly when it satisfies every clause, and keeps only table rows |
| Sql.SelectedCounts | apps/calcanke/internal/analyzer/simpletab.go:87-90 | each passing row is kept as many times as the table holds it, and no other row is kept |
| Sql.SelectedAppend | apps/calcanke/internal/analyzer/simpletab.go:87-90 | WHERE filters each part of the table on its own and keeps the parts in table order |
| Sql.SelectValuesNoSeparator | apps/calcanke/internal/analyzer/simpletab.go:136-139 | unnesting the split of non-NULL cells without the separator yields the cells themselves |
| Types.GetSQLExpression | apps/calcanke/internal/analyzer/types.go:17-22 | a derived column selects its stored expression; a base column selects its own cell, and the engine accepts it exactly when the table has that column |
| Types.ToOptions | apps/calcanke/internal/analyzer/types.go:28-40 | one menu line per column in order: the index right-aligned to width 2, two spaces, the name, then " [派生列]" for a derived column, otherwise " [複数回答]" for a multi-answer one, otherwise nothing |
| Derived.ConditionAtom | apps/calcanke/internal/analyzer/derived.go:112-133 | an operator gets a SQL condition exactly when it is one of the four known ones, and that condition is on the configured column; an unknown operator gives none |
| Derived.LiteralConditionMeaning | apps/calcanke/internal/analyzer/derived.go:112-133 | for values without `%` and `_` the known operators are the plain tests on the trimmed cell: equal to the value, starts with the value, starts with one of the values, contains the value |
| Derived.WildcardValueFires | apps/calcanke/internal/analyzer/derived.go:117-118 | a `_` in a configured value is a wildcard: a "starts_with" rule with the value "1_" fires on a cell "1A" |
| Derived.KnownAtomsMeaning | apps/calcanke/internal/analyzer/derived.go:81-94 | a rule keeps some condition exactly when some operator is known, and the kept conditions all hold exactly when every known-operator condition holds |
| Derived.KnownAtomsAppend | apps/calcanke/internal/analyzer/derived.go:82-87 | each condition appends its SQL condition after the earlier ones, or nothing for an unknown operator |
| Derived.RuleWhensAppend | apps/calcanke/internal/analyzer/derived.go:74-95 | each non-default rule with a kept condition appends one WHEN branch after the earlier rules' branches |
| Derived.DefaultLabel | apps/calcanke/internal/analyzer/derived.go:97-104 | the ELSE label is the first default rule's label, and there is none exactly when no rule is a default rule |
| Derived.FirstMatchRuleWhens | apps/calcanke/internal/analyzer/derived.go:74-95 | the first WHEN branch that holds carries the label of the first rule that fires |
| Derived.RuleBasedMeaning | apps/calcanke/internal/analyzer/derived.go:71-109 | the rule-based CASE classifies a row by the first firing rule in declaration order, else the first default rule's label, else NULL |
| Derived.GenerateRuleBasedExpression | apps/calcanke/internal/analyzer/derived.go:71-109 | the loops build exactly the rule-based expression |
| Derived.ConditionAtoms | apps/calcanke/internal/analyzer/derived.go:81-87 | the condition loop keeps exactly the known-operator conditions, in order |
| Derived.FindDefaultLabel | apps/calcanke/internal/analyzer/derived.go:97-104 | the search stops at the first default rule |
| Derived.NoUsableRuleRejected | apps/calcanke/internal/analyzer/derived.go:106-108 | with no WHEN branch the CASE text has none, and the engine rejects the expression |
| Derived.TargetYear | apps/calcanke/internal/analyzer/derived.go:137-143 | the target year is the `target_year` parameter when it is an int, 2025 otherwise |
| Derived.BirthdateColumn | apps/calcanke/internal/analyzer/derived.go:145-151 | the birthdate column is the `birthdate_column` parameter when it is a string, "生年月日" otherwise |
| Derived.GradeRanges | apps/calcanke/internal/analyzer/derived.go:162-186 | nine ranges: grade g of 小 starts in year Y-g-6 and grade g of 中 in year Y-g-12, each from April 2 to April 1 of the next year |
| Derived.BuildGradeRanges | apps/calcanke/internal/analyzer/derived.go:162-186 | the two loops build exactly those nine ranges |
| Derived.BuildRangeCases | apps/calcanke/internal/analyzer/derived.go:189-196 | one WHEN branch per range, in order, testing start <= birthdate <= end |
| Derived.GradeWhensShape | apps/calcanke/internal/analyzer/derived.go:189-216 | twelve branches: the nine ranges, then after 小1's end, before 中3's start, and IS NULL |
| Derived.GenerateGradeCalculation | apps/calcanke/internal/analyzer/derived.go:136-221 | the method builds exactly the grade expression with ELSE 'データ不正' |
| Derived.RangeBounds | apps/calcanke/internal/analyzer/derived.go:166-168 | the bounds of range j are the eight-digit numbers (Y-7-j)0402 and (Y-6-j)0401 |
| Derived.InRangeIffSchoolYear | apps/calcanke/internal/analyzer/derived.go:191-196 | a YYYYMMDD birthdate lies in range j exactly when it falls in school year Y-7-j |
| Derived.YoungerIff | apps/calcanke/internal/analyzer/derived.go:198-203 | the 小1未満 branch holds exactly for school years after Y-7 |
| Derived.OlderIff | apps/calcanke/internal/analyzer/derived.go:205-210 | the 高1以上 branch holds exactly for school years before Y-15 |
| Derived.GradeBySchoolYear | apps/calcanke/internal/analyzer/derived.go:136-221 | an eight-digit birthdate gets the grade of its school year, 小1未満 or 高1以上, and never データ不正 |
| Derived.GradeExample | apps/calcanke/internal/analyzer/derived.go:154 | target year 2025 and birthdate 20180410 give 小1 |
| Derived.GradeOfNull | apps/calcanke/internal/analyzer/derived.go:212-216 | a NULL birthdate gives データなし |
| Derived.GradeRangesAdjacent | apps/calcanke/internal/analyzer/derived.go:162-186 | the nine ranges are non-empty, disjoint and ordered youngest to oldest, each starting on April 2 of the year on whose April 1 the next older one ends |
| Derived.GenerateCaseExpression | apps/calcanke/internal/analyzer/derived.go:57-68 | "grade_from_birthdate" selects the grade expression; every other type, "" and unknown ones included, selects the rules |
| Derived.GetDerivedColumn | apps/calcanke/internal/analyzer/derived.go:224-233 | a derived column has the given index and name, type "VARCHAR (派生列)", is derived and is never multi-answer |
| Derived.DerivedValue | apps/calcanke/internal/analyzer/derived.go:224-233 | a rule-based derived column's value for a row is the rules' classification of the row |
| Columns.DetectMultiAnswer | apps/calcanke/internal/analyzer/columns.go:63-100 | the keyword loop and the detection query decide exactly as the decision rule |
| Columns.MultiAnswerThreshold | apps/calcanke/internal/analyzer/columns.go:92-99 | without a marker phrase, a column with values is multi-answer exactly when multiCount/total > 0.05; exactly 5% is not |
| Columns.MultiKeywordDecides | apps/calcanke/internal/analyzer/columns.go:65-76 | a marker phrase anywhere in the name decides "multi-answer" whatever the data |
| Columns.EmptyColumnNotMulti | apps/calcanke/internal/analyzer/columns.go:86-95 | a column with no non-NULL value is not multi-answer, whether the query counts zero or fails on the NULL sum |
| Columns.GetColumns | apps/calcanke/internal/analyzer/columns.go:10-60 | the two loops list exactly the column listing, or the DESCRIBE error |
| Columns.ListingShape | apps/calcanke/internal/analyzer/columns.go:19-57 | base columns at indices 1..n with their detection flags, then the derived columns, are the listing |
| Columns.ColumnListing | apps/calcanke/internal/analyzer/columns.go:10-60 | the listing numbers its columns 1, 2, ... in order: the schema's columns first with their names and types and a failed detection read as "not multi-answer", then the derived columns in configuration order; it fails exactly when the table cannot be described |
| Columns.ListedColumnValues | apps/calcanke/internal/analyzer/columns.go:30-57 | a listed base column reads its own cell and a listed derived column computes its CASE expression |
| Filters.FirstNamed | apps/calcanke/internal/analyzer/filter.go:122-127 | the lookup finds the first column with exactly that name, base or derived, and nothing when none has it |
| Filters.FindColumnByName | apps/calcanke/internal/analyzer/filter.go:116-128 | the method returns the first listed column with the name; a failing listing finds nothing |
| Filters.AppendConditionClauses | apps/calcanke/internal/analyzer/filter.go:79-105 | a resolved condition appends its IN clause, then its NOT IN clause, each only for a non-empty list |
| Filters.GenerateWhereClause | apps/calcanke/internal/analyzer/filter.go:69-113 | the loop compiles exactly the clauses of the conditions in order, skipping unresolved columns |
| Filters.ClausesForMeaning | apps/calcanke/internal/analyzer/filter.go:72-105 | one condition's clauses hold exactly when its value is among the included values (if any) and not among the excluded ones (if any) |
| Filters.WhereClausesMeaning | apps/calcanke/internal/analyzer/filter.go:69-113 | the compiled clauses hold for a row exactly when every condition admits it |
| Filters.NoClauses | apps/calcanke/internal/analyzer/filter.go:108-110 | conditions that all have empty lists or unknown columns produce no clause, which restricts nothing |
| Filters.UnresolvedConditionIgnored | apps/calcanke/internal/analyzer/filter.go:74-77 | a condition on a column that does not resolve can be removed without changing the clauses |
| Grouping.Distinct | apps/calcanke/internal/analyzer/simpletab.go:92-99 | the distinct values of a column, each once, all of them and nothing else |
| Grouping.TotalOfGroups | apps/calcanke/internal/analyzer/simpletab.go:95-99 | the counts of GROUP BY add up to the number of values grouped |
| Grouping.GroupsOfValues | apps/calcanke/internal/analyzer/simpletab.go:92-99 | every distinct value has exactly one group, whose count is its number of occurrences, at least one |
| Grouping.TotalCountPermutation | apps/calcanke/internal/analyzer/simpletab.go:100 | ORDER BY only reorders the groups, so the total does not change |
| Grouping.PermutationNoDuplicates | apps/calcanke/internal/analyzer/simpletab.go:100 | reordering keeps the groups' values distinct |
| Queries.CountDescPreorder | apps/calcanke/internal/analyzer/simpletab.go:100 | ORDER BY count DESC is a total preorder |
| Queries.SortedGroups | apps/calcanke/internal/analyzer/simpletab.go:92-100 | grouped and sorted values: sorted, each distinct value once with its number of occurrences, every value covered, total equal to the number of values |
| Queries.GroupQueryResult | apps/calcanke/internal/analyzer/simpletab.go:92-100 | a successful one-column query returns each distinct selected value once with its count, most frequent first |
| Queries.GroupQueryRejected | apps/calcanke/internal/analyzer/simpletab.go:68-107 | a query on a column the table lacks is a binder error |
| Queries.PairValues | apps/calcanke/internal/analyzer/crosstab.go:108-142 | one table row becomes one pair per piece: a plain axis is repeated beside every piece of a split one, and two split axes are zipped with NULL padding |
| Queries.ValueOrderFacts | apps/calcanke/internal/analyzer/crosstab.go:93 | ORDER BY on a text value (NULL last) is a strict total order |
| Queries.XThenCountDescPreorder | apps/calcanke/internal/analyzer/crosstab.go:93-94 | ORDER BY x, count DESC is a total preorder |
| Queries.PairQueryResult | apps/calcanke/internal/analyzer/crosstab.go:68-142 | a successful pair query returns each distinct pair once with its number of co-occurrences, ordered by x and then by count descending |
| Queries.XContiguous | apps/calcanke/internal/analyzer/crosstab.go:93-94 | the rows of one x come out together |
| Simpletab.BuildWhere | apps/calcanke/internal/analyzer/simpletab.go:72-85 | the WHERE clause is the NULL exclusion of a base column followed by the filter's clauses |
| Simpletab.BuildSimpleSimpletabQuery | apps/calcanke/internal/analyzer/simpletab.go:68-107 | the unsplit query groups the column's expression under that WHERE clause |
| Simpletab.BuildMultiAnswerSimpletabQuery | apps/calcanke/internal/analyzer/simpletab.go:110-161 | the fan-out query splits a merged derived column on the three-bar separator and anything else on a newline, under the same WHERE clause |
| Simpletab.ScanSimpletabRows | apps/calcanke/internal/analyzer/simpletab.go:39-53 | the scan loop fails on a NULL value and otherwise keeps the rows in order with their sum as total |
| Simpletab.RunSimpletabQuery | apps/calcanke/internal/analyzer/simpletab.go:32-53 | running and scanning the query gives its tabulation or its error |
| Simpletab.SimpletabWithFilter | apps/calcanke/internal/analyzer/simpletab.go:14-65 | the method forces split off for a derived column that is not multi-answer, builds the matching query and tabulates it |
| Simpletab.SplitForcedOff | apps/calcanke/internal/analyzer/simpletab.go:15-18 | asking to split a derived, non-multi column gives exactly the unsplit result |
| Simpletab.SimpletabWhereMeaning | apps/calcanke/internal/analyzer/simpletab.go:74-85 | the query counts exactly the rows with a value in a base column (derived columns keep all rows) that the filter admits, when there is a filter |
| Simpletab.TabulateMeaning | apps/calcanke/internal/analyzer/simpletab.go:39-59 | each distinct counted value appears in exactly one row with its number of occurrences, rows by count descending, and total = sum of the counts = number of values counted |
| Simpletab.QueryRowsMeaning | apps/calcanke/internal/analyzer/simpletab.go:39-49 | rows that copy the query's groups in order have those properties |
| Simpletab.ScanAnswerMeaning | apps/calcanke/internal/analyzer/simpletab.go:39-49 | a successful scan keeps the groups' values and counts in order and totals the counts |
| Simpletab.NullValueFails | apps/calcanke/internal/analyzer/simpletab.go:43-46 | a NULL among the counted values makes the tabulation fail with "failed to scan row" |
| Simpletab.DerivedNullFails | apps/calcanke/internal/analyzer/simpletab.go:43-46 | a derived column that computes NULL for an admitted row, such as a rule-based one without a default rule, fails on scanning |
| Simpletab.BaseColumnScans | apps/calcanke/internal/analyzer/simpletab.go:74-77 | a base column's successful query always scans: NULL cells are excluded and pieces are never NULL |
| Simpletab.SplitWithoutNewlines | apps/calcanke/internal/analyzer/simpletab.go:138-139 | splitting a base column whose counted cells hold no newline gives the unsplit tabulation |
| Crosstab.Forced | apps/calcanke/internal/analyzer/crosstab.go:10-16 | splitting is off on a derived axis, whatever its multi-answer flag, and kept on a base axis |
| Crosstab.BuildSimpleCrosstabQuery | apps/calcanke/internal/analyzer/crosstab.go:68-105 | the unsplit query groups both axes' expressions, NULL excluded on base axes only |
| Crosstab.BuildMultiAnswerCrosstabQuery | apps/calcanke/internal/analyzer/crosstab.go:108-142 | the corrected fan-out query of the Findings row (the query as written is `MultiAnswerCrosstabQueryAsWritten`): split base axes by name on a newline, unsplit axes by their expression |
| Crosstab.ScanCrosstabRows | apps/calcanke/internal/analyzer/crosstab.go:37-55 | the scan loop fails on a NULL x or y; otherwise the rows are kept in order and the second loop totals their counts |
| Crosstab.RunCrosstabQuery | apps/calcanke/internal/analyzer/crosstab.go:30-55 | running and scanning the query gives its cross tabulation or its error |
| Crosstab.Crosstab | apps/calcanke/internal/analyzer/crosstab.go:9-65 | the method forces split off on derived axes, runs the corrected fan-out query exactly when an axis is still split, and tabulates |
| Crosstab.FanoutChosen | apps/calcanke/internal/analyzer/crosstab.go:21-27 | the fan-out query runs exactly when a base axis is asked to split, and only such axes are unnested on a newline |
| Crosstab.CrosstabWhereMeaning | apps/calcanke/internal/analyzer/crosstab.go:73-79 | the query counts exactly the rows with a value on each base axis |
| Crosstab.CrossTabulateMeaning | apps/calcanke/internal/analyzer/crosstab.go:37-62 | each distinct (x, y) pair appears once with its number of co-occurrences, ordered by x then count descending; every pair produced has its row; total = sum of counts = number of pairs |
| Crosstab.QueryCrossRowsMeaning | apps/calcanke/internal/analyzer/crosstab.go:37-55 | rows that copy the pair query's groups in order have those properties |
| Crosstab.CrossScanMeaning | apps/calcanke/internal/analyzer/crosstab.go:37-62 | a successful scan keeps the axis names, the groups' pairs and counts in order, and totals the counts |
| Crosstab.CrossRowsDistinct | apps/calcanke/internal/analyzer/crosstab.go:93 | the rows' (x, y) pairs are pairwise distinct |
| Crosstab.CrossRowsOrdered | apps/calcanke/internal/analyzer/crosstab.go:94 | the rows are ordered by x, and by count descending within one x |
| Crosstab.PartitionPercentages | apps/calcanke/internal/analyzer/crosstab.go:90 | a row's percentage is its count's share of the counts of all rows with the same x |
| Crosstab.AsWrittenRejectsDerivedX | apps/calcanke/internal/analyzer/crosstab.go:109-125 | as written, a derived X axis beside a split base Y axis is named by its raw name, and the query fails with a binder error |
| Crosstab.CorrectedAcceptsDerivedX | apps/calcanke/internal/analyzer/crosstab.go:108-142 | the corrected query selects the derived axis by its expression and runs when the table knows its columns |
| Crosstab.CorrectionKeepsBaseAxes | apps/calcanke/internal/analyzer/crosstab.go:108-142 | on two base axes the corrected query is the query as written |
| Crosstab.SplitYWithoutNewlines | apps/calcanke/internal/analyzer/crosstab.go:115-117 | splitting Y when no counted Y cell holds a newline gives the unsplit cross tabulation |
| Crosstab.BaseAxesScan | apps/calcanke/internal/analyzer/crosstab.go:125 | two base axes, at most one of them split: a query that runs never fails to scan |
| Crosstab.BothSplitPadsWithNull | apps/calcanke/internal/analyzer/crosstab.go:110-117 | two split axes are unnested side by side, not crossed: a row with more X answers than Y answers pairs an X answer with NULL, and scanning fails |
| Pivot.SortedSlice | apps/calcanke/internal/analyzer/crosstab_pivot.go:22-32 | an axis lists each element of the set once, in ascending code-point order |
| Pivot.CollectValues | apps/calcanke/internal/analyzer/crosstab_pivot.go:14-20 | the loop collects exactly the rows' x values and y values |
| Pivot.EmptyMatrix | apps/calcanke/internal/analyzer/crosstab_pivot.go:34-40 | the matrix has a row per x and in it a cell per y, each with Exists false |
| Pivot.FillMatrix | apps/calcanke/internal/analyzer/crosstab_pivot.go:42-49 | filling keeps the shape and writes each pair's cell from its rows, later rows overwriting earlier ones |
| Pivot.ToPivot | apps/calcanke/internal/analyzer/crosstab_pivot.go:6-52 | labels and total copied unchanged; both axes sorted listings of the distinct x and y values; a cell for every pair of axis values, each the pivot cell of the rows |
| Pivot.PivotCellMeaning | apps/calcanke/internal/analyzer/crosstab_pivot.go:43-49 | a cell has data exactly when some row has its pair, and then carries the count and percentage of the last such row |
| Pivot.SortedListingUnique | apps/calcanke/internal/analyzer/crosstab_pivot.go:23-32 | whatever order the map yields its keys, the sorted axis is the same |
| Pivot.DistinctPairsFill | apps/calcanke/internal/analyzer/crosstab_pivot.go:43-49 | when the rows' pairs are distinct, as a cross tabulation's are, each row fills its own cell |
| Orders.PositionMapMeaning | apps/calcanke/internal/analyzer/column_orders.go:61-67 | the order map has exactly the listed values, and each maps to the index of its last occurrence |
| Orders.PositionMapInjective | apps/calcanke/internal/analyzer/column_orders.go:61-67 | distinct values get distinct positions |
| Orders.GetOrderForColumn | apps/calcanke/internal/analyzer/column_orders.go:61-67 | the loop builds exactly the position map of the values |
| Orders.BuildDerivedColsMap | apps/calcanke/internal/analyzer/analyzer.go:53-57 | the loop indexes the derived columns by name, a later column replacing an earlier one of the same name |
| Orders.ByNameMeaning | apps/calcanke/internal/analyzer/analyzer.go:53-57 | the lookup finds, for exactly the names in use, the last column with that name |
| Orders.RuleOrder | apps/calcanke/internal/analyzer/column_orders.go:90-93 | the rule loop maps every rule label, default rules included, to the index of its last rule |
| Orders.GetValueOrder | apps/calcanke/internal/analyzer/column_orders.go:70-101 | the method returns the explicit order, else the rule order, else the empty map |
| Orders.ValueOrderMeaning | apps/calcanke/internal/analyzer/column_orders.go:78-100 | an explicit order wins; otherwise a derived column with calculation type exactly "rules" and some rule orders by rule labels; otherwise there is no order |
| Orders.ValueOrderInjective | apps/calcanke/internal/analyzer/column_orders.go:70-101 | every order the chain yields gives distinct values distinct positions |
| Orders.OrderPreorder | apps/calcanke/internal/analyzer/column_orders.go:113-134 | the custom comparison is a strict weak order, so the sort is well defined |
| Orders.OrderAntisymmetric | apps/calcanke/internal/analyzer/column_orders.go:113-134 | with distinct positions, values that may each come before the other are equal |
| Orders.EmptyOrderIsLexicographic | apps/calcanke/internal/analyzer/column_orders.go:106-110 | with an empty order the custom order is the lexicographic one |
| Orders.SortByOrder | apps/calcanke/internal/analyzer/column_orders.go:105-134 | sorts in place: the result is a permutation of the input, ordered by the custom comparison, and lexicographically when the order map is empty |
| Orders.SortedByOrderMeaning | apps/calcanke/internal/analyzer/column_orders.go:113-134 | in the sorted result mapped values precede unmapped ones, mapped values are in non-decreasing position and unmapped ones in lexicographic order |
| Orders.SortIndependentOfInput | apps/calcanke/internal/analyzer/column_orders.go:105-134 | under an order the chain yields, the sorted result depends only on the multiset of values, not on the input order |
| Sorting.SortArray | apps/calcanke/internal/analyzer/column_orders.go:105-134 | the in-place sort leaves the array ordered and a permutation of its old contents |
| Sorting.InsertLast | apps/calcanke/internal/analyzer/column_orders.go:113-134 | moving one element left extends the sorted prefix by one, keeping the contents |
| Sorting.SortSorted | apps/calcanke/internal/analyzer/simpletab.go:100 | the insertion sort orders its input |
| Sorting.SortedUnique | apps/calcanke/internal/analyzer/crosstab_pivot.go:31-32 | when ties are only between equal elements, a sorted arrangement of a multiset is unique |
| Selection.SelectionMeaning | apps/calcanke/internal/ui/interactive.go:225-236 | a line of only white space gives 1; otherwise the first field read by `strconv.Atoi`, or 1 when it is no 64-bit integer; the rest of the line is never read |
| Selection.FirstFieldNoSpace | apps/calcanke/internal/ui/interactive.go:227-231 | the first field is non-empty and holds no white space, so trimming it changes nothing |
| Selection.SelectionRoundTrip | apps/calcanke/internal/ui/interactive.go:225-236 | reading back a column's menu line gives the column's index |
| Selection.OptionsRoundTrip | apps/calcanke/internal/ui/interactive.go:225-236 | each line of `ToOptions` reads back as the index of the column it lists |
| Selection.SelectionExample | apps/calcanke/internal/ui/interactive.go:226 | the multi-answer base column 7 named 年齢 is listed as " 7  年齢 [複数回答]" and reads back as 7 |
| NumberFormat.FormatNumber | apps/calcanke/internal/commands/columns.go:75-89 | the left-to-right loop gives the reference grouping: the digits split into groups of three from the right |
| NumberFormat.FormattedGroups | apps/calcanke/internal/commands/columns.go:80-88 | the loop's comma rule (before digit i when i > 0 and (len-i) % 3 == 0) gives the groups of three from the right |
| NumberFormat.FormattedShort | apps/calcanke/internal/commands/columns.go:76-78 | on a digit string of at most three characters the comma loop inserts nothing: every prefix it builds is the prefix of the input |
| NumberFormat.GroupDigitsDigits | apps/calcanke/internal/commands/columns.go:82-87 | deleting the commas gives the digits back |
| NumberFormat.GroupDigitsShape | apps/calcanke/internal/commands/columns.go:82-87 | n digits give n + (n-1)/3 characters with commas exactly where a multiple of three digits follows, never first or last, a leading group of one to three digits |
| NumberFormat.GroupedDecimal | apps/calcanke/internal/commands/columns.go:75-89 | for every n, negatives included, deleting the commas gives the decimal rendering of n |
| NumberFormat.GroupedExample | apps/calcanke/internal/commands/columns.go:75-89 | 1234567 gives "1,234,567" |
| ProjectPaths.NewProject | apps/calcanke/internal/project/project.go:29-39 | a new project keeps its id, name and description, is importing, and has equal creation and update times |
| ProjectPaths.DistinctDirs | apps/calcanke/internal/project/project.go:42-44 | different ids under one base give different project directories |
| ProjectPaths.FilesInProjectDir | apps/calcanke/internal/project/project.go:47-69 | every file path is the project directory, a '/', and its file name; different kinds of file have different paths |
| ProjectPaths.FileNamesDistinct | apps/calcanke/internal/project/project.go:47-69 | the five file names are pairwise different |
| ProjectPaths.FileNameNoSlash | apps/calcanke/internal/project/project.go:47-69 | each file name is a plain name without '/' |
| ProjectPaths.DistinctProjectFiles | apps/calcanke/internal/project/project.go:42-69 | when ids hold no '/', no file of one project has the path of any file of another |
| ConfigLists.CreateProject | apps/calcanke/internal/web/handlers/project.go:51-63 | a project with an empty name is rejected; otherwise it gets the name, the given id and the status "importing" |
| ConfigLists.AddEntry | apps/calcanke/internal/web/handlers/project.go:411-441 | an unbound body is a bad request; otherwise the entry is appended after the unchanged loaded list, or alone when the list does not load (the filter handler at 629-660 is the same) |
| ConfigLists.ReplaceAt | apps/calcanke/internal/web/handlers/project.go:471-476 | the element is overwritten in place exactly when the index is in range; otherwise nothing changes |
| ConfigLists.UpdateEntry | apps/calcanke/internal/web/handlers/project.go:444-484 | the handler checks the body, then the load, then the index, and saves the list with one entry replaced (the filter handler at 662-703 is the same) |
| ConfigLists.UpdateMeaning | apps/calcanke/internal/web/handlers/project.go:470-476 | an update either saves a list of the same length that differs from the loaded one only at the index, or rejects an out-of-range index, negative ones included, without saving |
| ConfigLists.UnscannableIndexIsFirst | apps/calcanke/internal/web/handlers/project.go:453-455 | an index that does not scan as a number leaves the index at 0 and addresses the first entry |
| ConfigLists.RemoveAt | apps/calcanke/internal/web/handlers/project.go:513 | `append(s[:i], s[i+1:]...)` shifts the later elements left in the same array, and the list is the first Length-1 elements |
| ConfigLists.DeleteEntry | apps/calcanke/internal/web/handlers/project.go:487-521 | the handler checks the load, then the index, and saves the list without the entry (the filter handler at 705-740 is the same) |
| ConfigLists.DeleteMeaning | apps/calcanke/internal/web/handlers/project.go:507-513 | a deletion removes exactly the entry at the index: one shorter, earlier entries in place, later ones moved up by one, nothing else lost; an out-of-range index is rejected |
| ConfigLists.InRange | apps/calcanke/internal/web/handlers/project.go:575-578 | the picked indices are in range, and each in-range index is picked as often as it was requested, no other index |
| ConfigLists.InRangeAppend | apps/calcanke/internal/web/handlers/project.go:575-578 | the indices picked from a request are those of its parts, part after part, so request order is kept |
| ConfigLists.SuffixedInjective | apps/calcanke/internal/web/handlers/project.go:587 | different counters give different names "name (k)" |
| ConfigLists.FreshName | apps/calcanke/internal/web/handlers/project.go:584-589 | the loop returns the original name when free, else "name (k)" for the smallest free k >= 2 |
| ConfigLists.ImportTemplates | apps/calcanke/internal/web/handlers/project.go:567-596 | the loop appends, after the existing columns and in request order, one copy of each in-range template renamed to its first free name, and counts them |
| ConfigLists.ImportDerivedColumnTemplates | apps/calcanke/internal/web/handlers/project.go:545-597 | the checks in order: a body that does not bind is 400 "Invalid request body", templates that do not load are 500 "Failed to load templates"; otherwise the import saves the templates imported into the project list, which counts as empty when it does not load |
| ConfigLists.ImportedNamesUnique | apps/calcanke/internal/web/handlers/project.go:568-591 | every imported name differs from the existing names and from every other imported name |
| Corpus.FileView | apps/whiscript/internal/service/corpus.go:63-79 | one annotated entry per segment, in the stored order |
| Corpus.AnnotateFile | apps/whiscript/internal/service/corpus.go:63-79 | the loop fills the result entry by entry exactly as the annotated listing says |
| Corpus.GetSegmentsWithGaps | apps/whiscript/internal/service/corpus.go:57-82 | an id below 1 is "invalid corpus file id", a failing listing is its error, otherwise the annotated listing |
| Corpus.GapMeaning | apps/whiscript/internal/service/corpus.go:69-76 | a gap is reported only after a segment with a successor, exactly when the next start lies at least the threshold after this end, and it is that difference; a higher threshold only drops gaps |
| Corpus.FileViewMeaning | apps/whiscript/internal/service/corpus.go:64-78 | entry i carries segment i, its gap, and no speaker label |
| Corpus.AppendLabelled | apps/whiscript/internal/service/corpus.go:308-319 | one transcript's segments are appended, each with the file's label ("Unknown" without one) and audio file |
| Corpus.CollectSegments | apps/whiscript/internal/service/corpus.go:300-320 | the loop collects the segments file after file, stopping at the first listing that fails |
| Corpus.CollectedFails | apps/whiscript/internal/service/corpus.go:303-306 | a failure on a prefix of the files is the result for all of them |
| Corpus.CollectedMeaning | apps/whiscript/internal/service/corpus.go:300-320 | collecting succeeds exactly when every listing does; then every segment of every file is present with its file's label and audio, and nothing else |
| Corpus.CollectedCount | apps/whiscript/internal/service/corpus.go:313-319 | each segment of each file appears once: the timeline has as many entries as the files have segments |
| Corpus.CollectedFirstError | apps/whiscript/internal/service/corpus.go:303-306 | a failing collection reports the error of the first file whose listing fails |
| Corpus.SortByStart | apps/whiscript/internal/service/corpus.go:322-325 | the in-place sort orders the segments by start time and is a permutation |
| Corpus.AnnotateMerged | apps/whiscript/internal/service/corpus.go:327-346 | the loop annotates the merged entries with their labels and the gaps of the sorted order |
| Corpus.UnannotatedView | apps/whiscript/internal/service/corpus.go:328-346 | annotation keeps every merged entry: the segment, label and audio can be read back |
| Corpus.GetMergedSegments | apps/whiscript/internal/service/corpus.go:285-349 | the group id is checked; an empty group is "no files in group"; a listing error is returned; otherwise the collected segments sorted by start and annotated |
| Corpus.MergedTimeline | apps/whiscript/internal/service/corpus.go:322-346 | in the merged timeline start times never decrease, every entry has a speaker label, and a gap is measured to the next entry of the sorted order |
| Corpus.SegmentInputs | apps/whiscript/internal/service/corpus.go:157-181 | the loop fills the batch exactly as the numbering says: one input per segment, numbered from 0 in upload order, with its times, text and speaker |
| Corpus.Numbered | apps/whiscript/internal/service/corpus.go:157-181 | one batch input per segment under the record's id, numbered from 0 in upload order, with its times, text and speaker |
| Corpus.FileRecord | apps/whiscript/internal/service/corpus.go:124-148 | the record keeps the project, audio file, size and segment count, is named by the uploaded name without its extension and is stored as "<project>_<time><ext>" under the corpus directory |
| Corpus.Upload | apps/whiscript/internal/service/corpus.go:85-191 | the checks in order: project id, ".json" in any case, size at most 50 MiB, JSON decoding, at least one segment; then the record is created and a failure is "failed to create corpus file record: …"; then the numbered segments are created under its id and a failure is "failed to create segments: …"; success exactly when all of these pass |
| Corpus.JsonNameMeaning | apps/whiscript/internal/service/corpus.go:124-143 | an accepted name ends in five characters that lower-case to ".json"; they are its extension, and the record name is the file name without them |
| Corpus.JsonCaseExample | apps/whiscript/internal/service/corpus.go:91 | "name.JSON" is accepted and recorded as "name" |
| Corpus.UpdateSegmentText | apps/whiscript/internal/service/corpus.go:220-230 | an id below 1 and a text of only white space are rejected, in that order; otherwise the repository's outcome |
| Corpus.CreateGroup | apps/whiscript/internal/service/corpus.go:233-266 | the checks in order: project id, a name not only white space, as many labels as files; then the group is created and the files associated in turn, stopping at the first failure |
| Corpus.CheckedRead | apps/whiscript/internal/service/corpus.go:33-54 | an id below 1 is refused with the given message before the repository is asked; a valid id returns the repository's answer |
| Corpus.ListFilesByProjectId | apps/whiscript/internal/service/corpus.go:33-38 | a project id below 1 is "invalid project id"; otherwise the repository's listing |
| Corpus.GetFileById | apps/whiscript/internal/service/corpus.go:41-46 | an id below 1 is "invalid corpus file id"; otherwise the repository's answer |
| Corpus.GetSegmentsByCorpusFileId | apps/whiscript/internal/service/corpus.go:49-54 | an id below 1 is "invalid corpus file id"; otherwise the repository's listing |
| Corpus.GetGroupById | apps/whiscript/internal/service/corpus.go:269-274 | an id below 1 is "invalid group id"; otherwise the repository's answer |
| Corpus.ListGroupsByProjectId | apps/whiscript/internal/service/corpus.go:277-282 | a project id below 1 is "invalid project id"; otherwise the repository's listing |
| Corpus.GetGroupFiles | apps/whiscript/internal/service/corpus.go:352-357 | a group id below 1 is "invalid group id"; otherwise the repository's listing |
| Corpus.DeleteFile | apps/whiscript/internal/service/corpus.go:194-217 | succeeds exactly when the id is valid and both the lookup and the deletion succeed; the first failure is the one reported; removing the stored copy never fails the call |
| Corpus.CheckedReadIgnoresRepository | apps/whiscript/internal/service/corpus.go:33-54 | with an invalid id the answer does not depend on the repository; with a valid one it determines the repository's answer |
| ProjectService.ClampPage | apps/whiscript/internal/service/project.go:23-25 | a page below 1 becomes 1; others are kept |
| ProjectService.ClampLimit | apps/whiscript/internal/service/project.go:26-28 | a limit outside 1..100 becomes 20; others are kept |
| ProjectService.ListBounds | apps/whiscript/internal/service/project.go:22-31 | whatever the caller sends, in unbounded integers, the list asks for 1 to 100 rows from a non-negative multiple of the page size, and in-range parameters are kept |
| ProjectService.CheckId | apps/whiscript/internal/service/project.go:34-39 | GetByID, Update and Delete pass an id exactly when it is at least 1, and reject it with "invalid project id" |
| ProjectService.ValidateMeaning | apps/whiscript/internal/service/project.go:71-83 | input passes exactly when the name has a non-space character, the trimmed name is at most 255 bytes and the description at most 1000 bytes; an all-space name is "project name is required" |
| ProjectService.LeadingSpaceIgnored | apps/whiscript/internal/service/project.go:72 | white space before the name does not change the validation |
| ProjectService.NameLimit | apps/whiscript/internal/service/project.go:76-78 | the limit counts UTF-8 bytes and is inclusive: 255 ASCII characters pass, 256 fail, and 86 three-byte characters already fail |
| ProjectService.Create | apps/whiscript/internal/service/project.go:42-47 | invalid input is rejected before the repository sees it |
| ProjectService.Update | apps/whiscript/internal/service/project.go:50-60 | the id is checked, then the input, before the repository sees them |
| AudioFiles.ListByProjectId | apps/whiscript/internal/service/audio_file.go:31-36 | a project id below 1 is rejected before the repository is asked |
| AudioFiles.GetById | apps/whiscript/internal/service/audio_file.go:39-44 | an id below 1 is rejected before the repository is asked |
| AudioFiles.IdChecksFirst | apps/whiscript/internal/service/audio_file.go:31-44 | with an id below 1 listing and lookup do not depend on the repository; with a valid id they determine its answer |
| AudioFiles.UploadRecord | apps/whiscript/internal/service/audio_file.go:47-102 | the checks in order: project id, one of the five audio types, size at most 100 MiB; an accepted upload records the project, the name without extension, the original name, the size and type, and the path "<upload dir>/<project>_<time><ext>" |
| AudioFiles.Upload | apps/whiscript/internal/service/audio_file.go:47-111 | a rejected upload is its check's error; an accepted one is exactly the repository's answer to creating that record, its error returned unwrapped; success exactly when the checks pass and the creation succeeds |
| AudioFiles.Delete | apps/whiscript/internal/service/audio_file.go:114-138 | an id below 1 is rejected, then a failed lookup is returned, then the deletion's outcome; removing the stored copy never fails the call |
| AudioFiles.ProjectIdFirst | apps/whiscript/internal/service/audio_file.go:48-50 | with an invalid project id nothing about the file matters |
| AudioFiles.SizeBoundary | apps/whiscript/internal/service/audio_file.go:59-61 | exactly 100 MiB is accepted and one byte more rejected |
| AudioFiles.StoredNameMeaning | apps/whiscript/internal/service/audio_file.go:64-66 | the stored copy keeps the uploaded extension, and two accepted uploads share a stored name exactly when project, second and extension agree |
| Uploads.BaseName | apps/whiscript/internal/service/audio_file.go:97 | the record name followed by the extension is the uploaded file name |
| Uploads.ExtShape | apps/whiscript/internal/service/audio_file.go:64 | an extension is empty or a '.' followed by characters that are neither '.' nor '/' |
| Uploads.StoredNameExt | apps/whiscript/internal/service/audio_file.go:64-66 | the stored name has the uploaded name's extension |
| Uploads.StoredNameInjective | apps/whiscript/internal/service/audio_file.go:64-66 | for non-negative ids and times the stored name determines project, second and extension |
| ProjectRepo.PlanList | apps/whiscript/internal/repository/project.go:24-50 | the list uses OFFSET (page-1)*limit, the given LIMIT, the sort's ORDER BY clause, and a search clause with "%query%" exactly when the query is non-empty |
| ProjectRepo.LikeLiteralThenAny | apps/whiscript/internal/repository/project.go:31-32 | for a text without wildcards, `LIKE 'q%'` holds exactly when the value starts with q up to ASCII case |
| ProjectRepo.SearchMeaning | apps/whiscript/internal/repository/project.go:31-32 | for a text without wildcards, `LIKE '%q%'` holds exactly when q occurs in the value up to ASCII case |
| ProjectRepo.ListedMeaning | apps/whiscript/internal/repository/project.go:28-33 | a project is listed exactly when the search text occurs, up to ASCII case, in its name or description; an empty search lists all |
| ProjectRepo.UnderscoreMatchesAnything | apps/whiscript/internal/repository/project.go:32 | a '_' in the search is a wildcard, so "_" finds every non-empty name |
| ProjectRepo.PageWindows | apps/whiscript/internal/repository/project.go:25 | pages are adjacent windows of `limit` rows from row 0, and each row is on exactly one page |
| ProjectRepo.SortHonoured | apps/whiscript/internal/repository/project.go:37-47 | a whitelisted column, a dot and a direction whose upper-casing is ASC or DESC order by that column in that direction |
| ProjectRepo.OrderClauseWhitelisted | apps/whiscript/internal/repository/project.go:36-50 | whatever the caller sends, the clause is one of six fixed texts, and differs from the default only for a whitelisted column, a dot and ASC or DESC in any case |
| ProjectRepo.SortExample | apps/whiscript/internal/repository/project.go:41 | "name.asc" orders by name ascending |
| ProjectRepo.GetById | apps/whiscript/internal/repository/project.go:85-95 | a found row is returned; no row is "project not found"; any other error is wrapped as "failed to get project: ..." |
| ProjectRepo.Create | apps/whiscript/internal/repository/project.go:98-121 | an insert error and a missing new id are wrapped with their own messages; otherwise the answer of reading the row back by its id, "project not found" when it is gone |
| ProjectRepo.Update | apps/whiscript/internal/repository/project.go:124-151 | an exec error and a rows-affected error are wrapped; zero rows is "project not found"; otherwise the answer of reading the row back, "project not found" when it is gone |
| ProjectRepo.Delete | apps/whiscript/internal/repository/project.go:154-171 | deletion succeeds exactly when some row was deleted; each error has its own message |
| ProjectRepo.NotFoundMeansNoRow | apps/whiscript/internal/repository/project.go:85-171 | "project not found" is reported exactly when no row had the id: the statement matched none, or the row read back after a successful insert or update was gone; never for a failing statement |

Where the error message and the code disagree, the model follows the code: the project name
check says "must be less than 255 characters", yet a name of exactly 255 bytes passes
(`ProjectService.NameLimit`).

The cross tabulation of a multi-answer pair (`Crosstab.Crosstab`) runs the corrected fan-out
query of the finding below; the query as written is modelled beside it.

## Left out

- Database access: opening DuckDB and SQLite, sqlx scanning, and the count and select calls of the repository's list are not modelled. What a query returns is defined from the rows (calcanke) or is a parameter (whiscript).
- Rounding: `ROUND(…, 1)` of the percentages and float64 arithmetic are left out. Percentages are exact, unrounded reals, and times are reals.
- Columns.MultiAnswerThreshold: the float64 test `multi/total > 0.05` is read as the exact `20 * multi > total`. The two can differ only for counts far beyond 2^50.
- Row order among ties: the database's order of equal-count groups is unspecified, so the model fixes one canonical order (groups in first-occurrence order, then insertion-sorted).
- The final re-sort by `SortByAnalyzer` (analyzer/simpletab.go:62) is not modelled, because its definition is not part of this model.
- `CrosstabWithFilter`, `NewAnalyzerWithConfigs` and `RefineSegmentsByWords` are not modelled. They are wrappers or are defined outside these files.
- The column-order map an analyzer is built with is taken as a parameter.
- File I/O is not modelled: YAML load and save, `MkdirAll`, `WriteFile`, `Open`, `io.Copy`, the removal of a stored copy after a failed record and the logging of such failures. The decoded JSON of a corpus upload is a parameter.
- Corpus.Upload: the failures of opening, reading and saving the file and of creating the directory are file I/O and are not results of the model; nor is the removal of the record and the stored copy after a failed segment batch.
- AudioFiles.Upload: the failures of creating the directory, opening the upload, creating the destination and copying are file I/O and are not results of the model; nor is the removal of the stored copy after a failed record.
- The JSON encoding of a segment's words (whiscript/internal/service/corpus.go:159-170) is not modelled; the model keeps the words as given.
- `filepath.Join` is modelled only for a clean directory and a plain file name; its `Clean` step is left out.
- uuid generation and `time.Now` are parameters.
- SQL escaping: configuration values are placed into SQL text by the source without escaping. A `%` or `_` in a derived-column condition is a LIKE wildcard in the model as in the engine (`Derived.WildcardValueFires`), and `Sql.Like` has no escape character. What a quote inside a value does to the SQL text is left out: the model treats the value as one literal.
- The repository's search clause passes `%` and `_` in the user's text to LIKE as wildcards. This is modelled as SQLite does it (`ProjectRepo.UnderscoreMatchesAnything`); ASCII-only case folding is the only folding.
- Go map iteration order is not modelled. The listing order the handler sorts into is what the model states (`Pivot.SortedListingUnique`, for the axes of the pivot).
- Slice aliasing between the handler's copies of a list is not modelled: lists are values.
- Uploads.StoredName: two uploads for one project in the same second with the same extension get the same stored name. The model shows this (`AudioFiles.StoredNameMeaning`) but does not model the overwrite that follows.
- Strings.Fields: has no ensures of its own. `Strings.FieldsEmpty` and `Strings.FirstFieldOf` state what the callers need.
- Derived.GetDerivedColumn: its ensures does not give the CASE expression it builds. `Derived.DerivedValue` and `Columns.ListedColumnValues` state what that expression evaluates to.
- Corpus.SortByStart: `sort.Slice` is not stable, so the contract states only order by start time and permutation, not the order among equal starts.
- HTTP handlers: request binding is modelled as an optional body, and the 400 and 500 rejections of the list edits as `Rejected` (`ImportRejected` for the import). Echo routing, JSON rendering and the 200 responses are not modelled.
- ConfigLists.AddEntry: the project lookup that answers 404 "Project not found" first (web/handlers/project.go:414-417, and 632-635 for a filter) is not modelled; the model starts from a found project. Saving the list is file I/O, so the 500 answered when the save fails (436, 654) is not a result: `Saved` is the list to be saved.
- ConfigLists.UpdateEntry: the 404 (448-451, 666-669) and the failed save (479, 697) are left out in the same way.
- ConfigLists.DeleteEntry: the 404 (491-494, 709-712) and the failed save (516, 734) are left out in the same way.
- ConfigLists.ImportDerivedColumnTemplates: the 404 (540-543) and the failed save (599-601) are left out in the same way.
- Crosstab.Crosstab: runs the corrected fan-out query, so for a derived X beside a split base Y it succeeds where the program fails with "failed to execute crosstab query" and a binder error (`Crosstab.AsWrittenRejectsDerivedX`, see "## Findings").
- Crosstab.BuildMultiAnswerCrosstabQuery: builds the corrected query; the text the program builds is `MultiAnswerCrosstabQueryAsWritten`, which fails to bind on a derived X (`Crosstab.AsWrittenRejectsDerivedX`).
- ProjectService.ListBounds: the page and offset are unbounded integers. In Go, `(page - 1) * limit` is an int64 product, and the handler drops `strconv.Atoi`'s range error, so a page such as 99999999999999999999 becomes 2^63-1 and the offset wraps to a negative number (-40 for a limit of 20). The model gives a huge offset and an empty page instead.
- ProjectRepo.PlanList: its offset is the unbounded `(page - 1) * limit`; the int64 wrap-around of that product and the engine's reading of a negative OFFSET are not modelled.
- Column types: every cell is read as text (`Option<string>`). The imported table can have numeric columns, inferred from the spreadsheet. For those, the order of `ORDER BY x` (numeric, where the model proves code-point order, for example in `Queries.ValueOrderFacts` and `Crosstab.CrossRowsOrdered`) is not modelled, and neither is how TRIM, LIKE and `string_split` convert non-text cells.
- Column names: a column reference is matched to the table's columns exactly, while the engine binds identifiers, quoted ones included, without regard to case. The column named by a derived-column condition or by the `birthdate_column` parameter (analyzer/derived.go:114-128, 145-151) is therefore assumed to be spelt as in the table; for a name that differs only in case the model reads NULL (and `ExprOk` rejects the CASE) where the engine reads the column. The binder-error claim of `Crosstab.AsWrittenRejectsDerivedX` is about an X name that no table column has in any case. The filters' own name lookup (analyzer/filter.go:122-127) is an exact comparison, as modelled.
- Strings.SqlTrim: strips only U+0020 spaces. Whether the engine's one-argument TRIM also strips other Unicode spaces, such as the ideographic space U+3000, is not modelled.
- Orders.GetValueOrder: the DEBUG lines it prints (analyzer/column_orders.go:72-99) are output only and are not modelled.
- Merge and school-type derived columns and the `between` and `in` condition operators belong to the system's design, but analyzer/derived.go implements none of them. The model follows the code: any other calculation type is rule-based, and a condition with any other operator gives empty SQL text, which the rule then drops. The merge split at analyzer/simpletab.go:133-136 cannot be reached, because `GetDerivedColumn` never marks a derived column as multi-answer.

## Findings

| source | as written | input that shows it | evidently intended | confidence | as-written member | corrected member |
|---|---|---|---|---|---|---|
| apps/calcanke/internal/analyzer/crosstab.go:109-125 | the fan-out cross-tabulation query names an unsplit axis by its raw quoted name, in both the SELECT list and the `IS NOT NULL` test | a derived (rule-based) X column with a multi-answer Y column: the table has no column of the derived name, so the query fails with a binder error | select and test an unsplit axis through its SQL expression (`GetSQLExpression`), as the single-answer query does | not executed | Crosstab.AsWrittenRejectsDerivedX | Crosstab.CorrectedAcceptsDerivedX |
