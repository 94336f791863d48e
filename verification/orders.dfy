/**
 * Display order of a column's values: an order map from value to position, chosen by
 * priority (an explicit column order, else the order of a rule-based derived column's
 * rules, else none), and the in-place sort that puts mapped values first by position and
 * the rest in lexicographic order.
 */
module Orders {
  import opened Strings
  import opened Sorting
  import opened Derived

  datatype ColumnOrder = ColumnOrder(column: string, description: string, values: seq<string>)

  // ---------------------------------------------------------------------------
  // Position maps
  // ---------------------------------------------------------------------------

  /** Each key of `keys` mapped to the index of its last occurrence. */
  function PositionMap<K>(keys: seq<K>): (m: map<K, int>)
    ensures forall k :: k in m ==> 0 <= m[k] < |keys|
  {
    if keys == [] then map[]
    else PositionMap(keys[..|keys| - 1])[keys[|keys| - 1] := |keys| - 1]
  }

  /**
   * The position map has exactly the listed keys, and a key's position is an index
   * holding it with no later index holding it.
   */
  lemma {:induction false} PositionMapMeaning<K>(keys: seq<K>)
    ensures forall k :: k in PositionMap(keys) <==> k in keys
    ensures forall k :: k in PositionMap(keys) ==>
      && 0 <= PositionMap(keys)[k] < |keys|
      && keys[PositionMap(keys)[k]] == k
      && forall j :: PositionMap(keys)[k] < j < |keys| ==> keys[j] != k
  {
    if keys != [] {
      var init := keys[..|keys| - 1];
      PositionMapMeaning(init);
      assert forall i :: 0 <= i < |init| ==> init[i] == keys[i];
      assert keys == init + [keys[|keys| - 1]];
    }
  }

  /** Distinct keys have distinct positions. */
  lemma PositionMapInjective<K>(keys: seq<K>)
    ensures Injective(PositionMap(keys))
  {
    PositionMapMeaning(keys);
  }

  ghost predicate Injective<K>(m: map<K, int>)
  {
    forall a, b :: a in m && b in m && m[a] == m[b] ==> a == b
  }

  lemma PositionMapStep<K>(keys: seq<K>, i: nat)
    requires i < |keys|
    ensures PositionMap(keys[..i + 1]) == PositionMap(keys[..i])[keys[i] := i]
  {
    assert keys[..i + 1][..i] == keys[..i];
  }

  /** Maps each value of the order to its index; a repeated value keeps its last index. */
  method GetOrderForColumn(co: ColumnOrder) returns (orderMap: map<string, int>)
    ensures orderMap == PositionMap(co.values)
  {
    orderMap := map[];
    for i := 0 to |co.values|
      invariant orderMap == PositionMap(co.values[..i])
    {
      PositionMapStep(co.values, i);
      orderMap := orderMap[co.values[i] := i];
    }
    assert co.values[..|co.values|] == co.values;
  }

  // ---------------------------------------------------------------------------
  // The derived-column lookup and the priority chain
  // ---------------------------------------------------------------------------

  function Names(cols: seq<DerivedColumn>): (ns: seq<string>)
    ensures |ns| == |cols| && forall i :: 0 <= i < |cols| ==> ns[i] == cols[i].name
  {
    if cols == [] then [] else Names(cols[..|cols| - 1]) + [cols[|cols| - 1].name]
  }

  /** The lookup by name: a name shared by several derived columns finds the last of them. */
  function ByName(cols: seq<DerivedColumn>): map<string, DerivedColumn>
  {
    map n | n in PositionMap(Names(cols)) :: cols[PositionMap(Names(cols))[n]]
  }

  /** Indexes the derived columns by name, each later column replacing an earlier one of the same name. */
  method BuildDerivedColsMap(derivedCols: seq<DerivedColumn>) returns (derivedColsMap: map<string, DerivedColumn>)
    ensures derivedColsMap == ByName(derivedCols)
  {
    derivedColsMap := map[];
    for i := 0 to |derivedCols|
      invariant derivedColsMap == ByName(derivedCols[..i])
    {
      ByNameAppend(derivedCols[..i], derivedCols[i]);
      assert derivedCols[..i + 1] == derivedCols[..i] + [derivedCols[i]];
      derivedColsMap := derivedColsMap[derivedCols[i].name := derivedCols[i]];
    }
    assert derivedCols[..|derivedCols|] == derivedCols;
  }

  lemma ByNameAppend(cols: seq<DerivedColumn>, c: DerivedColumn)
    ensures ByName(cols + [c]) == ByName(cols)[c.name := c]
  {
    var all := cols + [c];
    assert all[..|all| - 1] == cols;
    var names := Names(all);
    assert names[..|names| - 1] == Names(cols);
    var pm := PositionMap(names);
    assert pm == PositionMap(Names(cols))[c.name := |cols|];
    forall n | n in PositionMap(Names(cols)) && n != c.name
      ensures all[pm[n]] == cols[PositionMap(Names(cols))[n]]
    {
    }
  }

  /** The lookup finds a column of that name, the last one, exactly for the names in use. */
  lemma ByNameMeaning(cols: seq<DerivedColumn>, n: string)
    ensures n in ByName(cols) <==> exists i :: 0 <= i < |cols| && cols[i].name == n
    ensures n in ByName(cols) ==>
      exists i :: 0 <= i < |cols| && ByName(cols)[n] == cols[i] && cols[i].name == n
        && forall j :: i < j < |cols| ==> cols[j].name != n
  {
    var names := Names(cols);
    PositionMapMeaning(names);
    if n in ByName(cols) {
      var i := PositionMap(names)[n];
      assert cols[i].name == n;
    }
    forall i | 0 <= i < |cols| && cols[i].name == n ensures n in ByName(cols) {
      assert names[i] == n;
    }
  }

  function Labels(rules: seq<Rule>): (ls: seq<string>)
    ensures |ls| == |rules| && forall i :: 0 <= i < |rules| ==> ls[i] == rules[i].ruleLabel
  {
    if rules == [] then [] else Labels(rules[..|rules| - 1]) + [rules[|rules| - 1].ruleLabel]
  }

  /** The rule-label order applies to a derived column computed by rules that has some rule. */
  predicate UsesRuleOrder(dc: DerivedColumn)
  {
    dc.calculationType == "rules" && |dc.rules| > 0
  }

  /** The order of a column's values: explicit order first, then rule-label order, else none. */
  function ValueOrder(columnOrdersMap: map<string, ColumnOrder>, derivedColsMap: map<string, DerivedColumn>, columnName: string): map<string, int>
  {
    if columnName in columnOrdersMap then PositionMap(columnOrdersMap[columnName].values)
    else if columnName in derivedColsMap && UsesRuleOrder(derivedColsMap[columnName]) then
      PositionMap(Labels(derivedColsMap[columnName].rules))
    else map[]
  }

  method RuleOrder(rules: seq<Rule>) returns (orderMap: map<string, int>)
    ensures orderMap == PositionMap(Labels(rules))
  {
    orderMap := map[];
    ghost var labels := Labels(rules);
    for i := 0 to |rules|
      invariant orderMap == PositionMap(labels[..i])
    {
      PositionMapStep(labels, i);
      orderMap := orderMap[rules[i].ruleLabel := i];
    }
    assert labels[..|rules|] == labels;
  }

  method GetValueOrder(columnOrdersMap: map<string, ColumnOrder>, derivedColsMap: map<string, DerivedColumn>, columnName: string)
    returns (orderMap: map<string, int>)
    ensures orderMap == ValueOrder(columnOrdersMap, derivedColsMap, columnName)
  {
    if columnName in columnOrdersMap {
      orderMap := GetOrderForColumn(columnOrdersMap[columnName]);
      return;
    }
    if columnName in derivedColsMap {
      var derivedCol := derivedColsMap[columnName];
      if derivedCol.calculationType == "rules" && |derivedCol.rules| > 0 {
        orderMap := RuleOrder(derivedCol.rules);
        return;
      }
    }
    orderMap := map[];
  }

  /**
   * An explicit order wins and positions its values; failing that, a rule-based derived
   * column positions every rule label, default rules included, by its last rule; any
   * other column has no order.
   */
  lemma ValueOrderMeaning(columnOrdersMap: map<string, ColumnOrder>, derivedColsMap: map<string, DerivedColumn>, columnName: string, v: string)
    ensures columnName in columnOrdersMap ==>
      (v in ValueOrder(columnOrdersMap, derivedColsMap, columnName) <==> v in columnOrdersMap[columnName].values)
    ensures columnName in columnOrdersMap && v in ValueOrder(columnOrdersMap, derivedColsMap, columnName) ==>
      var i := ValueOrder(columnOrdersMap, derivedColsMap, columnName)[v];
      var vs := columnOrdersMap[columnName].values;
      0 <= i < |vs| && vs[i] == v && forall j :: i < j < |vs| ==> vs[j] != v
    ensures columnName !in columnOrdersMap && columnName in derivedColsMap && UsesRuleOrder(derivedColsMap[columnName]) ==>
      var rules := derivedColsMap[columnName].rules;
      (v in ValueOrder(columnOrdersMap, derivedColsMap, columnName) <==> exists i :: 0 <= i < |rules| && rules[i].ruleLabel == v)
    ensures (columnName !in columnOrdersMap && columnName in derivedColsMap && UsesRuleOrder(derivedColsMap[columnName])
             && v in ValueOrder(columnOrdersMap, derivedColsMap, columnName)) ==>
      var i := ValueOrder(columnOrdersMap, derivedColsMap, columnName)[v];
      var rules := derivedColsMap[columnName].rules;
      0 <= i < |rules| && rules[i].ruleLabel == v && forall j :: i < j < |rules| ==> rules[j].ruleLabel != v
    ensures columnName !in columnOrdersMap && !(columnName in derivedColsMap && UsesRuleOrder(derivedColsMap[columnName])) ==>
      ValueOrder(columnOrdersMap, derivedColsMap, columnName) == map[]
  {
    if columnName in columnOrdersMap {
      PositionMapMeaning(columnOrdersMap[columnName].values);
    } else if columnName in derivedColsMap && UsesRuleOrder(derivedColsMap[columnName]) {
      var rules := derivedColsMap[columnName].rules;
      PositionMapMeaning(Labels(rules));
      if v in Labels(rules) {
        var i :| 0 <= i < |rules| && Labels(rules)[i] == v;
        assert rules[i].ruleLabel == v;
      }
    }
  }

  /** Every order the chain yields gives distinct values distinct positions. */
  lemma ValueOrderInjective(columnOrdersMap: map<string, ColumnOrder>, derivedColsMap: map<string, DerivedColumn>, columnName: string)
    ensures Injective(ValueOrder(columnOrdersMap, derivedColsMap, columnName))
  {
    if columnName in columnOrdersMap {
      PositionMapInjective(columnOrdersMap[columnName].values);
    } else if columnName in derivedColsMap && UsesRuleOrder(derivedColsMap[columnName]) {
      PositionMapInjective(Labels(derivedColsMap[columnName].rules));
    }
  }

  // ---------------------------------------------------------------------------
  // Sorting by an order map
  // ---------------------------------------------------------------------------

  /** The comparison of the custom sort: by position when both are mapped, mapped first, else lexicographic. */
  predicate OrderLess(orderMap: map<string, int>, a: string, b: string)
  {
    if a in orderMap && b in orderMap then orderMap[a] < orderMap[b]
    else if a in orderMap then true
    else if b in orderMap then false
    else LexLess(a, b)
  }

  /** `a` may come before `b`: `b` does not sort strictly before `a`. */
  predicate OrderLe(orderMap: map<string, int>, a: string, b: string)
  {
    !OrderLess(orderMap, b, a)
  }

  function OrderOf(orderMap: map<string, int>): (string, string) -> bool
  {
    (a, b) => OrderLe(orderMap, a, b)
  }

  /** The custom comparison is a strict weak order, so "may come before" is a total preorder. */
  lemma OrderPreorder(orderMap: map<string, int>)
    ensures TotalPreorder(OrderOf(orderMap))
  {
    var le := OrderOf(orderMap);
    forall a, b ensures le(a, b) || le(b, a) {
      if a !in orderMap && b !in orderMap && LexLess(a, b) {
        LexLessAsymmetric(a, b);
      }
    }
    forall a, b, c | le(a, b) && le(b, c) ensures le(a, c) {
      if a !in orderMap && b !in orderMap && c !in orderMap {
        LexLessTotal(a, b);
        LexLessTotal(b, c);
        if LexLess(c, a) {
          if LexLess(a, b) {
            LexLessTransitive(c, a, b);
          } else {
            assert a == b;
          }
        }
      }
    }
  }

  /** With distinct positions, values that may each come before the other are equal. */
  lemma OrderAntisymmetric(orderMap: map<string, int>)
    requires Injective(orderMap)
    ensures Antisymmetric(OrderOf(orderMap))
  {
    var le := OrderOf(orderMap);
    forall a, b | le(a, b) && le(b, a) ensures a == b {
      if a !in orderMap && b !in orderMap {
        LexLessTotal(a, b);
      }
    }
  }

  /** With no order, "may come before" is the lexicographic order. */
  lemma EmptyOrderIsLexicographic(orderMap: map<string, int>, a: string, b: string)
    requires |orderMap| == 0
    ensures OrderLe(orderMap, a, b) <==> LexLe(a, b)
  {
    assert a !in orderMap && b !in orderMap;
    LexLessTotal(a, b);
    if a == b {
      LexLessIrreflexive(a);
    } else if LexLess(a, b) {
      LexLessAsymmetric(a, b);
    }
  }

  /**
   * Sorts the values in place: lexicographically when there is no order, otherwise by
   * the custom comparison.
   */
  method SortByOrder(values: array<string>, orderMap: map<string, int>)
    modifies values
    ensures multiset(values[..]) == multiset(old(values[..]))
    ensures SortedBy(values[..], OrderOf(orderMap))
    ensures |orderMap| == 0 ==> SortedBy(values[..], LexLe)
  {
    if |orderMap| == 0 {
      LexLeOrder();
      SortArray(values, LexLe);
      forall i, j | 0 <= i < j < values.Length ensures OrderLe(orderMap, values[i], values[j]) {
        EmptyOrderIsLexicographic(orderMap, values[i], values[j]);
      }
      return;
    }
    OrderPreorder(orderMap);
    SortArray(values, OrderOf(orderMap));
  }

  /**
   * In a sorted result, an unmapped value is never followed by a mapped one, mapped values
   * come in non-decreasing position, and unmapped values in lexicographic order.
   */
  lemma SortedByOrderMeaning(s: seq<string>, orderMap: map<string, int>, i: nat, j: nat)
    requires SortedBy(s, OrderOf(orderMap))
    requires i < j < |s|
    ensures s[j] in orderMap ==> s[i] in orderMap
    ensures s[i] in orderMap && s[j] in orderMap ==> orderMap[s[i]] <= orderMap[s[j]]
    ensures s[i] !in orderMap && s[j] !in orderMap ==> LexLe(s[i], s[j])
  {
    assert OrderLe(orderMap, s[i], s[j]);
    if s[i] !in orderMap && s[j] !in orderMap {
      LexLessTotal(s[i], s[j]);
    }
  }

  /**
   * Under an order the chain yields, the sorted result depends only on which values there
   * are: any two sorted arrangements of the same values are equal.
   */
  lemma SortIndependentOfInput(s: seq<string>, t: seq<string>, orderMap: map<string, int>)
    requires Injective(orderMap)
    requires SortedBy(s, OrderOf(orderMap)) && SortedBy(t, OrderOf(orderMap))
    requires multiset(s) == multiset(t)
    ensures s == t
  {
    OrderAntisymmetric(orderMap);
    SortedUnique(s, t, OrderOf(orderMap));
  }
}
