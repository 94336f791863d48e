/**
 * The two shapes of aggregate query the tabulations run, and what the database returns
 * for them: `SELECT v, COUNT(*) ... GROUP BY v ORDER BY count DESC` over one column, and
 * `SELECT x, y, COUNT(*) ... GROUP BY x, y ORDER BY x, count DESC` over a pair of columns.
 * Either axis may fan out with `unnest(string_split(...))`. Rows that tie under ORDER BY
 * come back in a canonical order: groups in order of first occurrence, then insertion-sorted.
 */
module Queries {
  import opened Wrappers
  import opened Strings
  import opened Sql
  import opened Grouping
  import opened Sorting

  type Value = Option<string>

  // ---------------------------------------------------------------------------
  // One-column grouping
  // ---------------------------------------------------------------------------

  /** `SELECT source AS value, COUNT(*) FROM t WHERE where GROUP BY value ORDER BY count DESC`. */
  datatype GroupQuery = GroupQuery(source: Fanout, where: seq<Predicate>)

  predicate GroupQueryOk(q: GroupQuery, names: seq<string>)
  {
    FanoutOk(q.source, names) && AllPredicatesOk(q.where, names)
  }

  /** The values the query groups: one per selected row, or one per piece of it. */
  function GroupedValues(rows: seq<Row>, q: GroupQuery): seq<Value>
    requires q.source.SplitOn? ==> |q.source.sep| > 0
  {
    SelectValues(Selected(rows, q.where), q.source)
  }

  /** ORDER BY count DESC. */
  predicate CountDescLe<T>(g: Group<T>, h: Group<T>)
  {
    g.count >= h.count
  }

  lemma CountDescPreorder<T(!new)>()
    ensures TotalPreorder(CountDescLe<T>)
  {
  }

  /** The groups of the query, or the error the database reports for it. */
  function RunGroupQuery(t: Option<Table>, q: GroupQuery): Result<seq<Group<Value>>>
  {
    if t.None? then Failure("table does not exist")
    else if !GroupQueryOk(q, Names(t.value.columns)) then Failure("binder error")
    else Success(Sort(GroupCounts(GroupedValues(t.value.rows, q)), CountDescLe))
  }

  /**
   * What a grouped and sorted result is, whatever the order: each distinct value exactly
   * once, with the number of its occurrences; the counts add up to the number of values.
   */
  lemma SameElements<T>(a: seq<T>, b: seq<T>)
    requires multiset(a) == multiset(b)
    ensures forall i :: 0 <= i < |b| ==> b[i] in a
    ensures forall i :: 0 <= i < |a| ==> a[i] in b
  {
    forall i | 0 <= i < |b| ensures b[i] in a {
      assert b[i] in multiset(b);
    }
    forall i | 0 <= i < |a| ensures a[i] in b {
      assert a[i] in multiset(a);
    }
  }

  /** Groups with distinct values keep distinct values when rearranged. */
  lemma DistinctValuesPermutation<T>(g: seq<Group<T>>, gs: seq<Group<T>>)
    requires multiset(g) == multiset(gs)
    requires forall i, j :: 0 <= i < j < |g| ==> g[i].value != g[j].value
    ensures forall i, j :: 0 <= i < j < |gs| ==> gs[i].value != gs[j].value
  {
    assert NoDuplicates(g);
    PermutationNoDuplicates(g, gs);
    SameElements(g, gs);
    forall i, j | 0 <= i < j < |gs| ensures gs[i].value != gs[j].value {
      var p :| 0 <= p < |g| && g[p] == gs[i];
      var q :| 0 <= q < |g| && g[q] == gs[j];
      assert p != q;
    }
  }

  /**
   * What a grouped and sorted result is, whatever the order: each distinct value exactly
   * once, with the number of its occurrences; the counts add up to the number of values.
   */
  lemma SortedGroups<T(!new)>(s: seq<T>, le: (Group<T>, Group<T>) -> bool)
    requires TotalPreorder(le)
    ensures var gs := Sort(GroupCounts(s), le);
      && SortedBy(gs, le)
      && TotalCount(gs) == |s|
      && (forall i, j :: 0 <= i < j < |gs| ==> gs[i].value != gs[j].value)
      && (forall i :: 0 <= i < |gs| ==> gs[i].count == CountOf(s, gs[i].value) >= 1 && gs[i].value in s)
      && (forall x :: x in s ==> exists i :: 0 <= i < |gs| && gs[i].value == x)
  {
    var g := GroupCounts(s);
    var gs := Sort(g, le);
    GroupsOfValues(s);
    SortSorted(g, le);
    TotalOfGroups(s);
    TotalCountPermutation(g, gs);
    DistinctValuesPermutation(g, gs);
    SameElements(g, gs);
    forall i | 0 <= i < |gs| ensures gs[i].count == CountOf(s, gs[i].value) >= 1 && gs[i].value in s {
      var p :| 0 <= p < |g| && g[p] == gs[i];
    }
    forall x | x in s ensures exists i :: 0 <= i < |gs| && gs[i].value == x {
      var p :| 0 <= p < |g| && g[p].value == x;
      assert g[p] in gs;
    }
  }

  /** A successful one-column query returns each distinct value once, most frequent first. */
  lemma GroupQueryResult(t: Option<Table>, q: GroupQuery)
    requires RunGroupQuery(t, q).Success?
    ensures q.source.SplitOn? ==> |q.source.sep| > 0
    ensures var gs := RunGroupQuery(t, q).value; var vs := GroupedValues(t.value.rows, q);
      && (forall i, j :: 0 <= i < j < |gs| ==> gs[i].count >= gs[j].count && gs[i].value != gs[j].value)
      && (forall i :: 0 <= i < |gs| ==> gs[i].count == CountOf(vs, gs[i].value) >= 1 && gs[i].value in vs)
      && (forall x :: x in vs ==> exists i :: 0 <= i < |gs| && gs[i].value == x)
      && TotalCount(gs) == |vs|
  {
    CountDescPreorder<Value>();
    SortedGroups(GroupedValues(t.value.rows, q), CountDescLe);
  }

  /** A query the database rejects: an unknown column anywhere, or an empty separator. */
  lemma GroupQueryRejected(t: Table, q: GroupQuery)
    requires !FanoutOk(q.source, Names(t.columns)) || !AllPredicatesOk(q.where, Names(t.columns))
    ensures RunGroupQuery(Some(t), q) == Failure("binder error")
  {
  }

  // ---------------------------------------------------------------------------
  // Two-column grouping
  // ---------------------------------------------------------------------------

  datatype Pair = Pair(x: Value, y: Value)

  /** `SELECT x, y, COUNT(*) FROM t WHERE where GROUP BY x, y ORDER BY x, count DESC`. */
  datatype PairQuery = PairQuery(x: Fanout, y: Fanout, where: seq<Predicate>)

  predicate PairQueryOk(q: PairQuery, names: seq<string>)
  {
    FanoutOk(q.x, names) && FanoutOk(q.y, names) && AllPredicatesOk(q.where, names)
  }

  /** The `i`-th piece, or NULL past the end. */
  function PieceAt(vs: seq<Value>, i: nat): Value
  {
    if i < |vs| then vs[i] else None
  }

  function Max(a: nat, b: nat): nat
  {
    if a >= b then a else b
  }

  /**
   * The rows one table row becomes when both axes are selected side by side: a plain
   * value is repeated beside every piece of an unnested one, and two unnested lists are
   * zipped, the shorter padded with NULL.
   */
  function PairValues(x: Fanout, y: Fanout, r: Row): (ps: seq<Pair>)
    requires x.SplitOn? ==> |x.sep| > 0
    requires y.SplitOn? ==> |y.sep| > 0
    ensures x.Whole? && y.Whole? ==> ps == [Pair(Eval(x.e, r), Eval(y.e, r))]
    ensures x.Whole? && y.SplitOn? ==>
      |ps| == |FanoutValues(y, r)| && forall i :: 0 <= i < |ps| ==> ps[i] == Pair(Eval(x.e, r), FanoutValues(y, r)[i])
    ensures x.SplitOn? && y.Whole? ==>
      |ps| == |FanoutValues(x, r)| && forall i :: 0 <= i < |ps| ==> ps[i] == Pair(FanoutValues(x, r)[i], Eval(y.e, r))
    ensures x.SplitOn? && y.SplitOn? ==>
      && |ps| == Max(|FanoutValues(x, r)|, |FanoutValues(y, r)|)
      && forall i :: 0 <= i < |ps| ==> ps[i] == Pair(PieceAt(FanoutValues(x, r), i), PieceAt(FanoutValues(y, r), i))
  {
    var xs := FanoutValues(x, r);
    var ys := FanoutValues(y, r);
    if x.Whole? && y.Whole? then [Pair(xs[0], ys[0])]
    else if x.Whole? then seq(|ys|, i requires 0 <= i < |ys| => Pair(xs[0], ys[i]))
    else if y.Whole? then seq(|xs|, i requires 0 <= i < |xs| => Pair(xs[i], ys[0]))
    else seq(Max(|xs|, |ys|), i requires 0 <= i => Pair(PieceAt(xs, i), PieceAt(ys, i)))
  }

  function SelectPairs(rows: seq<Row>, x: Fanout, y: Fanout): seq<Pair>
    requires x.SplitOn? ==> |x.sep| > 0
    requires y.SplitOn? ==> |y.sep| > 0
  {
    if rows == [] then [] else PairValues(x, y, rows[0]) + SelectPairs(rows[1..], x, y)
  }

  /** The pairs the query groups. */
  function GroupedPairs(rows: seq<Row>, q: PairQuery): seq<Pair>
    requires q.x.SplitOn? ==> |q.x.sep| > 0
    requires q.y.SplitOn? ==> |q.y.sep| > 0
  {
    SelectPairs(Selected(rows, q.where), q.x, q.y)
  }

  /** ORDER BY on a text column: ascending by code point, NULL last. */
  predicate ValueBefore(a: Value, b: Value)
  {
    (a.Some? && b.None?) || (a.Some? && b.Some? && LexLess(a.value, b.value))
  }

  lemma ValueOrderFacts(a: Value, b: Value, c: Value)
    ensures !ValueBefore(a, a)
    ensures a == b || ValueBefore(a, b) || ValueBefore(b, a)
    ensures ValueBefore(a, b) ==> !ValueBefore(b, a)
    ensures ValueBefore(a, b) && ValueBefore(b, c) ==> ValueBefore(a, c)
  {
    if a.Some? {
      LexLessIrreflexive(a.value);
      if b.Some? {
        LexLessTotal(a.value, b.value);
        if LexLess(a.value, b.value) {
          LexLessAsymmetric(a.value, b.value);
        }
        if c.Some? && LexLess(a.value, b.value) && LexLess(b.value, c.value) {
          LexLessTransitive(a.value, b.value, c.value);
        }
      }
    }
  }

  /** ORDER BY x, count DESC. */
  predicate XThenCountDescLe(g: Group<Pair>, h: Group<Pair>)
  {
    ValueBefore(g.value.x, h.value.x) || (g.value.x == h.value.x && g.count >= h.count)
  }

  lemma XThenCountDescPreorder()
    ensures TotalPreorder(XThenCountDescLe)
  {
    forall g: Group<Pair>, h: Group<Pair> ensures XThenCountDescLe(g, h) || XThenCountDescLe(h, g) {
      ValueOrderFacts(g.value.x, h.value.x, h.value.x);
    }
    forall g: Group<Pair>, h: Group<Pair>, k: Group<Pair> | XThenCountDescLe(g, h) && XThenCountDescLe(h, k)
      ensures XThenCountDescLe(g, k)
    {
      ValueOrderFacts(g.value.x, h.value.x, k.value.x);
    }
  }

  /** The groups of the pair query, or the error the database reports for it. */
  function RunPairQuery(t: Option<Table>, q: PairQuery): Result<seq<Group<Pair>>>
  {
    if t.None? then Failure("table does not exist")
    else if !PairQueryOk(q, Names(t.value.columns)) then Failure("binder error")
    else Success(Sort(GroupCounts(GroupedPairs(t.value.rows, q)), XThenCountDescLe))
  }

  /** The window `SUM(COUNT(*)) OVER (PARTITION BY x)`: the counts of the groups with that x. */
  function XTotal(gs: seq<Group<Pair>>, x: Value): int
  {
    if gs == [] then 0 else (if gs[0].value.x == x then gs[0].count else 0) + XTotal(gs[1..], x)
  }

  /**
   * A successful pair query returns each distinct pair once, with its number of
   * occurrences, ordered by x (NULL last) and, within one x, by count descending.
   */
  lemma PairQueryResult(t: Option<Table>, q: PairQuery)
    requires RunPairQuery(t, q).Success?
    ensures q.x.SplitOn? ==> |q.x.sep| > 0
    ensures q.y.SplitOn? ==> |q.y.sep| > 0
    ensures var gs := RunPairQuery(t, q).value; var ps := GroupedPairs(t.value.rows, q);
      && (forall i, j :: 0 <= i < j < |gs| ==> gs[i].value != gs[j].value)
      && (forall i, j :: 0 <= i < j < |gs| ==>
            ValueBefore(gs[i].value.x, gs[j].value.x)
            || (gs[i].value.x == gs[j].value.x && gs[i].count >= gs[j].count))
      && (forall i :: 0 <= i < |gs| ==> gs[i].count == CountOf(ps, gs[i].value) >= 1 && gs[i].value in ps)
      && (forall p :: p in ps ==> exists i :: 0 <= i < |gs| && gs[i].value == p)
      && TotalCount(gs) == |ps|
  {
    XThenCountDescPreorder();
    SortedGroups(GroupedPairs(t.value.rows, q), XThenCountDescLe);
  }

  /** Rows of one x come out together: no other x sits between two rows of the same x. */
  lemma XContiguous(gs: seq<Group<Pair>>, i: nat, j: nat, k: nat)
    requires SortedBy(gs, XThenCountDescLe)
    requires i < j < k < |gs| && gs[i].value.x == gs[k].value.x
    ensures gs[j].value.x == gs[i].value.x
  {
    assert XThenCountDescLe(gs[i], gs[j]) && XThenCountDescLe(gs[j], gs[k]);
    ValueOrderFacts(gs[i].value.x, gs[j].value.x, gs[k].value.x);
  }
}
