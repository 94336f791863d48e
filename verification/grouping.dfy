/**
 * GROUP BY with COUNT(*): the distinct values of a column of values, each with its
 * number of occurrences, and the facts about totals that the tabulations rely on.
 */
module Grouping {

  /** Number of occurrences of `x` in `s`. */
  function CountOf<T(==)>(s: seq<T>, x: T): nat
  {
    if s == [] then 0 else CountOf(s[..|s| - 1], x) + (if s[|s| - 1] == x then 1 else 0)
  }

  predicate NoDuplicates<T(==)>(s: seq<T>)
  {
    forall i, j :: 0 <= i < j < |s| ==> s[i] != s[j]
  }

  /** The distinct elements of `s`, in order of first occurrence. */
  function Distinct<T(==)>(s: seq<T>): (r: seq<T>)
    ensures NoDuplicates(r)
    ensures forall i :: 0 <= i < |s| ==> s[i] in r
    ensures forall i :: 0 <= i < |r| ==> r[i] in s
  {
    if s == [] then []
    else
      var init := s[..|s| - 1];
      assert s == init + [s[|s| - 1]];
      var d := Distinct(init);
      if s[|s| - 1] in d then d else d + [s[|s| - 1]]
  }

  /** One output row of `GROUP BY value` with `COUNT(*)`. */
  datatype Group<T> = Group(value: T, count: nat)

  function GroupsOver<T(==)>(d: seq<T>, s: seq<T>): (r: seq<Group<T>>)
    ensures |r| == |d|
    ensures forall i :: 0 <= i < |d| ==> r[i] == Group(d[i], CountOf(s, d[i]))
  {
    if d == [] then [] else [Group(d[0], CountOf(s, d[0]))] + GroupsOver(d[1..], s)
  }

  /** The groups of `s` in order of first occurrence: every distinct value once, with its count. */
  function GroupCounts<T(==)>(s: seq<T>): seq<Group<T>>
  {
    GroupsOver(Distinct(s), s)
  }

  /** The sum of the counts, accumulated front to back. */
  function TotalCount<T>(g: seq<Group<T>>): int
  {
    if g == [] then 0 else g[0].count + TotalCount(g[1..])
  }

  lemma {:induction false} CountOfAbsent<T>(s: seq<T>, x: T)
    requires x !in s
    ensures CountOf(s, x) == 0
  {
    if s != [] {
      assert s[..|s| - 1] <= s;
      CountOfAbsent(s[..|s| - 1], x);
    }
  }

  lemma {:induction false} CountOfPresent<T>(s: seq<T>, x: T)
    requires x in s
    ensures CountOf(s, x) >= 1
  {
    var init := s[..|s| - 1];
    if s[|s| - 1] != x {
      assert s == init + [s[|s| - 1]];
      CountOfPresent(init, x);
    }
  }

  lemma {:induction false} TotalCountAppend<T>(a: seq<Group<T>>, b: seq<Group<T>>)
    ensures TotalCount(a + b) == TotalCount(a) + TotalCount(b)
  {
    if a != [] {
      assert (a + b)[0] == a[0];
      assert (a + b)[1..] == a[1..] + b;
      TotalCountAppend(a[1..], b);
    } else {
      assert a + b == b;
    }
  }

  /** One more element adds one to the total of the group it belongs to, and nothing elsewhere. */
  lemma {:induction false} GroupsOverAppendOne<T>(d: seq<T>, s: seq<T>, e: T)
    requires NoDuplicates(d)
    ensures TotalCount(GroupsOver(d, s + [e])) == TotalCount(GroupsOver(d, s)) + (if e in d then 1 else 0)
  {
    if d != [] {
      assert (s + [e])[..|s + [e]| - 1] == s;
      assert NoDuplicates(d[1..]);
      GroupsOverAppendOne(d[1..], s, e);
      if d[0] == e {
        assert e !in d[1..];
      }
    }
  }

  lemma {:induction false} GroupsOverAppendValue<T>(d: seq<T>, x: T, s: seq<T>)
    ensures TotalCount(GroupsOver(d + [x], s)) == TotalCount(GroupsOver(d, s)) + CountOf(s, x)
  {
    assert GroupsOver(d + [x], s) == GroupsOver(d, s) + [Group(x, CountOf(s, x))];
    TotalCountAppend(GroupsOver(d, s), [Group(x, CountOf(s, x))]);
  }

  /** The counts of all groups add up to the number of values grouped. */
  lemma {:induction false} TotalOfGroups<T>(s: seq<T>)
    ensures TotalCount(GroupCounts(s)) == |s|
  {
    if s != [] {
      var init := s[..|s| - 1];
      var e := s[|s| - 1];
      assert s == init + [e];
      TotalOfGroups(init);
      var d := Distinct(init);
      GroupsOverAppendOne(d, init, e);
      if e !in d {
        GroupsOverAppendValue(d, e, s);
        CountOfAbsent(init, e);
      }
    }
  }

  /** Every distinct value has exactly one group, and a group's count is at least one. */
  lemma GroupsOfValues<T>(s: seq<T>)
    ensures forall i, j :: 0 <= i < j < |GroupCounts(s)| ==> GroupCounts(s)[i].value != GroupCounts(s)[j].value
    ensures forall x :: x in s <==> exists i :: 0 <= i < |GroupCounts(s)| && GroupCounts(s)[i].value == x
    ensures forall i :: 0 <= i < |GroupCounts(s)| ==> GroupCounts(s)[i].count == CountOf(s, GroupCounts(s)[i].value) >= 1
  {
    var d := Distinct(s);
    var g := GroupCounts(s);
    forall x | x in s ensures exists i :: 0 <= i < |g| && g[i].value == x {
      var i :| 0 <= i < |d| && d[i] == x;
      assert g[i].value == x;
    }
    forall i | 0 <= i < |g| ensures g[i].count == CountOf(s, g[i].value) >= 1 {
      assert d[i] in s;
      CountOfPresent(s, d[i]);
    }
  }

  lemma TotalCountRemove<T>(b: seq<Group<T>>, i: nat)
    requires i < |b|
    ensures TotalCount(b) == TotalCount(b[..i] + b[i + 1..]) + b[i].count
  {
    assert b == b[..i] + ([b[i]] + b[i + 1..]);
    TotalCountAppend(b[..i], [b[i]] + b[i + 1..]);
    TotalCountAppend(b[..i], b[i + 1..]);
    assert ([b[i]] + b[i + 1..])[1..] == b[i + 1..];
  }

  lemma MultisetRemove<T>(b: seq<T>, i: nat)
    requires i < |b|
    ensures multiset(b[..i] + b[i + 1..]) == multiset(b) - multiset{b[i]}
  {
    assert b == b[..i] + [b[i]] + b[i + 1..];
  }

  /** Reordering the groups does not change the total. */
  lemma {:induction false} TotalCountPermutation<T>(a: seq<Group<T>>, b: seq<Group<T>>)
    requires multiset(a) == multiset(b)
    ensures TotalCount(a) == TotalCount(b)
  {
    if a == [] {
      assert |b| == |multiset(b)| == 0;
    } else {
      assert a[0] in multiset(b);
      var i :| 0 <= i < |b| && b[i] == a[0];
      RemoveMatching(a, b, i);
      TotalCountPermutation(a[1..], b[..i] + b[i + 1..]);
      TotalCountRemove(b, i);
    }
  }

  /** Taking the first element of one side and a copy of it from the other leaves equal multisets. */
  lemma RemoveMatching<T>(a: seq<T>, b: seq<T>, i: nat)
    requires multiset(a) == multiset(b) && a != [] && i < |b| && b[i] == a[0]
    ensures multiset(a[1..]) == multiset(b[..i] + b[i + 1..])
  {
    MultisetRemove(a, 0);
    MultisetRemove(b, i);
    assert a[..0] + a[1..] == a[1..];
  }

  lemma {:induction false} NoDuplicatesCount<T>(a: seq<T>, x: T)
    requires NoDuplicates(a)
    ensures multiset(a)[x] <= 1
  {
    if a != [] {
      assert a == [a[0]] + a[1..];
      assert NoDuplicates(a[1..]);
      NoDuplicatesCount(a[1..], x);
      if a[0] == x {
        assert x !in a[1..];
      }
    }
  }

  lemma RepeatedCount<T>(b: seq<T>, i: nat, j: nat)
    requires i < j < |b| && b[i] == b[j]
    ensures multiset(b)[b[i]] >= 2
  {
    assert b == b[..j] + [b[j]] + b[j + 1..];
    assert b[i] in b[..j];
  }

  /** A rearrangement of a sequence without repetitions has none either. */
  lemma PermutationNoDuplicates<T>(a: seq<T>, b: seq<T>)
    requires multiset(a) == multiset(b) && NoDuplicates(a)
    ensures NoDuplicates(b)
  {
    forall i, j | 0 <= i < j < |b| ensures b[i] != b[j] {
      if b[i] == b[j] {
        RepeatedCount(b, i, j);
        NoDuplicatesCount(a, b[i]);
      }
    }
  }
}
