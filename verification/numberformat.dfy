/**
 * Counts written with thousands separators: groups of three digits from the right,
 * separated by commas; numbers below 1000, negative ones included, are plain decimals.
 */
module NumberFormat {
  import opened Strings

  /** Reference: split off the last three digits, group the rest, join with a comma. */
  function GroupDigits(d: string): (r: string)
    decreases |d|
  {
    if |d| <= 3 then d else GroupDigits(d[..|d| - 3]) + "," + d[|d| - 3..]
  }

  function Grouped(n: int): string
  {
    if n < 1000 then IntToDecimal(n) else GroupDigits(NatToDecimal(n))
  }

  /** The separator that goes before the digit at `j` of `s`: a comma when a multiple of three digits follow from `j` on. */
  function CommaBefore(s: string, j: nat): string
  {
    if j > 0 && (|s| - j) % 3 == 0 then "," else ""
  }

  /** What the left-to-right loop has built after the first `i` digits. */
  function Formatted(s: string, i: nat): string
    requires i <= |s|
  {
    if i == 0 then "" else Formatted(s, i - 1) + CommaBefore(s, i - 1) + [s[i - 1]]
  }

  /** Walks the digits left to right, putting a comma before each digit that a multiple of three digits follow. */
  method FormatNumber(n: int) returns (r: string)
    ensures r == Grouped(n)
  {
    if n < 1000 {
      return IntToDecimal(n);
    }
    var s := IntToDecimal(n);
    var result := "";
    for i := 0 to |s|
      invariant result == Formatted(s, i)
    {
      if i > 0 && (|s| - i) % 3 == 0 {
        result := result + ",";
      }
      result := result + [s[i]];
    }
    FormattedGroups(s);
    return result;
  }

  // ---------------------------------------------------------------------------
  // The loop agrees with the reference
  // ---------------------------------------------------------------------------

  lemma {:induction false} FormattedShort(s: string, i: nat)
    requires i <= |s| <= 3
    ensures Formatted(s, i) == s[..i]
  {
    if i > 0 {
      FormattedShort(s, i - 1);
      assert s[..i] == s[..i - 1] + [s[i - 1]];
    }
  }

  /** Before the last three digits, the loop does what it would do on the digits without them. */
  lemma {:induction false} FormattedShift(s: string, i: nat)
    requires |s| > 3 && i <= |s| - 3
    ensures Formatted(s, i) == Formatted(s[..|s| - 3], i)
  {
    if i > 0 {
      FormattedShift(s, i - 1);
      var t := s[..|s| - 3];
      assert (|s| - (i - 1)) % 3 == (|t| - (i - 1)) % 3;
      assert CommaBefore(s, i - 1) == CommaBefore(t, i - 1);
      assert s[i - 1] == t[i - 1];
    }
  }

  lemma {:induction false} FormattedGroups(s: string)
    ensures Formatted(s, |s|) == GroupDigits(s)
    decreases |s|
  {
    if |s| <= 3 {
      FormattedShort(s, |s|);
      assert s[..|s|] == s;
    } else {
      var k := |s| - 3;
      FormattedShift(s, k);
      FormattedGroups(s[..k]);
      FormattedLastGroup(s);
    }
  }

  /** The loop's last three steps append a comma and the last three digits. */
  lemma FormattedLastGroup(s: string)
    requires |s| > 3
    ensures Formatted(s, |s|) == Formatted(s, |s| - 3) + "," + s[|s| - 3..]
  {
    var k := |s| - 3;
    FormattedStep(s, k + 1);
    FormattedStep(s, k + 2);
    FormattedStep(s, k + 3);
    LastCommas(s);
    AppendThree(Formatted(s, k), s[k], s[k + 1], s[k + 2]);
    LastThree(s);
  }

  lemma FormattedStep(s: string, i: nat)
    requires 0 < i <= |s|
    ensures Formatted(s, i) == Formatted(s, i - 1) + CommaBefore(s, i - 1) + [s[i - 1]]
  {
  }

  lemma LastCommas(s: string)
    requires |s| > 3
    ensures CommaBefore(s, |s| - 3) == "," && CommaBefore(s, |s| - 2) == "" && CommaBefore(s, |s| - 1) == ""
  {
  }

  lemma AppendThree(f: string, a: char, b: char, c: char)
    ensures ((f + "," + [a]) + "" + [b]) + "" + [c] == f + "," + [a, b, c]
  {
  }

  lemma LastThree(s: string)
    requires |s| >= 3
    ensures s[|s| - 3..] == [s[|s| - 3], s[|s| - 2], s[|s| - 1]]
  {
  }

  // ---------------------------------------------------------------------------
  // Properties of the grouping
  // ---------------------------------------------------------------------------

  function DeleteCommas(s: string): string
  {
    if s == [] then [] else (if s[0] == ',' then "" else [s[0]]) + DeleteCommas(s[1..])
  }

  lemma {:induction false} DeleteCommasAppend(a: string, b: string)
    ensures DeleteCommas(a + b) == DeleteCommas(a) + DeleteCommas(b)
  {
    if a != [] {
      assert (a + b)[1..] == a[1..] + b;
      DeleteCommasAppend(a[1..], b);
    } else {
      assert a + b == b;
    }
  }

  predicate NoCommas(s: string)
  {
    forall i :: 0 <= i < |s| ==> s[i] != ','
  }

  lemma {:induction false} DeleteNoCommas(s: string)
    requires NoCommas(s)
    ensures DeleteCommas(s) == s
  {
    if s != [] {
      assert s[0] != ',';
      DeleteNoCommas(s[1..]);
      assert s == [s[0]] + s[1..];
    }
  }

  /** The separators are all the grouping adds: deleting the commas gives the digits back. */
  lemma {:induction false} GroupDigitsDigits(d: string)
    requires NoCommas(d)
    ensures DeleteCommas(GroupDigits(d)) == d
    decreases |d|
  {
    if |d| <= 3 {
      DeleteNoCommas(d);
    } else {
      var k := |d| - 3;
      var g := GroupDigits(d[..k]);
      GroupDigitsDigits(d[..k]);
      DeleteNoCommas(d[k..]);
      DeleteCommasJoin(g, d[k..]);
      assert d[..k] + d[k..] == d;
    }
  }

  lemma DeleteComma()
    ensures DeleteCommas(",") == ""
  {
    assert ","[1..] == [];
  }

  lemma DeleteCommasJoin(g: string, tail: string)
    ensures DeleteCommas(g + "," + tail) == DeleteCommas(g) + DeleteCommas(tail)
  {
    DeleteCommasAppend(g + ",", tail);
    DeleteCommasAppend(g, ",");
    DeleteComma();
  }

  /**
   * Grouping n digits gives n + (n - 1) / 3 characters; position i holds a comma exactly
   * when |r| - i is a multiple of 4, so the output neither starts nor ends with a comma and
   * the leading group has one to three digits; every other character is the next digit.
   */
  lemma {:induction false} GroupDigitsShape(d: string)
    requires |d| > 0 && NoCommas(d)
    ensures var r := GroupDigits(d);
      && |r| == |d| + (|d| - 1) / 3
      && (forall i :: 0 <= i < |r| ==> (r[i] == ',' <==> (|r| - i) % 4 == 0))
      && r[0] != ',' && r[|r| - 1] != ','
    decreases |d|
  {
    if |d| > 3 {
      var k := |d| - 3;
      GroupDigitsShape(d[..k]);
      LastGroupShape(GroupDigits(d[..k]), d[k..]);
      GroupedLength(k);
    }
  }

  lemma GroupedLength(k: nat)
    requires k >= 1
    ensures k + 3 + (k + 2) / 3 == k + (k - 1) / 3 + 4
  {
  }

  /** Appending a comma and a group of three digits keeps the comma pattern. */
  lemma LastGroupShape(g: string, tail: string)
    requires |g| > 0 && |tail| == 3 && NoCommas(tail)
    requires forall i :: 0 <= i < |g| ==> (g[i] == ',' <==> (|g| - i) % 4 == 0)
    requires g[0] != ','
    ensures var r := g + "," + tail;
      && (forall i :: 0 <= i < |r| ==> (r[i] == ',' <==> (|r| - i) % 4 == 0))
      && r[0] != ',' && r[|r| - 1] != ','
  {
    var r := g + "," + tail;
    forall i | 0 <= i < |r| ensures r[i] == ',' <==> (|r| - i) % 4 == 0 {
      if i < |g| {
        assert r[i] == g[i];
        Mod4Shift(|g| - i);
      } else if i > |g| {
        assert r[i] == tail[i - |g| - 1];
        assert 1 <= |r| - i <= 3;
      }
    }
  }

  lemma Mod4Shift(x: int)
    ensures (x + 4) % 4 == x % 4
  {
  }

  /** Whatever n is, the output is its decimal rendering with commas inserted and nothing else. */
  lemma GroupedDecimal(n: int)
    ensures DeleteCommas(Grouped(n)) == IntToDecimal(n)
  {
    var d := IntToDecimal(n);
    if n >= 0 {
      assert AllDigits(d);
    } else {
      var m := NatToDecimal(-n);
      assert AllDigits(m) && d == "-" + m;
      assert forall i :: 1 <= i < |d| ==> d[i] == m[i - 1];
    }
    assert NoCommas(d);
    if n < 1000 {
      DeleteNoCommas(d);
    } else {
      GroupDigitsDigits(d);
    }
  }

  lemma GroupedExample()
    ensures Grouped(1234567) == "1,234,567"
  {
    assert NatToDecimal(1) == "1";
    assert NatToDecimal(12) == NatToDecimal(1) + "2";
    assert NatToDecimal(123) == NatToDecimal(12) + "3";
    assert NatToDecimal(1234) == NatToDecimal(123) + "4";
    assert NatToDecimal(12345) == NatToDecimal(1234) + "5";
    assert NatToDecimal(123456) == NatToDecimal(12345) + "6";
    assert NatToDecimal(1234567) == NatToDecimal(123456) + "7";
    assert NatToDecimal(1234567) == "1234567";
    assert "1234567"[..4] == "1234" && "1234567"[4..] == "567";
    assert "1234"[..1] == "1" && "1234"[1..] == "234";
    assert GroupDigits("1") == "1";
    assert GroupDigits("1234") == "1,234";
    assert GroupDigits("1234567") == "1,234" + "," + "567";
  }
}
