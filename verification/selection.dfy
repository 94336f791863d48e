/**
 * Reading the column number back from a chosen menu line: the first whitespace-separated
 * field as a decimal integer, or 1 when there is no field or it is not an integer.
 */
module Selection {
  import opened Wrappers
  import opened Strings
  import opened Types

  /** The index a menu line names; 1 when it names none. */
  function ParseSelectionIndex(selection: string): int
  {
    var parts := Fields(selection);
    if |parts| == 0 then 1
    else
      match ParseGoInt(GoTrimSpace(parts[0]))
      case None => 1
      case Some(index) => index
  }

  /** A word that neither starts nor ends with a space is its own trimming. */
  lemma TrimUnpadded(w: string)
    requires |w| > 0 && !IsGoSpace(w[0]) && !IsGoSpace(w[|w| - 1])
    ensures GoTrimSpace(w) == w
  {
    assert DropWhile(w, IsGoSpace) == w;
    assert DropLastWhile(w, IsGoSpace) == w;
  }

  lemma {:induction false} FirstFieldNoSpace(s: string)
    requires |Fields(s)| > 0
    ensures |Fields(s)[0]| > 0
    ensures forall i :: 0 <= i < |Fields(s)[0]| ==> !IsGoSpace(Fields(s)[0][i])
  {
    var t := DropWhile(s, IsGoSpace);
    var w := TakeWhile(t, NotGoSpace);
    assert t != [];
    WordNonEmpty(t);
    assert Fields(s)[0] == w;
    forall i | 0 <= i < |w| ensures !IsGoSpace(w[i]) {
      assert NotGoSpace(w[i]);
    }
  }

  /**
   * The result is 1 for a line of only whitespace, 1 when the first field is not a 64-bit
   * decimal integer, and otherwise that integer; the rest of the line is never read.
   */
  lemma SelectionMeaning(selection: string)
    ensures (forall i :: 0 <= i < |selection| ==> IsGoSpace(selection[i])) ==> ParseSelectionIndex(selection) == 1
    ensures |Fields(selection)| > 0 ==>
      ParseSelectionIndex(selection) == match ParseGoInt(Fields(selection)[0]) case None => 1 case Some(n) => n
  {
    FieldsEmpty(selection);
    if |Fields(selection)| > 0 {
      var w := Fields(selection)[0];
      FirstFieldNoSpace(selection);
      assert !IsGoSpace(w[0]) && !IsGoSpace(w[|w| - 1]);
      TrimUnpadded(w);
    }
  }

  lemma DecimalHasNoSpace(n: int)
    ensures forall i :: 0 <= i < |IntToDecimal(n)| ==> !IsGoSpace(IntToDecimal(n)[i])
  {
    var d := NatToDecimal(if n < 0 then -n else n);
    assert AllDigits(d);
    forall i | 0 <= i < |IntToDecimal(n)| ensures !IsGoSpace(IntToDecimal(n)[i]) {
      if n < 0 && i > 0 {
        assert IntToDecimal(n)[i] == d[i - 1];
        assert IsDigit(d[i - 1]);
      } else if n >= 0 {
        assert IsDigit(d[i]);
      }
    }
  }

  /** Reading back the menu line of a column gives the column's index. */
  lemma SelectionRoundTrip(c: Column)
    requires InInt64(c.index)
    ensures ParseSelectionIndex(OptionText(c)) == c.index
  {
    var d := IntToDecimal(c.index);
    var pad := if |d| < 2 then Repeat(' ', 2 - |d|) else "";
    var rest := "  " + c.name + Marker(c);
    assert OptionText(c) == pad + d + rest;
    DecimalHasNoSpace(c.index);
    FirstFieldOf(pad, d, rest);
    TrimUnpadded(d);
    ParseIntToDecimal(c.index);
  }

  /** Each line of the menu reads back as the index of the column it lists. */
  lemma OptionsRoundTrip(cl: seq<Column>, options: seq<string>, i: nat)
    requires |options| == |cl| && forall k :: 0 <= k < |cl| ==> options[k] == OptionText(cl[k])
    requires i < |cl| && InInt64(cl[i].index)
    ensures ParseSelectionIndex(options[i]) == cl[i].index
  {
    SelectionRoundTrip(cl[i]);
  }

  /** A concrete menu line: the multi-answer base column 7 is listed as " 7  年齢 [複数回答]". */
  lemma MenuLineExample(c: Column)
    requires c.index == 7 && c.name == "年齢" && c.isMulti && !c.isDerived
    ensures OptionText(c) == " 7  年齢 [複数回答]"
  {
    assert PadDecimal(7, 2) == " 7" by {
      assert NatToDecimal(7) == "7";
    }
    assert Marker(c) == " [複数回答]";
    assert OptionText(c) == " 7" + "  " + "年齢" + " [複数回答]";
  }

  /** The menu line of that column reads back as 7. */
  lemma SelectionExample(c: Column, line: string)
    requires c.index == 7 && c.name == "年齢" && c.isMulti && !c.isDerived
    requires line == OptionText(c)
    ensures line == " 7  年齢 [複数回答]" && ParseSelectionIndex(line) == 7
  {
    MenuLineExample(c);
    SelectionRoundTrip(c);
  }
}
