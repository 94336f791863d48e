/**
 * String helpers with the exact semantics of the Go standard library calls and
 * SQL string functions the programs use. Strings are sequences of Unicode scalar
 * values; comparing them code point by code point is the same as Go's and the SQL
 * engine's byte-wise comparison of their UTF-8 encodings.
 */
module Strings {
  import opened Wrappers
  import opened Sorting

  // ---------------------------------------------------------------------------
  // Lexicographic order (Go's `<` on strings, `sort.Strings`, VARCHAR comparison)
  // ---------------------------------------------------------------------------

  /** `a` sorts strictly before `b`. (Dafny's own `<` on sequences means "proper prefix".) */
  predicate LexLess(a: string, b: string)
  {
    if |a| == 0 then |b| > 0
    else if |b| == 0 then false
    else if a[0] != b[0] then a[0] < b[0]
    else LexLess(a[1..], b[1..])
  }

  predicate LexLe(a: string, b: string)
  {
    a == b || LexLess(a, b)
  }

  lemma {:induction false} LexLessIrreflexive(a: string)
    ensures !LexLess(a, a)
  {
    if |a| > 0 {
      LexLessIrreflexive(a[1..]);
    }
  }

  lemma {:induction false} LexLessAsymmetric(a: string, b: string)
    requires LexLess(a, b)
    ensures !LexLess(b, a)
  {
    if |a| > 0 && |b| > 0 && a[0] == b[0] {
      LexLessAsymmetric(a[1..], b[1..]);
    }
  }

  lemma {:induction false} LexLessTransitive(a: string, b: string, c: string)
    requires LexLess(a, b) && LexLess(b, c)
    ensures LexLess(a, c)
  {
    if |a| > 0 && |b| > 0 && |c| > 0 && a[0] == b[0] && b[0] == c[0] {
      LexLessTransitive(a[1..], b[1..], c[1..]);
    }
  }

  lemma {:induction false} LexLessTotal(a: string, b: string)
    ensures a == b || LexLess(a, b) || LexLess(b, a)
  {
    if |a| > 0 && |b| > 0 && a[0] == b[0] {
      LexLessTotal(a[1..], b[1..]);
      if a[1..] == b[1..] {
        assert a == [a[0]] + a[1..] && b == [b[0]] + b[1..];
      }
    }
  }

  /** `LexLe` is a total order: `sort.Strings` has exactly one possible result. */
  lemma LexLeOrder()
    ensures TotalPreorder(LexLe) && Antisymmetric(LexLe)
  {
    forall a: string, b: string ensures LexLe(a, b) || LexLe(b, a) {
      LexLessTotal(a, b);
    }
    forall a: string, b: string, c: string | LexLe(a, b) && LexLe(b, c) ensures LexLe(a, c) {
      if a != b && b != c {
        LexLessTransitive(a, b, c);
      }
    }
    forall a: string, b: string | LexLe(a, b) && LexLe(b, a) ensures a == b {
      if a != b {
        LexLessAsymmetric(a, b);
      }
    }
  }

  /** Strings that share a prefix compare as their remainders do. */
  lemma {:induction false} LexLessCommonPrefix(p: string, a: string, b: string)
    ensures LexLess(p + a, p + b) == LexLess(a, b)
  {
    if |p| > 0 {
      assert (p + a)[1..] == p[1..] + a;
      assert (p + b)[1..] == p[1..] + b;
      assert (p + a)[0] == (p + b)[0];
      assert LexLess(p + a, p + b) == LexLess((p + a)[1..], (p + b)[1..]);
      LexLessCommonPrefix(p[1..], a, b);
    } else {
      assert p + a == a && p + b == b;
    }
  }

  /** The first difference decides, whatever follows. */
  lemma {:induction false} LexLessAppend(a: string, b: string, x: string, y: string)
    requires |a| == |b| && LexLess(a, b)
    ensures LexLess(a + x, b + y)
  {
    if a[0] == b[0] {
      assert (a + x)[1..] == a[1..] + x;
      assert (b + y)[1..] == b[1..] + y;
      LexLessAppend(a[1..], b[1..], x, y);
    }
  }

  // ---------------------------------------------------------------------------
  // Prefix, substring, taking and dropping
  // ---------------------------------------------------------------------------

  /** `p` occurs somewhere inside `s` (SQL `LIKE '%p%'` read literally, Go `strings.Contains`). */
  predicate Contains(s: string, p: string)
    decreases |s|
  {
    p <= s || (|s| > 0 && Contains(s[1..], p))
  }

  /** `s` ends with `p` (Go `strings.HasSuffix`). */
  predicate HasSuffix(s: string, p: string)
  {
    |p| <= |s| && s[|s| - |p|..] == p
  }

  function DropWhile(s: string, p: char -> bool): (r: string)
    ensures |r| <= |s| && r == s[|s| - |r|..]
    ensures r == [] || !p(r[0])
    ensures forall i :: 0 <= i < |s| - |r| ==> p(s[i])
    decreases |s|
  {
    if |s| > 0 && p(s[0]) then DropWhile(s[1..], p) else s
  }

  function DropLastWhile(s: string, p: char -> bool): (r: string)
    ensures r <= s
    ensures r == [] || !p(r[|r| - 1])
    ensures forall i :: |r| <= i < |s| ==> p(s[i])
    decreases |s|
  {
    if |s| > 0 && p(s[|s| - 1]) then DropLastWhile(s[..|s| - 1], p) else s
  }

  function TakeWhile(s: string, p: char -> bool): (r: string)
    ensures r <= s
    ensures forall i :: 0 <= i < |r| ==> p(r[i])
    ensures |r| < |s| ==> !p(s[|r|])
    decreases |s|
  {
    if |s| > 0 && p(s[0]) then [s[0]] + TakeWhile(s[1..], p) else []
  }

  // ---------------------------------------------------------------------------
  // Whitespace and trimming
  // ---------------------------------------------------------------------------

  predicate IsSpaceChar(c: char)
  {
    c == ' '
  }

  /** Go's `unicode.IsSpace`: the Latin-1 spaces plus Unicode's White_Space characters. */
  predicate IsGoSpace(c: char)
  {
    var k := c as int;
    (9 <= k <= 13) || k == 32 || k == 0x85 || k == 0xA0 || k == 0x1680
    || (0x2000 <= k <= 0x200A) || k == 0x2028 || k == 0x2029 || k == 0x202F
    || k == 0x205F || k == 0x3000
  }

  /** The SQL engine's `TRIM(s)`: leading and trailing space characters removed. */
  function SqlTrim(s: string): (r: string)
    ensures |r| <= |s|
    ensures r == [] || (r[0] != ' ' && r[|r| - 1] != ' ')
  {
    DropLastWhile(DropWhile(s, IsSpaceChar), IsSpaceChar)
  }

  /** A text without a space at either end is its own TRIM. */
  lemma SqlTrimUnpadded(w: string)
    requires |w| > 0 && w[0] != ' ' && w[|w| - 1] != ' '
    ensures SqlTrim(w) == w
  {
    assert DropWhile(w, IsSpaceChar) == w;
    assert DropLastWhile(w, IsSpaceChar) == w;
  }

  /** Go's `strings.TrimSpace`. */
  function GoTrimSpace(s: string): (r: string)
    ensures |r| <= |s|
    ensures r == [] || (!IsGoSpace(r[0]) && !IsGoSpace(r[|r| - 1]))
  {
    DropLastWhile(DropWhile(s, IsGoSpace), IsGoSpace)
  }

  lemma {:induction false} GoTrimSpaceEmpty(s: string)
    ensures GoTrimSpace(s) == [] <==> forall i :: 0 <= i < |s| ==> IsGoSpace(s[i])
  {
    var d := DropWhile(s, IsGoSpace);
    var r := DropLastWhile(d, IsGoSpace);
    if r == [] {
      forall i | 0 <= i < |s| ensures IsGoSpace(s[i]) {
        if i >= |s| - |d| {
          assert s[i] == d[i - (|s| - |d|)];
        }
      }
    } else {
      assert r[0] == d[0] == s[|s| - |d|];
    }
  }

  predicate NotGoSpace(c: char)
  {
    !IsGoSpace(c)
  }

  /** Go's `strings.Fields`: the maximal runs of non-space characters, in order. */
  function Fields(s: string): seq<string>
    decreases |s|
  {
    var t := DropWhile(s, IsGoSpace);
    if t == [] then []
    else
      var w := TakeWhile(t, NotGoSpace);
      WordNonEmpty(t);
      [w] + Fields(t[|w|..])
  }

  /** A string that starts with a non-space starts with a non-empty word. */
  lemma WordNonEmpty(t: string)
    requires t != [] && !IsGoSpace(t[0])
    ensures 0 < |TakeWhile(t, NotGoSpace)|
  {
    assert NotGoSpace(t[0]);
  }

  lemma {:induction false} FieldsEmpty(s: string)
    ensures Fields(s) == [] <==> forall i :: 0 <= i < |s| ==> IsGoSpace(s[i])
  {
    var t := DropWhile(s, IsGoSpace);
    if t != [] {
      assert s[|s| - |t|] == t[0];
    }
  }

  /** A word followed by a space character is the first field of what it starts. */
  lemma {:induction false} FirstFieldOf(pad: string, w: string, rest: string)
    requires forall i :: 0 <= i < |pad| ==> IsGoSpace(pad[i])
    requires |w| > 0 && forall i :: 0 <= i < |w| ==> !IsGoSpace(w[i])
    requires |rest| > 0 && IsGoSpace(rest[0])
    ensures |Fields(pad + w + rest)| > 0 && Fields(pad + w + rest)[0] == w
  {
    var s := pad + w + rest;
    DropPrefixWhile(pad, w + rest, IsGoSpace);
    assert pad + (w + rest) == s;
    var t := DropWhile(s, IsGoSpace);
    assert t == w + rest;
    TakeWhileUpTo(w, rest, NotGoSpace);
  }

  lemma {:induction false} DropPrefixWhile(pad: string, s: string, p: char -> bool)
    requires forall i :: 0 <= i < |pad| ==> p(pad[i])
    requires |s| > 0 && !p(s[0])
    ensures DropWhile(pad + s, p) == s
  {
    if |pad| > 0 {
      assert (pad + s)[1..] == pad[1..] + s;
      DropPrefixWhile(pad[1..], s, p);
    }
  }

  lemma {:induction false} TakeWhileUpTo(w: string, rest: string, p: char -> bool)
    requires forall i :: 0 <= i < |w| ==> p(w[i])
    requires |rest| > 0 && !p(rest[0])
    ensures TakeWhile(w + rest, p) == w
  {
    if |w| > 0 {
      assert (w + rest)[1..] == w[1..] + rest;
      TakeWhileUpTo(w[1..], rest, p);
    }
  }

  // ---------------------------------------------------------------------------
  // Splitting and joining (Go `strings.Split`, SQL `string_split`)
  // ---------------------------------------------------------------------------

  predicate NoDot(s: string)
  {
    forall i :: 0 <= i < |s| ==> s[i] != '.'
  }

  /** The pieces of `s` between non-overlapping occurrences of `sep`, scanning left to right. */
  function Split(s: string, sep: string): (r: seq<string>)
    requires |sep| > 0
    ensures |r| >= 1
    decreases |s|
  {
    if |s| < |sep| then [s]
    else if s[..|sep|] == sep then [""] + Split(s[|sep|..], sep)
    else
      var rest := Split(s[1..], sep);
      [[s[0]] + rest[0]] + rest[1..]
  }

  function Join(parts: seq<string>, sep: string): string
  {
    if |parts| == 0 then ""
    else if |parts| == 1 then parts[0]
    else parts[0] + sep + Join(parts[1..], sep)
  }

  /** Splitting loses nothing: joining the pieces back gives the original string. */
  lemma {:induction false} JoinSplit(s: string, sep: string)
    requires |sep| > 0
    ensures Join(Split(s, sep), sep) == s
    decreases |s|, 1
  {
    if |s| < |sep| {
    } else if s[..|sep|] == sep {
      JoinSplitAtSep(s, sep);
    } else {
      JoinSplitAtChar(s, sep);
    }
  }

  lemma JoinSplitAtSep(s: string, sep: string)
    requires 0 < |sep| <= |s| && s[..|sep|] == sep
    ensures Join(Split(s, sep), sep) == s
    decreases |s|, 0
  {
    var tail := s[|sep|..];
    var parts := Split(tail, sep);
    assert Split(s, sep) == [""] + parts;
    JoinSplit(tail, sep);
    JoinCons("", parts, sep);
    assert s == sep + tail;
  }

  lemma JoinSplitAtChar(s: string, sep: string)
    requires 0 < |sep| <= |s| && s[..|sep|] != sep
    ensures Join(Split(s, sep), sep) == s
    decreases |s|, 0
  {
    var parts := Split(s[1..], sep);
    assert Split(s, sep) == [[s[0]] + parts[0]] + parts[1..];
    JoinSplit(s[1..], sep);
    JoinFirstChar(s[0], parts, sep);
    assert s == [s[0]] + s[1..];
  }

  lemma JoinCons(first: string, rest: seq<string>, sep: string)
    requires |rest| >= 1
    ensures Join([first] + rest, sep) == first + sep + Join(rest, sep)
  {
    assert ([first] + rest)[0] == first && ([first] + rest)[1..] == rest;
  }

  /** A character put in front of the first piece comes out in front of the joined string. */
  lemma JoinFirstChar(c: char, parts: seq<string>, sep: string)
    requires |parts| >= 1
    ensures Join([[c] + parts[0]] + parts[1..], sep) == [c] + Join(parts, sep)
  {
    var first := [c] + parts[0];
    if |parts| == 1 {
      assert [first] + parts[1..] == [first];
    } else {
      JoinCons(first, parts[1..], sep);
      assert parts == [parts[0]] + parts[1..];
      JoinCons(parts[0], parts[1..], sep);
    }
  }

  /** A string without the separator is a single piece. */
  lemma {:induction false} SplitNoSeparator(s: string, sep: string)
    requires |sep| > 0 && !Contains(s, sep)
    ensures Split(s, sep) == [s]
    decreases |s|
  {
    if |s| >= |sep| {
      assert !(sep <= s);
      SplitNoSeparator(s[1..], sep);
      assert s == [s[0]] + s[1..];
    }
  }

  // ---------------------------------------------------------------------------
  // Decimal rendering (`%d`, `%2d`, `%04d`) and parsing (`strconv.Atoi`, `fmt.Sscanf("%d")`)
  // ---------------------------------------------------------------------------

  predicate IsDigit(c: char)
  {
    '0' <= c <= '9'
  }

  predicate AllDigits(s: string)
  {
    forall i :: 0 <= i < |s| ==> IsDigit(s[i])
  }

  function DigitChar(d: nat): (c: char)
    requires d < 10
    ensures IsDigit(c) && c as int - '0' as int == d
  {
    (d + '0' as int) as char
  }

  function DigitValue(c: char): (d: nat)
    requires IsDigit(c)
    ensures d < 10
  {
    c as int - '0' as int
  }

  /** The value of a string of decimal digits, read most significant digit first. */
  function DigitsValue(s: string): nat
    requires AllDigits(s)
  {
    if s == [] then 0 else DigitsValue(s[..|s| - 1]) * 10 + DigitValue(s[|s| - 1])
  }

  /** Go's `%d` of a non-negative number: no leading zeros. */
  function NatToDecimal(n: nat): (r: string)
    ensures |r| >= 1 && AllDigits(r)
    decreases n
  {
    if n < 10 then [DigitChar(n)] else NatToDecimal(n / 10) + [DigitChar(n % 10)]
  }

  /** Go's `%d`. */
  function IntToDecimal(n: int): (r: string)
    ensures |r| >= 1
  {
    if n < 0 then "-" + NatToDecimal(-n) else NatToDecimal(n)
  }

  function Repeat(c: char, n: nat): (r: string)
    ensures |r| == n && forall i :: 0 <= i < n ==> r[i] == c
  {
    if n == 0 then [] else [c] + Repeat(c, n - 1)
  }

  /** Go's `%<width>d`: the decimal rendering right-aligned with spaces. */
  function PadDecimal(n: int, width: nat): string
  {
    var d := IntToDecimal(n);
    (if |d| < width then Repeat(' ', width - |d|) else "") + d
  }

  /** Go's `%0<width>d`: zeros go between the sign and the digits, and the sign counts towards the width. */
  function ZeroPadDecimal(n: int, width: nat): string
  {
    var d := NatToDecimal(if n < 0 then -n else n);
    var sign := if n < 0 then "-" else "";
    var room := if width > |sign| + |d| then width - |sign| - |d| else 0;
    sign + Repeat('0', room) + d
  }

  lemma {:induction false} DecimalValue(n: nat)
    ensures DigitsValue(NatToDecimal(n)) == n
    decreases n
  {
    if n >= 10 {
      DecimalValue(n / 10);
      var r := NatToDecimal(n);
      assert r[..|r| - 1] == NatToDecimal(n / 10);
    }
  }

  lemma {:induction false} DecimalNoLeadingZero(n: nat)
    ensures NatToDecimal(n)[0] != '0' || n == 0
    decreases n
  {
    if n >= 10 {
      DecimalNoLeadingZero(n / 10);
    }
  }

  function Pow10(k: nat): (p: nat)
    ensures p >= 1
  {
    if k == 0 then 1 else 10 * Pow10(k - 1)
  }

  lemma {:induction false} DigitsValueBound(s: string)
    requires AllDigits(s)
    ensures DigitsValue(s) < Pow10(|s|)
  {
    if s != [] {
      DigitsValueBound(s[..|s| - 1]);
    }
  }

  /** Reading the leading digit apart from the rest. */
  lemma {:induction false} DigitsValueHead(s: string)
    requires AllDigits(s) && |s| > 0
    ensures DigitsValue(s) == DigitValue(s[0]) * Pow10(|s| - 1) + DigitsValue(s[1..])
  {
    if |s| > 1 {
      var init := s[..|s| - 1];
      DigitsValueHead(init);
      assert init[1..] == s[1..][..|s| - 2];
      assert s[1..][|s| - 2] == s[|s| - 1];
      assert init[0] == s[0];
      ShiftDigit(DigitValue(s[0]), Pow10(|s| - 2), DigitsValue(init[1..]), DigitValue(s[|s| - 1]));
    }
  }

  /** For digit strings of one length, lexicographic order is numeric order. */
  lemma {:induction false} LexLessDigits(a: string, b: string)
    requires AllDigits(a) && AllDigits(b) && |a| == |b|
    requires DigitsValue(a) < DigitsValue(b)
    ensures LexLess(a, b)
  {
    DigitsValueHead(a);
    DigitsValueHead(b);
    if a[0] == b[0] {
      LexLessDigits(a[1..], b[1..]);
    } else if a[0] > b[0] {
      DigitsValueBound(b[1..]);
      HeadDigitDominates(DigitValue(b[0]), DigitValue(a[0]), Pow10(|a| - 1), DigitsValue(b[1..]), DigitsValue(a[1..]));
      assert false;
    }
  }

  lemma HeadDigitDominates(x: nat, y: nat, k: nat, restX: nat, restY: nat)
    requires x < y && restX < k
    ensures x * k + restX < y * k + restY
  {
    assert y * k >= (x + 1) * k == x * k + k;
  }

  lemma {:induction false} DecimalLength(n: nat, k: nat)
    requires n < Pow10(k) && k >= 1
    ensures |NatToDecimal(n)| <= k
    decreases n
  {
    if n >= 10 {
      DecimalLength(n / 10, k - 1);
    }
  }

  /** A non-negative number below 10^width renders with `%0<width>d` as exactly `width` digits of its value. */
  lemma ZeroPadDigits(n: nat, width: nat)
    requires width >= 1 && n < Pow10(width)
    ensures var z := ZeroPadDecimal(n, width); |z| == width && AllDigits(z) && DigitsValue(z) == n
  {
    var d := NatToDecimal(n);
    DecimalLength(n, width);
    var z := ZeroPadDecimal(n, width);
    assert z == Repeat('0', width - |d|) + d;
    DecimalValue(n);
    LeadingZeros(width - |d|, d);
  }

  lemma {:induction false} LeadingZeros(k: nat, d: string)
    requires AllDigits(d)
    ensures AllDigits(Repeat('0', k) + d) && DigitsValue(Repeat('0', k) + d) == DigitsValue(d)
  {
    if k > 0 {
      var rest := Repeat('0', k - 1) + d;
      LeadingZeros(k - 1, d);
      var s := Repeat('0', k) + d;
      assert s == "0" + rest;
      assert AllDigits(s) by {
        forall i | 0 <= i < |s| ensures IsDigit(s[i]) {
          if i > 0 {
            assert s[i] == rest[i - 1];
          }
        }
      }
      DigitsValueHead(s);
      assert s[1..] == rest;
      assert DigitValue(s[0]) == 0;
    } else {
      assert Repeat('0', k) + d == d;
    }
  }

  lemma AllDigitsConcat(a: string, c: string)
    requires AllDigits(a) && AllDigits(c)
    ensures AllDigits(a + c)
  {
    var s := a + c;
    forall i | 0 <= i < |s| ensures IsDigit(s[i]) {
      if i < |a| {
        assert s[i] == a[i];
      } else {
        assert s[i] == c[i - |a|];
      }
    }
  }

  lemma ShiftDigit(va: int, p: int, vi: int, d: int)
    ensures (va * p + vi) * 10 + d == va * (10 * p) + (vi * 10 + d)
  {
  }

  /** The value of two digit strings written one after the other. */
  lemma {:induction false} DigitsValueConcat(a: string, c: string)
    requires AllDigits(a) && AllDigits(c)
    ensures AllDigits(a + c) && DigitsValue(a + c) == DigitsValue(a) * Pow10(|c|) + DigitsValue(c)
    decreases |c|
  {
    AllDigitsConcat(a, c);
    var s := a + c;
    if c == [] {
      assert s == a;
    } else {
      var init := c[..|c| - 1];
      assert s[..|s| - 1] == a + init;
      assert s[|s| - 1] == c[|c| - 1];
      DigitsValueConcat(a, init);
      ShiftDigit(DigitsValue(a), Pow10(|init|), DigitsValue(init), DigitValue(c[|c| - 1]));
    }
  }

  /** The value of a four-digit string, digit by digit. */
  lemma FourDigitsValue(s: string)
    requires |s| == 4 && AllDigits(s)
    ensures DigitsValue(s) == DigitValue(s[0]) * 1000 + DigitValue(s[1]) * 100 + DigitValue(s[2]) * 10 + DigitValue(s[3])
  {
    var s3 := s[..3];
    var s2 := s3[..2];
    var s1 := s2[..1];
    assert s1[..0] == [];
    assert s3[2] == s[2] && s2[1] == s[1] && s1[0] == s[0];
    assert DigitsValue(s1) == DigitValue(s[0]);
    assert DigitsValue(s2) == DigitsValue(s1) * 10 + DigitValue(s[1]);
    assert DigitsValue(s3) == DigitsValue(s2) * 10 + DigitValue(s[2]);
    assert DigitsValue(s) == DigitsValue(s3) * 10 + DigitValue(s[3]);
  }

  lemma LastDigitUnique(x: nat, dx: nat, y: nat, dy: nat)
    requires dx < 10 && dy < 10 && x * 10 + dx == y * 10 + dy
    ensures x == y && dx == dy
  {
  }

  /** Digit strings of one length with one value are the same string. */
  lemma {:induction false} DigitsValueInjective(a: string, b: string)
    requires AllDigits(a) && AllDigits(b) && |a| == |b|
    requires DigitsValue(a) == DigitsValue(b)
    ensures a == b
  {
    if a != [] {
      var ia, ib := a[..|a| - 1], b[..|b| - 1];
      var da, db := DigitValue(a[|a| - 1]), DigitValue(b[|b| - 1]);
      LastDigitUnique(DigitsValue(ia), da, DigitsValue(ib), db);
      DigitsValueInjective(ia, ib);
      assert a == ia + [a[|a| - 1]] && b == ib + [b[|b| - 1]];
    }
  }

  /** For digit strings of one length, lexicographic order and numeric order agree. */
  lemma LexLessIffValue(a: string, b: string)
    requires AllDigits(a) && AllDigits(b) && |a| == |b|
    ensures LexLess(a, b) <==> DigitsValue(a) < DigitsValue(b)
    ensures LexLe(a, b) <==> DigitsValue(a) <= DigitsValue(b)
  {
    if DigitsValue(a) < DigitsValue(b) {
      LexLessDigits(a, b);
    } else if DigitsValue(a) == DigitsValue(b) {
      DigitsValueInjective(a, b);
      LexLessIrreflexive(a);
    } else {
      LexLessDigits(b, a);
      LexLessAsymmetric(b, a);
      if a == b {
        LexLessIrreflexive(a);
      }
    }
  }

  const MinInt64: int := -0x8000_0000_0000_0000
  const MaxInt64: int := 0x7FFF_FFFF_FFFF_FFFF

  predicate InInt64(n: int)
  {
    MinInt64 <= n <= MaxInt64
  }

  /** Go's `strconv.Atoi` on a 64-bit platform: an optional sign, one or more digits, and a value that fits. */
  function ParseGoInt(s: string): Option<int>
  {
    if |s| == 0 then None
    else
      var body := if s[0] == '-' || s[0] == '+' then s[1..] else s;
      if |body| == 0 || !AllDigits(body) then None
      else
        var v: int := if s[0] == '-' then -(DigitsValue(body) as int) else DigitsValue(body);
        if InInt64(v) then Some(v) else None
  }

  /** Parsing what `%d` printed gives the number back. */
  lemma ParseIntToDecimal(n: int)
    requires InInt64(n)
    ensures ParseGoInt(IntToDecimal(n)) == Some(n)
  {
    var s := IntToDecimal(n);
    if n < 0 {
      DecimalValue(-n);
      var d := NatToDecimal(-n);
      assert s == "-" + d;
      assert s[0] == '-' && s[1..] == d;
      assert AllDigits(d) && |d| > 0;
    } else {
      DecimalValue(n);
      var d := NatToDecimal(n);
      assert s == d;
      assert IsDigit(d[0]);
      assert s[0] != '-' && s[0] != '+';
    }
  }

  predicate IsScanSpace(c: char)
  {
    IsGoSpace(c) && c != '\n'
  }

  /**
   * `fmt.Sscanf(s, "%d", &v)`: spaces other than newlines are skipped, then an optional
   * sign and a maximal run of decimal digits are read; what follows is ignored. None when
   * the input ends, a newline comes first, no digit follows, or the value overflows 64 bits.
   */
  function ScanDecimal(s: string): Option<int>
  {
    var t := DropWhile(s, IsScanSpace);
    if |t| == 0 || t[0] == '\n' then None
    else
      var signed := t[0] == '+' || t[0] == '-';
      var digits := TakeWhile(if signed then t[1..] else t, IsDigit);
      if |digits| == 0 then None
      else
        var v: int := if t[0] == '-' then -(DigitsValue(digits) as int) else DigitsValue(digits);
        if InInt64(v) then Some(v) else None
  }

  // ---------------------------------------------------------------------------
  // Case mapping and byte length
  // ---------------------------------------------------------------------------

  /**
   * Go's `unicode.ToLower`, as far as it can produce an ASCII character: the ASCII capitals,
   * U+0130 (capital I with dot above, lower-cased to 'i') and U+212A (Kelvin sign, lower-cased
   * to 'k'). Every other character lower-cases to a non-ASCII character or to itself.
   */
  function LowerForAscii(c: char): char
  {
    if 'A' <= c <= 'Z' then (c as int + 32) as char
    else if c == '\U{0130}' then 'i'
    else if c == '\U{212A}' then 'k'
    else c
  }

  /**
   * Go's `unicode.ToUpper`, as far as it can produce an ASCII character: the ASCII small
   * letters, U+017F (long s, upper-cased to 'S') and U+0131 (dotless i, upper-cased to 'I').
   * Every other character upper-cases to a non-ASCII character or to itself.
   */
  function UpperForAscii(c: char): char
  {
    if 'a' <= c <= 'z' then (c as int - 32) as char
    else if c == '\U{017F}' then 'S'
    else if c == '\U{0131}' then 'I'
    else c
  }

  function MapChars(s: string, f: char -> char): (r: string)
    ensures |r| == |s| && forall i :: 0 <= i < |s| ==> r[i] == f(s[i])
  {
    if s == [] then [] else [f(s[0])] + MapChars(s[1..], f)
  }

  function CharUtf8Length(c: char): nat
  {
    var k := c as int;
    if k < 0x80 then 1 else if k < 0x800 then 2 else if k < 0x10000 then 3 else 4
  }

  /** Go's `len(s)`: the number of bytes of the UTF-8 encoding. */
  function Utf8Length(s: string): nat
  {
    if s == [] then 0 else CharUtf8Length(s[0]) + Utf8Length(s[1..])
  }

  // ---------------------------------------------------------------------------
  // File names (Go `filepath.Ext`, `strings.TrimSuffix`)
  // ---------------------------------------------------------------------------

  /** The suffix starting at the last '.' of the last path element, or "" when it has none. */
  function FileExt(path: string): (r: string)
    ensures HasSuffix(path, r)
    ensures r == [] || r[0] == '.'
    decreases |path|
  {
    if |path| == 0 || path[|path| - 1] == '/' then ""
    else if path[|path| - 1] == '.' then "."
    else
      var e := FileExt(path[..|path| - 1]);
      if e == [] then "" else e + [path[|path| - 1]]
  }

  function TrimSuffix(s: string, suffix: string): (r: string)
    ensures HasSuffix(s, suffix) ==> r + suffix == s
    ensures !HasSuffix(s, suffix) ==> r == s
  {
    if HasSuffix(s, suffix) then s[..|s| - |suffix|] else s
  }
}
