/**
 * How an uploaded file is named: the record keeps the client's file name without its
 * extension, and the stored copy is called "<project id>_<unix seconds><extension>".
 */
module Uploads {
  import opened Strings

  /** What the multipart form says about an uploaded file: its name, its size in bytes and its declared type. */
  datatype UploadedFile = UploadedFile(filename: string, size: int, contentType: string)

  /** Go's `strings.TrimSuffix(name, filepath.Ext(name))`. */
  function BaseName(filename: string): (r: string)
    ensures r + FileExt(filename) == filename
  {
    TrimSuffix(filename, FileExt(filename))
  }

  /** Go's `fmt.Sprintf("%d_%d%s", projectID, timestamp, filepath.Ext(filename))`. */
  function StoredName(projectId: int, timestamp: int, filename: string): string
  {
    IntToDecimal(projectId) + "_" + IntToDecimal(timestamp) + FileExt(filename)
  }

  /** Go's `filepath.Join(dir, name)` for a clean directory and a plain file name. */
  function JoinPath(dir: string, name: string): string
  {
    if dir == "" then name else dir + "/" + name
  }

  // ---------------------------------------------------------------------------
  // Properties
  // ---------------------------------------------------------------------------

  /** An extension is "" or a '.' followed by characters that are neither '.' nor '/'. */
  lemma {:induction false} ExtShape(path: string)
    ensures var e := FileExt(path); e == [] || (e[0] == '.' && forall i :: 1 <= i < |e| ==> e[i] != '.' && e[i] != '/')
    decreases |path|
  {
    if |path| > 0 && path[|path| - 1] != '/' && path[|path| - 1] != '.' {
      ExtShape(path[..|path| - 1]);
    }
  }

  /** Whatever precedes it, a string ending in an extension-shaped suffix has that suffix as its extension. */
  lemma {:induction false} ExtOfSuffix(prefix: string, e: string)
    requires |e| > 0 && e[0] == '.' && forall i :: 1 <= i < |e| ==> e[i] != '.' && e[i] != '/'
    ensures FileExt(prefix + e) == e
    decreases |e|
  {
    var s := prefix + e;
    if |e| > 1 {
      assert s[..|s| - 1] == prefix + e[..|e| - 1];
      ExtOfSuffix(prefix, e[..|e| - 1]);
      assert e == e[..|e| - 1] + [e[|e| - 1]];
    }
  }

  /** The same, for the last `k` characters of a path. */
  lemma ExtOfTail(path: string, k: nat)
    requires 0 < k <= |path|
    requires var e := path[|path| - k..]; e[0] == '.' && forall i :: 1 <= i < |e| ==> e[i] != '.' && e[i] != '/'
    ensures FileExt(path) == path[|path| - k..]
  {
    var n := |path|;
    ExtOfSuffix(path[..n - k], path[n - k..]);
    assert path[..n - k] + path[n - k..] == path;
  }

  /** A string with no '.' has no extension. */
  lemma {:induction false} NoDotNoExt(s: string)
    requires NoDot(s)
    ensures FileExt(s) == ""
    decreases |s|
  {
    if |s| > 0 && s[|s| - 1] != '/' {
      NoDotNoExt(s[..|s| - 1]);
    }
  }

  lemma DecimalNoDot(n: int)
    ensures NoDot(IntToDecimal(n))
  {
    var d := NatToDecimal(if n < 0 then -n else n);
    assert AllDigits(d);
    if n < 0 {
      assert forall i :: 1 <= i < |IntToDecimal(n)| ==> IntToDecimal(n)[i] == d[i - 1];
    }
  }

  /** The stored copy keeps the extension of the uploaded name. */
  lemma StoredNameExt(projectId: int, timestamp: int, filename: string)
    ensures FileExt(StoredName(projectId, timestamp, filename)) == FileExt(filename)
  {
    var prefix := IntToDecimal(projectId) + "_" + IntToDecimal(timestamp);
    var e := FileExt(filename);
    ExtShape(filename);
    if e == [] {
      DecimalNoDot(projectId);
      DecimalNoDot(timestamp);
      assert NoDot(prefix);
      NoDotNoExt(prefix);
      assert StoredName(projectId, timestamp, filename) == prefix;
    } else {
      ExtOfSuffix(prefix, e);
    }
  }

  /** In a digit string followed by a non-digit (or nothing), the digits end exactly where the string says. */
  lemma DigitsThen(a: string, x: string)
    requires AllDigits(a)
    ensures forall i :: 0 <= i < |a| ==> IsDigit((a + x)[i])
    ensures |x| > 0 ==> (a + x)[|a|] == x[0]
  {
  }

  lemma DigitRunUnique(a: string, x: string, b: string, y: string)
    requires AllDigits(a) && AllDigits(b)
    requires x == [] || !IsDigit(x[0])
    requires y == [] || !IsDigit(y[0])
    requires a + x == b + y
    ensures a == b && x == y
  {
    DigitsThen(a, x);
    DigitsThen(b, y);
    assert |a| == |b|;
    assert a == (a + x)[..|a|] == (b + y)[..|b|] == b;
    assert x == (a + x)[|a|..] == (b + y)[|b|..] == y;
  }

  /**
   * For non-negative ids and times, the stored name determines the project, the second and
   * the extension: different projects, or uploads in different seconds, never share a name.
   */
  lemma StoredNameInjective(p1: int, t1: int, f1: string, p2: int, t2: int, f2: string)
    requires p1 >= 0 && t1 >= 0 && p2 >= 0 && t2 >= 0
    requires StoredName(p1, t1, f1) == StoredName(p2, t2, f2)
    ensures p1 == p2 && t1 == t2 && FileExt(f1) == FileExt(f2)
  {
    var d1, d2 := NatToDecimal(p1), NatToDecimal(p2);
    var s1, s2 := NatToDecimal(t1), NatToDecimal(t2);
    var e1, e2 := FileExt(f1), FileExt(f2);
    StoredNameShape(p1, t1, f1);
    StoredNameShape(p2, t2, f2);
    SplitAtUnderscore(d1, s1 + e1, d2, s2 + e2);
    ExtShape(f1);
    ExtShape(f2);
    DigitRunUnique(s1, e1, s2, e2);
    DecimalValue(p1);
    DecimalValue(p2);
    DecimalValue(t1);
    DecimalValue(t2);
  }

  lemma StoredNameShape(p: int, t: int, f: string)
    requires p >= 0 && t >= 0
    ensures StoredName(p, t, f) == NatToDecimal(p) + ("_" + (NatToDecimal(t) + FileExt(f)))
  {
  }

  lemma SplitAtUnderscore(a: string, x: string, b: string, y: string)
    requires AllDigits(a) && AllDigits(b)
    requires a + ("_" + x) == b + ("_" + y)
    ensures a == b && x == y
  {
    DigitRunUnique(a, "_" + x, b, "_" + y);
    assert x == ("_" + x)[1..];
    assert y == ("_" + y)[1..];
  }
}
