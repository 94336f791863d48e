/**
 * The list editing behind the project pages: creating a project, and adding, replacing,
 * deleting and importing entries of a project's derived-column and filter lists. Loading
 * and saving the lists are inputs and outputs of the model: a load is a `Result`, and a
 * successful edit is the list that would be saved.
 */
module ConfigLists {
  import opened Wrappers
  import opened Strings
  import opened Derived
  import opened ProjectPaths

  /** What a handler answers: the list it saves, or an HTTP status with an error message. */
  datatype Response<T> = Saved(entries: seq<T>) | Rejected(status: int, message: string)

  const BadRequest := 400
  const InternalServerError := 500

  datatype ListKind = DerivedColumnList | FilterList

  function LoadFailure(kind: ListKind): string
  {
    match kind
    case DerivedColumnList => "Failed to load derived columns"
    case FilterList => "Failed to load filters"
  }

  /** A project needs a name; the id and the clock reading come from outside. */
  function CreateProject(name: string, description: string, id: string, now: int): (r: Result<Project>)
    ensures r.Failure? <==> name == ""
    ensures r.Success? ==> r.value.name == name && r.value.id == id && r.value.status == StatusImporting
  {
    if name == "" then Failure("Project name is required") else Success(NewProject(id, name, description, now))
  }

  /** The index of the path, as `%d` scans it into a variable that starts at 0 and keeps it on failure. */
  function ParseIndex(indexStr: string): int
  {
    match ScanDecimal(indexStr)
    case None => 0
    case Some(n) => n
  }

  // ---------------------------------------------------------------------------
  // Add
  // ---------------------------------------------------------------------------

  /** Appends the bound entry to the loaded list; a list that does not load counts as empty. */
  function AddEntry<T>(loaded: Result<seq<T>>, body: Option<T>): (r: Response<T>)
    ensures body.None? <==> r == Rejected(BadRequest, "Invalid request body")
    ensures body.Some? && loaded.Success? ==>
      r.Saved? && |r.entries| == |loaded.value| + 1
      && r.entries[..|loaded.value|] == loaded.value && r.entries[|loaded.value|] == body.value
    ensures body.Some? && loaded.Failure? ==> r == Saved([body.value])
  {
    if body.None? then Rejected(BadRequest, "Invalid request body")
    else if loaded.Success? then Saved(loaded.value + [body.value])
    else Saved([body.value])
  }

  // ---------------------------------------------------------------------------
  // Update
  // ---------------------------------------------------------------------------

  /** The handler's decision, in its order of checks: body, then load, then index. */
  function UpdateOutcome<T>(loaded: Result<seq<T>>, indexStr: string, body: Option<T>, kind: ListKind): Response<T>
  {
    var index := ParseIndex(indexStr);
    if body.None? then Rejected(BadRequest, "Invalid request body")
    else if loaded.Failure? then Rejected(InternalServerError, LoadFailure(kind))
    else if index < 0 || index >= |loaded.value| then Rejected(BadRequest, "Invalid index")
    else Saved(loaded.value[index := body.value])
  }

  /** Overwrites one element of the array in place when the index is in range. */
  method ReplaceAt<T>(entries: array<T>, index: int, entry: T) returns (ok: bool)
    modifies entries
    ensures ok <==> 0 <= index < entries.Length
    ensures ok ==> entries[..] == old(entries[..])[index := entry]
    ensures !ok ==> entries[..] == old(entries[..])
  {
    if index < 0 || index >= entries.Length {
      return false;
    }
    entries[index] := entry;
    return true;
  }

  method UpdateEntry<T>(loaded: Result<seq<T>>, indexStr: string, body: Option<T>, kind: ListKind) returns (r: Response<T>)
    ensures r == UpdateOutcome(loaded, indexStr, body, kind)
  {
    var index := 0;
    var scanned := ScanDecimal(indexStr);
    if scanned.Some? {
      index := scanned.value;
    }
    if body.None? {
      return Rejected(BadRequest, "Invalid request body");
    }
    if loaded.Failure? {
      return Rejected(InternalServerError, LoadFailure(kind));
    }
    var list := loaded.value;
    var entries := new T[|list|](i requires 0 <= i < |list| => list[i]);
    assert entries[..] == list;
    var ok := ReplaceAt(entries, index, body.value);
    if !ok {
      return Rejected(BadRequest, "Invalid index");
    }
    return Saved(entries[..]);
  }

  /**
   * An update either saves a list of the same length that differs from the loaded one
   * only at the index, where it holds the new entry, or rejects: an out-of-range index,
   * negative ones included, is a bad request and nothing is saved.
   */
  lemma UpdateMeaning<T>(loaded: Result<seq<T>>, indexStr: string, body: Option<T>, kind: ListKind)
    requires body.Some? && loaded.Success?
    ensures var r := UpdateOutcome(loaded, indexStr, body, kind);
      var index := ParseIndex(indexStr);
      && (r == Rejected(BadRequest, "Invalid index") <==> !(0 <= index < |loaded.value|))
      && (r.Saved? ==>
            && |r.entries| == |loaded.value|
            && r.entries[index] == body.value
            && forall j :: 0 <= j < |loaded.value| && j != index ==> r.entries[j] == loaded.value[j])
  {
  }

  /** An index that does not scan as a number addresses the first entry. */
  lemma UnscannableIndexIsFirst<T>(loaded: Result<seq<T>>, indexStr: string, body: Option<T>, kind: ListKind)
    requires body.Some? && loaded.Success? && |loaded.value| > 0
    requires ScanDecimal(indexStr).None?
    ensures UpdateOutcome(loaded, indexStr, body, kind) == Saved([body.value] + loaded.value[1..])
  {
    var list := loaded.value;
    assert list[0 := body.value] == [body.value] + list[1..];
  }

  // ---------------------------------------------------------------------------
  // Delete
  // ---------------------------------------------------------------------------

  function DeleteOutcome<T>(loaded: Result<seq<T>>, indexStr: string, kind: ListKind): Response<T>
  {
    var index := ParseIndex(indexStr);
    if loaded.Failure? then Rejected(InternalServerError, LoadFailure(kind))
    else if index < 0 || index >= |loaded.value| then Rejected(BadRequest, "Invalid index")
    else Saved(loaded.value[..index] + loaded.value[index + 1..])
  }

  /**
   * Go's `append(s[:i], s[i+1:]...)`: shifts the elements after `index` one place to the
   * left in the same array; the list is then the first `Length - 1` elements.
   */
  method RemoveAt<T>(entries: array<T>, index: nat) returns (n: nat)
    requires index < entries.Length
    modifies entries
    ensures n == entries.Length - 1
    ensures entries[..n] == old(entries[..index]) + old(entries[index + 1..])
  {
    ghost var before := entries[..];
    n := entries.Length - 1;
    for k := index to n
      invariant entries[..index] == before[..index]
      invariant forall j :: index <= j < k ==> entries[j] == before[j + 1]
      invariant forall j :: k < j < entries.Length ==> entries[j] == before[j]
    {
      entries[k] := entries[k + 1];
    }
    assert entries[..n] == before[..index] + before[index + 1..];
  }

  method DeleteEntry<T>(loaded: Result<seq<T>>, indexStr: string, kind: ListKind) returns (r: Response<T>)
    ensures r == DeleteOutcome(loaded, indexStr, kind)
  {
    var index := 0;
    var scanned := ScanDecimal(indexStr);
    if scanned.Some? {
      index := scanned.value;
    }
    if loaded.Failure? {
      return Rejected(InternalServerError, LoadFailure(kind));
    }
    var list := loaded.value;
    if index < 0 || index >= |list| {
      return Rejected(BadRequest, "Invalid index");
    }
    var entries := new T[|list|](i requires 0 <= i < |list| => list[i]);
    assert entries[..] == list;
    assert entries[..index] == list[..index] && entries[index + 1..] == list[index + 1..];
    var n := RemoveAt(entries, index);
    assert entries[..n] == list[..index] + list[index + 1..];
    return Saved(entries[..n]);
  }

  /**
   * A deletion removes exactly the entry at the index: the list is one shorter, the
   * entries before it stay in place, those after it move up by one, and nothing else
   * is lost.
   */
  lemma DeleteMeaning<T>(loaded: Result<seq<T>>, indexStr: string, kind: ListKind)
    requires loaded.Success?
    ensures var r := DeleteOutcome(loaded, indexStr, kind);
      var index := ParseIndex(indexStr);
      var list := loaded.value;
      && (r == Rejected(BadRequest, "Invalid index") <==> !(0 <= index < |list|))
      && (r.Saved? ==>
            && |r.entries| == |list| - 1
            && (forall j :: 0 <= j < index ==> r.entries[j] == list[j])
            && (forall j :: index <= j < |r.entries| ==> r.entries[j] == list[j + 1])
            && multiset(r.entries) + multiset{list[index]} == multiset(list))
  {
    var index := ParseIndex(indexStr);
    if 0 <= index < |loaded.value| {
      Spliced(loaded.value, index);
    }
  }

  lemma Spliced<T>(list: seq<T>, index: nat)
    requires index < |list|
    ensures var rest := list[..index] + list[index + 1..];
      && |rest| == |list| - 1
      && (forall j :: 0 <= j < index ==> rest[j] == list[j])
      && (forall j :: index <= j < |rest| ==> rest[j] == list[j + 1])
      && multiset(rest) + multiset{list[index]} == multiset(list)
  {
    assert list == list[..index] + [list[index]] + list[index + 1..];
  }

  // ---------------------------------------------------------------------------
  // Import of templates
  // ---------------------------------------------------------------------------

  /** The requested template indices that are in range, in request order. */
  function InRange(indices: seq<int>, n: int): (r: seq<nat>)
    ensures |r| <= |indices|
    ensures forall j :: 0 <= j < |r| ==> r[j] < n
    ensures forall x: nat :: multiset(r)[x] == (if x < n then multiset(indices)[x] else 0)
  {
    if indices == [] then []
    else
      var last := indices[|indices| - 1];
      assert indices == indices[..|indices| - 1] + [last];
      InRange(indices[..|indices| - 1], n) + (if 0 <= last < n then [last as nat] else [])
  }

  /** The in-range indices of a request are those of its parts, part after part. */
  lemma {:induction false} InRangeAppend(a: seq<int>, b: seq<int>, n: int)
    ensures InRange(a + b, n) == InRange(a, n) + InRange(b, n)
    decreases |b|
  {
    if b == [] {
      assert a + b == a;
    } else {
      var front := b[..|b| - 1];
      assert (a + b)[..|a + b| - 1] == a + front;
      assert (a + b)[|a + b| - 1] == b[|b| - 1];
      InRangeAppend(a, front, n);
    }
  }

  function NamesOf(cols: seq<DerivedColumn>): set<string>
  {
    set i | 0 <= i < |cols| :: cols[i].name
  }

  /** The name `original (k)`. */
  function Suffixed(original: string, k: int): string
  {
    original + " (" + IntToDecimal(k) + ")"
  }

  /** `name` is the original name when that is free, else `original (k)` for the smallest free k >= 2. */
  ghost predicate FirstFree(taken: set<string>, original: string, name: string)
  {
    && name !in taken
    && (name == original || (original in taken && exists k :: SmallestFree(taken, original, name, k)))
  }

  ghost predicate SmallestFree(taken: set<string>, original: string, name: string, k: int)
  {
    k >= 2 && name == Suffixed(original, k) && forall c :: 2 <= c < k ==> Suffixed(original, c) in taken
  }

  /** The number can be read back from between the parentheses. */
  lemma SuffixedNumber(original: string, k: nat)
    ensures var s := Suffixed(original, k);
      |s| >= |original| + 3 && DigitsValue(s[|original| + 2..|s| - 1]) == k
  {
    var s := Suffixed(original, k);
    var d := NatToDecimal(k);
    assert s == original + " (" + d + ")";
    assert s[|original| + 2..|s| - 1] == d;
    DecimalValue(k);
  }

  lemma SuffixedInjective(original: string, a: nat, b: nat)
    requires a != b
    ensures Suffixed(original, a) != Suffixed(original, b)
  {
    SuffixedNumber(original, a);
    SuffixedNumber(original, b);
  }

  /** No suffixed name is tried twice, and none is the original. */
  lemma NotTried(original: string, tried: set<string>, counter: int)
    requires counter >= 2
    requires forall t :: t in tried ==> t == original || exists c :: 2 <= c < counter && t == Suffixed(original, c)
    ensures Suffixed(original, counter) !in tried
  {
    var name := Suffixed(original, counter);
    forall t | t in tried ensures t != name {
      if t == original {
        assert |name| > |original|;
      } else {
        var c :| 2 <= c < counter && t == Suffixed(original, c);
        SuffixedInjective(original, c, counter);
      }
    }
  }

  /** Tries the original name, then `original (2)`, `original (3)`, … until one is free. */
  method FreshName(taken: set<string>, original: string) returns (name: string)
    ensures FirstFree(taken, original, name)
  {
    name := original;
    var counter := 2;
    ghost var tried: set<string> := {};
    while name in taken
      invariant counter >= 2
      invariant tried <= taken && name !in tried
      invariant forall t :: t in tried ==> t == original || exists c :: 2 <= c < counter && t == Suffixed(original, c)
      invariant counter == 2 ==> name == original
      invariant counter > 2 ==> original in taken && name == Suffixed(original, counter - 1)
      invariant forall c :: 2 <= c < counter - 1 ==> Suffixed(original, c) in taken
      decreases |taken - tried|
    {
      assert taken - tried == (taken - (tried + {name})) + {name};
      tried := tried + {name};
      NotTried(original, tried, counter);
      name := Suffixed(original, counter);
      counter := counter + 1;
    }
    if counter > 2 {
      assert SmallestFree(taken, original, name, counter - 1);
    }
  }

  /**
   * The import appends, after the existing columns and in request order, one copy of each
   * in-range template; the copy differs from its template only in its name, which is the
   * first free name among those already in the list.
   */
  ghost predicate ImportedFrom(templates: seq<DerivedColumn>, columns: seq<DerivedColumn>, indices: seq<int>, result: seq<DerivedColumn>, importedCount: int)
  {
    var picked := InRange(indices, |templates|);
    && importedCount == |picked|
    && |result| == |columns| + importedCount
    && result[..|columns|] == columns
    && forall j :: 0 <= j < importedCount ==>
         && result[|columns| + j] == templates[picked[j]].(name := result[|columns| + j].name)
         && FirstFree(NamesOf(result[..|columns| + j]), templates[picked[j]].name, result[|columns| + j].name)
  }

  lemma NamesOfAppend(cols: seq<DerivedColumn>, c: DerivedColumn)
    ensures NamesOf(cols + [c]) == NamesOf(cols) + {c.name}
  {
    var s := cols + [c];
    assert forall i :: 0 <= i < |cols| ==> s[i] == cols[i];
    assert s[|cols|] == c;
  }

  lemma InRangeStep(indices: seq<int>, n: int, k: nat)
    requires k < |indices|
    ensures InRange(indices[..k + 1], n) == InRange(indices[..k], n) + (if 0 <= indices[k] < n then [indices[k] as nat] else [])
  {
    assert indices[..k + 1][..k] == indices[..k];
  }

  /** An out-of-range index imports nothing. */
  lemma SkipStep(templates: seq<DerivedColumn>, columns: seq<DerivedColumn>, indices: seq<int>, k: nat, result: seq<DerivedColumn>, importedCount: int)
    requires k < |indices| && !(0 <= indices[k] < |templates|)
    requires ImportedFrom(templates, columns, indices[..k], result, importedCount)
    ensures ImportedFrom(templates, columns, indices[..k + 1], result, importedCount)
  {
    InRangeStep(indices, |templates|, k);
  }

  /** An in-range index appends its template under a first free name. */
  lemma ImportStep(templates: seq<DerivedColumn>, columns: seq<DerivedColumn>, indices: seq<int>, k: nat,
                   result: seq<DerivedColumn>, importedCount: int, newName: string)
    requires k < |indices| && 0 <= indices[k] < |templates|
    requires ImportedFrom(templates, columns, indices[..k], result, importedCount)
    requires FirstFree(NamesOf(result), templates[indices[k]].name, newName)
    ensures ImportedFrom(templates, columns, indices[..k + 1], result + [templates[indices[k]].(name := newName)], importedCount + 1)
  {
    InRangeStep(indices, |templates|, k);
    var next := result + [templates[indices[k]].(name := newName)];
    var picked := InRange(indices[..k + 1], |templates|);
    assert picked == InRange(indices[..k], |templates|) + [indices[k] as nat];
    assert next[..|result|] == result;
    assert next[..|columns|] == columns;
    forall j | 0 <= j < importedCount + 1
      ensures next[|columns| + j] == templates[picked[j]].(name := next[|columns| + j].name)
      ensures FirstFree(NamesOf(next[..|columns| + j]), templates[picked[j]].name, next[|columns| + j].name)
    {
      if j < importedCount {
        assert next[..|columns| + j] == result[..|columns| + j];
        assert next[|columns| + j] == result[|columns| + j];
      } else {
        assert next[..|columns| + j] == result;
      }
    }
  }

  method ImportTemplates(templates: seq<DerivedColumn>, columns: seq<DerivedColumn>, indices: seq<int>)
    returns (result: seq<DerivedColumn>, importedCount: nat)
    ensures ImportedFrom(templates, columns, indices, result, importedCount)
  {
    result := columns;
    var existingNames := NamesOf(columns);
    importedCount := 0;
    assert columns[..|columns|] == columns;
    for k := 0 to |indices|
      invariant ImportedFrom(templates, columns, indices[..k], result, importedCount)
      invariant existingNames == NamesOf(result)
    {
      var idx := indices[k];
      if idx < 0 || idx >= |templates| {
        SkipStep(templates, columns, indices, k, result, importedCount);
        continue;
      }
      var template := templates[idx];
      var newName := FreshName(existingNames, template.name);
      ImportStep(templates, columns, indices, k, result, importedCount, newName);
      template := template.(name := newName);
      NamesOfAppend(result, template);
      existingNames := existingNames + {newName};
      result := result + [template];
      importedCount := importedCount + 1;
    }
    assert indices[..|indices|] == indices;
  }

  /** The import's answer: the list it saves and how many templates it added, or an HTTP status with an error message. */
  datatype ImportResponse = ImportSaved(columns: seq<DerivedColumn>, importedCount: nat) | ImportRejected(status: int, message: string)

  /**
   * The handler's checks, in order: the request body must bind to a list of indices, then
   * the templates must load; the project's own list counts as empty when it does not load.
   */
  method ImportDerivedColumnTemplates(body: Option<seq<int>>, templates: Result<seq<DerivedColumn>>, loaded: Result<seq<DerivedColumn>>)
    returns (r: ImportResponse)
    ensures body.None? <==> r == ImportRejected(BadRequest, "Invalid request body")
    ensures body.Some? && templates.Failure? ==> r == ImportRejected(InternalServerError, "Failed to load templates")
    ensures r.ImportSaved? <==> body.Some? && templates.Success?
    ensures r.ImportSaved? ==>
      ImportedFrom(templates.value, if loaded.Success? then loaded.value else [], body.value, r.columns, r.importedCount)
  {
    if body.None? {
      return ImportRejected(BadRequest, "Invalid request body");
    }
    if templates.Failure? {
      return ImportRejected(InternalServerError, "Failed to load templates");
    }
    var columns := if loaded.Success? then loaded.value else [];
    var result, importedCount := ImportTemplates(templates.value, columns, body.value);
    return ImportSaved(result, importedCount);
  }

  /** After an import every imported name is new: it differs from the existing names and from every other imported name. */
  lemma ImportedNamesUnique(templates: seq<DerivedColumn>, columns: seq<DerivedColumn>, indices: seq<int>, result: seq<DerivedColumn>, importedCount: int, i: nat, j: nat)
    requires ImportedFrom(templates, columns, indices, result, importedCount)
    requires i < |result| && |columns| <= j < |result| && i != j
    ensures result[i].name != result[j].name
  {
    if i < j {
      assert result[i] == result[..j][i];
      assert FirstFree(NamesOf(result[..j]), templates[InRange(indices, |templates|)[j - |columns|]].name, result[j].name);
    } else {
      assert result[j] == result[..i][j];
      assert FirstFree(NamesOf(result[..i]), templates[InRange(indices, |templates|)[i - |columns|]].name, result[i].name);
    }
  }
}
