/**
 * The project service of the transcription tool: how it cleans up the paging parameters of
 * the list and which ids, names and descriptions it lets through to the repository.
 */
module ProjectService {
  import opened Wrappers
  import opened Strings
  import ProjectRepo

  const DefaultLimit := 20
  const MaxLimit := 100
  const MaxNameBytes := 255
  const MaxDescriptionBytes := 1000

  /** A page before the first is the first. */
  function ClampPage(page: int): (p: int)
    ensures p >= 1
    ensures page >= 1 ==> p == page
    ensures page < 1 ==> p == 1
  {
    if page < 1 then 1 else page
  }

  /** A page size outside 1..100 becomes 20. */
  function ClampLimit(limit: int): (l: int)
    ensures 1 <= l <= MaxLimit
    ensures 1 <= limit <= MaxLimit ==> l == limit
    ensures !(1 <= limit <= MaxLimit) ==> l == DefaultLimit
  {
    if limit < 1 || limit > MaxLimit then DefaultLimit else limit
  }

  /** What `List` asks the repository for. */
  function List(page: int, limit: int, query: string, sort: string): ProjectRepo.ListPlan
  {
    ProjectRepo.PlanList(ClampPage(page), ClampLimit(limit), query, sort)
  }

  /** The guard of `GetByID`, `Update` and `Delete`. */
  function CheckId(id: int): (r: Outcome)
    ensures r.Pass? <==> id >= 1
    ensures r.Fail? ==> r.error == "invalid project id"
  {
    if id < 1 then Fail("invalid project id") else Pass
  }

  /**
   * The name, with surrounding white space trimmed, must be non-empty and at most 255 bytes
   * of UTF-8; the description, as given, at most 1000 bytes.
   */
  function ValidateProjectInput(name: string, description: string): (r: Outcome)
  {
    var trimmed := GoTrimSpace(name);
    if trimmed == "" then Fail("project name is required")
    else if Utf8Length(trimmed) > MaxNameBytes then Fail("project name must be less than 255 characters")
    else if Utf8Length(description) > MaxDescriptionBytes then Fail("project description must be less than 1000 characters")
    else Pass
  }

  /** `Create` validates the input before the repository sees it. */
  function Create(name: string, description: string, created: Outcome): (r: Outcome)
    ensures ValidateProjectInput(name, description).Fail? ==> r == ValidateProjectInput(name, description)
    ensures ValidateProjectInput(name, description).Pass? ==> r == created
  {
    var v := ValidateProjectInput(name, description);
    if v.Fail? then v else created
  }

  /** `Update` checks the id, then the input, before the repository sees them. */
  function Update(id: int, name: string, description: string, updated: Outcome): (r: Outcome)
    ensures id < 1 ==> r == Fail("invalid project id")
    ensures id >= 1 && ValidateProjectInput(name, description).Fail? ==> r == ValidateProjectInput(name, description)
    ensures id >= 1 && ValidateProjectInput(name, description).Pass? ==> r == updated
  {
    var c := CheckId(id);
    if c.Fail? then c
    else
      var v := ValidateProjectInput(name, description);
      if v.Fail? then v else updated
  }

  // ---------------------------------------------------------------------------
  // Properties
  // ---------------------------------------------------------------------------

  /**
   * Whatever the caller passes, the list asks for between 1 and 100 rows starting at a
   * non-negative multiple of the page size; in-range parameters are kept.
   */
  lemma ListBounds(page: int, limit: int, query: string, sort: string)
    ensures var plan := List(page, limit, query, sort);
      && 1 <= plan.limit <= MaxLimit
      && plan.offset >= 0 && plan.offset % plan.limit == 0
      && (page >= 1 && 1 <= limit <= MaxLimit ==> plan.offset == (page - 1) * limit && plan.limit == limit)
  {
    var p, l := ClampPage(page), ClampLimit(limit);
    MultipleOfLimit(p - 1, l);
  }

  lemma MultipleOfLimit(k: int, l: int)
    requires k >= 0 && l >= 1
    ensures k * l >= 0 && (k * l) % l == 0
  {
    var m := k * l;
    var q, r := m / l, m % l;
    assert m == q * l + r && 0 <= r < l;
    var d := k - q;
    assert d * l == r by {
      assert d * l == k * l - q * l;
    }
    assert d >= 1 ==> d * l >= l;
    assert d <= -1 ==> d * l <= -l;
    assert d == 0;
  }

  lemma {:induction false} AsciiBytes(s: string)
    requires forall i :: 0 <= i < |s| ==> s[i] as int < 0x80
    ensures Utf8Length(s) == |s|
  {
    if s != [] {
      AsciiBytes(s[1..]);
    }
  }

  lemma {:induction false} ThreeByteChars(s: string)
    requires forall i :: 0 <= i < |s| ==> 0x800 <= s[i] as int < 0x10000
    ensures Utf8Length(s) == 3 * |s|
  {
    if s != [] {
      ThreeByteChars(s[1..]);
    }
  }

  /**
   * The input passes exactly when the trimmed name has some character and at most 255
   * bytes and the description at most 1000 bytes; the first failing check names the error.
   */
  lemma ValidateMeaning(name: string, description: string)
    ensures ValidateProjectInput(name, description).Pass? <==>
      && (exists i :: 0 <= i < |name| && !IsGoSpace(name[i]))
      && Utf8Length(GoTrimSpace(name)) <= MaxNameBytes
      && Utf8Length(description) <= MaxDescriptionBytes
    ensures (forall i :: 0 <= i < |name| ==> IsGoSpace(name[i])) ==>
      ValidateProjectInput(name, description) == Fail("project name is required")
  {
    GoTrimSpaceEmpty(name);
  }

  /** Spaces around the name are not counted: a padded name validates as the bare one. */
  lemma {:induction false} LeadingSpaceIgnored(c: char, name: string, description: string)
    requires IsGoSpace(c)
    ensures ValidateProjectInput([c] + name, description) == ValidateProjectInput(name, description)
  {
    assert ([c] + name)[1..] == name;
    assert DropWhile([c] + name, IsGoSpace) == DropWhile(name, IsGoSpace);
  }

  /**
   * The name limit counts bytes and is inclusive: 255 ASCII characters pass and 256 do not,
   * while 86 characters of three bytes each (258 bytes) already fail.
   */
  lemma NameLimit(name: string, description: string)
    requires |name| > 0 && !IsGoSpace(name[0]) && !IsGoSpace(name[|name| - 1])
    requires Utf8Length(description) <= MaxDescriptionBytes
    ensures (forall i :: 0 <= i < |name| ==> name[i] as int < 0x80) ==>
      (ValidateProjectInput(name, description).Pass? <==> |name| <= 255)
    ensures (forall i :: 0 <= i < |name| ==> 0x800 <= name[i] as int < 0x10000) ==>
      (ValidateProjectInput(name, description).Pass? <==> |name| <= 85)
  {
    assert DropWhile(name, IsGoSpace) == name;
    assert DropLastWhile(name, IsGoSpace) == name;
    if forall i :: 0 <= i < |name| ==> name[i] as int < 0x80 {
      AsciiBytes(name);
    }
    if forall i :: 0 <= i < |name| ==> 0x800 <= name[i] as int < 0x10000 {
      ThreeByteChars(name);
    }
  }
}
