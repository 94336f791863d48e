/**
 * A survey project and where its files live: one directory per project under a base
 * directory, holding the database, the source workbook and the three configuration files.
 */
module ProjectPaths {

  /** The record; times are whatever clock reading the caller passes. */
  datatype Project = Project(
    id: string,
    name: string,
    description: string,
    createdAt: int,
    updatedAt: int,
    tableName: string,
    excelFilename: string,
    status: string)

  const StatusReady := "ready"
  const StatusImporting := "importing"
  const StatusError := "error"

  /** A new project, stamped with `now` as both creation and update time, is importing. */
  function NewProject(id: string, name: string, description: string, now: int): (p: Project)
    ensures p.id == id && p.name == name && p.description == description
    ensures p.status == StatusImporting && p.createdAt == p.updatedAt == now
    ensures p.tableName == "" && p.excelFilename == ""
  {
    Project(id, name, description, now, now, "", "", StatusImporting)
  }

  function ProjectDir(p: Project, baseDir: string): string
  {
    baseDir + "/" + p.id
  }

  datatype ProjectFile = DuckDB | Excel | DerivedColumns | Filters | ColumnOrders

  function FileName(f: ProjectFile): string
  {
    match f
    case DuckDB => "data.duckdb"
    case Excel => "source.xlsx"
    case DerivedColumns => "derived_columns.yaml"
    case Filters => "filters.yaml"
    case ColumnOrders => "column_orders.yaml"
  }

  function FilePath(p: Project, baseDir: string, f: ProjectFile): string
  {
    ProjectDir(p, baseDir) + "/" + FileName(f)
  }

  predicate NoSlash(s: string)
  {
    forall i :: 0 <= i < |s| ==> s[i] != '/'
  }

  // ---------------------------------------------------------------------------
  // Properties
  // ---------------------------------------------------------------------------

  lemma CancelPrefix(a: string, x: string, y: string)
    requires a + x == a + y
    ensures x == y
  {
    assert x == (a + x)[|a|..];
    assert y == (a + y)[|a|..];
  }

  /** Projects with different ids under the same base have different directories. */
  lemma DistinctDirs(p: Project, q: Project, baseDir: string)
    requires p.id != q.id
    ensures ProjectDir(p, baseDir) != ProjectDir(q, baseDir)
  {
    if ProjectDir(p, baseDir) == ProjectDir(q, baseDir) {
      assert baseDir + "/" + p.id == (baseDir + "/") + p.id;
      assert baseDir + "/" + q.id == (baseDir + "/") + q.id;
      CancelPrefix(baseDir + "/", p.id, q.id);
    }
  }

  /** Every file of a project sits directly in its directory, and no two kinds share a path. */
  lemma FilesInProjectDir(p: Project, baseDir: string, f: ProjectFile, g: ProjectFile)
    ensures FilePath(p, baseDir, f)[..|ProjectDir(p, baseDir)| + 1] == ProjectDir(p, baseDir) + "/"
    ensures f != g ==> FilePath(p, baseDir, f) != FilePath(p, baseDir, g)
  {
    var dir := ProjectDir(p, baseDir) + "/";
    assert FilePath(p, baseDir, f) == dir + FileName(f);
    assert FilePath(p, baseDir, g) == dir + FileName(g);
    if f != g {
      FileNamesDistinct(f, g);
      if FilePath(p, baseDir, f) == FilePath(p, baseDir, g) {
        CancelPrefix(dir, FileName(f), FileName(g));
      }
    }
  }

  lemma FileNamesDistinct(f: ProjectFile, g: ProjectFile)
    requires f != g
    ensures FileName(f) != FileName(g)
  {
    var a, b := FileName(f), FileName(g);
    if |a| == |b| {
      assert a[0] != b[0];
    }
  }

  /** File names are plain names, not paths. */
  lemma FileNameNoSlash(f: ProjectFile)
    ensures NoSlash(FileName(f))
  {
    match f
    case DuckDB => assert FileName(f) == "data.duckdb";
    case Excel => assert FileName(f) == "source.xlsx";
    case DerivedColumns => assert FileName(f) == "derived_columns.yaml";
    case Filters => assert FileName(f) == "filters.yaml";
    case ColumnOrders => assert FileName(f) == "column_orders.yaml";
  }

  lemma FirstSlash(a: string, x: string, b: string, y: string)
    requires NoSlash(a) && NoSlash(b)
    requires a + "/" + x == b + "/" + y
    ensures a == b && x == y
  {
    var s := a + "/" + x;
    SlashAfter(a, x);
    SlashAfter(b, y);
    assert |a| == |b|;
    assert a == s[..|a|] == b;
    CancelPrefix(a + "/", x, y);
  }

  /** In a + "/" + x with no '/' in a, the first '/' is at |a|. */
  lemma SlashAfter(a: string, x: string)
    requires NoSlash(a)
    ensures (a + "/" + x)[|a|] == '/' && forall i :: 0 <= i < |a| ==> (a + "/" + x)[i] != '/'
  {
  }

  lemma DistinctUnder(baseDir: string, a: string, x: string, b: string, y: string)
    requires a != b && NoSlash(a) && NoSlash(b)
    ensures baseDir + "/" + a + "/" + x != baseDir + "/" + b + "/" + y
  {
    var pre := baseDir + "/";
    assert baseDir + "/" + a + "/" + x == pre + (a + "/" + x);
    assert baseDir + "/" + b + "/" + y == pre + (b + "/" + y);
    if pre + (a + "/" + x) == pre + (b + "/" + y) {
      CancelPrefix(pre, a + "/" + x, b + "/" + y);
      FirstSlash(a, x, b, y);
    }
  }

  /** When ids contain no '/', the files of different projects under one base never collide. */
  lemma DistinctProjectFiles(p: Project, q: Project, baseDir: string, f: ProjectFile, g: ProjectFile)
    requires p.id != q.id && NoSlash(p.id) && NoSlash(q.id)
    ensures FilePath(p, baseDir, f) != FilePath(q, baseDir, g)
  {
    DistinctUnder(baseDir, p.id, FileName(f), q.id, FileName(g));
  }
}
