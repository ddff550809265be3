/**
 * The immutable records of the tool: a project file, a solution repository (a
 * top-level folder with its projects) and a package declaration (a package id
 * together with the projects that build it).  Names are derived from paths.
 */
module Models {
  import opened Wrappers
  import opened Text
  import opened Paths
  import opened ShadowPaths

  /** Identifiers are drawn from a counter instead of `Guid.NewGuid`. */
  type Guid = nat

  datatype Project = Project(relativePath: string, id: Guid) {
    /** The file name without its extension. */
    function Name(): string {
      FileNameWithoutExtension(relativePath)
    }
  }

  datatype SolutionRepository = SolutionRepository(relativePath: string, id: Guid, projects: seq<Project>) {
    function Name(): string {
      FileNameWithoutExtension(relativePath)
    }
  }

  /** `version` is None where the declaring scanner gives no version. */
  datatype PackageDeclaration = PackageDeclaration(relativePath: string, id: string, version: Option<string>, projects: seq<Project>)

  /** The source of fresh identifiers: each call returns one never returned before. */
  class GuidSource {
    var next: nat

    constructor()
      ensures next == 0
    {
      next := 0;
    }

    /** Every identifier issued so far is below `next`. */
    predicate Issued(g: Guid)
      reads this
    {
      g < next
    }

    method NewGuid() returns (g: Guid)
      modifies this
      ensures !old(Issued(g)) && Issued(g)
      ensures next == old(next) + 1
    {
      g := next;
      next := next + 1;
    }
  }

  /** `new Project(path)`: the one-argument constructor draws a fresh identifier. */
  method NewProject(path: string, guids: GuidSource) returns (p: Project)
    modifies guids
    ensures p.relativePath == path
    ensures !old(guids.Issued(p.id)) && guids.Issued(p.id)
    ensures guids.next == old(guids.next) + 1
  {
    var id := guids.NewGuid();
    p := Project(path, id);
  }

  /** `new SolutionRepository(path, projects)`: a fresh identifier, the projects kept in order. */
  method NewSolutionRepository(path: string, projects: seq<Project>, guids: GuidSource) returns (r: SolutionRepository)
    modifies guids
    ensures r.relativePath == path && r.projects == projects
    ensures !old(guids.Issued(r.id)) && guids.Issued(r.id)
    ensures guids.next == old(guids.next) + 1
  {
    var id := guids.NewGuid();
    r := SolutionRepository(path, id, projects);
  }

  lemma FileNameAfterSeparator(dir: string, name: string)
    requires Separator !in name
    ensures FileName(dir + [Separator] + name) == name
  {
    LastIndexOfBeforeSuffix(dir, Separator, name);
    var p := dir + [Separator] + name;
    assert p[|dir| + 1..] == name;
  }

  /** The name of a file `dir/stem.ext` is its stem, whatever the directory holds. */
  lemma NameOfFile(dir: string, stem: string, ext: string)
    requires Separator !in stem && Separator !in ext && '.' !in ext
    ensures FileNameWithoutExtension(dir + [Separator] + (stem + ['.'] + ext)) == stem
  {
    var name := stem + ['.'] + ext;
    FileNameAfterSeparator(dir, name);
    LastIndexOfBeforeSuffix(stem, '.', ext);
    assert name[..|stem|] == stem;
  }

  /**
   * A project `dir/Lib1.csproj` is named "Lib1"; its shadow `dir/Lib1.Shadow.csproj`
   * is named "Lib1.Shadow" (only the last extension is dropped).
   */
  lemma NameOfProjectAndShadow(dir: string, stem: string, id: Guid, shadowId: Guid)
    requires Separator !in stem
    ensures Project(dir + [Separator] + stem + CsprojExt, id).Name() == stem
    ensures Project(dir + [Separator] + (stem + ".Shadow") + CsprojExt, shadowId).Name() == stem + ".Shadow"
  {
    NameWithExtension(dir, stem, CsprojExt);
    NameWithExtension(dir, stem + ".Shadow", CsprojExt);
  }

  lemma NameWithExtension(dir: string, stem: string, ext: string)
    requires Separator !in stem
    requires ext == CsprojExt
    ensures FileNameWithoutExtension(dir + [Separator] + stem + ext) == stem
  {
    var e := ext[1..];
    assert ext == ['.'] + e;
    assert '.' !in e && Separator !in e;
    NameOfFile(dir, stem, e);
    assert dir + [Separator] + stem + ext == dir + [Separator] + (stem + ['.'] + e);
  }
}
