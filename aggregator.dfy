/**
 * The aggregator of the service layer: `Setup` discovers the repositories, flattens
 * their projects and runs the injected package scanners in order over one shared
 * dictionary; `GenerateShadow` asks the generate service for a shadow and gives it a
 * cached identifier; `PushShadowProjects` pushes every project of every repository back,
 * in order, stopping at the first failure.
 */
module Aggregation {
  import opened Wrappers
  import opened Errors
  import opened Paths
  import opened ShadowPaths
  import opened Models
  import opened ProjectDocument
  import opened PackageRegistry
  import opened PackageScanners
  import ShadowGenerate
  import ShadowPush
  import opened Discovery
  import opened GuidCaches

  // ---------------------------------------------------------------------------
  // Scanning
  // ---------------------------------------------------------------------------

  datatype Scanner = ProjectScanner | ManifestScanner

  /** The order in which the service collection registers the scanners. */
  const RegisteredScanners: seq<Scanner> := [ProjectScanner, ManifestScanner]

  /** One scanner's effect on the shared dictionary. */
  function ScanOne(reg: Registry, scanner: Scanner, root: string, projects: seq<Project>,
                   files: map<string, Document>, manifests: seq<string>): Result<Registry, Error>
  {
    match scanner
    case ProjectScanner => ScanProjectsSpec(reg, Some(root), projects, files)
    case ManifestScanner => Ok(ScanManifestsSpec(reg, manifests, projects))
  }

  /** The dictionary after running `scanners` in order, or the first failure. */
  function ScanAll(reg: Registry, scanners: seq<Scanner>, root: string, projects: seq<Project>,
                   files: map<string, Document>, manifests: seq<string>): Result<Registry, Error>
    decreases |scanners|
  {
    if |scanners| == 0 then Ok(reg)
    else
      var next :- ScanOne(reg, scanners[0], root, projects, files, manifests);
      ScanAll(next, scanners[1..], root, projects, files, manifests)
  }

  lemma ScanOneExtends(reg: Registry, scanner: Scanner, root: string, projects: seq<Project>,
                       files: map<string, Document>, manifests: seq<string>)
    requires ScanOne(reg, scanner, root, projects, files, manifests).Ok?
    ensures ScanOne(reg, scanner, root, projects, files, manifests).value.Extends(reg)
    ensures reg.Valid() ==> ScanOne(reg, scanner, root, projects, files, manifests).value.Valid()
    ensures reg.KeyedById() ==> ScanOne(reg, scanner, root, projects, files, manifests).value.KeyedById()
  {
    match scanner
    case ProjectScanner => ScanProjectsExtends(reg, projects, KeyFunction(Some(root), files));
    case ManifestScanner => ScanManifestsExtends(reg, manifests, projects, FileNameWithoutExtension);
  }

  /**
   * First wins across scanners: a successful run keeps every entry already present,
   * and keeps the dictionary a valid, id-keyed one.
   */
  lemma {:induction false} ScanAllExtends(reg: Registry, scanners: seq<Scanner>, root: string, projects: seq<Project>,
                                         files: map<string, Document>, manifests: seq<string>)
    requires ScanAll(reg, scanners, root, projects, files, manifests).Ok?
    ensures ScanAll(reg, scanners, root, projects, files, manifests).value.Extends(reg)
    ensures reg.Valid() ==> ScanAll(reg, scanners, root, projects, files, manifests).value.Valid()
    ensures reg.KeyedById() ==> ScanAll(reg, scanners, root, projects, files, manifests).value.KeyedById()
    decreases |scanners|
  {
    if |scanners| == 0 {
      ExtendsReflexive(reg);
    } else {
      var next := ScanOne(reg, scanners[0], root, projects, files, manifests).value;
      ScanOneExtends(reg, scanners[0], root, projects, files, manifests);
      ScanAllExtends(next, scanners[1..], root, projects, files, manifests);
      ExtendsTransitive(reg, next, ScanAll(next, scanners[1..], root, projects, files, manifests).value);
    }
  }

  /** A project's key that cannot be read. */
  predicate SomeKeyFails(root: string, projects: seq<Project>, files: map<string, Document>) {
    exists i :: 0 <= i < |projects| && KeyOf(Some(root), projects[i], files).Err?
  }

  /** `SomeKeyFails` in terms of the project scanner's key function. */
  lemma SomeKeyFailsByFunction(root: string, projects: seq<Project>, files: map<string, Document>)
    ensures SomeKeyFails(root, projects, files)
        <==> exists i :: 0 <= i < |projects| && KeyFunction(Some(root), files)(projects[i]).Err?
  {
    var keyOf := KeyFunction(Some(root), files);
    assert forall i :: 0 <= i < |projects| ==> keyOf(projects[i]) == KeyOf(Some(root), projects[i], files);
  }

  /**
   * Scanning fails exactly when a project scanner runs and some project has no readable
   * key; the manifest scanner never fails once the projects are known.
   */
  lemma {:induction false} ScanAllFails(reg: Registry, scanners: seq<Scanner>, root: string, projects: seq<Project>,
                                       files: map<string, Document>, manifests: seq<string>)
    ensures ScanAll(reg, scanners, root, projects, files, manifests).Err?
        <==> ProjectScanner in scanners && SomeKeyFails(root, projects, files)
    decreases |scanners|
  {
    if |scanners| > 0 {
      ScanOneFails(reg, scanners[0], root, projects, files, manifests);
      var step := ScanOne(reg, scanners[0], root, projects, files, manifests);
      assert scanners == [scanners[0]] + scanners[1..];
      if step.Ok? {
        ScanAllFails(step.value, scanners[1..], root, projects, files, manifests);
      }
    }
  }

  /** One scanner fails exactly when it is the project scanner and some project has no readable key. */
  lemma ScanOneFails(reg: Registry, scanner: Scanner, root: string, projects: seq<Project>,
                     files: map<string, Document>, manifests: seq<string>)
    ensures ScanOne(reg, scanner, root, projects, files, manifests).Err?
        <==> scanner == ProjectScanner && SomeKeyFails(root, projects, files)
  {
    if scanner == ProjectScanner {
      ScanProjectsFails(reg, projects, KeyFunction(Some(root), files));
      SomeKeyFailsByFunction(root, projects, files);
    }
  }

  /** With the registered order, the manifest scan runs on the dictionary the project scan left. */
  lemma RegisteredOrder(root: string, projects: seq<Project>, files: map<string, Document>, manifests: seq<string>)
    requires ScanAll(Empty, RegisteredScanners, root, projects, files, manifests).Ok?
    ensures ScanProjectsSpec(Empty, Some(root), projects, files).Ok?
    ensures ScanAll(Empty, RegisteredScanners, root, projects, files, manifests).value
         == ScanManifestsWith(ScanProjectsSpec(Empty, Some(root), projects, files).value, manifests, projects, FileNameWithoutExtension)
  {
    ScanAllPair(Empty, ProjectScanner, ManifestScanner, root, projects, files, manifests);
  }

  /**
   * With the registered order the projects come first: a project keeps its own
   * declaration when no earlier project had its key, whatever manifest shares its stem.
   */
  lemma ProjectsWin(root: string, projects: seq<Project>, files: map<string, Document>, manifests: seq<string>, i: nat)
    requires i < |projects| && ScanAll(Empty, RegisteredScanners, root, projects, files, manifests).Ok?
    ensures KeyOf(Some(root), projects[i], files).Ok?
    ensures KeyOf(Some(root), projects[i], files).value in ScanAll(Empty, RegisteredScanners, root, projects, files, manifests).value.entries
    ensures var key := KeyOf(Some(root), projects[i], files).value;
      (forall j :: 0 <= j < i ==> KeyOf(Some(root), projects[j], files) != Ok(key))
      ==> ScanAll(Empty, RegisteredScanners, root, projects, files, manifests).value.entries[key] == ProjectDeclaration(projects[i], key)
  {
    RegisteredOrder(root, projects, files, manifests);
    var afterProjects := ScanProjectsSpec(Empty, Some(root), projects, files).value;
    ScanProjectsFirstWins(Empty, projects, KeyFunction(Some(root), files), i);
    ScanManifestsExtends(afterProjects, manifests, projects, FileNameWithoutExtension);
    var key := KeyOf(Some(root), projects[i], files).value;
    assert key in afterProjects.entries;
  }

  /** Two scanners: the first, then the second on what the first left. */
  lemma ScanAllPair(reg: Registry, first: Scanner, second: Scanner, root: string, projects: seq<Project>,
                    files: map<string, Document>, manifests: seq<string>)
    ensures ScanAll(reg, [first, second], root, projects, files, manifests)
         == match ScanOne(reg, first, root, projects, files, manifests)
            case Err(e) => Err(e)
            case Ok(next) => ScanOne(next, second, root, projects, files, manifests)
  {
    var scanners := [first, second];
    assert scanners[1..] == [second] && scanners[1..][1..] == [];
    var step := ScanOne(reg, first, root, projects, files, manifests);
    if step.Ok? {
      var last := ScanOne(step.value, second, root, projects, files, manifests);
      if last.Ok? {
        assert ScanAll(last.value, [], root, projects, files, manifests) == Ok(last.value);
      }
    }
  }

  /** Running more scanners after some keeps what the earlier ones filed. */
  lemma {:induction false} ScanAllAppend(reg: Registry, a: seq<Scanner>, b: seq<Scanner>, root: string, projects: seq<Project>,
                                        files: map<string, Document>, manifests: seq<string>)
    requires ScanAll(reg, a + b, root, projects, files, manifests).Ok?
    ensures ScanAll(reg, a, root, projects, files, manifests).Ok?
    ensures ScanAll(reg, a + b, root, projects, files, manifests).value.Extends(ScanAll(reg, a, root, projects, files, manifests).value)
    decreases |a|
  {
    if |a| == 0 {
      assert a + b == b;
      ScanAllExtends(reg, b, root, projects, files, manifests);
    } else {
      assert (a + b)[0] == a[0] && (a + b)[1..] == a[1..] + b;
      var next := ScanOne(reg, a[0], root, projects, files, manifests).value;
      ScanAllAppend(next, a[1..], b, root, projects, files, manifests);
    }
  }

  // ---------------------------------------------------------------------------
  // One generate call and one push call, as seen by the aggregator
  // ---------------------------------------------------------------------------

  /**
   * What one generate call does to the files: read the project under the root, transform
   * it, write the shadow beside it; the shadow path, or the failure.
   */
  function GenerateStep(root: Option<string>, packages: map<string, PackageDeclaration>, project: Project,
                        files: map<string, Document>, sep: char, variant: ShadowGenerate.Variant)
    : Result<(string, map<string, Document>), Error>
  {
    match root
    case None => Err(NullArgument("path1"))
    case Some(r) =>
      var path := Combine(r, project.relativePath);
      if path !in files then Err(FileNotFound(path))
      else
        var shadow :- ShadowGenerate.GenerateDocument(files[path], project, packages, r, sep, variant);
        var shadowPath := ConvertToShadowProjectFilePath(project.relativePath);
        Ok((shadowPath, files[Combine(r, shadowPath) := shadow]))
  }

  /** Generating writes exactly one file, the shadow, and leaves every other file alone. */
  lemma GenerateStepWrites(root: Option<string>, packages: map<string, PackageDeclaration>, project: Project,
                           files: map<string, Document>, sep: char, variant: ShadowGenerate.Variant, k: string)
    requires GenerateStep(root, packages, project, files, sep, variant).Ok?
    ensures var (shadowPath, after) := GenerateStep(root, packages, project, files, sep, variant).value;
      && shadowPath == ConvertToShadowProjectFilePath(project.relativePath)
      && Combine(root.value, shadowPath) in after
      && Combine(root.value, project.relativePath) in files
      && (k != Combine(root.value, shadowPath) ==> (k in after <==> k in files) && (k in files ==> after[k] == files[k]))
  {
  }

  /** What one push call does to the files: read the shadow, revert it, overwrite the project file. */
  function PushStep(view: AggregatorView, project: Project, files: map<string, Document>, sep: char): Result<map<string, Document>, Error>
    requires view.packageDeclarations.Valid()
  {
    match view.rootPath
    case None => Err(NullArgument("path1"))
    case Some(root) =>
      var shadow := Combine(root, ConvertToShadowProjectFilePath(project.relativePath));
      if shadow !in files then Err(FileNotFound(shadow))
      else
        var doc :- ShadowPush.PushDocument(files[shadow], project, view.packageDeclarations, root, sep);
        Ok(files[Combine(root, project.relativePath) := doc])
  }

  /** The files after pushing `projects` in order, with the failure that stopped the walk, if any. */
  function PushAll(view: AggregatorView, projects: seq<Project>, files: map<string, Document>, sep: char)
    : (map<string, Document>, Option<Error>)
    requires view.packageDeclarations.Valid()
    decreases |projects|
  {
    if |projects| == 0 then (files, None)
    else match PushStep(view, projects[0], files, sep)
      case Err(e) => (files, Some(e))
      case Ok(next) => PushAll(view, projects[1..], next, sep)
  }

  /** The file a push of `project` writes. */
  function PushTarget(view: AggregatorView, project: Project): string
    requires view.rootPath.Some?
  {
    Combine(view.rootPath.value, project.relativePath)
  }

  /**
   * Pushing writes only the projects' own files: every other file is there afterwards
   * exactly when it was there before, with the same content.
   */
  lemma {:induction false} PushAllWritesOnlyProjects(view: AggregatorView, projects: seq<Project>, files: map<string, Document>,
                                                    sep: char, k: string)
    requires view.packageDeclarations.Valid() && view.rootPath.Some?
    requires forall p :: p in projects ==> PushTarget(view, p) != k
    ensures var after := PushAll(view, projects, files, sep).0;
      (k in after <==> k in files) && (k in files ==> after[k] == files[k])
    decreases |projects|
  {
    if |projects| > 0 {
      assert projects[0] in projects;
      var step := PushStep(view, projects[0], files, sep);
      if step.Ok? {
        forall p | p in projects[1..]
          ensures PushTarget(view, p) != k
        {
          assert p in projects;
        }
        PushAllWritesOnlyProjects(view, projects[1..], step.value, sep, k);
      }
    }
  }

  /** One successful push writes its project's file and keeps every file that was there. */
  lemma PushStepWrites(view: AggregatorView, project: Project, files: map<string, Document>, sep: char)
    requires view.packageDeclarations.Valid() && view.rootPath.Some?
    requires PushStep(view, project, files, sep).Ok?
    ensures PushTarget(view, project) in PushStep(view, project, files, sep).value
    ensures files.Keys <= PushStep(view, project, files, sep).value.Keys
  {
  }

  /** A successful walk writes every project's file; a walk with no project cannot fail. */
  lemma {:induction false} PushAllWritesProjects(view: AggregatorView, projects: seq<Project>, files: map<string, Document>, sep: char)
    requires view.packageDeclarations.Valid() && view.rootPath.Some?
    ensures projects == [] ==> PushAll(view, projects, files, sep) == (files, None)
    ensures PushAll(view, projects, files, sep).1.None? ==>
      forall p :: p in projects ==> PushTarget(view, p) in PushAll(view, projects, files, sep).0
    ensures files.Keys <= PushAll(view, projects, files, sep).0.Keys
    decreases |projects|
  {
    if |projects| > 0 {
      var step := PushStep(view, projects[0], files, sep);
      if step.Ok? {
        var rest := PushAll(view, projects[1..], step.value, sep);
        assert PushAll(view, projects, files, sep) == rest;
        PushStepWrites(view, projects[0], files, sep);
        PushAllWritesProjects(view, projects[1..], step.value, sep);
        if rest.1.None? {
          forall p | p in projects
            ensures PushTarget(view, p) in rest.0
          {
            if p != projects[0] {
              assert p in projects[1..];
            }
          }
        }
      }
    }
  }

  /** Walking `a + b` is walking `a`, then, unless that failed, walking `b` from where `a` left the files. */
  lemma {:induction false} PushAllAppend(view: AggregatorView, a: seq<Project>, b: seq<Project>, files: map<string, Document>, sep: char)
    requires view.packageDeclarations.Valid()
    ensures var first := PushAll(view, a, files, sep);
      PushAll(view, a + b, files, sep) == if first.1.Some? then first else PushAll(view, b, first.0, sep)
    decreases |a|
  {
    if |a| == 0 {
      assert a + b == b;
    } else {
      assert (a + b)[0] == a[0] && (a + b)[1..] == a[1..] + b;
      var step := PushStep(view, a[0], files, sep);
      if step.Ok? {
        PushAllAppend(view, a[1..], b, step.value, sep);
      }
    }
  }

  // ---------------------------------------------------------------------------
  // The aggregator
  // ---------------------------------------------------------------------------

  class Aggregator {
    /** The package scanners in injection order. */
    const scanners: seq<Scanner>
    var rootPath: Option<string>
    var solutionRepositories: Option<seq<SolutionRepository>>
    var allProjects: Option<seq<Project>>
    var packageDeclarations: Registry

    /** The dictionary's keys are its enumeration order, without repetition. */
    ghost predicate Valid()
      reads this
    {
      packageDeclarations.Valid()
    }

    constructor(scanners: seq<Scanner>)
      ensures this.scanners == scanners
      ensures rootPath.None? && solutionRepositories.None? && allProjects.None?
      ensures packageDeclarations == Empty && Valid()
    {
      this.scanners := scanners;
      rootPath := None;
      solutionRepositories := None;
      allProjects := None;
      packageDeclarations := Empty;
    }

    /** What the services and scanners read of this aggregator. */
    function View(): AggregatorView
      reads this
    {
      AggregatorView(rootPath, allProjects, packageDeclarations)
    }

    /**
     * `Setup(rootPath, folders)`: refuse a null root, then discover, flatten and scan.
     * A failing scan leaves the previous declarations in place; the earlier fields are
     * already assigned by then.
     */
    method Setup(root: Option<string>, folders: Option<seq<string>>, listing: Listing, sep: char,
                 guids: GuidSource, files: ProjectFiles, manifests: seq<string>)
      returns (o: Outcome<Error>)
      requires Valid()
      modifies this, guids
      ensures Valid()
      ensures root.None? ==>
        && o == Fail(NullArgument("rootPath"))
        && rootPath == old(rootPath) && solutionRepositories == old(solutionRepositories)
        && allProjects == old(allProjects) && packageDeclarations == old(packageDeclarations)
      ensures root == Some("") ==>
        && o == Fail(EmptyPath) && rootPath == root
        && solutionRepositories == old(solutionRepositories)
        && allProjects == old(allProjects) && packageDeclarations == old(packageDeclarations)
      ensures root.Some? && root.value != "" ==>
        && rootPath == root
        && solutionRepositories.Some?
        && Shape(solutionRepositories.value) == Plan(root.value, folders, listing, sep)
        && DrawnBetween(Ids(solutionRepositories.value), old(guids.next), guids.next)
        && allProjects == Some(AllProjectsOf(solutionRepositories.value))
        && var spec := ScanAll(Empty, scanners, root.value, allProjects.value, files.files, manifests);
           (o.Pass? <==> spec.Ok?)
           && (o.Pass? ==> packageDeclarations == spec.value)
           && (o.Fail? ==> o.error == spec.error && packageDeclarations == old(packageDeclarations))
    {
      if root.None? {
        return Fail(NullArgument("rootPath"));
      }
      rootPath := root;
      var repos := LoadSolutionRepositories(root.value, folders, listing, sep, guids);
      if repos.Err? {
        return Fail(repos.error);
      }
      solutionRepositories := Some(repos.value);
      allProjects := Some(AllProjectsOf(repos.value));
      var scanned := ScanPackageDeclarations(files, manifests);
      if scanned.Err? {
        return Fail(scanned.error);
      }
      packageDeclarations := scanned.value;
      return Pass;
    }

    /** `ScanPackageDeclarations`: a fresh dictionary, each scanner in turn. */
    method ScanPackageDeclarations(files: ProjectFiles, manifests: seq<string>) returns (r: Result<Registry, Error>)
      requires rootPath.Some? && allProjects.Some?
      ensures r == ScanAll(Empty, scanners, rootPath.value, allProjects.value, files.files, manifests)
      ensures r.Ok? ==> r.value.Valid()
    {
      var root := rootPath.value;
      var projects := allProjects.value;
      var nugets := new PackageMap();
      var n := 0;
      while n < |scanners|
        invariant n <= |scanners|
        invariant nugets.Contents().Valid()
        invariant ScanAll(Empty, scanners, root, projects, files.files, manifests)
               == ScanAll(nugets.Contents(), scanners[n..], root, projects, files.files, manifests)
      {
        assert scanners[n..][0] == scanners[n] && scanners[n..][1..] == scanners[n + 1..];
        var o := RunScanner(scanners[n], nugets, files, manifests);
        if o.Fail? {
          return Err(o.error);
        }
        n := n + 1;
      }
      assert scanners[n..] == [];
      return Ok(nugets.Contents());
    }

    /** `scanner.Scan(this, nugets)`. */
    method RunScanner(scanner: Scanner, nugets: PackageMap, files: ProjectFiles, manifests: seq<string>)
      returns (o: Outcome<Error>)
      requires rootPath.Some? && allProjects.Some? && nugets.Contents().Valid()
      modifies nugets
      ensures var spec := ScanOne(old(nugets.Contents()), scanner, rootPath.value, allProjects.value, files.files, manifests);
        && (o.Pass? <==> spec.Ok?)
        && (o.Pass? ==> nugets.Contents() == spec.value && nugets.Contents().Valid())
        && (o.Fail? ==> o.error == spec.error)
    {
      ghost var before := nugets.Contents();
      match scanner {
        case ProjectScanner =>
          o := ScanProjectFiles(Some(View()), nugets, files);
        case ManifestScanner =>
          o := ScanManifestFiles(Some(View()), nugets, manifests);
      }
      if o.Pass? {
        ScanOneExtends(before, scanner, rootPath.value, allProjects.value, files.files, manifests);
      }
    }

    /**
     * The aggregator's `GenerateShadow`: the generate service writes the shadow, and the
     * shadow project gets the identifier the cache holds for its path.
     */
    method GenerateShadow(csProject: Project, cache: GuidCache, files: ProjectFiles, sep: char, guids: GuidSource)
      returns (r: Result<Project, Error>)
      modifies files, cache, guids
      ensures var spec := GenerateStep(rootPath, packageDeclarations.entries, csProject, old(files.files), sep, ShadowGenerate.Service);
        && (r.Ok? <==> spec.Ok?)
        && (r.Err? ==> r.error == spec.error && files.files == old(files.files)
                       && cache.entries == old(cache.entries) && guids.next == old(guids.next))
        && (r.Ok? ==> files.files == spec.value.1 && r.value.relativePath == spec.value.0
                      && (cache.entries, r.value.id) == Lookup(old(cache.entries), spec.value.0, old(guids.next)))
    {
      var shadowPath := ShadowGenerate.GenerateShadow(Some(View()), Some(csProject), files, sep);
      if shadowPath.Err? {
        return Err(shadowPath.error);
      }
      var id := cache.GetOrAdd(shadowPath.value, guids);
      return Ok(Project(shadowPath.value, id));
    }

    /**
     * `PushShadowProjects`: push every project of every repository, in order.  The walk
     * stops at the first failure, keeping what earlier pushes wrote.
     */
    method PushShadowProjects(files: ProjectFiles, sep: char) returns (o: Outcome<Error>)
      requires Valid()
      modifies files
      ensures solutionRepositories.None? ==> o == Fail(NullReference("SolutionRepositories")) && files.files == old(files.files)
      ensures solutionRepositories.Some? ==>
        PushAll(View(), AllProjectsOf(solutionRepositories.value), old(files.files), sep)
        == (files.files, if o.Pass? then None else Some(o.error))
    {
      if solutionRepositories.None? {
        return Fail(NullReference("SolutionRepositories"));
      }
      var repos := solutionRepositories.value;
      var i := 0;
      assert repos[0..] == repos;
      while i < |repos|
        invariant i <= |repos|
        invariant PushAll(View(), AllProjectsOf(repos), old(files.files), sep)
               == PushAll(View(), AllProjectsOf(repos[i..]), files.files, sep)
      {
        assert repos[i..][0] == repos[i] && repos[i..][1..] == repos[i + 1..];
        var projects := repos[i].projects;
        var rest := AllProjectsOf(repos[i + 1..]);
        var j := 0;
        assert projects[0..] + rest == AllProjectsOf(repos[i..]);
        while j < |projects|
          invariant j <= |projects|
          invariant PushAll(View(), AllProjectsOf(repos), old(files.files), sep)
                 == PushAll(View(), projects[j..] + rest, files.files, sep)
        {
          var todo := projects[j..] + rest;
          assert todo[0] == projects[j] && todo[1..] == projects[j + 1..] + rest;
          var r := ShadowPush.PushShadow(Some(View()), Some(projects[j]), files, sep);
          if r.Err? {
            return Fail(r.error);
          }
          j := j + 1;
        }
        assert projects[j..] + rest == rest;
        i := i + 1;
      }
      assert repos[i..] == [];
      return Pass;
    }
  }
}
