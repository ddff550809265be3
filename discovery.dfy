/**
 * Repository discovery, shared by both aggregators: every top-level folder of the
 * root (optionally filtered) becomes a solution repository holding the project files
 * found below it, shadows excluded; a folder without projects is dropped.  The
 * directory enumeration is an input (`Listing`); fresh identifiers come from a
 * `GuidSource`.
 */
module Discovery {
  import opened Wrappers
  import opened Errors
  import opened Text
  import opened Paths
  import opened ShadowPaths
  import opened Models

  /**
   * What the file system shows under the root: its top-level folders in enumeration
   * order, and for a folder the `*.csproj` files found anywhere below it, as full paths.
   */
  datatype Listing = Listing(directories: seq<string>, projectFiles: map<string, seq<string>>)

  function FilesUnder(listing: Listing, dir: string): seq<string> {
    if dir in listing.projectFiles then listing.projectFiles[dir] else []
  }

  /** `folders?.Select(f => Path.Combine(root, f))`. */
  function ResolvedFolders(root: string, folders: seq<string>): seq<string> {
    seq(|folders|, i requires 0 <= i < |folders| => Combine(root, folders[i]))
  }

  /** A folder is kept when there is no filter, or when the filter resolves to it. */
  predicate Selected(root: string, folders: Option<seq<string>>, dir: string) {
    folders.None? || dir in ResolvedFolders(root, folders.value)
  }

  /** The `.Where(p => !IsShadowProjectFilePath(p))` over the enumerated project files. */
  function NonShadow(files: seq<string>): seq<string>
    decreases |files|
  {
    if |files| == 0 then []
    else (if IsShadowProjectFilePath(files[0]) then [] else [files[0]]) + NonShadow(files[1..])
  }

  lemma {:induction false} NonShadowMembers(files: seq<string>, f: string)
    ensures f in NonShadow(files) <==> f in files && !IsShadowProjectFilePath(f)
    decreases |files|
  {
    if |files| > 0 {
      NonShadowMembers(files[1..], f);
      assert files == [files[0]] + files[1..];
    }
  }

  /** `Path.GetRelativePath(root, file)`, rendered with the platform separator. */
  function RelativeTo(root: string, file: string, sep: char): string {
    RelativePath(Segments(RootStem(root)), Segments(file), sep)
  }

  /**
   * A file found below the root comes back as the root-relative path it was found
   * under, whenever the platform separator is '/'.
   */
  lemma RelativeToCombined(root: string, x: string)
    requires |root| > 0 && |x| > 0 && !IsRooted(x)
    ensures RelativeTo(root, Combine(root, x), Separator) == x
  {
    var q := RootStem(root);
    CombineRelative(root, x);
    SegmentsOfJoined(q, x);
    assert Segments(q) + [] == Segments(q);
    RelativeSegmentsDropPrefix(Segments(q), [], Segments(x));
    assert RelativeSegments([], Segments(x)) == Segments(x);
    JoinSplit(x, Separator);
  }

  /** The relative paths of the non-shadow project files of one folder, in order. */
  function ProjectPaths(root: string, files: seq<string>, sep: char): seq<string> {
    var found := NonShadow(files);
    seq(|found|, i requires 0 <= i < |found| => RelativeTo(root, found[i], sep))
  }

  /** Project paths are exactly the relative paths of the files that are not shadows. */
  lemma ProjectPathsMembers(root: string, files: seq<string>, sep: char, p: string)
    ensures p in ProjectPaths(root, files, sep)
        <==> exists f :: f in files && !IsShadowProjectFilePath(f) && RelativeTo(root, f, sep) == p
  {
    var found := NonShadow(files);
    if p in ProjectPaths(root, files, sep) {
      var i :| 0 <= i < |found| && ProjectPaths(root, files, sep)[i] == p;
      NonShadowMembers(files, found[i]);
    }
    if exists f :: f in files && !IsShadowProjectFilePath(f) && RelativeTo(root, f, sep) == p {
      var f :| f in files && !IsShadowProjectFilePath(f) && RelativeTo(root, f, sep) == p;
      NonShadowMembers(files, f);
      var i :| 0 <= i < |found| && found[i] == f;
      assert ProjectPaths(root, files, sep)[i] == p;
    }
  }

  // ---------------------------------------------------------------------------
  // The repository path
  // ---------------------------------------------------------------------------

  /** As written: `folder.Replace(root, "")`, which deletes every occurrence of the root. */
  function RepositoryPathAsWritten(root: string, dir: string): string
    requires |root| > 0
  {
    ReplaceAll(dir, root, "")
  }

  /** As intended: the folder path with its leading root removed. */
  function RepositoryPath(root: string, dir: string): string {
    if StartsWith(dir, root) then dir[|root|..] else dir
  }

  /** A top-level folder `name` of the root is filed as "/name". */
  lemma RepositoryPathOfChild(root: string, name: string)
    requires |root| > 0 && !EndsWith(root, [Separator])
    requires |name| > 0 && !IsRooted(name)
    ensures RepositoryPath(root, Combine(root, name)) == [Separator] + name
  {
    assert Combine(root, name) == root + [Separator] + name;
    assert (root + [Separator] + name)[..|root|] == root;
    assert (root + [Separator] + name)[|root|..] == [Separator] + name;
  }

  /** The two agree as long as the root does not occur again inside the folder's own name. */
  lemma RepositoryPathAgrees(root: string, name: string)
    requires |root| > 0 && !EndsWith(root, [Separator])
    requires |name| > 0 && !IsRooted(name)
    requires !Contains([Separator] + name, root)
    ensures RepositoryPathAsWritten(root, Combine(root, name)) == RepositoryPath(root, Combine(root, name))
  {
    RepositoryPathOfChild(root, name);
    var t := [Separator] + name;
    var s := root + t;
    assert Combine(root, name) == s;
    assert s[..|root|] == root && s[|root|..] == t;
    ReplaceAllAbsent(t, root, "");
  }

  /**
   * With the root "src", the folder "src/websrc" is filed as "/web" (and so named "web")
   * where "/websrc" is meant.
   */
  lemma RepositoryPathDeletesInnerRoot()
    ensures RepositoryPathAsWritten("src", "src/websrc") == "/web"
    ensures RepositoryPath("src", "src/websrc") == "/websrc"
  {
    var s := "src/websrc";
    assert StartsWith(s, "src");
    assert s[3..] == "/websrc";
    var t := "/websrc";
    assert !StartsWith(t, "src") && t[1..] == "websrc";
    DeleteInnerSrc();
    assert ReplaceAll(t, "src", "") == "/web";
  }

  /** The inner occurrence of "src" in "websrc" is deleted too. */
  lemma DeleteInnerSrc()
    ensures ReplaceAll("websrc", "src", "") == "web"
  {
    DeleteInEbsrc();
    KeepFirst('w', "ebsrc", "eb", "src", "");
    assert ['w'] + "ebsrc" == "websrc" && ['w'] + "eb" == "web";
  }

  lemma DeleteInEbsrc()
    ensures ReplaceAll("ebsrc", "src", "") == "eb"
  {
    DeleteInBsrc();
    KeepFirst('e', "bsrc", "b", "src", "");
    assert ['e'] + "bsrc" == "ebsrc" && ['e'] + "b" == "eb";
  }

  lemma DeleteInBsrc()
    ensures ReplaceAll("bsrc", "src", "") == "b"
  {
    DeleteSrc();
    KeepFirst('b', "src", "", "src", "");
    assert ['b'] + "src" == "bsrc" && ['b'] + "" == "b";
  }

  lemma DeleteSrc()
    ensures ReplaceAll("src", "src", "") == ""
  {
    assert "src"[..3] == "src" && "src"[3..] == "";
  }

  /** A first character that cannot begin the pattern is kept. */
  lemma KeepFirst(c: char, rest: string, done: string, pattern: string, replacement: string)
    requires |pattern| > 0 && pattern[0] != c && |rest| + 1 >= |pattern|
    requires ReplaceAll(rest, pattern, replacement) == done
    ensures ReplaceAll([c] + rest, pattern, replacement) == [c] + done
  {
    var s := [c] + rest;
    assert s[..|pattern|][0] == c;
    assert s[1..] == rest;
  }

  // ---------------------------------------------------------------------------
  // The repository list
  // ---------------------------------------------------------------------------

  /** What one repository holds once identifiers are set aside: its path and its project paths. */
  datatype Planned = Planned(path: string, projects: seq<string>)

  /** The entry a folder contributes: none when it is filtered out or holds no project. */
  function PlanDir(root: string, folders: Option<seq<string>>, listing: Listing, dir: string, sep: char): seq<Planned> {
    var paths := ProjectPaths(root, FilesUnder(listing, dir), sep);
    if Selected(root, folders, dir) && |paths| > 0 then [Planned(RepositoryPath(root, dir), paths)] else []
  }

  /** The repositories listed for the folders `dirs`, in order, each folder contributing `planner(dir)`. */
  function PlanOf(dirs: seq<string>, planner: string -> seq<Planned>): seq<Planned>
    decreases |dirs|
  {
    if |dirs| == 0 then [] else planner(dirs[0]) + PlanOf(dirs[1..], planner)
  }

  function Planner(root: string, folders: Option<seq<string>>, listing: Listing, sep: char): string -> seq<Planned> {
    dir => PlanDir(root, folders, listing, dir, sep)
  }

  /** The repositories discovery yields, in folder order. */
  function Plan(root: string, folders: Option<seq<string>>, listing: Listing, sep: char): seq<Planned> {
    PlanOf(listing.directories, Planner(root, folders, listing, sep))
  }

  /** A folder that is kept and holds projects contributes its entry. */
  predicate Contributes(root: string, folders: Option<seq<string>>, listing: Listing, dir: string, sep: char) {
    Selected(root, folders, dir) && |ProjectPaths(root, FilesUnder(listing, dir), sep)| > 0
  }

  lemma {:induction false} PlanOfMembers(dirs: seq<string>, planner: string -> seq<Planned>, e: Planned)
    ensures e in PlanOf(dirs, planner) <==> exists dir :: dir in dirs && e in planner(dir)
    decreases |dirs|
  {
    if |dirs| > 0 {
      PlanOfMembers(dirs[1..], planner, e);
      assert dirs == [dirs[0]] + dirs[1..];
      if e in PlanOf(dirs, planner) && e !in planner(dirs[0]) {
        var dir :| dir in dirs[1..] && e in planner(dir);
        assert dir in dirs;
      }
    }
  }

  /**
   * A repository is discovered exactly when some enumerated folder is kept by the filter
   * and holds a project; its path is that folder's and its projects are that folder's
   * non-shadow project files.  In particular no repository is empty.
   */
  lemma DiscoveredRepositories(root: string, folders: Option<seq<string>>, listing: Listing, sep: char, e: Planned)
    ensures e in Plan(root, folders, listing, sep)
        <==> exists dir :: dir in listing.directories && Contributes(root, folders, listing, dir, sep)
               && e == Planned(RepositoryPath(root, dir), ProjectPaths(root, FilesUnder(listing, dir), sep))
    ensures e in Plan(root, folders, listing, sep) ==> |e.projects| > 0
  {
    var planner := Planner(root, folders, listing, sep);
    PlanOfMembers(listing.directories, planner, e);
    forall dir
      ensures e in planner(dir)
          <==> Contributes(root, folders, listing, dir, sep)
               && e == Planned(RepositoryPath(root, dir), ProjectPaths(root, FilesUnder(listing, dir), sep))
    {
      PlanDirMember(root, folders, listing, dir, sep, e);
    }
  }

  /** The entry a single folder contributes, if any. */
  lemma PlanDirMember(root: string, folders: Option<seq<string>>, listing: Listing, dir: string, sep: char, e: Planned)
    ensures e in Planner(root, folders, listing, sep)(dir)
        <==> Contributes(root, folders, listing, dir, sep)
             && e == Planned(RepositoryPath(root, dir), ProjectPaths(root, FilesUnder(listing, dir), sep))
  {
  }

  /** One entry per folder at most, so the list is no longer than the folder list. */
  lemma {:induction false} PlanOfLength(dirs: seq<string>, planner: string -> seq<Planned>)
    requires forall dir :: |planner(dir)| <= 1
    ensures |PlanOf(dirs, planner)| <= |dirs|
    decreases |dirs|
  {
    if |dirs| > 0 {
      PlanOfLength(dirs[1..], planner);
    }
  }

  /** Concatenated folder lists give concatenated repository lists: folder order is kept. */
  lemma {:induction false} PlanOfAppend(a: seq<string>, b: seq<string>, planner: string -> seq<Planned>)
    ensures PlanOf(a + b, planner) == PlanOf(a, planner) + PlanOf(b, planner)
    decreases |a|
  {
    if |a| > 0 {
      assert (a + b)[1..] == a[1..] + b;
      PlanOfAppend(a[1..], b, planner);
    } else {
      assert a + b == b;
    }
  }

  function PathsOf(projects: seq<Project>): seq<string> {
    seq(|projects|, i requires 0 <= i < |projects| => projects[i].relativePath)
  }

  /** The shape of repositories: paths only. */
  function Shape(repos: seq<SolutionRepository>): seq<Planned> {
    seq(|repos|, i requires 0 <= i < |repos| => Planned(repos[i].relativePath, PathsOf(repos[i].projects)))
  }

  function ProjectIds(projects: seq<Project>): seq<Guid> {
    seq(|projects|, i requires 0 <= i < |projects| => projects[i].id)
  }

  /** Every identifier, in the order discovery draws them: a repository's projects, then the repository. */
  function Ids(repos: seq<SolutionRepository>): seq<Guid>
    decreases |repos|
  {
    if |repos| == 0 then []
    else
      var last := repos[|repos| - 1];
      Ids(repos[..|repos| - 1]) + ProjectIds(last.projects) + [last.id]
  }

  /** Identifiers drawn from [lo, hi), strictly increasing, hence pairwise distinct. */
  ghost predicate DrawnBetween(ids: seq<Guid>, lo: nat, hi: nat) {
    (forall i :: 0 <= i < |ids| ==> lo <= ids[i] < hi)
    && (forall i, j :: 0 <= i < j < |ids| ==> ids[i] < ids[j])
  }

  /** Identifiers drawn one after another from a counter that stood at `lo`. */
  ghost predicate Consecutive(ids: seq<Guid>, lo: nat) {
    forall k :: 0 <= k < |ids| ==> ids[k] == lo + k
  }

  lemma ConsecutiveAppend(a: seq<Guid>, b: seq<Guid>, lo: nat)
    requires Consecutive(a, lo) && Consecutive(b, lo + |a|)
    ensures Consecutive(a + b, lo)
  {
    forall k | 0 <= k < |a + b|
      ensures (a + b)[k] == lo + k
    {
      if k >= |a| {
        assert (a + b)[k] == b[k - |a|];
      }
    }
  }

  lemma ConsecutiveDrawn(ids: seq<Guid>, lo: nat)
    requires Consecutive(ids, lo)
    ensures DrawnBetween(ids, lo, lo + |ids|)
  {
  }

  /** The inner loop: one project with a fresh identifier per path, in order. */
  method NewProjects(paths: seq<string>, guids: GuidSource) returns (projects: seq<Project>)
    modifies guids
    ensures PathsOf(projects) == paths
    ensures Consecutive(ProjectIds(projects), old(guids.next))
    ensures guids.next == old(guids.next) + |paths|
  {
    projects := [];
    var j := 0;
    while j < |paths|
      invariant j <= |paths| && |projects| == j
      invariant guids.next == old(guids.next) + j
      invariant forall k :: 0 <= k < j ==> projects[k].relativePath == paths[k]
      invariant forall k :: 0 <= k < j ==> projects[k].id == old(guids.next) + k
    {
      var p := NewProject(paths[j], guids);
      projects := projects + [p];
      j := j + 1;
    }
  }

  /**
   * `LoadSolutionRepositories`: walk the top-level folders, skip those the filter does
   * not name, give each non-shadow project file a project with a fresh identifier, and
   * keep the folder as a repository (with a fresh identifier) when it holds a project.
   * The empty root is refused by the directory enumeration.
   */
  method LoadSolutionRepositories(root: string, folders: Option<seq<string>>, listing: Listing, sep: char, guids: GuidSource)
    returns (r: Result<seq<SolutionRepository>, Error>)
    modifies guids
    ensures root == "" ==> r == Err(EmptyPath) && guids.next == old(guids.next)
    ensures root != "" ==> r.Ok? && Shape(r.value) == Plan(root, folders, listing, sep)
    ensures r.Ok? ==> DrawnBetween(Ids(r.value), old(guids.next), guids.next)
  {
    if root == "" {
      return Err(EmptyPath);
    }
    var dirs := listing.directories;
    ghost var planner := Planner(root, folders, listing, sep);
    ghost var plan := Plan(root, folders, listing, sep);
    var resolved := if folders.Some? then Some(ResolvedFolders(root, folders.value)) else None;
    var repos: seq<SolutionRepository> := [];
    var i := 0;
    assert dirs[0..] == dirs && Shape(repos) == [];
    while i < |dirs|
      invariant i <= |dirs|
      invariant plan == Shape(repos) + PlanOf(dirs[i..], planner)
      invariant Consecutive(Ids(repos), old(guids.next))
      invariant guids.next == old(guids.next) + |Ids(repos)|
    {
      ghost var before := repos;
      repos := VisitFolder(root, folders, listing, dirs[i], sep, resolved, guids, repos, old(guids.next));
      PlannerAt(root, folders, listing, sep, dirs[i]);
      PlanStep(plan, Shape(before), Shape(repos), dirs, i, planner);
      i := i + 1;
    }
    assert dirs[i..] == [];
    assert Shape(repos) + [] == Shape(repos);
    ConsecutiveDrawn(Ids(repos), old(guids.next));
    return Ok(repos);
  }

  lemma PlanOfStep(dirs: seq<string>, i: nat, planner: string -> seq<Planned>)
    requires i < |dirs|
    ensures PlanOf(dirs[i..], planner) == planner(dirs[i]) + PlanOf(dirs[i + 1..], planner)
  {
    assert dirs[i..][0] == dirs[i] && dirs[i..][1..] == dirs[i + 1..];
  }

  /** One folder further: the entry it contributes moves from the plan still to come to the repositories so far. */
  lemma PlanStep(plan: seq<Planned>, before: seq<Planned>, after: seq<Planned>, dirs: seq<string>, i: nat,
                 planner: string -> seq<Planned>)
    requires i < |dirs|
    requires plan == before + PlanOf(dirs[i..], planner)
    requires after == before + planner(dirs[i])
    ensures plan == after + PlanOf(dirs[i + 1..], planner)
  {
    PlanOfStep(dirs, i, planner);
  }

  lemma PlannerAt(root: string, folders: Option<seq<string>>, listing: Listing, sep: char, dir: string)
    ensures Planner(root, folders, listing, sep)(dir) == PlanDir(root, folders, listing, dir, sep)
  {
  }

  /** The body of the folder loop: skip a filtered-out folder, else file it when it holds a project. */
  method VisitFolder(root: string, folders: Option<seq<string>>, listing: Listing, dir: string, sep: char,
                     resolved: Option<seq<string>>, guids: GuidSource, repos: seq<SolutionRepository>, ghost lo: nat)
    returns (next: seq<SolutionRepository>)
    requires resolved == if folders.Some? then Some(ResolvedFolders(root, folders.value)) else None
    requires Consecutive(Ids(repos), lo) && guids.next == lo + |Ids(repos)|
    modifies guids
    ensures Shape(next) == Shape(repos) + PlanDir(root, folders, listing, dir, sep)
    ensures Consecutive(Ids(next), lo) && guids.next == lo + |Ids(next)|
  {
    PlanDirCases(root, folders, listing, dir, sep, resolved);
    if resolved.Some? && dir !in resolved.value {
      assert Shape(repos) + [] == Shape(repos);
      return repos;
    }
    var paths := ProjectPaths(root, FilesUnder(listing, dir), sep);
    var projects := NewProjects(paths, guids);
    if |projects| > 0 {
      var repo := NewSolutionRepository(RepositoryPath(root, dir), projects, guids);
      AppendRepository(repos, repo, lo);
      next := repos + [repo];
    } else {
      assert Shape(repos) + [] == Shape(repos);
      next := repos;
    }
  }

  lemma PlanDirCases(root: string, folders: Option<seq<string>>, listing: Listing, dir: string, sep: char, resolved: Option<seq<string>>)
    requires resolved == if folders.Some? then Some(ResolvedFolders(root, folders.value)) else None
    ensures resolved.Some? && dir !in resolved.value ==> PlanDir(root, folders, listing, dir, sep) == []
    ensures !(resolved.Some? && dir !in resolved.value) ==>
      var paths := ProjectPaths(root, FilesUnder(listing, dir), sep);
      PlanDir(root, folders, listing, dir, sep) == if |paths| > 0 then [Planned(RepositoryPath(root, dir), paths)] else []
  {
  }

  /** One more repository: its shape is appended, and its identifiers continue the count. */
  lemma AppendRepository(repos: seq<SolutionRepository>, repo: SolutionRepository, lo: nat)
    requires Consecutive(Ids(repos), lo)
    requires Consecutive(ProjectIds(repo.projects), lo + |Ids(repos)|)
    requires repo.id == lo + |Ids(repos)| + |repo.projects|
    ensures Shape(repos + [repo]) == Shape(repos) + [Planned(repo.relativePath, PathsOf(repo.projects))]
    ensures Consecutive(Ids(repos + [repo]), lo)
    ensures |Ids(repos + [repo])| == |Ids(repos)| + |repo.projects| + 1
  {
    var next := repos + [repo];
    assert next[..|next| - 1] == repos;
    assert Ids(next) == Ids(repos) + ProjectIds(repo.projects) + [repo.id];
    ConsecutiveAppend(Ids(repos), ProjectIds(repo.projects), lo);
    ConsecutiveAppend(Ids(repos) + ProjectIds(repo.projects), [repo.id], lo);
  }

  // ---------------------------------------------------------------------------
  // AllProjects
  // ---------------------------------------------------------------------------

  /** `SolutionRepositories.SelectMany(sr => sr.Projects)`. */
  function AllProjectsOf(repos: seq<SolutionRepository>): seq<Project>
    decreases |repos|
  {
    if |repos| == 0 then [] else repos[0].projects + AllProjectsOf(repos[1..])
  }

  /** Flattening distributes over concatenation, so the repository order is kept. */
  lemma {:induction false} AllProjectsAppend(a: seq<SolutionRepository>, b: seq<SolutionRepository>)
    ensures AllProjectsOf(a + b) == AllProjectsOf(a) + AllProjectsOf(b)
    decreases |a|
  {
    if |a| > 0 {
      assert (a + b)[1..] == a[1..] + b;
      AllProjectsAppend(a[1..], b);
    } else {
      assert a + b == b;
    }
  }

  /** A project is listed exactly when some repository holds it. */
  lemma {:induction false} AllProjectsMembers(repos: seq<SolutionRepository>, p: Project)
    ensures p in AllProjectsOf(repos) <==> exists i :: 0 <= i < |repos| && p in repos[i].projects
    decreases |repos|
  {
    if |repos| > 0 {
      AllProjectsMembers(repos[1..], p);
      if exists i :: 0 <= i < |repos[1..]| && p in repos[1..][i].projects {
        var i :| 0 <= i < |repos[1..]| && p in repos[1..][i].projects;
        assert repos[i + 1] == repos[1..][i];
      }
      if exists i :: 1 <= i < |repos| && p in repos[i].projects {
        var i :| 1 <= i < |repos| && p in repos[i].projects;
        assert repos[1..][i - 1] == repos[i];
      }
    }
  }

  /** The list's length is the sum of the repositories' sizes: nothing is dropped or repeated. */
  function ProjectCount(repos: seq<SolutionRepository>): nat
    decreases |repos|
  {
    if |repos| == 0 then 0 else |repos[0].projects| + ProjectCount(repos[1..])
  }

  lemma {:induction false} AllProjectsLength(repos: seq<SolutionRepository>)
    ensures |AllProjectsOf(repos)| == ProjectCount(repos)
    decreases |repos|
  {
    if |repos| > 0 {
      AllProjectsLength(repos[1..]);
    }
  }
}
