/** The `/api/projects/open` route: register an existing directory as a workspace. */
module OpenRoute {
  import opened Strings
  import opened Types
  import opened ProjectsStore
  import opened ProjectsRoute

  /** The parts of `path` the route uses: `join`, `basename`, `parse(p).root` and `isAbsolute`. */
  datatype PathOps = PathOps(
    join: PathJoin,
    basename: string -> string,
    root: string -> string,
    isAbsolute: string -> bool)

  /** The file system as the route sees it: the paths that exist, those that are
      directories, and `realpathSync`. */
  datatype FileSystem = FileSystem(
    existing: set<string>,
    directories: set<string>,
    realpath: string -> string)

  /** `resolveHomePath`: `~` is the home directory and `~/rest` is `rest` inside it; any
      other path is left alone. */
  function ResolveHomePath(input: string, home: string, join: PathJoin): (r: string)
    ensures input == "~" ==> r == home
    ensures input != "~" && StartsWith(input, "~/") ==> r == join(home, input[2..])
    ensures input != "~" && !StartsWith(input, "~/") ==> r == input
  {
    if input == "~" then home
    else if StartsWith(input, "~/") then join(home, input[2..])
    else input
  }

  const NoGitWarning := "No .git directory found for this workspace path."

  /** The checks on the requested path, in the route's order, ending in the real path of the
      directory to open. `path` is the payload's `path` when it is a string. */
  function OpenTarget(path: Option<string>, home: string, ops: PathOps, fs: FileSystem)
    : (r: Response<string>)
    ensures IsBlank(path.GetOr("")) ==> r == BadRequest("Workspace path is required.")
    ensures !IsBlank(path.GetOr("")) ==>
              var resolved := ResolveHomePath(Trim(path.value), home, ops.join);
              && (!ops.isAbsolute(resolved) ==> r == BadRequest("Workspace path must be an absolute path."))
              && (ops.isAbsolute(resolved) && resolved !in fs.existing ==>
                    r == NotFound("Workspace path does not exist: " + resolved))
              && (ops.isAbsolute(resolved) && resolved in fs.existing && resolved !in fs.directories ==>
                    r == BadRequest("Workspace path is not a directory: " + resolved))
              && (ops.isAbsolute(resolved) && resolved in fs.existing && resolved in fs.directories ==>
                    var repoPath := fs.realpath(resolved);
                    var name := ops.basename(repoPath);
                    if name == "" || name == ops.root(repoPath)
                    then r == BadRequest("Workspace path must point to a directory with a name.")
                    else r == Ok(repoPath))
    ensures !r.Conflict? && !r.ServerError?
  {
    var rawPath := if path.Some? then Trim(path.value) else "";
    if rawPath == "" then BadRequest("Workspace path is required.")
    else
      var resolved := ResolveHomePath(rawPath, home, ops.join);
      if !ops.isAbsolute(resolved) then BadRequest("Workspace path must be an absolute path.")
      else if resolved !in fs.existing then NotFound("Workspace path does not exist: " + resolved)
      else if resolved !in fs.directories then BadRequest("Workspace path is not a directory: " + resolved)
      else
        var repoPath := fs.realpath(resolved);
        var name := ops.basename(repoPath);
        if name == "" || name == ops.root(repoPath) then
          BadRequest("Workspace path must point to a directory with a name.")
        else Ok(repoPath)
  }

  predicate HasRepoPath(ps: seq<PersistedProject>, repoPath: string)
  {
    exists i | 0 <= i < |ps| :: ps[i].repoPath == repoPath
  }

  /** `POST`: a failed path check is answered as it is; then the store is loaded, a path
      that already has a workspace is a conflict, and otherwise the new workspace, named after
      the directory, is appended and made active. */
  function OpenProject(path: Option<string>, home: string, ops: PathOps, fs: FileSystem,
                       loaded: LoadOutcome, id: string, now: int)
    : (r: Response<CreateResult>)
    ensures var t := OpenTarget(path, home, ops, fs);
            && (t.BadRequest? ==> r == BadRequest(t.error))
            && (t.NotFound? ==> r == NotFound(t.error))
            && (t.Ok? && loaded.LoadFailed? ==> r == ServerError)
            && (t.Ok? && loaded.Loaded? && HasRepoPath(loaded.store.projects, t.body) ==>
                  r == Conflict("Workspace already exists for this path."))
            && (t.Ok? && loaded.Loaded? && !HasRepoPath(loaded.store.projects, t.body) ==>
                  && r.Ok?
                  && var repoPath := t.body;
                     var st := r.body.store;
                     && st.version == StoreVersion
                     && st.projects == loaded.store.projects
                                       + [Project(id, ops.basename(repoPath), repoPath, now, now, [])]
                     && st.activeProjectId == Some(id)
                     && r.body.warnings ==
                          (if ops.join(repoPath, ".git") in fs.existing then [] else [NoGitWarning]))
  {
    var target := OpenTarget(path, home, ops, fs);
    match target
    case BadRequest(e) => BadRequest(e)
    case NotFound(e) => NotFound(e)
    case Conflict(e) => Conflict(e)
    case ServerError => ServerError
    case Ok(repoPath) =>
      if loaded.LoadFailed? then ServerError
      else if HasRepoPath(loaded.store.projects, repoPath) then
        Conflict("Workspace already exists for this path.")
      else
        var warnings := if ops.join(repoPath, ".git") in fs.existing then [] else [NoGitWarning];
        var project: PersistedProject := Project(id, ops.basename(repoPath), repoPath, now, now, []);
        var projects := loaded.store.projects + [project];
        assert projects[|projects| - 1] == project;
        Ok(CreateResult(NormalizeShallow(Some(id), Some(projects)), warnings))
  }

  ghost predicate DistinctRepoPaths(ps: seq<PersistedProject>)
  {
    forall i, j | 0 <= i < j < |ps| :: ps[i].repoPath != ps[j].repoPath
  }

  /** Opening a directory never gives two workspaces the same path. */
  lemma OpenKeepsRepoPathsDistinct(path: Option<string>, home: string, ops: PathOps, fs: FileSystem,
                                   loaded: LoadOutcome, id: string, now: int)
    requires loaded.Loaded? && DistinctRepoPaths(loaded.store.projects)
    requires OpenProject(path, home, ops, fs, loaded, id, now).Ok?
    ensures DistinctRepoPaths(OpenProject(path, home, ops, fs, loaded, id, now).body.store.projects)
  {
    var before := loaded.store.projects;
    var after := OpenProject(path, home, ops, fs, loaded, id, now).body.store.projects;
    var repoPath := OpenTarget(path, home, ops, fs).body;
    assert !HasRepoPath(before, repoPath);
    forall i, j | 0 <= i < j < |after| ensures after[i].repoPath != after[j].repoPath {
      assert after[i] == before[i];
      if j < |before| {
        assert after[j] == before[j];
      } else {
        assert after[j].repoPath == repoPath;
      }
    }
  }

  /** Opening the same directory again, against the store the first opening saved, is a
      conflict and saves nothing. */
  lemma OpenTwiceConflicts(path: Option<string>, home: string, ops: PathOps, fs: FileSystem,
                           loaded: LoadOutcome, id: string, now: int, id2: string, later: int)
    requires OpenProject(path, home, ops, fs, loaded, id, now).Ok?
    ensures var saved := OpenProject(path, home, ops, fs, loaded, id, now).body.store;
            OpenProject(path, home, ops, fs, Loaded(saved, false), id2, later)
              == Conflict("Workspace already exists for this path.")
  {
    var saved := OpenProject(path, home, ops, fs, loaded, id, now).body.store;
    var repoPath := OpenTarget(path, home, ops, fs).body;
    assert saved.projects[|saved.projects| - 1].repoPath == repoPath;
  }
}
