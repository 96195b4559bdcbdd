/** The `/api/projects` route: list the workspaces, create one in a fresh folder under the
    home directory, and replace the whole store. */
module ProjectsRoute {
  import opened Strings
  import opened Types
  import opened ProjectsStore

  /** An HTTP response: a JSON body, or an `{ error }` body with status 400, 404, 409 or 500.
      `ServerError` stands for every thrown error the route turns into a 500. */
  datatype Response<T> =
    | Ok(body: T)
    | BadRequest(error: string)
    | NotFound(error: string)
    | Conflict(error: string)
    | ServerError

  /** The route's `normalizeProjectsStore`: version 2, `projects` when it is an array (else
      empty), and an active id that names a workspace whenever there is one. Tiles are not
      looked at. */
  function NormalizeShallow<C>(activeProjectId: Option<string>, projects: Option<seq<Project<C>>>)
    : (r: Store<C>)
    ensures r.version == StoreVersion
    ensures projects.Some? ==> r.projects == projects.value
    ensures projects.None? ==> r.projects == []
    ensures r.activeProjectId.None? <==> r.projects == []
    ensures r.activeProjectId.Some? ==> HasId(r.projects, r.activeProjectId.value)
    ensures activeProjectId.Some? && HasId(r.projects, activeProjectId.value) ==> r.activeProjectId == activeProjectId
    ensures activeProjectId.None? || !HasId(r.projects, activeProjectId.value) ==> r.activeProjectId == FirstId(r.projects)
  {
    var ps := if projects.Some? then projects.value else [];
    Store(StoreVersion, PickActive(activeProjectId, ps), ps)
  }

  /** Normalizing a normalized store changes nothing. */
  lemma NormalizeShallowIdempotent<C>(activeProjectId: Option<string>, projects: Option<seq<Project<C>>>)
    ensures var r := NormalizeShallow(activeProjectId, projects);
            NormalizeShallow(r.activeProjectId, Some(r.projects)) == r
  {
    var r := NormalizeShallow(activeProjectId, projects);
    if r.activeProjectId.Some? {
      assert HasId(r.projects, r.activeProjectId.value);
    }
  }

  /** `GET`: the loaded store, normalized. */
  function ListProjects(loaded: LoadOutcome): (r: Response<Store<seq<Tile>>>)
    ensures r.ServerError? <==> loaded.LoadFailed?
    ensures loaded.Loaded? ==> r == Ok(NormalizeShallow(loaded.store.activeProjectId, Some(loaded.store.projects)))
    ensures r.Ok? ==> r.body.projects == loaded.store.projects
  {
    if loaded.LoadFailed? then ServerError
    else Ok(NormalizeShallow(loaded.store.activeProjectId, Some(loaded.store.projects)))
  }

  /** `PUT`: a null payload or one whose `projects` is not an array is rejected; anything else
      is normalized and saved, tiles untouched. */
  function SaveProjects(body: Option<RawStore>): (r: Response<Store<Option<seq<Tile>>>>)
    ensures r.BadRequest? <==> body.None? || body.value.projects.None?
    ensures r.BadRequest? ==> r.error == "Invalid workspaces payload."
    ensures r.Ok? ==> && r.body.projects == body.value.projects.value
                      && r.body.activeProjectId == PickActive(body.value.activeProjectId, r.body.projects)
                      && r.body.version == StoreVersion
    ensures !r.ServerError? && !r.NotFound? && !r.Conflict?
  {
    if body.None? || body.value.projects.None? then BadRequest("Invalid workspaces payload.")
    else Ok(NormalizeShallow(body.value.activeProjectId, body.value.projects))
  }

  /** Sending back what `PUT` answered stores the same document again. */
  lemma SaveProjectsStable(body: Option<RawStore>)
    requires SaveProjects(body).Ok?
    ensures var st := SaveProjects(body).body;
            SaveProjects(Some(RawStore(Some(st.version), st.activeProjectId, Some(st.projects)))) == Ok(st)
  {
    NormalizeShallowIdempotent(body.value.activeProjectId, body.value.projects);
  }

  // ---------------------------------------------------------------------------------------
  // Choosing the folder of a new workspace

  /** `path.join`, as far as this route needs it. */
  type PathJoin = (string, string) -> string

  /** The n-th folder name tried for `slug`: the slug itself, then `slug-2`, `slug-3`, ... */
  function CandidateName(slug: string, n: nat): (r: string)
  {
    if n <= 1 then slug else slug + "-" + Decimal(n)
  }

  /** Different attempts give different paths, so the search cannot revisit a path. */
  ghost predicate DistinctCandidates(home: string, slug: string, join: PathJoin)
  {
    forall m: nat, n: nat | 1 <= m < n ::
      join(home, CandidateName(slug, m)) != join(home, CandidateName(slug, n))
  }

  /** `repoPath` is the first path, in the order tried, that does not exist yet. */
  ghost predicate FirstFreeCandidate(repoPath: string, home: string, slug: string, join: PathJoin,
                               existing: set<string>)
  {
    exists n: nat | 1 <= n ::
      && repoPath == join(home, CandidateName(slug, n))
      && repoPath !in existing
      && forall k: nat | 1 <= k < n :: join(home, CandidateName(slug, k)) in existing
  }

  /** There is only one first free path. */
  lemma FirstFreeCandidateUnique(p: string, q: string, home: string, slug: string, join: PathJoin,
                                 existing: set<string>)
    requires FirstFreeCandidate(p, home, slug, join, existing)
    requires FirstFreeCandidate(q, home, slug, join, existing)
    ensures p == q
  {
    var m: nat :| 1 <= m && p == join(home, CandidateName(slug, m)) && p !in existing
                 && forall k: nat | 1 <= k < m :: join(home, CandidateName(slug, k)) in existing;
    var n: nat :| 1 <= n && q == join(home, CandidateName(slug, n)) && q !in existing
                 && forall k: nat | 1 <= k < n :: join(home, CandidateName(slug, k)) in existing;
  }

  /** A join that never maps two names to the same path keeps the candidates apart. */
  lemma InjectiveJoinKeepsCandidatesDistinct(home: string, slug: string, join: PathJoin)
    requires forall a, b | join(home, a) == join(home, b) :: a == b
    ensures DistinctCandidates(home, slug, join)
  {
    forall m: nat, n: nat | 1 <= m < n
      ensures join(home, CandidateName(slug, m)) != join(home, CandidateName(slug, n))
    {
      var cn := CandidateName(slug, n);
      assert cn[|slug| + 1..] == Decimal(n);
      if m <= 1 {
        assert |CandidateName(slug, m)| < |cn|;
      } else {
        var cm := CandidateName(slug, m);
        assert cm[|slug| + 1..] == Decimal(m);
        DecimalDistinct(m, n);
      }
    }
  }

  function FolderExistsWarning(candidate: string): string
  {
    "Workspace folder already exists. Created " + candidate + " instead."
  }

  /** `resolveProjectPath`: the first of `home/slug`, `home/slug-2`, `home/slug-3`, ... that
      does not exist, with a warning when it is not the first. */
  method ResolveProjectPath(home: string, slug: string, join: PathJoin, existing: set<string>)
    returns (repoPath: string, warnings: seq<string>)
    requires DistinctCandidates(home, slug, join)
    ensures repoPath !in existing
    ensures FirstFreeCandidate(repoPath, home, slug, join, existing)
    ensures join(home, slug) !in existing ==> repoPath == join(home, slug) && warnings == []
    ensures join(home, slug) in existing ==> warnings == [FolderExistsWarning(repoPath)]
  {
    warnings := [];
    var basePath := join(home, slug);
    if basePath !in existing {
      repoPath := basePath;
      assert repoPath == join(home, CandidateName(slug, 1));
      return;
    }
    var suffix: nat := 2;
    var candidate := basePath;
    ghost var tried: set<string> := {};
    while candidate in existing
      invariant suffix >= 2
      invariant candidate == join(home, CandidateName(slug, suffix - 1))
      invariant forall k: nat | 1 <= k < suffix - 1 :: join(home, CandidateName(slug, k)) in existing
      invariant tried <= existing
      invariant forall n: nat | suffix - 1 <= n :: join(home, CandidateName(slug, n)) !in tried
      decreases |existing - tried|
    {
      assert candidate !in tried;
      assert existing - (tried + {candidate}) < existing - tried;
      tried := tried + {candidate};
      candidate := join(home, CandidateName(slug, suffix));
      suffix := suffix + 1;
    }
    assert suffix - 1 >= 2;
    repoPath := candidate;
    warnings := warnings + [FolderExistsWarning(candidate)];
  }

  // ---------------------------------------------------------------------------------------
  // Creating a workspace

  /** `slugifyProjectName`: a folder name, or the message of the error it throws. */
  datatype SlugOutcome = Slug(slug: string) | SlugRejected(message: string)

  datatype CreateResult = CreateResult(store: Store<seq<Tile>>, warnings: seq<string>)

  /** `POST`. `name` is the payload's `name` when it is a string; `existing` is the set of paths
      that exist; `ensureGitRepo` gives the warnings of the repository set-up; `id` and `now`
      are the fresh UUID and the clock. */
  method CreateProject(name: Option<string>, slugify: string -> SlugOutcome, loaded: LoadOutcome,
                       home: string, join: PathJoin, existing: set<string>,
                       ensureGitRepo: string -> seq<string>, id: string, now: int)
    returns (r: Response<CreateResult>)
    requires forall slug: string :: DistinctCandidates(home, slug, join)
    ensures IsBlank(name.GetOr("")) ==> r == BadRequest("Workspace name is required.")
    ensures !IsBlank(name.GetOr("")) && slugify(Trim(name.value)).SlugRejected? ==>
              r == BadRequest(slugify(Trim(name.value)).message)
    ensures !IsBlank(name.GetOr("")) && slugify(Trim(name.value)).Slug? && loaded.LoadFailed? ==>
              r == ServerError
    ensures !IsBlank(name.GetOr("")) && slugify(Trim(name.value)).Slug? && loaded.Loaded? ==>
              && r.Ok?
              && var slug := slugify(Trim(name.value)).slug;
                 var before := loaded.store.projects;
                 var st := r.body.store;
                 && |st.projects| == |before| + 1
                 && var project := st.projects[|before|];
                 && st.version == StoreVersion
                 && st.projects == before + [project]
                 && project == Project(id, Trim(name.value), project.repoPath, now, now, [])
                 && FirstFreeCandidate(project.repoPath, home, slug, join, existing)
                 && st.activeProjectId == Some(id)
                 && r.body.warnings ==
                      (if join(home, slug) in existing then [FolderExistsWarning(project.repoPath)] else [])
                      + ensureGitRepo(project.repoPath)
  {
    var trimmed := if name.Some? then Trim(name.value) else "";
    if trimmed == "" {
      return BadRequest("Workspace name is required.");
    }
    var slugged := slugify(trimmed);
    if slugged.SlugRejected? {
      return BadRequest(slugged.message);
    }
    if loaded.LoadFailed? {
      return ServerError;
    }
    var store := loaded.store;
    var repoPath, pathWarnings := ResolveProjectPath(home, slugged.slug, join, existing);
    var warnings := pathWarnings + ensureGitRepo(repoPath);
    var project: PersistedProject := Project(id, trimmed, repoPath, now, now, []);
    var projects := store.projects + [project];
    assert projects[|projects| - 1] == project;
    var nextStore := NormalizeShallow(Some(id), Some(projects));
    return Ok(CreateResult(nextStore, warnings));
  }
}
