/** The server-side transformations of the `projects.json` document: normalization,
    adding and removing workspaces and tiles, and the v1 to v2 migration with the
    validate-then-migrate decision taken when the file is loaded. */
module ProjectsStore {
  import opened Strings
  import opened Types

  /** `resolveAgentWorktreeDir(projectId, agentId)`, whose definition is not part of this model. */
  type WorktreeDir = (string, string) -> string

  /** `parseAgentIdFromSessionKey(sessionKey)`, whose definition is not part of this model. */
  type AgentIdParser = string -> string

  /** A tile whose `workspacePath` is a non-blank string. */
  predicate HasWorkspacePath(t: Tile)
  {
    t.workspacePath.Some? && !IsBlank(t.workspacePath.value)
  }

  predicate AllTilesHavePaths(ps: seq<PersistedProject>)
  {
    forall i, j | 0 <= i < |ps| && 0 <= j < |ps[i].tiles| :: HasWorkspacePath(ps[i].tiles[j])
  }

  function RepairTile(projectId: string, t: Tile, worktreeDir: WorktreeDir): (r: Tile)
  {
    if HasWorkspacePath(t) then t
    else t.(workspacePath := Some(worktreeDir(projectId, t.agentId)))
  }

  function RepairTiles(projectId: string, ts: seq<Tile>, worktreeDir: WorktreeDir): (r: seq<Tile>)
    ensures |r| == |ts|
  {
    seq(|ts|, j requires 0 <= j < |ts| => RepairTile(projectId, ts[j], worktreeDir))
  }

  /** One workspace of `normalizeProjectsStore`: a non-array `tiles` becomes `[]`. */
  function NormalizeProject(p: RawProject, worktreeDir: WorktreeDir): (r: PersistedProject)
  {
    Project(p.id, p.name, p.repoPath, p.createdAt, p.updatedAt,
      RepairTiles(p.id, p.tiles.GetOr([]), worktreeDir))
  }

  /** `normalizeProjectsStore`. */
  function NormalizeProjectsStore(s: RawStore, worktreeDir: WorktreeDir): (r: ProjectsStore)
    ensures r.version == StoreVersion
    ensures s.projects.None? ==> r.projects == []
    ensures s.projects.Some? ==> Ids(r.projects) == Ids(s.projects.value)
    ensures r.activeProjectId == PickActive(s.activeProjectId, r.projects)
    ensures forall i | 0 <= i < |r.projects| ::
              var p, q := s.projects.value[i], r.projects[i];
              && q == Project(p.id, p.name, p.repoPath, p.createdAt, p.updatedAt, q.tiles)
              && (p.tiles.None? ==> q.tiles == [])
              && (p.tiles.Some? ==> |q.tiles| == |p.tiles.value|)
              && forall j | 0 <= j < |q.tiles| ::
                   var t := p.tiles.value[j];
                   && q.tiles[j].(workspacePath := t.workspacePath) == t
                   && q.tiles[j].workspacePath ==
                      (if HasWorkspacePath(t) then t.workspacePath
                       else Some(worktreeDir(p.id, t.agentId)))
  {
    var ps := s.projects.GetOr([]);
    var normalized := seq(|ps|, i requires 0 <= i < |ps| => NormalizeProject(ps[i], worktreeDir));
    Store(StoreVersion, PickActive(s.activeProjectId, normalized), normalized)
  }

  /** Normalizing a normalized store changes nothing. */
  lemma NormalizeIdempotent(s: RawStore, worktreeDir: WorktreeDir)
    ensures var n := NormalizeProjectsStore(s, worktreeDir);
            NormalizeProjectsStore(AsRaw(n), worktreeDir) == n
  {
    var n := NormalizeProjectsStore(s, worktreeDir);
    var m := NormalizeProjectsStore(AsRaw(n), worktreeDir);
    assert |m.projects| == |n.projects|;
    forall i | 0 <= i < |n.projects| ensures m.projects[i] == n.projects[i] {
      var p := n.projects[i];
      assert AsRaw(n).projects.value[i] == AsRawProject(p);
      assert m.projects[i].tiles == p.tiles;
    }
    assert m.projects == n.projects;
  }

  /** A store whose tiles all carry a workspace path keeps its workspaces as they are. */
  lemma NormalizeKeepsCompleteProjects(s: ProjectsStore, worktreeDir: WorktreeDir)
    requires AllTilesHavePaths(s.projects)
    ensures NormalizeProjectsStore(AsRaw(s), worktreeDir).projects == s.projects
  {
    var n := NormalizeProjectsStore(AsRaw(s), worktreeDir);
    assert |n.projects| == |s.projects|;
    forall i | 0 <= i < |s.projects| ensures n.projects[i] == s.projects[i] {
      assert AsRaw(s).projects.value[i] == AsRawProject(s.projects[i]);
      assert n.projects[i].tiles == s.projects[i].tiles;
    }
  }

  /** `appendProjectToStore`: the new workspace goes last and becomes the active one. */
  function AppendProjectToStore(s: ProjectsStore, p: PersistedProject, worktreeDir: WorktreeDir)
    : (r: ProjectsStore)
    ensures r.version == StoreVersion
    ensures r.activeProjectId == Some(p.id)
    ensures Ids(r.projects) == Ids(s.projects) + [p.id]
    ensures r.projects[|s.projects|] == p.(tiles := RepairTiles(p.id, p.tiles, worktreeDir))
    ensures forall i | 0 <= i < |s.projects| ::
              r.projects[i] == s.projects[i].(tiles := RepairTiles(s.projects[i].id, s.projects[i].tiles, worktreeDir))
  {
    var grown := Store(StoreVersion, Some(p.id), s.projects + [p]);
    var r := NormalizeProjectsStore(AsRaw(grown), worktreeDir);
    NormalizeRepairsTiles(grown, worktreeDir);
    assert forall i | 0 <= i < |s.projects| :: grown.projects[i] == s.projects[i];
    assert Ids(grown.projects) == Ids(s.projects) + [p.id];
    assert r.projects[|s.projects|].id == p.id;
    r
  }

  /** When every tile already has a path, appending leaves the earlier workspaces as they were. */
  lemma AppendKeepsProjects(s: ProjectsStore, p: PersistedProject, worktreeDir: WorktreeDir)
    requires AllTilesHavePaths(s.projects + [p])
    ensures AppendProjectToStore(s, p, worktreeDir).projects == s.projects + [p]
  {
    var r := AppendProjectToStore(s, p, worktreeDir);
    var all := s.projects + [p];
    assert |r.projects| == |all|;
    forall i | 0 <= i < |all| ensures r.projects[i] == all[i] {
      assert r.projects[i].tiles == all[i].tiles;
    }
  }

  datatype Removal = Removal(store: ProjectsStore, removed: bool)

  /** `removeProjectFromStore`. */
  function RemoveProjectFromStore(s: ProjectsStore, projectId: string, worktreeDir: WorktreeDir)
    : (r: Removal)
    ensures r.removed <==> HasId(s.projects, projectId)
    ensures !HasId(r.store.projects, projectId)
    ensures r.store.version == StoreVersion
    ensures r.store.activeProjectId == PickActive(s.activeProjectId, r.store.projects)
    ensures Ids(r.store.projects) == Ids(Without(s.projects, ProjectId, projectId))
    ensures var kept := Without(s.projects, ProjectId, projectId);
            && |r.store.projects| == |kept|
            && forall i | 0 <= i < |kept| ::
                 r.store.projects[i] == kept[i].(tiles := RepairTiles(kept[i].id, kept[i].tiles, worktreeDir))
  {
    var kept := Without(s.projects, ProjectId, projectId);
    HasIdIn(s.projects, projectId);
    var st := NormalizeProjectsStore(AsRaw(Store(StoreVersion, s.activeProjectId, kept)), worktreeDir);
    NormalizeRepairsTiles(Store(StoreVersion, s.activeProjectId, kept), worktreeDir);
    assert forall i | 0 <= i < |kept| :: kept[i] in kept;
    Removal(st, |kept| != |s.projects|)
  }

  /** Normalizing a validated store repairs each workspace's tiles and keeps the rest. */
  lemma NormalizeRepairsTiles(s: ProjectsStore, worktreeDir: WorktreeDir)
    ensures var n := NormalizeProjectsStore(AsRaw(s), worktreeDir);
            && |n.projects| == |s.projects|
            && Ids(n.projects) == Ids(s.projects)
            && forall i | 0 <= i < |s.projects| ::
                 n.projects[i] == s.projects[i].(tiles := RepairTiles(s.projects[i].id, s.projects[i].tiles, worktreeDir))
  {
    var n := NormalizeProjectsStore(AsRaw(s), worktreeDir);
    forall i | 0 <= i < |s.projects|
      ensures n.projects[i] == s.projects[i].(tiles := RepairTiles(s.projects[i].id, s.projects[i].tiles, worktreeDir))
    {
      assert AsRaw(s).projects.value[i] == AsRawProject(s.projects[i]);
    }
    assert forall i | 0 <= i < |s.projects| :: Ids(n.projects)[i] == Ids(s.projects)[i];
  }

  /** When every tile already has a path, removal keeps the other workspaces exactly as they
      were, in their order. */
  lemma RemoveKeepsProjects(s: ProjectsStore, projectId: string, worktreeDir: WorktreeDir)
    requires AllTilesHavePaths(s.projects)
    ensures RemoveProjectFromStore(s, projectId, worktreeDir).store.projects
            == Without(s.projects, ProjectId, projectId)
  {
    var kept := Without(s.projects, ProjectId, projectId);
    var r := RemoveProjectFromStore(s, projectId, worktreeDir);
    forall i | 0 <= i < |kept| ensures r.store.projects[i] == kept[i] {
      assert kept[i] in s.projects;
      var k :| 0 <= k < |s.projects| && s.projects[k] == kept[i];
      assert forall j | 0 <= j < |kept[i].tiles| :: HasWorkspacePath(s.projects[k].tiles[j]);
      assert RepairTiles(kept[i].id, kept[i].tiles, worktreeDir) == kept[i].tiles;
    }
  }

  lemma AllTilesHavePathsPrefix(ps: seq<PersistedProject>, p: PersistedProject)
    requires AllTilesHavePaths(ps + [p])
    ensures AllTilesHavePaths(ps)
  {
    forall i, j | 0 <= i < |ps| && 0 <= j < |ps[i].tiles| ensures HasWorkspacePath(ps[i].tiles[j]) {
      assert (ps + [p])[i] == ps[i];
    }
  }

  /** Appending a workspace with a fresh id and then removing it gives back the workspace
      list, with the first workspace active. */
  lemma RemoveUndoesAppend(s: ProjectsStore, p: PersistedProject, worktreeDir: WorktreeDir)
    requires !HasId(s.projects, p.id)
    requires AllTilesHavePaths(s.projects + [p])
    ensures var r := RemoveProjectFromStore(AppendProjectToStore(s, p, worktreeDir), p.id, worktreeDir);
            r.removed && r.store == Store(StoreVersion, FirstId(s.projects), s.projects)
  {
    var a := AppendProjectToStore(s, p, worktreeDir);
    AppendKeepsProjects(s, p, worktreeDir);
    HasIdIn(s.projects, p.id);
    WithoutAppended(s.projects, p, ProjectId);
    assert HasId(a.projects, p.id) by { assert a.projects[|s.projects|].id == p.id; }
    AllTilesHavePathsPrefix(s.projects, p);
    NormalizeKeepsCompleteProjects(Store(StoreVersion, a.activeProjectId, s.projects), worktreeDir);
  }

  predicate HasTile(ts: seq<Tile>, tileId: string)
  {
    exists j | 0 <= j < |ts| :: ts[j].id == tileId
  }

  /** `addTileToProject`. */
  function AddTileToProject(s: ProjectsStore, projectId: string, tile: Tile, now: int)
    : (r: ProjectsStore)
    ensures r.version == StoreVersion && r.activeProjectId == s.activeProjectId
    ensures Ids(r.projects) == Ids(s.projects)
    ensures forall i | 0 <= i < |s.projects| && s.projects[i].id != projectId ::
              r.projects[i] == s.projects[i]
    ensures forall i | 0 <= i < |s.projects| && s.projects[i].id == projectId ::
              r.projects[i] == s.projects[i].(tiles := s.projects[i].tiles + [tile], updatedAt := now)
  {
    var ps := s.projects;
    Store(StoreVersion, s.activeProjectId,
      seq(|ps|, i requires 0 <= i < |ps| =>
        if ps[i].id == projectId then ps[i].(tiles := ps[i].tiles + [tile], updatedAt := now)
        else ps[i]))
  }

  /** `updateTileInProject`: the target workspace's `updatedAt` moves to `now` even when no
      tile has `tileId`. */
  function UpdateTileInProject(s: ProjectsStore, projectId: string, tileId: string,
                               patch: TilePatch, now: int): (r: ProjectsStore)
    ensures r.version == StoreVersion && r.activeProjectId == s.activeProjectId
    ensures Ids(r.projects) == Ids(s.projects)
    ensures forall i | 0 <= i < |s.projects| && s.projects[i].id != projectId ::
              r.projects[i] == s.projects[i]
    ensures forall i | 0 <= i < |s.projects| && s.projects[i].id == projectId ::
              && r.projects[i].(tiles := s.projects[i].tiles) == s.projects[i].(updatedAt := now)
              && |r.projects[i].tiles| == |s.projects[i].tiles|
              && forall j | 0 <= j < |s.projects[i].tiles| ::
                   r.projects[i].tiles[j] == (if s.projects[i].tiles[j].id == tileId
                                              then ApplyTilePatch(s.projects[i].tiles[j], patch)
                                              else s.projects[i].tiles[j])
  {
    var ps := s.projects;
    Store(StoreVersion, s.activeProjectId,
      seq(|ps|, i requires 0 <= i < |ps| =>
        if ps[i].id == projectId then
          ps[i].(tiles := seq(|ps[i].tiles|, j requires 0 <= j < |ps[i].tiles| =>
                   if ps[i].tiles[j].id == tileId then ApplyTilePatch(ps[i].tiles[j], patch)
                   else ps[i].tiles[j]),
                 updatedAt := now)
        else ps[i]))
  }

  /** Repeating an update with the same patch and clock changes nothing more. */
  lemma UpdateTileIdempotent(s: ProjectsStore, projectId: string, tileId: string,
                             patch: TilePatch, now: int)
    requires patch.id.None? || patch.id == Some(tileId)
    ensures var once := UpdateTileInProject(s, projectId, tileId, patch, now);
            UpdateTileInProject(once, projectId, tileId, patch, now) == once
  {
    var once := UpdateTileInProject(s, projectId, tileId, patch, now);
    var twice := UpdateTileInProject(once, projectId, tileId, patch, now);
    forall i | 0 <= i < |s.projects| ensures twice.projects[i] == once.projects[i] {
      if s.projects[i].id == projectId {
        forall j | 0 <= j < |s.projects[i].tiles|
          ensures twice.projects[i].tiles[j] == once.projects[i].tiles[j]
        {
          TilePatchIdempotent(s.projects[i].tiles[j], patch);
        }
        assert twice.projects[i].tiles == once.projects[i].tiles;
      }
    }
    assert |twice.projects| == |once.projects|;
  }

  function TileId(t: Tile): string { t.id }

  /** The workspace list of `removeTileFromProject`. */
  function WithoutTile(ps: seq<PersistedProject>, projectId: string, tileId: string, now: int)
    : (r: seq<PersistedProject>)
    ensures |r| == |ps|
  {
    seq(|ps|, i requires 0 <= i < |ps| =>
      if ps[i].id == projectId then ps[i].(tiles := Without(ps[i].tiles, TileId, tileId), updatedAt := now)
      else ps[i])
  }

  lemma HasTileIn(ts: seq<Tile>, tileId: string)
    ensures HasTile(ts, tileId) <==> exists t | t in ts :: TileId(t) == tileId
  {
    if HasTile(ts, tileId) {
      var j :| 0 <= j < |ts| && ts[j].id == tileId;
      assert TileId(ts[j]) == tileId;
    }
  }

  /** `removeTileFromProject`: walks the workspaces as the source's `map` does, raising
      `removed` when the target workspace's tile list shrinks. */
  method RemoveTileFromProject(s: ProjectsStore, projectId: string, tileId: string, now: int)
    returns (r: ProjectsStore, removed: bool)
    ensures r == Store(StoreVersion, s.activeProjectId, WithoutTile(s.projects, projectId, tileId, now))
    ensures removed <==> exists i | 0 <= i < |s.projects| ::
                           s.projects[i].id == projectId && HasTile(s.projects[i].tiles, tileId)
    ensures forall i | 0 <= i < |r.projects| && r.projects[i].id == projectId ::
              !HasTile(r.projects[i].tiles, tileId) && r.projects[i].updatedAt == now
    ensures forall i | 0 <= i < |s.projects| && s.projects[i].id != projectId ::
              r.projects[i] == s.projects[i]
  {
    removed := false;
    var projects: seq<PersistedProject> := [];
    for i := 0 to |s.projects|
      invariant projects == WithoutTile(s.projects[..i], projectId, tileId, now)
      invariant removed <==> exists k | 0 <= k < i ::
                               s.projects[k].id == projectId && HasTile(s.projects[k].tiles, tileId)
    {
      var p := s.projects[i];
      if p.id != projectId {
        projects := projects + [p];
      } else {
        var nextTiles := Without(p.tiles, TileId, tileId);
        HasTileIn(p.tiles, tileId);
        removed := removed || |nextTiles| != |p.tiles|;
        projects := projects + [p.(tiles := nextTiles, updatedAt := now)];
      }
      assert s.projects[..i + 1] == s.projects[..i] + [p];
    }
    assert s.projects[..|s.projects|] == s.projects;
    r := Store(StoreVersion, s.activeProjectId, projects);
    forall i | 0 <= i < |r.projects| && r.projects[i].id == projectId
      ensures !HasTile(r.projects[i].tiles, tileId)
    {
      HasTileIn(r.projects[i].tiles, tileId);
    }
  }

  /** Adding a tile with a fresh id and removing it again restores the workspace's tiles. */
  lemma RemoveTileUndoesAdd(s: ProjectsStore, projectId: string, tile: Tile, now: int, later: int)
    requires forall i | 0 <= i < |s.projects| && s.projects[i].id == projectId ::
               !HasTile(s.projects[i].tiles, tile.id)
    ensures var back := WithoutTile(AddTileToProject(s, projectId, tile, now).projects,
                                    projectId, tile.id, later);
            && Ids(back) == Ids(s.projects)
            && forall i | 0 <= i < |s.projects| ::
                 back[i] == (if s.projects[i].id == projectId then s.projects[i].(updatedAt := later)
                             else s.projects[i])
  {
    var added := AddTileToProject(s, projectId, tile, now).projects;
    var back := WithoutTile(added, projectId, tile.id, later);
    forall i | 0 <= i < |s.projects| && s.projects[i].id == projectId
      ensures back[i].tiles == s.projects[i].tiles
    {
      HasTileIn(s.projects[i].tiles, tile.id);
      WithoutAppended(s.projects[i].tiles, tile, TileId);
    }
    assert forall i | 0 <= i < |s.projects| :: Ids(back)[i] == Ids(s.projects)[i];
  }

  /** `migrateV1Store`: every tile gets its agent id parsed from its session key, the
      `coding` role, and that agent's worktree directory; the active id is kept as given. */
  function MigrateV1Store(activeProjectId: Option<string>, ps: seq<PersistedProject>,
                          parseAgentId: AgentIdParser, worktreeDir: WorktreeDir): (r: ProjectsStore)
    ensures r.version == StoreVersion && r.activeProjectId == activeProjectId
    ensures Ids(r.projects) == Ids(ps)
    ensures forall i | 0 <= i < |ps| ::
              && r.projects[i].(tiles := ps[i].tiles) == ps[i]
              && |r.projects[i].tiles| == |ps[i].tiles|
              && forall j | 0 <= j < |ps[i].tiles| ::
                   var t, u := ps[i].tiles[j], r.projects[i].tiles[j];
                   && u.agentId == parseAgentId(t.sessionKey)
                   && u.role == Coding
                   && u.workspacePath == Some(worktreeDir(ps[i].id, u.agentId))
                   && u.(agentId := t.agentId, role := t.role, workspacePath := t.workspacePath) == t
  {
    Store(StoreVersion, activeProjectId,
      seq(|ps|, i requires 0 <= i < |ps| =>
        ps[i].(tiles := seq(|ps[i].tiles|, j requires 0 <= j < |ps[i].tiles| =>
          var agentId := parseAgentId(ps[i].tiles[j].sessionKey);
          ps[i].tiles[j].(agentId := agentId, role := Coding,
                          workspacePath := Some(worktreeDir(ps[i].id, agentId)))))))
  }

  /** What `loadStore` finds on disk. `Parsed(None)` is JSON that parses to a falsy value. */
  datatype StoreFile = Absent | Unparsable | Parsed(doc: Option<RawStore>)

  datatype LoadError =
    | InvalidStore     // "Workspaces store is invalid at <path>."
    | ParseFailure     // "Failed to parse workspaces store at <path>: <details>"

  /** The store `loadStore` returns, and whether it writes the file back first. */
  datatype LoadOutcome = Loaded(store: ProjectsStore, written: bool) | LoadFailed(error: LoadError)

  function DefaultStore(): (r: ProjectsStore)
    ensures r.version == StoreVersion && r.activeProjectId.None? && r.projects == []
  {
    Store(StoreVersion, None, [])
  }

  /** The validation of `loadStore`: `projects` and every workspace's `tiles` are arrays. */
  predicate IsValidDoc(doc: RawStore)
  {
    doc.projects.Some? && forall i | 0 <= i < |doc.projects.value| :: doc.projects.value[i].tiles.Some?
  }

  function ValidatedProjects(doc: RawStore): (ps: seq<PersistedProject>)
    requires IsValidDoc(doc)
    ensures |ps| == |doc.projects.value|
    ensures forall i | 0 <= i < |ps| :: AsRawProject(ps[i]) == doc.projects.value[i]
  {
    var raw := doc.projects.value;
    seq(|raw|, i requires 0 <= i < |raw| =>
      Project(raw[i].id, raw[i].name, raw[i].repoPath, raw[i].createdAt, raw[i].updatedAt,
              raw[i].tiles.value))
  }

  /** The pure part of `loadStore`: seed a missing file, reject an invalid document, return a
      version-2 document as it is, and migrate (and write back) anything else. */
  function LoadStore(file: StoreFile, parseAgentId: AgentIdParser, worktreeDir: WorktreeDir)
    : (r: LoadOutcome)
    ensures file.Absent? ==> r == Loaded(DefaultStore(), true)
    ensures file.Unparsable? ==> r == LoadFailed(ParseFailure)
    ensures file.Parsed? ==> (r == LoadFailed(InvalidStore) <==> file.doc.None? || !IsValidDoc(file.doc.value))
    ensures r.Loaded? ==> r.store.version == StoreVersion
    ensures r.Loaded? && file.Parsed? ==>
              && r.written == (file.doc.value.version != Some(StoreVersion))
              && r.store.activeProjectId == file.doc.value.activeProjectId
              && Ids(r.store.projects) == Ids(file.doc.value.projects.value)
    ensures r.Loaded? && file.Parsed? && file.doc.value.version == Some(StoreVersion) ==>
              forall i | 0 <= i < |r.store.projects| ::
                AsRawProject(r.store.projects[i]) == file.doc.value.projects.value[i]
    ensures file.Parsed? ==> (r.Loaded? <==> file.doc.Some? && IsValidDoc(file.doc.value))
    ensures file.Parsed? && file.doc.Some? && IsValidDoc(file.doc.value)
              && file.doc.value.version != Some(StoreVersion) ==>
              r == Loaded(MigrateV1Store(file.doc.value.activeProjectId, ValidatedProjects(file.doc.value),
                                         parseAgentId, worktreeDir), true)
  {
    match file
    case Absent => Loaded(DefaultStore(), true)
    case Unparsable => LoadFailed(ParseFailure)
    case Parsed(doc) =>
      if doc.None? || !IsValidDoc(doc.value) then LoadFailed(InvalidStore)
      else
        var ps := ValidatedProjects(doc.value);
        assert forall i | 0 <= i < |ps| :: Ids(ps)[i] == doc.value.projects.value[i].id;
        if doc.value.version == Some(StoreVersion) then
          Loaded(Store(StoreVersion, doc.value.activeProjectId, ps), false)
        else
          Loaded(MigrateV1Store(doc.value.activeProjectId, ps, parseAgentId, worktreeDir), true)
  }

  /** Whatever `loadStore` writes back is read again as it was, without another write:
      the seed and a migrated store are version 2 and valid. */
  lemma LoadAfterWriteIsStable(file: StoreFile, parseAgentId: AgentIdParser, worktreeDir: WorktreeDir)
    requires LoadStore(file, parseAgentId, worktreeDir).Loaded?
    ensures var st := LoadStore(file, parseAgentId, worktreeDir).store;
            LoadStore(Parsed(Some(AsRaw(st))), parseAgentId, worktreeDir) == Loaded(st, false)
  {
    var st := LoadStore(file, parseAgentId, worktreeDir).store;
    var doc := AsRaw(st);
    assert forall i | 0 <= i < |st.projects| :: doc.projects.value[i] == AsRawProject(st.projects[i]);
    var ps := ValidatedProjects(doc);
    forall i | 0 <= i < |ps| ensures ps[i] == st.projects[i] {
      assert AsRawProject(ps[i]) == AsRawProject(st.projects[i]);
    }
    assert ps == st.projects;
  }
}
