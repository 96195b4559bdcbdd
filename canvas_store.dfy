/** The client-side canvas state: runtime tiles hydrated from the persisted store, the
    reducer that every UI event goes through, and the dehydration that feeds autosave. */
module CanvasStore {
  import opened Types

  datatype AgentStatus = Idle | Running | Error

  /** A tile as the canvas holds it: the persisted `ProjectTile` fields plus runtime state. */
  datatype AgentTile = AgentTile(
    tile: Tile,
    status: AgentStatus,
    outputLines: seq<string>,
    lastResult: Option<string>,
    lastDiff: Option<string>,
    runId: Option<string>,
    streamText: Option<string>,
    thinkingTrace: Option<string>,
    draft: string,
    sessionSettingsSynced: bool)

  type ProjectRuntime = Project<seq<AgentTile>>

  datatype CanvasTransform = CanvasTransform(zoom: real, offsetX: real, offsetY: real)

  datatype CanvasState = CanvasState(
    projects: seq<ProjectRuntime>,
    activeProjectId: Option<string>,
    selectedTileId: Option<string>,
    canvas: CanvasTransform,
    loading: bool,
    error: Option<string>)

  /** `Partial<AgentTile>`. */
  datatype AgentTilePatch = AgentTilePatch(
    fields: TilePatch,
    status: Option<AgentStatus>,
    outputLines: Option<seq<string>>,
    lastResult: Option<Option<string>>,
    lastDiff: Option<Option<string>>,
    runId: Option<Option<string>>,
    streamText: Option<Option<string>>,
    thinkingTrace: Option<Option<string>>,
    draft: Option<string>,
    sessionSettingsSynced: Option<bool>)

  /** `Partial<ProjectRuntime>`. */
  datatype ProjectPatch = ProjectPatch(
    id: Option<string>,
    name: Option<string>,
    repoPath: Option<string>,
    createdAt: Option<int>,
    updatedAt: Option<int>,
    tiles: Option<seq<AgentTile>>)

  /** `Partial<CanvasTransform>`. */
  datatype CanvasPatch = CanvasPatch(zoom: Option<real>, offsetX: Option<real>, offsetY: Option<real>)

  datatype Action =
    | LoadStore(store: ProjectsStore)
    | SetError(error: Option<string>)
    | SetActiveProject(activeId: Option<string>)
    | AddProject(project: ProjectRuntime)
    | RemoveProject(projectId: string)
    | UpdateProject(projectId: string, projectPatch: ProjectPatch)
    | AddTile(projectId: string, agentTile: AgentTile)
    | RemoveTile(projectId: string, tileId: string)
    | UpdateTile(projectId: string, tileId: string, patch: AgentTilePatch)
    | AppendOutput(projectId: string, tileId: string, line: string)
    | SetStream(projectId: string, tileId: string, value: Option<string>)
    | SelectTile(selected: Option<string>)
    | SetCanvas(canvasPatch: CanvasPatch)

  /** `MIN_TILE_SIZE` and `MAX_TILE_HEIGHT`, whose values are not part of this model. */
  datatype TileLimits = TileLimits(minWidth: int, minHeight: int, maxHeight: int)

  /** `buildSessionKey(agentId)`, whose definition is not part of this model. */
  type SessionKeyBuilder = string -> string

  const DefaultModel := "openai-codex/gpt-5.2-codex"
  const DefaultThinkingLevel := "low"

  /** `initialState`: no workspaces, nothing active or selected, the base zoom at the origin,
      and loading until the first `loadStore`. */
  function InitialState(baseZoom: real): (r: CanvasState)
    ensures r.projects == [] && r.activeProjectId.None? && r.selectedTileId.None?
    ensures r.canvas == CanvasTransform(baseZoom, 0.0, 0.0)
    ensures r.loading && r.error.None?
    ensures GetActiveProject(r).None?
  {
    CanvasState([], None, None, CanvasTransform(baseZoom, 0.0, 0.0), true, None)
  }

  function Min(a: int, b: int): (r: int) { if a <= b then a else b }
  function Max(a: int, b: int): (r: int) { if a >= b then a else b }

  /** `clampTileSize`: width at least the minimum, height between the minimum and the maximum. */
  function ClampTileSize(size: Size, limits: TileLimits): (r: Size)
    ensures r.width >= limits.minWidth && r.height <= limits.maxHeight
    ensures limits.minHeight <= limits.maxHeight ==> limits.minHeight <= r.height
    ensures size.width >= limits.minWidth ==> r.width == size.width
    ensures limits.minHeight <= size.height <= limits.maxHeight ==> r.height == size.height
  {
    Size(Max(limits.minWidth, size.width), Min(limits.maxHeight, Max(limits.minHeight, size.height)))
  }

  predicate SizeInRange(size: Size, limits: TileLimits)
  {
    size.width >= limits.minWidth && limits.minHeight <= size.height <= limits.maxHeight
  }

  /** Clamping twice is clamping once. */
  lemma ClampIdempotent(size: Size, limits: TileLimits)
    ensures ClampTileSize(ClampTileSize(size, limits), limits) == ClampTileSize(size, limits)
  {
  }

  /** `createRuntimeTile`. */
  function CreateRuntimeTile(t: Tile, limits: TileLimits, buildSessionKey: SessionKeyBuilder)
    : (r: AgentTile)
    ensures r.status == Idle && r.outputLines == [] && r.draft == "" && !r.sessionSettingsSynced
    ensures r.runId.None? && r.streamText.None? && r.lastResult.None? && r.lastDiff.None?
    ensures r.thinkingTrace.None?
    ensures r.tile.model.Some? && r.tile.thinkingLevel.Some? && r.tile.avatarSeed.Some?
    ensures t.model.None? ==> r.tile.model == Some(DefaultModel)
    ensures t.thinkingLevel.None? ==> r.tile.thinkingLevel == Some(DefaultThinkingLevel)
    ensures t.avatarSeed.None? ==> r.tile.avatarSeed == Some(t.agentId)
    ensures r.tile.sessionKey == (if t.sessionKey == "" then buildSessionKey(t.agentId) else t.sessionKey)
    ensures SizeInRange(t.size, limits) ==> r.tile.size == t.size
    ensures r.tile.size == ClampTileSize(t.size, limits)
    ensures r.tile.model == Some(t.model.GetOr(DefaultModel))
    ensures r.tile.thinkingLevel == Some(t.thinkingLevel.GetOr(DefaultThinkingLevel))
    ensures r.tile.avatarSeed == Some(t.avatarSeed.GetOr(t.agentId))
    ensures r.tile.(size := t.size, sessionKey := t.sessionKey, model := t.model,
                    thinkingLevel := t.thinkingLevel, avatarSeed := t.avatarSeed) == t
  {
    var tile := t.(
      size := ClampTileSize(t.size, limits),
      sessionKey := if t.sessionKey != "" then t.sessionKey else buildSessionKey(t.agentId),
      model := Some(t.model.GetOr(DefaultModel)),
      thinkingLevel := Some(t.thinkingLevel.GetOr(DefaultThinkingLevel)),
      avatarSeed := Some(t.avatarSeed.GetOr(t.agentId)));
    AgentTile(tile, Idle, [], None, None, None, None, None, "", false)
  }

  /** `hydrateProject`. */
  function HydrateProject(p: PersistedProject, limits: TileLimits, buildSessionKey: SessionKeyBuilder)
    : (r: ProjectRuntime)
    ensures SameMeta(r, p) && |r.tiles| == |p.tiles|
    ensures forall j | 0 <= j < |p.tiles| ::
              r.tiles[j] == CreateRuntimeTile(p.tiles[j], limits, buildSessionKey)
  {
    Project(p.id, p.name, p.repoPath, p.createdAt, p.updatedAt,
      seq(|p.tiles|, j requires 0 <= j < |p.tiles| =>
        CreateRuntimeTile(p.tiles[j], limits, buildSessionKey)))
  }

  function Dehydrate(p: ProjectRuntime): (r: PersistedProject)
    ensures SameMeta(r, p) && |r.tiles| == |p.tiles|
    ensures forall j | 0 <= j < |p.tiles| :: r.tiles[j] == p.tiles[j].tile
  {
    Project(p.id, p.name, p.repoPath, p.createdAt, p.updatedAt,
      seq(|p.tiles|, j requires 0 <= j < |p.tiles| => p.tiles[j].tile))
  }

  /** `dehydrateStore`: the persisted part of the canvas, in the same order. */
  function DehydrateStore(state: CanvasState): (r: ProjectsStore)
    ensures r.version == StoreVersion && r.activeProjectId == state.activeProjectId
    ensures Ids(r.projects) == Ids(state.projects)
    ensures forall i | 0 <= i < |state.projects| :: r.projects[i] == Dehydrate(state.projects[i])
  {
    var ps := state.projects;
    Store(StoreVersion, state.activeProjectId,
      seq(|ps|, i requires 0 <= i < |ps| => Dehydrate(ps[i])))
  }

  /** A persisted tile the canvas would load without changing it. */
  predicate IsCanonicalTile(t: Tile, limits: TileLimits)
  {
    && SizeInRange(t.size, limits) && t.sessionKey != ""
    && t.model.Some? && t.thinkingLevel.Some? && t.avatarSeed.Some?
  }

  predicate AllCanonical(ps: seq<PersistedProject>, limits: TileLimits)
  {
    forall i, j | 0 <= i < |ps| && 0 <= j < |ps[i].tiles| :: IsCanonicalTile(ps[i].tiles[j], limits)
  }

  /** Loading a store whose tiles are already canonical and saving the canvas straight away
      writes back the same workspaces, with the active id repaired. */
  lemma DehydrateAfterLoad(state: CanvasState, st: ProjectsStore, limits: TileLimits,
                           buildSessionKey: SessionKeyBuilder, now: int)
    requires AllCanonical(st.projects, limits)
    ensures var after := Reduce(state, LoadStore(st), limits, buildSessionKey, now);
            DehydrateStore(after) == Store(StoreVersion, after.activeProjectId, st.projects)
  {
    var after := Reduce(state, LoadStore(st), limits, buildSessionKey, now);
    var d := DehydrateStore(after);
    assert |d.projects| == |st.projects|;
    forall i | 0 <= i < |st.projects| ensures d.projects[i] == st.projects[i] {
      var h := HydrateProject(st.projects[i], limits, buildSessionKey);
      assert after.projects[i] == h;
      assert Dehydrate(h).tiles == st.projects[i].tiles;
    }
  }

  /** The first index holding a workspace with id `id`, or -1. */
  function IndexOfProject<C>(ps: seq<Project<C>>, id: string): (r: int)
    ensures -1 <= r < |ps|
    ensures r == -1 <==> !HasId(ps, id)
    ensures r >= 0 ==> ps[r].id == id && forall k | 0 <= k < r :: ps[k].id != id
  {
    if ps == [] then -1
    else if ps[0].id == id then 0
    else
      var k := IndexOfProject(ps[1..], id);
      assert forall m | 1 <= m < |ps| :: ps[m] == ps[1..][m - 1];
      if k == -1 then -1 else k + 1
  }

  /** `projects.find((project) => project.id === id) ?? null`. */
  function FindProject<C>(ps: seq<Project<C>>, id: string): (r: Option<Project<C>>)
    ensures r.None? <==> !HasId(ps, id)
    ensures r.Some? ==> exists i | 0 <= i < |ps| :: ps[i] == r.value && r.value.id == id &&
                          forall k | 0 <= k < i :: ps[k].id != id
  {
    var k := IndexOfProject(ps, id);
    if k == -1 then None else Some(ps[k])
  }

  /** `getActiveProject`: the first workspace whose id is the active id; none when the
      active id is null. */
  function GetActiveProject(state: CanvasState): (r: Option<ProjectRuntime>)
    ensures state.activeProjectId.None? ==> r.None?
    ensures state.activeProjectId.Some? ==>
              r == FindProject(state.projects, state.activeProjectId.value)
  {
    match state.activeProjectId
    case None => None
    case Some(id) => FindProject(state.projects, id)
  }

  function AgentTileId(t: AgentTile): string { t.tile.id }

  /** Applies `f` to every workspace whose id is `projectId`, leaving the others alone. */
  function MapProject(ps: seq<ProjectRuntime>, projectId: string,
                      f: ProjectRuntime -> ProjectRuntime): (r: seq<ProjectRuntime>)
    ensures |r| == |ps|
    ensures forall i | 0 <= i < |ps| :: r[i] == if ps[i].id == projectId then f(ps[i]) else ps[i]
  {
    seq(|ps|, i requires 0 <= i < |ps| => if ps[i].id == projectId then f(ps[i]) else ps[i])
  }

  /** Applies `f` to every tile whose id is `tileId`, leaving the others alone. */
  function MapTile(ts: seq<AgentTile>, tileId: string, f: AgentTile -> AgentTile): (r: seq<AgentTile>)
    ensures |r| == |ts|
    ensures forall j | 0 <= j < |ts| :: r[j] == if ts[j].tile.id == tileId then f(ts[j]) else ts[j]
  {
    seq(|ts|, j requires 0 <= j < |ts| => if ts[j].tile.id == tileId then f(ts[j]) else ts[j])
  }

  /** `{ ...project, ...patch }`: every field the patch carries replaces the workspace's own,
      and an empty patch changes nothing. */
  function ApplyProjectPatch(p: ProjectRuntime, patch: ProjectPatch): (r: ProjectRuntime)
    ensures patch.id.Some? ==> r.id == patch.id.value
    ensures patch.id.None? ==> r.id == p.id
    ensures patch.name.Some? ==> r.name == patch.name.value
    ensures patch.name.None? ==> r.name == p.name
    ensures patch.repoPath.Some? ==> r.repoPath == patch.repoPath.value
    ensures patch.repoPath.None? ==> r.repoPath == p.repoPath
    ensures patch.createdAt.Some? ==> r.createdAt == patch.createdAt.value
    ensures patch.createdAt.None? ==> r.createdAt == p.createdAt
    ensures patch.updatedAt.Some? ==> r.updatedAt == patch.updatedAt.value
    ensures patch.updatedAt.None? ==> r.updatedAt == p.updatedAt
    ensures patch.tiles.Some? ==> r.tiles == patch.tiles.value
    ensures patch.tiles.None? ==> r.tiles == p.tiles
    ensures patch == ProjectPatch(None, None, None, None, None, None) ==> r == p
  {
    Project(patch.id.GetOr(p.id), patch.name.GetOr(p.name), patch.repoPath.GetOr(p.repoPath),
            patch.createdAt.GetOr(p.createdAt), patch.updatedAt.GetOr(p.updatedAt),
            patch.tiles.GetOr(p.tiles))
  }

  /** `{ ...tile, ...patch, size: patch.size ? clampTileSize(patch.size) : tile.size }`. */
  function PatchAgentTile(t: AgentTile, patch: AgentTilePatch, limits: TileLimits): (r: AgentTile)
    ensures r.tile.size == (if patch.fields.size.Some? then ClampTileSize(patch.fields.size.value, limits)
                            else t.tile.size)
  {
    var fields := ApplyTilePatch(t.tile, patch.fields);
    AgentTile(
      fields.(size := if patch.fields.size.Some? then ClampTileSize(patch.fields.size.value, limits)
                      else t.tile.size),
      patch.status.GetOr(t.status), patch.outputLines.GetOr(t.outputLines),
      patch.lastResult.GetOr(t.lastResult), patch.lastDiff.GetOr(t.lastDiff),
      patch.runId.GetOr(t.runId), patch.streamText.GetOr(t.streamText),
      patch.thinkingTrace.GetOr(t.thinkingTrace), patch.draft.GetOr(t.draft),
      patch.sessionSettingsSynced.GetOr(t.sessionSettingsSynced))
  }

  /** The `loadStore` action's active id: the stored id when it is a non-empty string held by
      some workspace, else the first workspace's id, else null. */
  function LoadedActiveId(st: ProjectsStore, projects: seq<ProjectRuntime>): (r: Option<string>)
    ensures r.None? <==> projects == []
    ensures (st.activeProjectId.Some? && st.activeProjectId.value != "" &&
             HasId(projects, st.activeProjectId.value)) ==> r == st.activeProjectId
    ensures st.activeProjectId == Some("") && projects != [] ==> r == Some(projects[0].id)
    ensures (st.activeProjectId.None? || st.activeProjectId.value == "" ||
             !HasId(projects, st.activeProjectId.value)) ==> r == FirstId(projects)
    ensures r.Some? ==> HasId(projects, r.value)
  {
    PickActive(if st.activeProjectId == Some("") then None else st.activeProjectId, projects)
  }

  /** `reducer`. `now` is `Date.now()` at dispatch. */
  function Reduce(state: CanvasState, action: Action, limits: TileLimits,
                  buildSessionKey: SessionKeyBuilder, now: int): (r: CanvasState)
    ensures !action.SetCanvas? ==> r.canvas == state.canvas
    ensures !(action.SetActiveProject? || action.SelectTile?) ==> r.selectedTileId == state.selectedTileId
    ensures !(action.LoadStore? || action.SetActiveProject?) ==> r.activeProjectId == state.activeProjectId
    ensures !(action.LoadStore? || action.SetError?) ==> r.loading == state.loading && r.error == state.error
    ensures !(action.LoadStore? || action.AddProject? || action.RemoveProject? || action.UpdateProject?) ==>
              Ids(r.projects) == Ids(state.projects)
    ensures action.LoadStore? ==>
              && !r.loading && r.error.None?
              && Ids(r.projects) == Ids(action.store.projects)
              && r.activeProjectId == LoadedActiveId(action.store, r.projects)
    ensures action.SetActiveProject? ==> r.activeProjectId == action.activeId && r.selectedTileId.None?
    ensures action.RemoveProject? ==> !HasId(r.projects, action.projectId)
    ensures action.RemoveProject? ==> r.projects == Without(state.projects, ProjectId, action.projectId)
    ensures action.AddProject? ==> r.projects == state.projects + [action.project]
    ensures action.SetError? ==> r.error == action.error && !r.loading
    ensures action.SelectTile? ==> r.selectedTileId == action.selected
    ensures action.SetCanvas? ==>
              && r.canvas.zoom == action.canvasPatch.zoom.GetOr(state.canvas.zoom)
              && r.canvas.offsetX == action.canvasPatch.offsetX.GetOr(state.canvas.offsetX)
              && r.canvas.offsetY == action.canvasPatch.offsetY.GetOr(state.canvas.offsetY)
  {
    match action
    case LoadStore(st) =>
      var projects := seq(|st.projects|, i requires 0 <= i < |st.projects| =>
                        HydrateProject(st.projects[i], limits, buildSessionKey));
      state.(projects := projects, activeProjectId := LoadedActiveId(st, projects),
             loading := false, error := None)
    case SetError(e) => state.(error := e, loading := false)
    case SetActiveProject(id) => state.(activeProjectId := id, selectedTileId := None)
    case AddProject(p) => state.(projects := state.projects + [p])
    case RemoveProject(id) =>
      var ps := Without(state.projects, ProjectId, id);
      HasIdIn(ps, id);
      state.(projects := ps)
    case UpdateProject(id, patch) =>
      state.(projects := MapProject(state.projects, id,
               (p: ProjectRuntime) => ApplyProjectPatch(p, patch).(updatedAt := now)))
    case AddTile(id, t) =>
      state.(projects := MapProject(state.projects, id,
               (p: ProjectRuntime) => p.(tiles := p.tiles + [t], updatedAt := now)))
    case RemoveTile(id, tileId) =>
      state.(projects := MapProject(state.projects, id,
               (p: ProjectRuntime) => p.(tiles := Without(p.tiles, AgentTileId, tileId), updatedAt := now)))
    case UpdateTile(id, tileId, patch) =>
      state.(projects := MapProject(state.projects, id,
               (p: ProjectRuntime) => p.(tiles := MapTile(p.tiles, tileId, (t: AgentTile) => PatchAgentTile(t, patch, limits)),
                       updatedAt := now)))
    case AppendOutput(id, tileId, line) =>
      state.(projects := MapProject(state.projects, id,
               (p: ProjectRuntime) => p.(tiles := MapTile(p.tiles, tileId, (t: AgentTile) => t.(outputLines := t.outputLines + [line])))))
    case SetStream(id, tileId, value) =>
      state.(projects := MapProject(state.projects, id,
               (p: ProjectRuntime) => p.(tiles := MapTile(p.tiles, tileId, (t: AgentTile) => t.(streamText := value)))))
    case SelectTile(tileId) => state.(selectedTileId := tileId)
    case SetCanvas(patch) =>
      state.(canvas := CanvasTransform(patch.zoom.GetOr(state.canvas.zoom),
                                       patch.offsetX.GetOr(state.canvas.offsetX),
                                       patch.offsetY.GetOr(state.canvas.offsetY)))
  }

  /** The tile-level actions (`updateTile`, `appendOutput`, `setStream`) change only the
      tiles they name, in the workspace they name; only `updateTile` marks the workspace as
      updated. */
  lemma TileActionFrame(state: CanvasState, action: Action, limits: TileLimits,
                        buildSessionKey: SessionKeyBuilder, now: int)
    requires action.UpdateTile? || action.AppendOutput? || action.SetStream?
    ensures var r := Reduce(state, action, limits, buildSessionKey, now);
            && |r.projects| == |state.projects|
            && forall i | 0 <= i < |state.projects| ::
                 var p, q := state.projects[i], r.projects[i];
                 && (p.id != action.projectId ==> q == p)
                 && (p.id == action.projectId ==>
                       && SameMeta(q, p.(updatedAt := q.updatedAt))
                       && q.updatedAt == (if action.UpdateTile? then now else p.updatedAt)
                       && |q.tiles| == |p.tiles|
                       && forall j | 0 <= j < |p.tiles| ::
                            && (p.tiles[j].tile.id != action.tileId ==> q.tiles[j] == p.tiles[j])
                            && (p.tiles[j].tile.id == action.tileId ==>
                                  q.tiles[j] == match action
                                                case UpdateTile(_, _, patch) => PatchAgentTile(p.tiles[j], patch, limits)
                                                case AppendOutput(_, _, line) =>
                                                  p.tiles[j].(outputLines := p.tiles[j].outputLines + [line])
                                                case SetStream(_, _, value) => p.tiles[j].(streamText := value)
                                                case _ => p.tiles[j]))
  {
  }

  /** `loadStore` hydrates every stored workspace in order; the workspace-level actions
      (`updateProject`, `addTile`, `removeTile`) change only the workspace they name and stamp
      it with `now`. */
  lemma WorkspaceActionEffects(state: CanvasState, action: Action, limits: TileLimits,
                               buildSessionKey: SessionKeyBuilder, now: int)
    requires action.LoadStore? || action.UpdateProject? || action.AddTile? || action.RemoveTile?
    ensures var r := Reduce(state, action, limits, buildSessionKey, now);
            && (action.LoadStore? ==>
                  && |r.projects| == |action.store.projects|
                  && forall i | 0 <= i < |r.projects| ::
                       r.projects[i] == HydrateProject(action.store.projects[i], limits, buildSessionKey))
            && (!action.LoadStore? ==>
                  && |r.projects| == |state.projects|
                  && forall i | 0 <= i < |state.projects| ::
                       var p := state.projects[i];
                       r.projects[i] == if p.id != action.projectId then p
                                        else match action
                                          case UpdateProject(_, patch) => ApplyProjectPatch(p, patch).(updatedAt := now)
                                          case AddTile(_, t) => p.(tiles := p.tiles + [t], updatedAt := now)
                                          case RemoveTile(_, tileId) =>
                                            p.(tiles := Without(p.tiles, AgentTileId, tileId), updatedAt := now)
                                          case _ => p)
  {
  }

  /** Removing the active workspace does not move the active id: the canvas is left with no
      active workspace until another one is chosen. */
  lemma RemoveActiveProjectLeavesNoneActive(state: CanvasState, limits: TileLimits,
                                            buildSessionKey: SessionKeyBuilder, now: int)
    requires state.activeProjectId.Some?
    ensures var r := Reduce(state, RemoveProject(state.activeProjectId.value), limits, buildSessionKey, now);
            r.activeProjectId == state.activeProjectId && GetActiveProject(r).None?
  {
  }

  /** Adding a tile with a fresh id and removing it again restores the workspace's tiles. */
  lemma RemoveTileUndoesAddTile(state: CanvasState, projectId: string, t: AgentTile, limits: TileLimits,
                                buildSessionKey: SessionKeyBuilder, now: int, later: int)
    requires forall i, j | 0 <= i < |state.projects| && 0 <= j < |state.projects[i].tiles| &&
               state.projects[i].id == projectId :: state.projects[i].tiles[j].tile.id != t.tile.id
    ensures var added := Reduce(state, AddTile(projectId, t), limits, buildSessionKey, now);
            var removed := Reduce(added, RemoveTile(projectId, t.tile.id), limits, buildSessionKey, later);
            && |removed.projects| == |state.projects|
            && forall i | 0 <= i < |state.projects| ::
                 removed.projects[i] == if state.projects[i].id == projectId
                                        then state.projects[i].(updatedAt := later)
                                        else state.projects[i]
  {
    var added := Reduce(state, AddTile(projectId, t), limits, buildSessionKey, now);
    var removed := Reduce(added, RemoveTile(projectId, t.tile.id), limits, buildSessionKey, later);
    forall i | 0 <= i < |state.projects| && state.projects[i].id == projectId
      ensures removed.projects[i] == state.projects[i].(updatedAt := later)
    {
      var ts := state.projects[i].tiles;
      assert added.projects[i].tiles == ts + [t];
      assert forall u | u in ts :: AgentTileId(u) != AgentTileId(t);
      WithoutAppended(ts, t, AgentTileId);
    }
  }

  /** Adding a workspace with a fresh id and removing it again restores the workspaces. */
  lemma RemoveProjectUndoesAddProject(state: CanvasState, p: ProjectRuntime, limits: TileLimits,
                                      buildSessionKey: SessionKeyBuilder, now: int)
    requires !HasId(state.projects, p.id)
    ensures var added := Reduce(state, AddProject(p), limits, buildSessionKey, now);
            Reduce(added, RemoveProject(p.id), limits, buildSessionKey, now) == state
  {
    assert forall q | q in state.projects :: ProjectId(q) != ProjectId(p);
    WithoutAppended(state.projects, p, ProjectId);
  }

  /** Dispatching the same `updateTile` twice has the effect of dispatching it once, as long
      as the patch does not rename the tile. */
  lemma UpdateTileTwice(state: CanvasState, projectId: string, tileId: string, patch: AgentTilePatch,
                        limits: TileLimits, buildSessionKey: SessionKeyBuilder, now: int)
    requires patch.fields.id.None? || patch.fields.id == Some(tileId)
    ensures var once := Reduce(state, UpdateTile(projectId, tileId, patch), limits, buildSessionKey, now);
            Reduce(once, UpdateTile(projectId, tileId, patch), limits, buildSessionKey, now) == once
  {
    var once := Reduce(state, UpdateTile(projectId, tileId, patch), limits, buildSessionKey, now);
    var twice := Reduce(once, UpdateTile(projectId, tileId, patch), limits, buildSessionKey, now);
    forall i | 0 <= i < |state.projects| && state.projects[i].id == projectId
      ensures twice.projects[i] == once.projects[i]
    {
      var ts := state.projects[i].tiles;
      var o := once.projects[i];
      assert |o.tiles| == |ts| == |twice.projects[i].tiles|;
      forall j | 0 <= j < |ts| ensures twice.projects[i].tiles[j] == o.tiles[j] {
        if ts[j].tile.id == tileId {
          TilePatchIdempotent(ts[j].tile, patch.fields);
          if patch.fields.size.Some? {
            ClampIdempotent(patch.fields.size.value, limits);
          }
          assert o.tiles[j] == PatchAgentTile(ts[j], patch, limits);
          assert o.tiles[j].tile.id == tileId;
        } else {
          assert o.tiles[j] == ts[j];
        }
      }
      assert twice.projects[i].tiles == o.tiles;
      assert o.id == projectId && o.updatedAt == now;
    }
    assert twice.projects == once.projects;
  }
}
