# Workspace and tile store of the agent canvas, in Dafny

This project models the core of the agent canvas web application: the `projects.json`
workspace document and the logic around it.

- The server side keeps the document. `store.ts` normalizes it, adds and removes workspaces
  and tiles, migrates version-1 files and decides what a load does.
- Three routes sit on top of it:
  - `GET`/`POST`/`PUT /api/projects` list workspaces, create one in a fresh folder under the
    home directory, and replace the whole document;
  - `POST /api/projects/open` registers an existing directory.
- The client side holds the canvas in a reducer. The reducer hydrates the document into
  runtime tiles, applies the user's and the gateway's actions, and dehydrates the result for
  saving.
- The page has four groups of helpers:
  - turning gateway chat history into output lines and merging them with pending lines;
  - prefixing outgoing messages with the workspace;
  - finding the tile an event is about;
  - the run lifecycle (`idle`/`running`/`error`) driven by `agent` events.
- `buildAgentInstruction` builds the instruction sent to an agent's worktree.

## Modules

- `Strings` (`strings.dfy`): JavaScript's `trim`, `startsWith`, `endsWith` and the decimal
  rendering of a number, with their properties.
- `Types` (`types.dfy`): tiles, workspaces and the store document.
  - `Project<C>` is generic in its tile list. The list is `seq<Tile>` once validated,
    `Option<seq<Tile>>` as parsed from JSON, and `seq<AgentTile>` in the canvas.
  - The module also holds the shared active-workspace rule `PickActive` and the list filter
    `Without`.
- `ProjectsStore` (`projects_store.dfy`): `src/app/api/projects/store.ts`.
- `ProjectsRoute` (`projects_route.dfy`): `src/app/api/projects/route.ts`.
- `OpenRoute` (`open_route.dfy`): `src/app/api/projects/open/route.ts`.
- `CanvasStore` (`canvas_store.dfy`): `src/features/canvas/state/store.tsx`.
- `CanvasPage` (`page.dfy`): the helpers of `src/app/page.tsx`.
- `AgentMessage` (`agent_message.dfy`): `src/lib/projects/message.ts`.

Collaborators whose code is not part of this model are function-typed parameters:

- `resolveAgentWorktreeDir`, `parseAgentIdFromSessionKey` and `buildSessionKey`;
- `extractText` and `stripUiMetadata`;
- `slugifyProjectName` and `ensureGitRepo`;
- `path.join`, `basename`, `parse().root`, `isAbsolute` and `fs.realpathSync`.

`os.homedir()`, `Date.now()`, `randomUUID()` and the file system's set of existing paths are
parameters too.

## Model

`Strings.Trim`, `Strings.IsBlank`, `Strings.DigitsValue`, `Types.FirstId`,
`CanvasPage.PageReader` and the other members without a row are definitions used by the
contracts. The properties of `Trim` and `IsBlank` are the `TrimStartCuts`, `TrimEndCuts`,
`TrimIdempotent` and `BlankIffAllSpace` rows. `PageReader` builds the page's
`HistoryReader` (`message.role`, and `stripUiMetadata(extractText(message)?.trim() ?? "")`
as text, src/app/page.tsx:68-70); the history lemmas hold for every reader.

| member | source | states |
|---|---|---|
| Strings.TrimStartCuts | src/lib/projects/message.ts:12 | `trim` removes only leading whitespace, and all of it |
| Strings.TrimEndCuts | src/lib/projects/message.ts:12 | `trim` removes only trailing whitespace, and all of it |
| Strings.BlankIffAllSpace | src/lib/projects/message.ts:12-13 | a string trims to "" exactly when every character is whitespace |
| Strings.TrimIdempotent | src/lib/projects/message.ts:12 | trimming a trimmed string changes nothing |
| Strings.Decimal | src/app/api/projects/route.ts:128 | `${suffix}` is a non-empty string of digits, one digit exactly below 10 |
| Strings.DecimalReadsBack | src/app/api/projects/route.ts:128 | `${suffix}` reads back as the number, and has no leading zero above 9 |
| Strings.DecimalDistinct | src/app/api/projects/route.ts:128 | different numbers render as different strings |
| Types.PickActive | src/app/api/projects/store.ts:40-44 | active id: the requested id if a workspace has it, else the first workspace's id, else null; the result always names a workspace |
| Types.PickActiveByIds | src/app/api/projects/store.ts:40-44 | the active id depends only on the workspace ids, in order |
| Types.Without | src/app/api/projects/store.ts:67 | `filter` by id keeps exactly the elements with another id; nothing is dropped exactly when no element has the id |
| Types.WithoutOne | src/app/api/projects/store.ts:67 | `filter` on one element keeps it exactly when its id differs |
| Types.WithoutConcat | src/app/api/projects/store.ts:67 | `filter` distributes over concatenation, so it keeps the order and the repetitions of the elements it keeps |
| Types.WithoutAbsent | src/app/api/projects/store.ts:67 | filtering out an id nobody has changes nothing |
| Types.WithoutAppended | src/app/api/projects/store.ts:67 | filtering out the id of a freshly appended element gives the list back |
| Types.TilePatchIdempotent | src/app/api/projects/store.ts:105 | `{ ...tile, ...patch }` applied twice is applied once; the empty patch changes nothing |
| ProjectsStore.NormalizeProjectsStore | src/app/api/projects/store.ts:27-51 | version 2; a non-array `projects` becomes []; workspaces kept in order with their fields; non-array tiles become []; a non-blank `workspacePath` is kept, any other replaced by the worktree directory; the active id follows the active-workspace rule |
| ProjectsStore.NormalizeIdempotent | src/app/api/projects/store.ts:27-51 | normalizing a normalized store gives it back |
| ProjectsStore.NormalizeKeepsCompleteProjects | src/app/api/projects/store.ts:31-37 | when every tile has a workspace path, normalizing keeps the workspaces as they are |
| ProjectsStore.AppendProjectToStore | src/app/api/projects/store.ts:53-61 | version 2; the earlier workspaces are kept in order, each with its tiles repaired by normalization; the new workspace goes last, with repaired tiles, and becomes active |
| ProjectsStore.AppendKeepsProjects | src/app/api/projects/store.ts:53-61 | with every tile already holding a path, the result's workspaces are the old ones plus the new one |
| ProjectsStore.RemoveProjectFromStore | src/app/api/projects/store.ts:63-77 | `removed` exactly when a workspace had the id; afterwards none has it; the workspaces left are the filtered ones, in order, each with its tiles repaired by normalization; version 2; the active id is re-normalized |
| ProjectsStore.NormalizeRepairsTiles | src/app/api/projects/store.ts:27-51 | normalizing a validated store keeps each workspace and repairs only its tiles |
| ProjectsStore.RemoveKeepsProjects | src/app/api/projects/store.ts:63-77 | when every tile has a workspace path, the workspaces left are exactly the filtered list |
| ProjectsStore.RemoveUndoesAppend | src/app/api/projects/store.ts:53-77 | appending a workspace with a fresh id and removing it gives back the workspaces, with the first one active |
| ProjectsStore.AddTileToProject | src/app/api/projects/store.ts:79-92 | the target workspace gets exactly the new tile appended and `updatedAt = now`; every other workspace is unchanged; version 2 |
| ProjectsStore.UpdateTileInProject | src/app/api/projects/store.ts:94-114 | only tiles with `tileId` in the target workspace are patched; tile count kept; the target's `updatedAt` becomes `now` even when no tile matches; others unchanged |
| ProjectsStore.UpdateTileIdempotent | src/app/api/projects/store.ts:94-114 | repeating an update with the same patch and clock changes nothing more, unless the patch renames the tile |
| ProjectsStore.RemoveTileFromProject | src/app/api/projects/store.ts:116-134 | the `map` loop with its `removed` flag: the result is the filtered store; `removed` exactly when the target workspace held the tile; afterwards it holds none and has `updatedAt = now`; other workspaces untouched |
| ProjectsStore.RemoveTileUndoesAdd | src/app/api/projects/store.ts:79-134 | adding a tile with a fresh id and removing it again restores the workspace's tiles |
| ProjectsStore.MigrateV1Store | src/app/api/projects/store.ts:157-177 | every tile gets the agent id parsed from its session key, role `coding` and that agent's worktree directory; nothing else changes; version 2 |
| ProjectsStore.DefaultStore | src/app/api/projects/store.ts:21-25 | the seed store: version 2, no active workspace, no workspaces |
| ProjectsStore.ValidatedProjects | src/app/api/projects/store.ts:189-197 | a validated document's workspaces, each read back as the workspace it was parsed from |
| ProjectsStore.LoadStore | src/app/api/projects/store.ts:179-211 | a missing file is seeded and written; unparsable JSON and invalid documents (falsy, non-array `projects` or `tiles`) fail; a parsed document is loaded exactly when it is valid; version 2 is returned as read, not written; anything else is `migrateV1Store` of the validated workspaces and the stored active id, written back |
| ProjectsStore.LoadAfterWriteIsStable | src/app/api/projects/store.ts:179-211 | what a load writes back loads again unchanged and is not written a second time |
| ProjectsRoute.NormalizeShallow | src/app/api/projects/route.ts:20-32 | version 2; `projects` kept as is or [] when not an array; active id by the active-workspace rule |
| ProjectsRoute.NormalizeShallowIdempotent | src/app/api/projects/route.ts:20-32 | the route's normalization is idempotent |
| ProjectsRoute.ListProjects | src/app/api/projects/route.ts:34-43 | `GET`: the normalized store, or 500 when loading fails |
| ProjectsRoute.SaveProjects | src/app/api/projects/route.ts:103-117 | `PUT`: 400 "Invalid workspaces payload." exactly for a null body or a non-array `projects`; otherwise the normalized store with the same workspaces |
| ProjectsRoute.SaveProjectsStable | src/app/api/projects/route.ts:103-117 | sending back what `PUT` answered answers the same |
| ProjectsRoute.FirstFreeCandidateUnique | src/app/api/projects/route.ts:119-133 | the first free candidate path is unique |
| ProjectsRoute.InjectiveJoinKeepsCandidatesDistinct | src/app/api/projects/route.ts:121-129 | a `join` that never maps two names to one path gives `slug`, `slug-2`, `slug-3`, ... distinct paths |
| ProjectsRoute.ResolveProjectPath | src/app/api/projects/route.ts:119-133 | the returned path does not exist and is the first free one of `slug`, `slug-2`, ...; the base path with no warning when it is free, else exactly one warning naming the path chosen; the loop terminates |
| ProjectsRoute.CreateProject | src/app/api/projects/route.ts:45-101 | `POST`: 400 for a blank name before anything else; 400 with the slug error's message; 500 when loading fails; otherwise the store gains one last workspace (trimmed name, first free path, empty tiles, `createdAt = updatedAt = now`) that becomes active, with the path warning then the git warnings |
| OpenRoute.ResolveHomePath | src/app/api/projects/open/route.ts:32-40 | `~` is home, `~/rest` is `join(home, rest)`, anything else (also `~user` and `~user/x`) is unchanged |
| OpenRoute.OpenTarget | src/app/api/projects/open/route.ts:44-78 | the guards in order: 400 blank path; 400 not absolute; 404 missing; 400 not a directory; 400 no name; otherwise the real path; never 409 or 500 |
| OpenRoute.OpenProject | src/app/api/projects/open/route.ts:42-126 | a failed guard is answered as is; 500 when loading fails; 409 when a workspace has the path; otherwise a last, active workspace named after the directory with empty tiles, and the `.git` warning exactly when `.git` is missing |
| OpenRoute.OpenKeepsRepoPathsDistinct | src/app/api/projects/open/route.ts:80-107 | opening never gives two workspaces the same path |
| OpenRoute.OpenTwiceConflicts | src/app/api/projects/open/route.ts:80-86 | opening the same directory against the saved store is a 409 |
| CanvasStore.ClampTileSize | src/features/canvas/state/store.tsx:88-97 | width at least the minimum; height at most the maximum and, when min <= max, at least the minimum; in-range sizes unchanged |
| CanvasStore.ClampIdempotent | src/features/canvas/state/store.tsx:88-97 | clamping twice is clamping once |
| CanvasStore.CreateRuntimeTile | src/features/canvas/state/store.tsx:99-115 | idle, no output, null run/stream/results/trace, empty draft, not synced; model, thinking level and avatar seed are the tile's own when present, else the defaults (`agentId` for the seed); an empty session key replaced by `buildSessionKey(agentId)`; size is `clampTileSize` of the tile's size; all other fields kept |
| CanvasStore.HydrateProject | src/features/canvas/state/store.tsx:117-120 | same workspace fields; every tile hydrated, in order |
| CanvasStore.Dehydrate | src/features/canvas/state/store.tsx:125-144 | one workspace's persisted fields and tiles, in order, runtime fields dropped |
| CanvasStore.DehydrateStore | src/features/canvas/state/store.tsx:122-145 | version 2, the same active id, the same workspaces in order, each dehydrated |
| CanvasStore.DehydrateAfterLoad | src/features/canvas/state/store.tsx:117-170 | loading canonical tiles and saving straight away writes back the same workspaces |
| CanvasStore.IndexOfProject | src/features/canvas/state/store.tsx:483-485 | the first index with the id, or -1 exactly when none has it |
| CanvasStore.FindProject | src/features/canvas/state/store.tsx:483-485 | `find` by id: the first workspace with the id, null exactly when none has it |
| CanvasStore.GetActiveProject | src/features/canvas/state/store.tsx:483-485 | the first workspace with the active id; null when the active id is null |
| CanvasStore.MapProject | src/features/canvas/state/store.tsx:181-262 | the `projects.map` of the reducer: only workspaces with the id are changed |
| CanvasStore.MapTile | src/features/canvas/state/store.tsx:213-262 | the `tiles.map` of the reducer: only tiles with the id are changed |
| CanvasStore.PatchAgentTile | src/features/canvas/state/store.tsx:220-227 | the size is the clamped patch size when the patch has one, else the old size |
| CanvasStore.LoadedActiveId | src/features/canvas/state/store.tsx:157-162 | the stored id when it is non-empty and held by a workspace; otherwise (null, empty or not held) the first workspace's id, or null when there are none |
| CanvasStore.InitialState | src/features/canvas/state/store.tsx:79-86 | no workspaces, nothing active or selected, the base zoom at offset 0, loading, no error |
| CanvasStore.ApplyProjectPatch | src/features/canvas/state/store.tsx:185 | `{ ...project, ...patch }`: each field is the patch's when it carries one, else the workspace's; the empty patch changes nothing |
| CanvasStore.Reduce | src/features/canvas/state/store.tsx:154-271 | what each action may touch and its new value: `loadStore` clears loading and error and picks the active id; `setError` sets the error and clears loading; `setActiveProject` sets the id and clears the selection; `addProject` appends the workspace; `removeProject` filters the workspace out; `selectTile` sets the selection; `setCanvas` takes each given canvas field, else keeps it |
| CanvasStore.WorkspaceActionEffects | src/features/canvas/state/store.tsx:157-212 | `loadStore` hydrates every stored workspace, in order; `updateProject`, `addTile` and `removeTile` change only the named workspace (patched, tile appended, tile filtered out) and stamp it with `now` |
| CanvasStore.TileActionFrame | src/features/canvas/state/store.tsx:213-262 | `updateTile`, `appendOutput` and `setStream` change only the named tile of the named workspace; `appendOutput` appends exactly the line; only `updateTile` moves `updatedAt` |
| CanvasStore.RemoveActiveProjectLeavesNoneActive | src/features/canvas/state/store.tsx:177-180 | removing the active workspace keeps the active id, so no workspace is active |
| CanvasStore.RemoveTileUndoesAddTile | src/features/canvas/state/store.tsx:189-212 | adding a tile with a fresh id and removing it restores the workspace's tiles |
| CanvasStore.RemoveProjectUndoesAddProject | src/features/canvas/state/store.tsx:175-180 | adding a workspace with a fresh id and removing it restores the state |
| CanvasStore.UpdateTileTwice | src/features/canvas/state/store.tsx:213-234 | dispatching the same `updateTile` twice is dispatching it once, unless the patch renames the tile |
| CanvasPage.HistoryStep | src/app/page.tsx:67-80 | how lines, last assistant text and last role grow by one message |
| CanvasPage.DedupStep | src/app/page.tsx:82-85 | how the de-duplicated lines grow by one line |
| CanvasPage.DedupLines | src/app/page.tsx:81-85 | the second loop computes the de-duplicated lines |
| CanvasPage.BuildHistoryLines | src/app/page.tsx:63-87 | both loops: the lines are the de-duplicated lines of the messages; the last assistant text and last role are those of the last contributing messages |
| CanvasPage.DedupNoAdjacent | src/app/page.tsx:81-85 | no two adjacent lines are equal; the last line survives |
| CanvasPage.DedupSameLines | src/app/page.tsx:81-85 | de-duplication keeps exactly the same set of lines and never grows |
| CanvasPage.DedupFixed | src/app/page.tsx:81-85 | lines without adjacent repeats pass unchanged, so de-duplicating twice is once |
| CanvasPage.HistoryLineOrigins | src/app/page.tsx:67-80 | every line is `> text` of a user message or the text of an assistant message, with a non-empty text |
| CanvasPage.LastAssistantIndex | src/app/page.tsx:67-80 | `lastAssistant` is the text of the last assistant message with text; null exactly when there is none |
| CanvasPage.FindFrom | src/app/page.tsx:95-101 | the inner loop's search: the first index at or after the cursor holding the line, or -1 exactly when none |
| CanvasPage.MergeHistoryWithPending | src/app/page.tsx:89-112 | the history unchanged when either input is empty; otherwise the cursor-based merge |
| CanvasPage.Kept | src/app/page.tsx:92 | selecting the lines with a given flag never gives more lines than there are |
| CanvasPage.KeptAll | src/app/page.tsx:92 | with every flag equal, all lines are selected for that flag and none for the other |
| CanvasPage.InsertKept | src/app/page.tsx:106-109 | a line spliced in at the cursor, flagged as inserted, leaves the unflagged lines as they were and, when nothing after the cursor was inserted, comes last among the inserted ones |
| CanvasPage.InsertUntagged | src/app/page.tsx:106-109 | every inserted line starts with "> " |
| CanvasPage.ChosenStep | src/app/page.tsx:94-111 | how the chosen pending lines grow by one pending line |
| CanvasPage.SkipStep | src/app/page.tsx:98-104 | a pending line that is matched or dropped adds nothing and is not chosen |
| CanvasPage.InsertStep | src/app/page.tsx:106-109 | a pending `> ` line inserted at the cursor is chosen and goes last among the inserted lines |
| CanvasPage.MergeFromKeeps | src/app/page.tsx:94-111 | from any cursor, merging keeps the original lines in order; the inserted lines are the earlier inserted ones followed by an in-order selection of the pending lines, all `> ` lines; at most one line per pending line |
| CanvasPage.MergeKeepsHistory | src/app/page.tsx:89-112 | the history is an in-order subsequence of the merge; the other lines are an in-order subsequence of the pending `> ` lines; length at most history plus pending |
| CanvasPage.BuildProjectMessage | src/app/page.tsx:114-123 | the trimmed message when there is no workspace, its path is blank, or the message starts with "/"; otherwise it starts with "Workspace path: " + path + "." and ends with "\n\n" + trimmed |
| CanvasPage.IndexOfTile | src/app/page.tsx:131 | `tiles.find`: the first matching tile's index, or -1 exactly when none matches |
| CanvasPage.FindTileProject | src/app/page.tsx:130-135 | the first workspace at or after an index holding a matching tile |
| CanvasPage.FindTile | src/app/page.tsx:125-149 | the first workspace, in order, with a matching tile, with its first matching tile; null exactly when no tile matches |
| CanvasPage.FindTileBySessionKey | src/app/page.tsx:125-136 | the search by session key; null exactly when no tile has the key |
| CanvasPage.FindTileByRunId | src/app/page.tsx:138-149 | the search by run id; null exactly when no tile has the run |
| CanvasPage.LifecyclePatch | src/app/page.tsx:563-591 | `start` gives running with the run id; `end`/`error` give nothing for a tile with another non-empty run, else idle/error with no run and no stream; other phases give nothing |
| CanvasPage.LifecycleTransition | src/app/page.tsx:563-591 | the tile after the patch: running with the run after `start`; idle or errored with run and stream cleared after its own `end`/`error`; unchanged when ignored; a patched tile is running exactly when it holds a run |
| CanvasPage.FindTileById | src/app/page.tsx:561 | `tiles.find` by id: a tile with the id with none before it; null exactly when none has it |
| CanvasPage.MatchEventTile | src/app/page.tsx:554-558 | the tile found by a non-empty session key, else the tile found by run id |
| CanvasPage.TargetTile | src/app/page.tsx:560-562 | `FindTileById` over the tiles of `FindProject` of the workspace id; null exactly when there is no such workspace or tile |
| CanvasPage.HandleAgentEvent | src/app/page.tsx:553-591 | an `updateTile` is dispatched exactly when the event has a run id, is a lifecycle event, names an existing tile and its phase gives that tile a patch; the patch is that tile's lifecycle patch |
| AgentMessage.RepoNote | src/lib/projects/message.ts:17-18 | the worktree note is empty exactly when the repository path is blank; otherwise it names the trimmed path and ends with "." |
| AgentMessage.BuildAgentInstruction | src/lib/projects/message.ts:7-20 | empty exactly for a blank message; the trimmed message for a blank message, a `/` command or a blank worktree; otherwise starts with "Workspace path: " + trimmed worktree + "." + the note and ends with "\n\n" + trimmed message |
| AgentMessage.PretrimmedMessage | src/lib/projects/message.ts:12 | trimming the message first changes nothing |

## Left out

- File I/O is not modelled: `ensureStoreDir`, the reads and writes of `loadStore`, and
  `saveStore`. `ProjectsStore.LoadStore` takes what the file holds, as a `StoreFile`. Its
  `written` flag says whether the store is written back.
- Error messages that embed the store path are reduced to their kind (`LoadError`), and the
  routes' 500 answers to `ServerError` without a message.
- The only 500 the routes can give in this model is a failed load. These 500s of the source
  cannot occur, because their causes are not modelled:
  - a request body that is not JSON (src/app/api/projects/route.ts:47 and :105,
    src/app/api/projects/open/route.ts:44);
  - `ensureGitRepo` throwing (src/app/api/projects/route.ts:65);
  - `fs.statSync` or `fs.realpathSync` throwing (src/app/api/projects/open/route.ts:63 and :71);
  - `saveStore` throwing (src/app/api/projects/route.ts:84 and :110,
    src/app/api/projects/open/route.ts:109).
- The reducer's `default` branch is not modelled: `Action` has exactly the source's action
  kinds, so an unknown action type cannot be expressed.
- The provider is not modelled, because it is React plumbing and timers: debounced autosave,
  `lastSavedRef`, and the `createTile`/`renameTile` HTTP wrappers.
- The page's gateway calls, history polling and event subscriptions are not modelled; they
  are asynchronous. `HandleAgentEvent` takes an event already known to be an `agent` event.
- Zoom clamping on the page is not modelled, because it is floating point. Canvas offsets and
  zoom are `real` and are only copied.
- `MIN_TILE_SIZE`, `MAX_TILE_HEIGHT` and `CANVAS_BASE_ZOOM` are not defined in the files
  modelled here, so they are parameters (`TileLimits`, `InitialState`).
- `extractText`, `stripUiMetadata` and the other collaborators listed above are not modelled;
  they are parameters without properties.
- The following are not modelled: `AgentTile.tsx`, the gateway route, `fs.server.ts`,
  `workspaceFiles.server.ts`, `agentWorkspace.ts` and `resolve.server`.
- CanvasStore.HydrateProject: takes a validated workspace, so a non-array `tiles` (hydrated as
  `[]` in the source) cannot be expressed.
- ProjectsStore.LoadStore: a version-2 document is returned as read. The tile type, however,
  requires every tile field, so a version-2 tile with missing fields cannot be expressed.
- ProjectsStore.MigrateV1Store: version-1 tiles without `agentId`/`role` are given these
  fields before migration. The migration overwrites both anyway.
- ProjectsRoute.ResolveProjectPath: requires that the candidate paths `join(home, slug)`,
  `join(home, slug + "-2")`, ... are distinct. The source loop terminates only under that
  assumption. `path.join` is not injective (`join(h, "a")` and `join(h, "./a")` agree), but
  the candidates differ in their last component, so it keeps them apart.
  `InjectiveJoinKeepsCandidatesDistinct` proves that any injective `join(home, ·)` does.
- ProjectsRoute.CreateProject: requires the same of every slug, for the same reason.
- CanvasPage.BuildProjectMessage: states the prefix and the suffix but not the fixed sentence
  between them. The workspace path appears untrimmed, as in the source.
- AgentMessage.BuildAgentInstruction: states the prefix and the suffix but not the fixed
  sentence between them.
- CanvasPage.MergeHistoryWithPending: is proved equal to `MergeFrom`, a recursive statement of
  the same algorithm. The order and length properties are proved about `MergeFrom`.
- Strings.TrimStart: models JavaScript's `trim` over the ECMAScript whitespace and
  line-terminator characters. Code units beyond the basic plane are not modelled.
