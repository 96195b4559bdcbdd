/** The workspace document shared by the server routes and the canvas: workspaces
    ("projects"), their agent tiles, and the `projects.json` store that holds them. */
module Types {

  datatype Option<T> = None | Some(value: T) {
    function GetOr(default: T): T
    {
      match this
      case Some(v) => v
      case None => default
    }
  }

  datatype Role = Coding | Research | Marketing

  datatype Position = Position(x: int, y: int)

  datatype Size = Size(width: int, height: int)

  /** A persisted agent tile. The nullable and optional fields of the source (`workspacePath`,
      `model`, `thinkingLevel`, `avatarSeed`) are `Option`s: `None` stands for null, undefined
      or a value of the wrong JSON type. */
  datatype Tile = Tile(
    id: string,
    name: string,
    agentId: string,
    role: Role,
    sessionKey: string,
    workspacePath: Option<string>,
    model: Option<string>,
    thinkingLevel: Option<string>,
    avatarSeed: Option<string>,
    position: Position,
    size: Size)

  /** `Partial<ProjectTile>`: a field is overwritten exactly when the patch carries it. */
  datatype TilePatch = TilePatch(
    id: Option<string>,
    name: Option<string>,
    agentId: Option<string>,
    role: Option<Role>,
    sessionKey: Option<string>,
    workspacePath: Option<Option<string>>,
    model: Option<Option<string>>,
    thinkingLevel: Option<Option<string>>,
    avatarSeed: Option<Option<string>>,
    position: Option<Position>,
    size: Option<Size>)

  const NoTileChange := TilePatch(None, None, None, None, None, None, None, None, None, None, None)

  /** `{ ...tile, ...patch }`. */
  function ApplyTilePatch(t: Tile, p: TilePatch): (r: Tile)
  {
    Tile(
      p.id.GetOr(t.id), p.name.GetOr(t.name), p.agentId.GetOr(t.agentId), p.role.GetOr(t.role),
      p.sessionKey.GetOr(t.sessionKey), p.workspacePath.GetOr(t.workspacePath),
      p.model.GetOr(t.model), p.thinkingLevel.GetOr(t.thinkingLevel),
      p.avatarSeed.GetOr(t.avatarSeed), p.position.GetOr(t.position), p.size.GetOr(t.size))
  }

  /** A workspace. `C` is the shape of its tile list: `seq<Tile>` once validated,
      `Option<seq<Tile>>` as read from JSON (`None`: `tiles` is not an array), and
      `seq<AgentTile>` in the canvas. */
  datatype Project<C> = Project(
    id: string,
    name: string,
    repoPath: string,
    createdAt: int,
    updatedAt: int,
    tiles: C)

  /** Two workspaces agree on everything but their tiles. */
  predicate SameMeta<C, D>(a: Project<C>, b: Project<D>)
  {
    a.id == b.id && a.name == b.name && a.repoPath == b.repoPath
    && a.createdAt == b.createdAt && a.updatedAt == b.updatedAt
  }

  type PersistedProject = Project<seq<Tile>>

  type RawProject = Project<Option<seq<Tile>>>

  /** `ProjectsStore`: the document written to `projects.json`. */
  datatype Store<C> = Store(version: int, activeProjectId: Option<string>, projects: seq<Project<C>>)

  type ProjectsStore = Store<seq<Tile>>

  /** A parsed but unvalidated document: `version`, `activeProjectId` and `projects` may be
      missing, and `projects` (or a project's `tiles`) may not be an array. */
  datatype RawStore = RawStore(
    version: Option<int>,
    activeProjectId: Option<string>,
    projects: Option<seq<RawProject>>)

  const StoreVersion := 2

  function Ids<C>(projects: seq<Project<C>>): (r: seq<string>)
    ensures |r| == |projects|
    ensures forall i | 0 <= i < |projects| :: r[i] == projects[i].id
  {
    seq(|projects|, i requires 0 <= i < |projects| => projects[i].id)
  }

  predicate HasId<C>(projects: seq<Project<C>>, id: string)
  {
    exists i | 0 <= i < |projects| :: projects[i].id == id
  }

  function FirstId<C>(projects: seq<Project<C>>): (r: Option<string>)
  {
    if projects == [] then None else Some(projects[0].id)
  }

  /** The active-workspace rule: keep the requested id when some workspace has it,
      otherwise fall back to the first workspace, otherwise to null. */
  function PickActive<C>(requested: Option<string>, projects: seq<Project<C>>): (r: Option<string>)
    ensures r.None? <==> projects == []
    ensures r.Some? ==> HasId(projects, r.value)
    ensures requested.Some? && HasId(projects, requested.value) ==> r == requested
    ensures requested.None? || !HasId(projects, requested.value) ==> r == FirstId(projects)
  {
    if requested.Some? && HasId(projects, requested.value) then requested else FirstId(projects)
  }

  /** The active id depends only on the workspace ids, in order. */
  lemma PickActiveByIds<C, D>(requested: Option<string>, ps: seq<Project<C>>, qs: seq<Project<D>>)
    requires Ids(ps) == Ids(qs)
    ensures PickActive(requested, ps) == PickActive(requested, qs)
  {
    assert |ps| == |Ids(ps)| == |qs|;
    assert forall i | 0 <= i < |ps| :: ps[i].id == Ids(ps)[i] == qs[i].id;
  }

  /** `xs.filter((x) => key(x) !== id)`: drops every element whose key is `id` and keeps the
      others in order. */
  function Without<T>(xs: seq<T>, key: T -> string, id: string): (r: seq<T>)
    ensures |r| <= |xs|
    ensures forall x | x in r :: x in xs && key(x) != id
    ensures forall x | x in xs && key(x) != id :: x in r
    ensures |r| == |xs| <==> forall x | x in xs :: key(x) != id
  {
    if xs == [] then []
    else
      var rest := Without(xs[1..], key, id);
      assert forall x | x in xs :: x == xs[0] || x in xs[1..];
      if key(xs[0]) == id then rest else [xs[0]] + rest
  }

  /** Filtering a single element keeps it exactly when its key is not `id`. */
  lemma WithoutOne<T>(x: T, key: T -> string, id: string)
    ensures Without([x], key, id) == if key(x) == id then [] else [x]
  {
    assert [x][1..] == [];
  }

  /** Filtering distributes over concatenation: `filter` keeps the order and the repetitions
      of the elements it keeps. */
  lemma {:induction false} WithoutConcat<T>(a: seq<T>, b: seq<T>, key: T -> string, id: string)
    ensures Without(a + b, key, id) == Without(a, key, id) + Without(b, key, id)
  {
    if a == [] {
      assert a + b == b;
    } else {
      var ab := a + b;
      assert ab[0] == a[0] && ab[1..] == a[1..] + b;
      WithoutConcat(a[1..], b, key, id);
      var tail := Without(a[1..], key, id) + Without(b, key, id);
      if key(a[0]) == id {
        assert Without(ab, key, id) == tail;
      } else {
        assert Without(ab, key, id) == [a[0]] + tail;
        assert Without(a, key, id) == [a[0]] + Without(a[1..], key, id);
      }
    }
  }

  /** Filtering out a key nobody has changes nothing. */
  lemma {:induction false} WithoutAbsent<T>(xs: seq<T>, key: T -> string, id: string)
    requires forall x | x in xs :: key(x) != id
    ensures Without(xs, key, id) == xs
  {
    if xs != [] {
      assert forall x | x in xs[1..] :: x in xs;
      WithoutAbsent(xs[1..], key, id);
    }
  }

  /** Appending an element and filtering its key back out keeps the original list,
      provided no earlier element had that key. */
  lemma WithoutAppended<T>(xs: seq<T>, x: T, key: T -> string)
    requires forall y | y in xs :: key(y) != key(x)
    ensures Without(xs + [x], key, key(x)) == xs
  {
    WithoutConcat(xs, [x], key, key(x));
    WithoutOne(x, key, key(x));
    WithoutAbsent(xs, key, key(x));
  }

  function ProjectId<C>(p: Project<C>): string { p.id }

  lemma HasIdIn<C>(ps: seq<Project<C>>, id: string)
    ensures HasId(ps, id) <==> exists p | p in ps :: ProjectId(p) == id
  {
    if HasId(ps, id) {
      var i :| 0 <= i < |ps| && ps[i].id == id;
      assert ProjectId(ps[i]) == id;
    }
  }

  /** Applying the same patch twice is applying it once. */
  lemma TilePatchIdempotent(t: Tile, p: TilePatch)
    ensures ApplyTilePatch(ApplyTilePatch(t, p), p) == ApplyTilePatch(t, p)
    ensures ApplyTilePatch(t, NoTileChange) == t
  {
  }

  function AsRawProject(p: PersistedProject): (r: RawProject)
    ensures r.tiles == Some(p.tiles)
  {
    Project(p.id, p.name, p.repoPath, p.createdAt, p.updatedAt, Some(p.tiles))
  }

  /** A validated store seen again as a parsed document (what reading back `projects.json` gives). */
  function AsRaw(s: ProjectsStore): (r: RawStore)
    ensures r.projects.Some? && |r.projects.value| == |s.projects|
  {
    RawStore(Some(s.version), s.activeProjectId,
      Some(seq(|s.projects|, i requires 0 <= i < |s.projects| => AsRawProject(s.projects[i]))))
  }
}
