/** The file service: environments, one for each team and project, over a shared file tree, and the
    quota that every team's environments share. */
module Storage {
  import opened Text
  import opened FileTree
  import opened SafePaths

  const TEAM_QUOTA_BYTES: nat := 100 * 1024 * 1024

  datatype Env = Env(rootPath: Path, members: set<string>)

  type Envs = map<Scope, Env>

  datatype Store = Store(envs: Envs, tree: Tree)

  // --- what each request does ---

  function ScopeOf(team: string, project: string): Result<Scope, Error> {
    match (SafeScopeId(team), SafeScopeId(project))
    case (Ok(t), Ok(p)) => Ok(Scope(t, p))
    case _ => Err(BadScope)
  }

  /** The environment of a scope comes into being with the first request, with the requester as its
      only member; afterwards the members alone have access. */
  function Entered(storageRoot: Path, s: Store, team: string, project: string, actor: string): (Store, Result<Path, Error>) {
    match ScopeOf(team, project)
    case Err(e) => (s, Err(e))
    case Ok(scope) => ScopeEntered(storageRoot, s, scope, actor)
  }

  function ScopeEntered(storageRoot: Path, s: Store, scope: Scope, actor: string): (Store, Result<Path, Error>) {
    if scope in s.envs then
      (s, if actor in s.envs[scope].members then Ok(s.envs[scope].rootPath) else Err(Forbidden))
    else
      var root := RootOf(storageRoot, scope);
      match MakeDirs(s.tree, root)
      case None => (s, Err(FileSystem))
      case Some(tree) => (Store(s.envs[scope := Env(root, {actor})], tree), Ok(root))
  }

  function FolderCreated(storageRoot: Path, s: Store, team: string, project: string, actor: string, path: string)
    : (Store, Result<Path, Error>)
  {
    var (s, r) := Entered(storageRoot, s, team, project, actor);
    if r.Err? then (s, r) else InDirectory(s, r.value, path)
  }

  /** The path, resolved and made a directory. */
  function InDirectory(s: Store, root: Path, path: string): (Store, Result<Path, Error>) {
    match SafePath(root, path)
    case Err(e) => (s, Err(e))
    case Ok(target) =>
      match MakeDirs(s.tree, target)
      case None => (s, Err(FileSystem))
      case Some(tree) => (s.(tree := tree), Ok(target))
  }

  /** The files charged to a team: those below the roots of the environments filed under its id. */
  function ChargedFiles(s: Store, team: string): set<Path> {
    set p | p in s.tree.files && exists scope :: scope in s.envs && scope.teamID == team && s.envs[scope].rootPath <= p
  }

  ghost function Charged(s: Store, team: string): nat {
    Sum(s.tree.files, ChargedFiles(s, team))
  }

  function UploadName(filename: string): string {
    Basename(if filename == "" then "uploaded.bin" else filename)
  }

  ghost function Uploaded(storageRoot: Path, s: Store, team: string, project: string, actor: string,
                          directory: string, filename: string, size: nat)
    : (Store, Result<Path, Error>)
  {
    var (s, r) := FolderCreated(storageRoot, s, team, project, actor, if directory == "" then "." else directory);
    if r.Err? then (s, r) else StoredAt(s, team, r.value, filename, size)
  }

  /** The quota is looked up under the team id as it was sent. */
  ghost function StoredAt(s: Store, team: string, base: Path, filename: string, size: nat)
    : (Store, Result<Path, Error>)
  {
    match SafePath(base, UploadName(filename))
    case Err(e) => (s, Err(e))
    case Ok(target) =>
      if Charged(s, team) + size > TEAM_QUOTA_BYTES then (s, Err(QuotaExceeded)) else
        match WriteFile(s.tree, target, size)
        case None => (s, Err(FileSystem))
        case Some(tree) => (s.(tree := tree), Ok(target))
  }

  predicate Exists(t: Tree, p: Path) {
    p in t.files || p in t.dirs
  }

  function Deleted(storageRoot: Path, s: Store, team: string, project: string, actor: string, path: string)
    : (Store, Result<Path, Error>)
  {
    var (s, r) := Entered(storageRoot, s, team, project, actor);
    if r.Err? then (s, r) else DeletedAt(s, r.value, path)
  }

  function DeletedAt(s: Store, root: Path, path: string): (Store, Result<Path, Error>) {
    match SafePath(root, path)
    case Err(e) => (s, Err(e))
    case Ok(target) =>
      if target in s.tree.files then (s.(tree := s.tree.(files := s.tree.files - {target})), Ok(target))
      else if target in s.tree.dirs then (s.(tree := RemoveTree(s.tree, target)), Ok(target))
      else (s, Err(NotFound))
  }

  function Renamed(storageRoot: Path, s: Store, team: string, project: string, actor: string, oldPath: string, newPath: string)
    : (Store, Result<Path, Error>)
  {
    var (s, r) := Entered(storageRoot, s, team, project, actor);
    if r.Err? then (s, r) else RenamedAt(s, r.value, oldPath, newPath)
  }

  function RenamedAt(s: Store, root: Path, oldPath: string, newPath: string)
    : (Store, Result<Path, Error>)
  {
    match (SafePath(root, oldPath), SafePath(root, newPath))
    case (Ok(source), Ok(destination)) =>
      if !Exists(s.tree, source) then (s, Err(NotFound)) else Relocated(s, source, destination)
    case _ => (s, Err(BadPath))
  }

  function Parent(p: Path): Path {
    if p == [] then [] else p[..|p| - 1]
  }

  /** The destination's directory is made first, and stays when the rename fails. */
  function Relocated(s: Store, source: Path, destination: Path): (Store, Result<Path, Error>) {
    match MakeDirs(s.tree, Parent(destination))
    case None => (s, Err(FileSystem))
    case Some(tree) =>
      match Rename(tree, source, destination)
      case None => (s.(tree := tree), Err(FileSystem))
      case Some(tree) => (s.(tree := tree), Ok(destination))
  }

  function EnvironmentDeleted(s: Store, scope: Scope, actor: string): (Store, Result<Path, Error>) {
    if scope !in s.envs then (s, Err(NotFound))
    else if actor !in s.envs[scope].members then (s, Err(Forbidden))
    else
      var root := s.envs[scope].rootPath;
      (Store(s.envs - {scope}, RemoveTree(s.tree, root)), Ok(root))
  }

  // --- the service ---

  class StorageService {
    const storageRoot: Path
    var envs: Envs
    var tree: Tree

    constructor (storageRoot: Path)
      ensures this.storageRoot == storageRoot && Now() == Store(map[], Tree(map[], Ancestors(storageRoot)))
    {
      this.storageRoot, envs, tree := storageRoot, map[], Tree(map[], Ancestors(storageRoot));
    }

    function Now(): Store
      reads this
    {
      Store(envs, tree)
    }

    /** Every environment sits at the root its scope prescribes. */
    ghost predicate Valid()
      reads this
    {
      RootsInPlace(storageRoot, envs)
    }

    method EnsureAccessScoped(team: string, project: string, actor: string) returns (r: Result<Path, Error>)
      requires Valid()
      modifies this
      ensures Valid() && (Now(), r) == Entered(storageRoot, old(Now()), team, project, actor)
    {
      var teamID := SafeScopeId(team);
      if teamID.Err? {
        return Err(BadScope);
      }
      var projectID := SafeScopeId(project);
      if projectID.Err? {
        return Err(BadScope);
      }
      var scope := Scope(teamID.value, projectID.value);
      if scope !in envs {
        var root := RootOf(storageRoot, scope);
        var made := MakeDirs(tree, root);
        if made == None {
          return Err(FileSystem);
        }
        envs, tree := envs[scope := Env(root, {actor})], made.value;
      }
      if actor !in envs[scope].members {
        return Err(Forbidden);
      }
      r := Ok(envs[scope].rootPath);
    }

    method CreateFolder(team: string, project: string, actor: string, path: string) returns (r: Result<Path, Error>)
      requires Valid()
      modifies this
      ensures Valid() && (Now(), r) == FolderCreated(storageRoot, old(Now()), team, project, actor, path)
    {
      var root := EnsureAccessScoped(team, project, actor);
      if root.Err? {
        return root;
      }
      var target := SafePath(root.value, path);
      if target.Err? {
        return target;
      }
      var made := MakeDirs(tree, target.value);
      if made == None {
        return Err(FileSystem);
      }
      tree := made.value;
      r := target;
    }

    method AssertTeamQuota(team: string, incoming: nat) returns (ok: bool)
      requires Valid()
      ensures ok <==> Charged(Now(), team) + incoming <= TEAM_QUOTA_BYTES
    {
      var total := 0;
      var scopes := set scope | scope in envs && scope.teamID == team;
      var rest := scopes;
      while rest != {}
        invariant rest <= scopes && total == Sum(tree.files, FilesOf(Now(), scopes - rest))
        decreases rest
      {
        var scope :| scope in rest;
        var size := DirectorySize(tree.files, envs[scope].rootPath);
        OneMoreRoot(storageRoot, Now(), scopes - rest, scope);
        total := total + size;
        assert scopes - rest + {scope} == scopes - (rest - {scope});
        rest := rest - {scope};
      }
      assert scopes - rest == scopes;
      assert FilesOf(Now(), scopes) == ChargedFiles(Now(), team);
      ok := total + incoming <= TEAM_QUOTA_BYTES;
    }

    method UploadFile(team: string, project: string, actor: string, directory: string, filename: string, size: nat)
      returns (r: Result<Path, Error>)
      requires Valid()
      modifies this
      ensures Valid() && (Now(), r) == Uploaded(storageRoot, old(Now()), team, project, actor, directory, filename, size)
    {
      var base := CreateFolder(team, project, actor, if directory == "" then "." else directory);
      if base.Err? {
        return base;
      }
      var target := SafePath(base.value, UploadName(filename));
      if target.Err? {
        return target;
      }
      var fits := AssertTeamQuota(team, size);
      if !fits {
        return Err(QuotaExceeded);
      }
      var written := WriteFile(tree, target.value, size);
      if written == None {
        return Err(FileSystem);
      }
      tree := written.value;
      r := target;
    }

    method DeleteEntry(team: string, project: string, actor: string, path: string) returns (r: Result<Path, Error>)
      requires Valid()
      modifies this
      ensures Valid() && (Now(), r) == Deleted(storageRoot, old(Now()), team, project, actor, path)
    {
      var root := EnsureAccessScoped(team, project, actor);
      if root.Err? {
        return root;
      }
      r := SafePath(root.value, path);
      if r.Err? {
        return;
      }
      if r.value in tree.files {
        tree := tree.(files := tree.files - {r.value});
        return;
      }
      if r.value in tree.dirs {
        tree := RemoveTree(tree, r.value);
        return;
      }
      r := Err(NotFound);
    }

    method RenameEntry(team: string, project: string, actor: string, oldPath: string, newPath: string)
      returns (r: Result<Path, Error>)
      requires Valid()
      modifies this
      ensures Valid() && (Now(), r) == Renamed(storageRoot, old(Now()), team, project, actor, oldPath, newPath)
    {
      var root := EnsureAccessScoped(team, project, actor);
      if root.Err? {
        return root;
      }
      var source := SafePath(root.value, oldPath);
      if source.Err? {
        return source;
      }
      var destination := SafePath(root.value, newPath);
      if destination.Err? {
        return destination;
      }
      if !Exists(tree, source.value) {
        return Err(NotFound);
      }
      var made := MakeDirs(tree, Parent(destination.value));
      if made == None {
        return Err(FileSystem);
      }
      tree := made.value;
      var moved := Rename(tree, source.value, destination.value);
      if moved == None {
        return Err(FileSystem);
      }
      tree := moved.value;
      r := destination;
    }

    method DeleteEnvironment(scope: Scope, actor: string) returns (r: Result<Path, Error>)
      requires Valid()
      modifies this
      ensures Valid() && (Now(), r) == EnvironmentDeleted(old(Now()), scope, actor)
    {
      if scope !in envs {
        return Err(NotFound);
      }
      var env := envs[scope];
      if actor !in env.members {
        return Err(Forbidden);
      }
      tree := RemoveTree(tree, env.rootPath);
      envs := envs - {scope};
      r := Ok(env.rootPath);
    }
  }

  ghost predicate RootsInPlace(storageRoot: Path, envs: Envs) {
    forall scope :: scope in envs ==> envs[scope].rootPath == RootOf(storageRoot, scope)
  }

  function FilesOf(s: Store, scopes: set<Scope>): set<Path> {
    set p | p in s.tree.files && exists scope :: scope in scopes && scope in s.envs && s.envs[scope].rootPath <= p
  }

  /** The loop over a team's environments counts no file twice. */
  lemma OneMoreRoot(storageRoot: Path, s: Store, scopes: set<Scope>, scope: Scope)
    requires RootsInPlace(storageRoot, s.envs) && scope in s.envs && scope !in scopes
    ensures Sum(s.tree.files, FilesOf(s, scopes + {scope})) ==
            Sum(s.tree.files, FilesOf(s, scopes)) + Bytes(s.tree.files, s.envs[scope].rootPath)
  {
    var A, B := FilesOf(s, scopes), FilesUnder(s.tree.files, s.envs[scope].rootPath);
    forall p | p in A
      ensures p !in B
    {
      var other :| other in scopes && other in s.envs && s.envs[other].rootPath <= p;
      if p in B {
        RootsNotNested(storageRoot, scope, other, p);
      }
    }
    assert FilesOf(s, scopes + {scope}) == A + B;
    SumSplit(s.tree.files, A, B);
  }
}
