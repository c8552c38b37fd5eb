/** What the file service keeps over whole runs: requests stay in their environment, and a team's
    files stay within its quota. */
module StorageRuns {
  import opened Text
  import opened FileTree
  import opened SafePaths
  import opened Storage

  datatype Request =
    | Enter(team: string, project: string, actor: string)
    | CreateFolder(team: string, project: string, actor: string, path: string)
    | Upload(team: string, project: string, actor: string, directory: string, filename: string, size: nat)
    | Delete(team: string, project: string, actor: string, path: string)
    | Rename(team: string, project: string, actor: string, oldPath: string, newPath: string)
    | DeleteEnvironment(scope: Scope, actor: string)

  ghost function Outcome(storageRoot: Path, s: Store, q: Request): (Store, Result<Path, Error>) {
    match q
    case Enter(team, project, actor) => Entered(storageRoot, s, team, project, actor)
    case CreateFolder(team, project, actor, path) => FolderCreated(storageRoot, s, team, project, actor, path)
    case Upload(team, project, actor, directory, filename, size) =>
      Uploaded(storageRoot, s, team, project, actor, directory, filename, size)
    case Delete(team, project, actor, path) => Deleted(storageRoot, s, team, project, actor, path)
    case Rename(team, project, actor, oldPath, newPath) => Renamed(storageRoot, s, team, project, actor, oldPath, newPath)
    case DeleteEnvironment(scope, actor) => EnvironmentDeleted(s, scope, actor)
  }

  ghost function Next(storageRoot: Path, s: Store, q: Request): Store {
    Outcome(storageRoot, s, q).0
  }

  function Target(q: Request): Result<Scope, Error> {
    if q.DeleteEnvironment? then Ok(q.scope) else ScopeOf(q.team, q.project)
  }

  // --- files stay where they belong ---

  ghost predicate HasRoot(storageRoot: Path, envs: Envs, p: Path) {
    exists scope :: scope in envs && RootOf(storageRoot, scope) <= p
  }

  /** Environments sit at their roots under proper ids, and every file lies in one of them. */
  ghost predicate InPlace(storageRoot: Path, s: Store) {
    && RootsInPlace(storageRoot, s.envs)
    && (forall scope :: scope in s.envs ==> IsScopeId(scope.teamID))
    && (forall p :: p in s.tree.files ==> HasRoot(storageRoot, s.envs, p))
  }

  predicate SameAt(files: map<Path, nat>, files': map<Path, nat>, p: Path) {
    (p in files <==> p in files') && (p in files && p in files' ==> files[p] == files'[p])
  }

  ghost predicate SameOutside(files: map<Path, nat>, files': map<Path, nat>, root: Path) {
    forall p :: !(root <= p) ==> SameAt(files, files', p)
  }

  lemma HasRootGrows(storageRoot: Path, envs: Envs, envs': Envs, p: Path)
    requires HasRoot(storageRoot, envs, p) && forall scope :: scope in envs && RootOf(storageRoot, scope) <= p ==> scope in envs'
    ensures HasRoot(storageRoot, envs', p)
  {
    var scope :| scope in envs && RootOf(storageRoot, scope) <= p;
    assert scope in envs';
  }

  lemma ScopeEnteredKeeps(storageRoot: Path, s: Store, scope: Scope, actor: string)
    requires InPlace(storageRoot, s) && IsScopeId(scope.teamID)
    ensures var (s', r) := ScopeEntered(storageRoot, s, scope, actor);
            && InPlace(storageRoot, s') && s'.tree.files == s.tree.files
            && (r.Ok? ==> scope in s'.envs && r.value == RootOf(storageRoot, scope))
  {
    var s' := ScopeEntered(storageRoot, s, scope, actor).0;
    forall p | p in s.tree.files
      ensures HasRoot(storageRoot, s'.envs, p)
    {
      HasRootGrows(storageRoot, s.envs, s'.envs, p);
    }
  }

  /** Entering and making directories leaves the files alone. */
  lemma EnteredKeeps(storageRoot: Path, s: Store, team: string, project: string, actor: string)
    requires InPlace(storageRoot, s)
    ensures var (s', r) := Entered(storageRoot, s, team, project, actor);
            && InPlace(storageRoot, s') && s'.tree.files == s.tree.files
            && (r.Ok? ==> ScopeOf(team, project).Ok? && ScopeOf(team, project).value in s'.envs &&
                          r.value == RootOf(storageRoot, ScopeOf(team, project).value))
  {
    if ScopeOf(team, project).Ok? {
      ScopeEnteredKeeps(storageRoot, s, ScopeOf(team, project).value, actor);
    }
  }

  lemma FolderKeeps(storageRoot: Path, s: Store, team: string, project: string, actor: string, path: string)
    requires InPlace(storageRoot, s)
    ensures var (s', r) := FolderCreated(storageRoot, s, team, project, actor, path);
            && InPlace(storageRoot, s') && s'.tree.files == s.tree.files
            && (r.Ok? ==> ScopeOf(team, project).Ok? && ScopeOf(team, project).value in s'.envs &&
                          RootOf(storageRoot, ScopeOf(team, project).value) <= r.value)
  {
    EnteredKeeps(storageRoot, s, team, project, actor);
  }

  /** Files written below a root that is in use stay in place. */
  lemma StaysInPlace(storageRoot: Path, s: Store, scope: Scope, files': map<Path, nat>, dirs': set<Path>)
    requires InPlace(storageRoot, s) && scope in s.envs
    requires SameOutside(s.tree.files, files', RootOf(storageRoot, scope))
    ensures InPlace(storageRoot, s.(tree := Tree(files', dirs')))
  {
    forall p | p in files'
      ensures HasRoot(storageRoot, s.envs, p)
    {
      if !(RootOf(storageRoot, scope) <= p) {
        assert SameAt(s.tree.files, files', p);
      }
    }
  }

  lemma RenameOutside(t: Tree, source: Path, destination: Path, root: Path)
    requires root <= source && root <= destination
    ensures var moved := FileTree.Rename(t, source, destination);
            moved.Some? ==> SameOutside(t.files, moved.value.files, root)
  {
    var moved := FileTree.Rename(t, source, destination);
    if moved.Some? && source != destination && source !in t.files {
      forall p | !(root <= p)
        ensures SameAt(t.files, moved.value.files, p)
      {
        MovedAt(t.files, source, destination, root, p);
      }
    }
  }

  lemma MovedAt(files: map<Path, nat>, source: Path, destination: Path, root: Path, p: Path)
    requires root <= source && root <= destination && !(root <= p)
    ensures SameAt(files, MovedFiles(files, source, destination), p)
  {
    if p in files {
      assert Moved(p, source, destination) == p;
    }
    if p in MovedFiles(files, source, destination) {
      var q := MovedFrom(files, p, source, destination);
      assert source <= q ==> destination <= p;
    }
  }

  ghost predicate RequestStays(storageRoot: Path, s: Store, q: Request) {
    var s' := Next(storageRoot, s, q);
    && InPlace(storageRoot, s')
    && (Target(q).Ok? ==> SameOutside(s.tree.files, s'.tree.files, RootOf(storageRoot, Target(q).value)))
    && (Target(q).Err? ==> s'.tree.files == s.tree.files)
  }

  /** One environment's requests never touch a file of another: nothing outside the root of the
      scope asked for changes, and everything stays in place. */
  lemma RequestConfined(storageRoot: Path, s: Store, q: Request)
    requires InPlace(storageRoot, s)
    ensures RequestStays(storageRoot, s, q)
  {
    match q
    case Enter(team, project, actor) => EnteredKeeps(storageRoot, s, team, project, actor);
    case CreateFolder(team, project, actor, path) => FolderKeeps(storageRoot, s, team, project, actor, path);
    case Upload(_, _, _, _, _, _) => UploadConfined(storageRoot, s, q);
    case Delete(_, _, _, _) => DeleteConfined(storageRoot, s, q);
    case Rename(_, _, _, _, _) => RenameConfined(storageRoot, s, q);
    case DeleteEnvironment(_, _) => EnvironmentConfined(storageRoot, s, q);
  }

  /** What a request does below the root it has been given. */
  ghost predicate Confined(s: Store, s': Store, root: Path) {
    s'.envs == s.envs && SameOutside(s.tree.files, s'.tree.files, root)
  }

  lemma StoredConfined(s: Store, team: string, base: Path, filename: string, size: nat, root: Path)
    requires root <= base
    ensures Confined(s, StoredAt(s, team, base, filename, size).0, root)
  {
  }

  lemma DeletedConfined(s: Store, root: Path, path: string)
    ensures Confined(s, DeletedAt(s, root, path).0, root)
  {
  }

  lemma RenamedConfined(s: Store, root: Path, oldPath: string, newPath: string)
    ensures Confined(s, RenamedAt(s, root, oldPath, newPath).0, root)
  {
    var source, destination := SafePath(root, oldPath), SafePath(root, newPath);
    if source.Ok? && destination.Ok? {
      var made := MakeDirs(s.tree, Parent(destination.value));
      if made.Some? {
        RenameOutside(made.value, source.value, destination.value, root);
      }
    }
  }

  lemma UploadConfined(storageRoot: Path, s: Store, q: Request)
    requires InPlace(storageRoot, s) && q.Upload?
    ensures RequestStays(storageRoot, s, q)
  {
    var path := if q.directory == "" then "." else q.directory;
    FolderKeeps(storageRoot, s, q.team, q.project, q.actor, path);
    var (s1, r) := FolderCreated(storageRoot, s, q.team, q.project, q.actor, path);
    if r.Ok? {
      var scope, s' := Target(q).value, StoredAt(s1, q.team, r.value, q.filename, q.size).0;
      StoredConfined(s1, q.team, r.value, q.filename, q.size, RootOf(storageRoot, scope));
      StaysInPlace(storageRoot, s1, scope, s'.tree.files, s'.tree.dirs);
    }
  }

  lemma DeleteConfined(storageRoot: Path, s: Store, q: Request)
    requires InPlace(storageRoot, s) && q.Delete?
    ensures RequestStays(storageRoot, s, q)
  {
    EnteredKeeps(storageRoot, s, q.team, q.project, q.actor);
    var (s1, r) := Entered(storageRoot, s, q.team, q.project, q.actor);
    if r.Ok? {
      var s' := DeletedAt(s1, r.value, q.path).0;
      DeletedConfined(s1, r.value, q.path);
      StaysInPlace(storageRoot, s1, Target(q).value, s'.tree.files, s'.tree.dirs);
    }
  }

  lemma RenameConfined(storageRoot: Path, s: Store, q: Request)
    requires InPlace(storageRoot, s) && q.Rename?
    ensures RequestStays(storageRoot, s, q)
  {
    EnteredKeeps(storageRoot, s, q.team, q.project, q.actor);
    var (s1, r) := Entered(storageRoot, s, q.team, q.project, q.actor);
    if r.Ok? {
      var s' := RenamedAt(s1, r.value, q.oldPath, q.newPath).0;
      RenamedConfined(s1, r.value, q.oldPath, q.newPath);
      StaysInPlace(storageRoot, s1, Target(q).value, s'.tree.files, s'.tree.dirs);
    }
  }

  lemma EnvironmentConfined(storageRoot: Path, s: Store, q: Request)
    requires InPlace(storageRoot, s) && q.DeleteEnvironment?
    ensures RequestStays(storageRoot, s, q)
  {
    if q.scope in s.envs && q.actor in s.envs[q.scope].members {
      var s' := Next(storageRoot, s, q);
      forall p | p in s'.tree.files
        ensures HasRoot(storageRoot, s'.envs, p)
      {
        HasRootGrows(storageRoot, s.envs, s'.envs, p);
      }
    }
  }

  lemma OtherScopesUntouched(storageRoot: Path, s: Store, q: Request, scope: Scope, p: Path)
    requires InPlace(storageRoot, s) && Target(q) != Ok(scope) && RootOf(storageRoot, scope) <= p
    ensures SameAt(s.tree.files, Next(storageRoot, s, q).tree.files, p)
  {
    RequestConfined(storageRoot, s, q);
    if Target(q).Ok? && RootOf(storageRoot, Target(q).value) <= p {
      RootsNotNested(storageRoot, Target(q).value, scope, p);
    }
  }

  // --- the quota ---

  ghost function TeamBytes(storageRoot: Path, s: Store, team: string): nat {
    Bytes(s.tree.files, TeamDir(storageRoot, team))
  }

  lemma ChargedIsTeamBytes(storageRoot: Path, s: Store, team: string)
    requires InPlace(storageRoot, s)
    ensures Charged(s, team) == TeamBytes(storageRoot, s, team)
  {
    var A, B := ChargedFiles(s, team), FilesUnder(s.tree.files, TeamDir(storageRoot, team));
    forall p | p in s.tree.files
      ensures p in A <==> p in B
    {
      assert HasRoot(storageRoot, s.envs, p);
      var scope :| scope in s.envs && RootOf(storageRoot, scope) <= p;
      TeamOfRoot(storageRoot, scope, p, team);
      if p in A {
        var other :| other in s.envs && other.teamID == team && s.envs[other].rootPath <= p;
        RootsNotNested(storageRoot, scope, other, p);
      }
    }
    assert A == B;
  }

  lemma ScopeIdsAreTrimmed(s: string)
    requires IsScopeId(s)
    ensures Trim(Python, s) == s
  {
    assert IsScopeChar(s[0]) && IsScopeChar(s[|s| - 1]);
  }

  /** The check counts the team's files exactly when the id came without blanks around it, or there
      is nothing to count. */
  lemma QuotaCountsTeam(storageRoot: Path, s: Store, raw: string)
    requires InPlace(storageRoot, s)
    ensures Charged(s, raw) == TeamBytes(storageRoot, s, Trim(Python, raw)) <==>
            raw == Trim(Python, raw) || TeamBytes(storageRoot, s, Trim(Python, raw)) == 0
  {
    ChargedIsTeamBytes(storageRoot, s, raw);
    if raw != Trim(Python, raw) {
      NothingUnderPadded(storageRoot, s, raw);
    }
  }

  lemma NothingUnderPadded(storageRoot: Path, s: Store, raw: string)
    requires InPlace(storageRoot, s) && raw != Trim(Python, raw)
    ensures Charged(s, raw) == 0
  {
    forall scope | scope in s.envs
      ensures scope.teamID != raw
    {
      ScopeIdsAreTrimmed(scope.teamID);
    }
    assert ChargedFiles(s, raw) == {};
  }

  ghost predicate WithinQuota(storageRoot: Path, s: Store) {
    forall team :: TeamBytes(storageRoot, s, team) <= TEAM_QUOTA_BYTES
  }

  /** A request about one team's scope leaves every other team's total alone. */
  lemma OtherTeamsUntouched(storageRoot: Path, files: map<Path, nat>, files': map<Path, nat>, scope: Scope, team: string)
    requires SameOutside(files, files', RootOf(storageRoot, scope)) && team != scope.teamID
    ensures Bytes(files', TeamDir(storageRoot, team)) == Bytes(files, TeamDir(storageRoot, team))
  {
    var S, S' := FilesUnder(files, TeamDir(storageRoot, team)), FilesUnder(files', TeamDir(storageRoot, team));
    forall p | TeamDir(storageRoot, team) <= p
      ensures SameAt(files, files', p)
    {
      if RootOf(storageRoot, scope) <= p {
        TeamOfRoot(storageRoot, scope, p, team);
      }
    }
    forall p
      ensures p in S <==> p in S'
    {
      assert TeamDir(storageRoot, team) <= p ==> SameAt(files, files', p);
    }
    assert S == S';
    forall p | p in S
      ensures p in files && p in files' && files[p] == files'[p]
    {
      assert SameAt(files, files', p);
    }
    SumSame(files, files', S);
  }

  lemma DeletedShrinks(s: Store, root: Path, path: string, dir: Path)
    ensures Bytes(DeletedAt(s, root, path).0.tree.files, dir) <= Bytes(s.tree.files, dir)
  {
    BytesAfterRemoval(s.tree.files, DeletedAt(s, root, path).0.tree.files, dir);
  }

  /** Renaming creates no bytes; it frees those of a file it replaces. */
  lemma RenameShrinks(t: Tree, source: Path, destination: Path, dir: Path)
    requires dir <= source && dir <= destination
    ensures var moved := FileTree.Rename(t, source, destination);
            moved.Some? ==> Bytes(moved.value.files, dir) <= Bytes(t.files, dir)
  {
    var moved := FileTree.Rename(t, source, destination);
    if moved.Some? && source != destination {
      if source in t.files {
        var left := t.files - {source};
        BytesAfterRemoval(t.files, left, dir);
        assert FilesUnder(t.files, dir) - left.Keys == {source};
        SumPick(t.files, {source}, source);
        BytesAfterWrite(left, destination, t.files[source], dir);
      } else {
        BytesAfterMove(t.files, source, destination, dir);
      }
    }
  }

  lemma RenamedShrinks(s: Store, root: Path, oldPath: string, newPath: string, dir: Path)
    requires dir <= root
    ensures Bytes(RenamedAt(s, root, oldPath, newPath).0.tree.files, dir) <= Bytes(s.tree.files, dir)
  {
    var source, destination := SafePath(root, oldPath), SafePath(root, newPath);
    if source.Ok? && destination.Ok? {
      var made := MakeDirs(s.tree, Parent(destination.value));
      if made.Some? {
        RenameShrinks(made.value, source.value, destination.value, dir);
      }
    }
  }

  lemma StoredWithinQuota(storageRoot: Path, s: Store, team: string, base: Path, filename: string, size: nat)
    requires InPlace(storageRoot, s) && TeamBytes(storageRoot, s, team) <= TEAM_QUOTA_BYTES
    ensures TeamBytes(storageRoot, StoredAt(s, team, base, filename, size).0, team) <= TEAM_QUOTA_BYTES
  {
    ChargedIsTeamBytes(storageRoot, s, team);
    var target := SafePath(base, UploadName(filename));
    if target.Ok? {
      BytesAfterWrite(s.tree.files, target.value, size, TeamDir(storageRoot, team));
    }
  }

  /** The team id of an upload comes without blanks around it. */
  predicate Unpadded(q: Request) {
    q.Upload? ==> q.team == Trim(Python, q.team)
  }

  lemma UploadWithinQuota(storageRoot: Path, s: Store, q: Request)
    requires InPlace(storageRoot, s) && q.Upload? && Unpadded(q) && Target(q).Ok?
    requires TeamBytes(storageRoot, s, Target(q).value.teamID) <= TEAM_QUOTA_BYTES
    ensures TeamBytes(storageRoot, Next(storageRoot, s, q), Target(q).value.teamID) <= TEAM_QUOTA_BYTES
  {
    var path := if q.directory == "" then "." else q.directory;
    FolderKeeps(storageRoot, s, q.team, q.project, q.actor, path);
    var (s1, r) := FolderCreated(storageRoot, s, q.team, q.project, q.actor, path);
    if r.Ok? {
      StoredWithinQuota(storageRoot, s1, q.team, r.value, q.filename, q.size);
    }
  }

  lemma RemovalWithinQuota(storageRoot: Path, s: Store, q: Request)
    requires InPlace(storageRoot, s) && (q.Delete? || q.Rename? || q.DeleteEnvironment?) && Target(q).Ok?
    ensures TeamBytes(storageRoot, Next(storageRoot, s, q), Target(q).value.teamID) <= TeamBytes(storageRoot, s, Target(q).value.teamID)
  {
    var dir := TeamDir(storageRoot, Target(q).value.teamID);
    if q.DeleteEnvironment? {
      BytesAfterRemoval(s.tree.files, Next(storageRoot, s, q).tree.files, dir);
      return;
    }
    EnteredKeeps(storageRoot, s, q.team, q.project, q.actor);
    var (s1, r) := Entered(storageRoot, s, q.team, q.project, q.actor);
    if r.Ok? {
      if q.Delete? {
        DeletedShrinks(s1, r.value, q.path, dir);
      } else {
        RenamedShrinks(s1, r.value, q.oldPath, q.newPath, dir);
      }
    }
  }

  lemma OwnTeamWithinQuota(storageRoot: Path, s: Store, q: Request)
    requires InPlace(storageRoot, s) && Unpadded(q) && Target(q).Ok?
    requires TeamBytes(storageRoot, s, Target(q).value.teamID) <= TEAM_QUOTA_BYTES
    ensures TeamBytes(storageRoot, Next(storageRoot, s, q), Target(q).value.teamID) <= TEAM_QUOTA_BYTES
  {
    match q
    case Enter(team, project, actor) => EnteredKeeps(storageRoot, s, team, project, actor);
    case CreateFolder(team, project, actor, path) => FolderKeeps(storageRoot, s, team, project, actor, path);
    case Upload(_, _, _, _, _, _) => UploadWithinQuota(storageRoot, s, q);
    case _ => RemovalWithinQuota(storageRoot, s, q);
  }

  lemma RequestWithinQuota(storageRoot: Path, s: Store, q: Request)
    requires InPlace(storageRoot, s) && WithinQuota(storageRoot, s) && Unpadded(q)
    ensures WithinQuota(storageRoot, Next(storageRoot, s, q))
  {
    RequestConfined(storageRoot, s, q);
    var s' := Next(storageRoot, s, q);
    forall team
      ensures TeamBytes(storageRoot, s', team) <= TEAM_QUOTA_BYTES
    {
      assert TeamBytes(storageRoot, s, team) <= TEAM_QUOTA_BYTES;
      if Target(q).Ok? {
        if team == Target(q).value.teamID {
          OwnTeamWithinQuota(storageRoot, s, q);
        } else {
          OtherTeamsUntouched(storageRoot, s.tree.files, s'.tree.files, Target(q).value, team);
        }
      }
    }
  }

  ghost function After(storageRoot: Path, s: Store, run: seq<Request>): Store
    decreases run
  {
    if run == [] then s else After(storageRoot, Next(storageRoot, s, run[0]), run[1..])
  }

  /** Over every run whose uploads give their team ids unpadded, every team keeps within the quota
      and every file within its environment. */
  lemma {:induction false} RunsWithinQuota(storageRoot: Path, s: Store, run: seq<Request>)
    requires InPlace(storageRoot, s) && WithinQuota(storageRoot, s)
    requires forall i :: 0 <= i < |run| ==> Unpadded(run[i])
    ensures InPlace(storageRoot, After(storageRoot, s, run)) && WithinQuota(storageRoot, After(storageRoot, s, run))
    decreases run
  {
    if run != [] {
      RequestConfined(storageRoot, s, run[0]);
      RequestWithinQuota(storageRoot, s, run[0]);
      RunsWithinQuota(storageRoot, Next(storageRoot, s, run[0]), run[1..]);
    }
  }

  // --- where the quota fails ---

  /** A team with one file as large as the quota. */
  function FullStore(storageRoot: Path, scope: Scope): Store {
    var root := RootOf(storageRoot, scope);
    Store(map[scope := Env(root, {"u"})], Tree(map[root + ["a"] := TEAM_QUOTA_BYTES], Ancestors(root)))
  }

  lemma FullStoreIsGood(storageRoot: Path, scope: Scope)
    requires IsScopeId(scope.teamID)
    ensures var s := FullStore(storageRoot, scope); InPlace(storageRoot, s) && WithinQuota(storageRoot, s)
    ensures TeamBytes(storageRoot, FullStore(storageRoot, scope), scope.teamID) == TEAM_QUOTA_BYTES
  {
    var s, root := FullStore(storageRoot, scope), RootOf(storageRoot, scope);
    var p := root + ["a"];
    assert HasRoot(storageRoot, s.envs, p);
    forall team
      ensures TeamBytes(storageRoot, s, team) == if team == scope.teamID then TEAM_QUOTA_BYTES else 0
    {
      TeamOfRoot(storageRoot, scope, p, team);
      var S := FilesUnder(s.tree.files, TeamDir(storageRoot, team));
      if team == scope.teamID {
        assert S == {p};
        SumPick(s.tree.files, S, p);
      } else {
        assert S == {};
      }
    }
  }

  lemma PlainName(base: Path)
    ensures SafePath(base, ".") == Ok(base) && SafePath(base, UploadName("b")) == Ok(base + ["b"])
  {
    NoSlashOnePiece("b");
    NoSlashOnePiece(".");
    assert Relative("b") == Names(["b"]) == ["b"] by { assert Trim(Python, "b") == "b"; }
    assert Relative(".") == Names(["."]) == [] by { assert Trim(Python, ".") == "."; }
  }

  lemma FullStoreEntered(storageRoot: Path, raw: string)
    requires IsScopeId(Trim(Python, raw))
    ensures var scope := Scope(Trim(Python, raw), "p"); var s := FullStore(storageRoot, scope);
            FolderCreated(storageRoot, s, raw, "p", "u", ".") == (s, Ok(RootOf(storageRoot, scope)))
  {
    var scope := Scope(Trim(Python, raw), "p");
    var s, root := FullStore(storageRoot, scope), RootOf(storageRoot, scope);
    ScopeIdsAreTrimmed("p");
    assert ScopeOf(raw, "p") == Ok(scope);
    PlainName(root);
    assert s.tree.dirs + Ancestors(root) == s.tree.dirs;
  }

  lemma FullStoreStored(storageRoot: Path, scope: Scope, raw: string)
    requires IsScopeId(scope.teamID) && Charged(FullStore(storageRoot, scope), raw) == 0
    ensures var s' := StoredAt(FullStore(storageRoot, scope), raw, RootOf(storageRoot, scope), "b", 1).0;
            TeamBytes(storageRoot, s', scope.teamID) == TEAM_QUOTA_BYTES + 1
  {
    var s, root := FullStore(storageRoot, scope), RootOf(storageRoot, scope);
    var target := root + ["b"];
    FullStoreIsGood(storageRoot, scope);
    PlainName(root);
    assert target[|root|] == "b" && (root + ["a"])[|root|] == "a";
    assert target !in s.tree.files && target !in s.tree.dirs;
    assert StoredAt(s, raw, root, "b", 1).0.tree.files == s.tree.files[target := 1];
    TeamOfRoot(storageRoot, scope, target, scope.teamID);
    BytesAfterWrite(s.tree.files, target, 1, TeamDir(storageRoot, scope.teamID));
  }

  /** A one-byte upload to the full team, under an unusual form of its id. */
  lemma OneMoreByte(storageRoot: Path, raw: string)
    requires IsScopeId(Trim(Python, raw)) && raw != Trim(Python, raw)
    ensures var scope := Scope(Trim(Python, raw), "p"); var s := FullStore(storageRoot, scope);
            TeamBytes(storageRoot, Next(storageRoot, s, Upload(raw, "p", "u", ".", "b", 1)), scope.teamID) == TEAM_QUOTA_BYTES + 1
  {
    var scope := Scope(Trim(Python, raw), "p");
    FullStoreIsGood(storageRoot, scope);
    NothingUnderPadded(storageRoot, FullStore(storageRoot, scope), raw);
    FullStoreEntered(storageRoot, raw);
    FullStoreStored(storageRoot, scope, raw);
  }

  /** Uploads that give the team's id in this form keep every store within the quota. */
  ghost predicate QuotaHolds(storageRoot: Path, raw: string) {
    forall s: Store, q: Request :: InPlace(storageRoot, s) && WithinQuota(storageRoot, s) && q.Upload? && q.team == raw ==>
      WithinQuota(storageRoot, Next(storageRoot, s, q))
  }

  /** The quota is looked up under the id as sent, so it is enforced exactly for ids without blanks
      around them; otherwise even a full team can grow. */
  lemma QuotaHoldsExactlyUnpadded(storageRoot: Path, raw: string)
    requires IsScopeId(Trim(Python, raw))
    ensures QuotaHolds(storageRoot, raw) <==> raw == Trim(Python, raw)
  {
    if raw == Trim(Python, raw) {
      forall s: Store, q: Request | InPlace(storageRoot, s) && WithinQuota(storageRoot, s) && q.Upload? && q.team == raw
        ensures WithinQuota(storageRoot, Next(storageRoot, s, q))
      {
        RequestWithinQuota(storageRoot, s, q);
      }
    } else {
      var scope := Scope(Trim(Python, raw), "p");
      FullStoreIsGood(storageRoot, scope);
      OneMoreByte(storageRoot, raw);
    }
  }
}
