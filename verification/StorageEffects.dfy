/** What each request of the file service does to the files, and when it is let through: the other half
    of confinement, which is also kept by doing nothing. */
module StorageEffects {
  import opened Text
  import opened FileTree
  import opened SafePaths
  import opened Storage
  import StorageRuns

  // --- moving files ---

  /** The path is what is moved: the file itself, or anything below the directory. */
  predicate IsMoved(files: map<Path, nat>, source: Path, p: Path) {
    p == source || (source <= p && source !in files)
  }

  /** The path with its beginning at the source replaced. */
  function Onto(source: Path, destination: Path, p: Path): Path
    requires source <= p
  {
    destination + p[|source|..]
  }

  ghost predicate Arrives(files: map<Path, nat>, files': map<Path, nat>, source: Path, destination: Path) {
    forall p :: p in files && IsMoved(files, source, p) ==>
      Onto(source, destination, p) in files' && files'[Onto(source, destination, p)] == files[p]
  }

  ghost predicate RestStays(files: map<Path, nat>, files': map<Path, nat>, source: Path, destination: Path) {
    forall p :: p in files && !IsMoved(files, source, p) && p != destination ==> p in files' && files'[p] == files[p]
  }

  predicate ComesFrom(files: map<Path, nat>, source: Path, destination: Path, q: Path) {
    destination <= q && Onto(destination, source, q) in files && IsMoved(files, source, Onto(destination, source, q))
  }

  /** What is moved is found below the destination with the sizes it had; everything else stays, but for a
      file the move replaces. */
  ghost predicate Relocates(files: map<Path, nat>, files': map<Path, nat>, source: Path, destination: Path) {
    && Arrives(files, files', source, destination) && RestStays(files, files', source, destination)
    && forall q :: q in files' ==> (q in files && !IsMoved(files, source, q)) || ComesFrom(files, source, destination, q)
  }

  /** A move is possible onto itself, for a file where no directory is, and for a directory where nothing
      is and not into itself. */
  predicate CanMove(t: Tree, source: Path, destination: Path) {
    || source == destination
    || (source in t.files && destination !in t.dirs)
    || (source !in t.files && !(source <= destination)
        && (forall p :: p in t.files ==> !(destination <= p)) && (forall d :: d in t.dirs && destination <= d ==> d == destination))
  }

  lemma FileRelocates(t: Tree, source: Path, destination: Path)
    requires source in t.files && source != destination
    ensures Relocates(t.files, (t.files - {source})[destination := t.files[source]], source, destination)
  {
    assert Onto(source, destination, source) == destination && Onto(destination, source, destination) == source;
  }

  lemma OntoAndBack(source: Path, destination: Path, p: Path)
    requires source <= p
    ensures destination <= Onto(source, destination, p) && Onto(destination, source, Onto(source, destination, p)) == p
    ensures Onto(source, destination, p) == Moved(p, source, destination)
  {
    assert Onto(source, destination, p)[|destination|..] == p[|source|..];
    assert source + p[|source|..] == p;
  }

  lemma MovedAlong(files: map<Path, nat>, source: Path, destination: Path, p: Path)
    requires p in files && forall p :: p in files ==> !(destination <= p)
    ensures var (files', q) := (MovedFiles(files, source, destination), if source <= p then Onto(source, destination, p) else p);
      q in files' && files'[q] == files[p]
  {
    MoveBack(files, p, source, destination);
    if source <= p {
      OntoAndBack(source, destination, p);
    }
  }

  lemma MovedHere(files: map<Path, nat>, source: Path, destination: Path, q: Path)
    requires source !in files && q in MovedFiles(files, source, destination)
    ensures (q in files && !IsMoved(files, source, q)) || ComesFrom(files, source, destination, q)
  {
    var p := MovedFrom(files, q, source, destination);
    if source <= p {
      OntoAndBack(source, destination, p);
    }
  }

  lemma DirectoryArrives(files: map<Path, nat>, source: Path, destination: Path)
    requires source !in files && forall p :: p in files ==> !(destination <= p)
    ensures Arrives(files, MovedFiles(files, source, destination), source, destination)
  {
    forall p | p in files && IsMoved(files, source, p)
      ensures Onto(source, destination, p) in MovedFiles(files, source, destination)
      ensures MovedFiles(files, source, destination)[Onto(source, destination, p)] == files[p]
    {
      MovedAlong(files, source, destination, p);
    }
  }

  lemma DirectoryRest(files: map<Path, nat>, source: Path, destination: Path)
    requires source !in files && forall p :: p in files ==> !(destination <= p)
    ensures RestStays(files, MovedFiles(files, source, destination), source, destination)
  {
    forall p | p in files && !IsMoved(files, source, p)
      ensures p in MovedFiles(files, source, destination) && MovedFiles(files, source, destination)[p] == files[p]
    {
      MovedAlong(files, source, destination, p);
    }
  }

  lemma DirectoryRelocates(files: map<Path, nat>, source: Path, destination: Path)
    requires source !in files && forall p :: p in files ==> !(destination <= p)
    ensures Relocates(files, MovedFiles(files, source, destination), source, destination)
  {
    DirectoryArrives(files, source, destination);
    DirectoryRest(files, source, destination);
    forall q | q in MovedFiles(files, source, destination)
      ensures (q in files && !IsMoved(files, source, q)) || ComesFrom(files, source, destination, q)
    {
      MovedHere(files, source, destination, q);
    }
  }

  lemma ItselfRelocates(files: map<Path, nat>, source: Path)
    ensures Relocates(files, files, source, source)
  {
    forall p | source <= p
      ensures Onto(source, source, p) == p
    {
    }
  }

  lemma RenameMoves(t: Tree, source: Path, destination: Path)
    ensures Rename(t, source, destination).Some? <==> CanMove(t, source, destination)
    ensures CanMove(t, source, destination) ==>
      Relocates(t.files, Rename(t, source, destination).value.files, source, destination)
  {
    if source == destination {
      ItselfRelocates(t.files, source);
    } else if source in t.files {
      FileRelocates(t, source, destination);
    } else if CanMove(t, source, destination) {
      DirectoryRelocates(t.files, source, destination);
    }
  }

  // --- who is let in ---

  function ScopeNamed(team: string, project: string): Scope {
    Scope(Trim(Python, team), Trim(Python, project))
  }

  /** Both ids are proper once trimmed, and the actor is a member, or the first to ask for the environment
      and no file is in the way of its root. */
  predicate LetIn(storageRoot: Path, s: Store, team: string, project: string, actor: string) {
    var scope := ScopeNamed(team, project);
    && IsScopeId(scope.teamID) && IsScopeId(scope.projectID)
    && if scope in s.envs then actor in s.envs[scope].members
       else forall q :: q in s.tree.files ==> !(q <= RootOf(storageRoot, scope))
  }

  function RootFor(storageRoot: Path, s: Store, team: string, project: string): Path {
    var scope := ScopeNamed(team, project);
    if scope in s.envs then s.envs[scope].rootPath else RootOf(storageRoot, scope)
  }

  /** The environments once the actor has been let in. */
  function EnvsFor(storageRoot: Path, s: Store, team: string, project: string, actor: string): Envs {
    var scope := ScopeNamed(team, project);
    if scope in s.envs then s.envs else s.envs[scope := Env(RootOf(storageRoot, scope), {actor})]
  }

  /** Access is for members; the first to ask becomes the only one. Files are as before. */
  lemma EnterDoes(storageRoot: Path, s: Store, team: string, project: string, actor: string)
    ensures var (s', r) := Entered(storageRoot, s, team, project, actor);
      && (r.Ok? <==> LetIn(storageRoot, s, team, project, actor))
      && (r.Ok? ==> r.value == RootFor(storageRoot, s, team, project) && s'.envs == EnvsFor(storageRoot, s, team, project, actor))
      && (r.Err? ==> s' == s)
      && s'.tree.files == s.tree.files && s.tree.dirs <= s'.tree.dirs
      && (r.Ok? && ScopeNamed(team, project) !in s.envs ==> r.value in s'.tree.dirs)
  {
    var root := RootOf(storageRoot, ScopeNamed(team, project));
    assert root[..|root|] == root;
  }

  /** A folder is made with its missing parents wherever the path leads inside the environment and no
      file is in the way. */
  lemma FolderDoes(storageRoot: Path, s: Store, team: string, project: string, actor: string, path: string)
    ensures var (s', r) := FolderCreated(storageRoot, s, team, project, actor, path);
      var target := SafePath(RootFor(storageRoot, s, team, project), path);
      && (r.Ok? <==> LetIn(storageRoot, s, team, project, actor) && target.Ok?
                     && forall q :: q in s.tree.files ==> !(q <= target.value))
      && (r.Ok? ==> r == target && s'.envs == EnvsFor(storageRoot, s, team, project, actor))
      && s'.tree.files == s.tree.files && s.tree.dirs <= s'.tree.dirs
      && (r.Ok? ==> forall i :: 0 <= i <= |r.value| ==> r.value[..i] in s'.tree.dirs)
  {
    EnterDoes(storageRoot, s, team, project, actor);
  }

  // --- what happens to the files ---

  /** An upload writes one file of the size sent, and is refused over the quota. */
  lemma UploadDoes(storageRoot: Path, s: Store, team: string, project: string, actor: string, directory: string, filename: string, size: nat)
    ensures var (s', r) := Uploaded(storageRoot, s, team, project, actor, directory, filename, size);
      var (s1, base) := FolderCreated(storageRoot, s, team, project, actor, if directory == "" then "." else directory);
      && (base.Err? ==> r == base && s' == s1)
      && (base.Ok? ==>
           var target := SafePath(base.value, UploadName(filename));
           && (r.Ok? <==> target.Ok? && Charged(s1, team) + size <= TEAM_QUOTA_BYTES && target.value !in s1.tree.dirs)
           && (r.Ok? ==> r == target && s' == s1.(tree := s1.tree.(files := s.tree.files[target.value := size])))
           && (r.Err? ==> s' == s1))
  {
    FolderDoes(storageRoot, s, team, project, actor, if directory == "" then "." else directory);
  }

  /** A deletion takes away the file, or the directory with everything below it, and only that. */
  lemma DeleteDoes(storageRoot: Path, s: Store, team: string, project: string, actor: string, path: string)
    ensures var (s', r) := Deleted(storageRoot, s, team, project, actor, path);
      var (s1, root) := Entered(storageRoot, s, team, project, actor);
      && (root.Err? ==> r == root && s' == s1)
      && (root.Ok? ==>
           var target := SafePath(root.value, path);
           && (r.Ok? <==> target.Ok? && (target.value in s1.tree.files || target.value in s1.tree.dirs))
           && (r.Ok? ==> r == target)
           && (r.Ok? ==> forall p :: p in s'.tree.files <==> p in s.tree.files && !IsMoved(s.tree.files, target.value, p))
           && (forall p :: p in s'.tree.files ==> p in s.tree.files && s'.tree.files[p] == s.tree.files[p])
           && (r.Err? ==> s' == s1))
  {
    EnterDoes(storageRoot, s, team, project, actor);
  }

  /** No file is above the destination. */
  predicate Reachable(t: Tree, destination: Path) {
    forall q :: q in t.files && q <= destination ==> q == destination && q != []
  }

  /** The directories above the path. */
  function Above(p: Path): set<Path> {
    set i | 0 <= i <= |p| && (i < |p| || p == []) :: p[..i]
  }

  lemma AboveIsAncestors(p: Path)
    ensures Ancestors(Parent(p)) == Above(p)
  {
    if p != [] {
      assert forall i :: 0 <= i < |p| ==> Parent(p)[..i] == p[..i];
    }
  }

  lemma ReachableIff(t: Tree, destination: Path)
    ensures Reachable(t, destination) <==> !exists q :: q in t.files && q <= Parent(destination)
  {
    forall q | q in t.files && q <= destination
      ensures q <= Parent(destination) <==> q != destination || q == []
    {
      assert q == destination[..|q|];
    }
    assert Parent(destination) <= destination;
  }

  /** The destination's directory can be made, and then the move is possible. */
  predicate Movable(t: Tree, source: Path, destination: Path) {
    Reachable(t, destination) && CanMove(t.(dirs := t.dirs + Above(destination)), source, destination)
  }

  /** A rename moves what is at the old path to the new one, in a directory made for it. */
  lemma RenameDoes(storageRoot: Path, s: Store, team: string, project: string, actor: string, oldPath: string, newPath: string)
    ensures var (s', r) := Renamed(storageRoot, s, team, project, actor, oldPath, newPath);
      var (s1, root) := Entered(storageRoot, s, team, project, actor);
      && (root.Err? ==> r == root && s' == s1)
      && (root.Ok? ==>
           var (source, destination) := (SafePath(root.value, oldPath), SafePath(root.value, newPath));
           && (r.Ok? <==> source.Ok? && destination.Ok? && (source.value in s1.tree.files || source.value in s1.tree.dirs) && Movable(s1.tree, source.value, destination.value))
           && (r.Ok? ==> r == destination && Relocates(s.tree.files, s'.tree.files, source.value, destination.value))
           && (r.Err? ==> s'.tree.files == s.tree.files)
           && (r.Err? && source.Ok? && destination.Ok? && (source.value in s1.tree.files || source.value in s1.tree.dirs) && Reachable(s1.tree, destination.value) ==>
                 s'.tree.dirs == s1.tree.dirs + Above(destination.value)))
  {
    EnterDoes(storageRoot, s, team, project, actor);
    var (s1, root) := Entered(storageRoot, s, team, project, actor);
    if root.Ok? && SafePath(root.value, oldPath).Ok? && SafePath(root.value, newPath).Ok? {
      var (source, destination) := (SafePath(root.value, oldPath).value, SafePath(root.value, newPath).value);
      var made := MakeDirs(s1.tree, Parent(destination));
      AboveIsAncestors(destination);
      ReachableIff(s1.tree, destination);
      if made.Some? {
        RenameMoves(made.value, source, destination);
      }
    }
  }

  /** Deleting an environment takes its files with it, for a member. */
  lemma EnvironmentGoes(s: Store, scope: Scope, actor: string)
    ensures var (s', r) := EnvironmentDeleted(s, scope, actor);
      && (r.Ok? <==> scope in s.envs && actor in s.envs[scope].members)
      && (r.Ok? ==> s'.envs == s.envs - {scope})
      && (r.Ok? ==> forall p :: p in s'.tree.files <==> p in s.tree.files && !(s.envs[scope].rootPath <= p))
      && (forall p :: p in s'.tree.files ==> p in s.tree.files && s'.tree.files[p] == s.tree.files[p])
      && (r.Err? ==> s' == s)
  {
  }

  /** A file sent without a name is called uploaded.bin; a name's directories do not count. */
  lemma UploadNames(directories: string, name: string)
    requires '/' !in name
    ensures UploadName("") == "uploaded.bin" && UploadName(directories + "/" + name) == name
    ensures name != "" ==> UploadName(name) == name
  {
    NoSlashOnePiece("uploaded.bin");
    NoSlashOnePiece(name);
    LastPiece(directories, name);
  }

  // --- over runs ---

  type Request = StorageRuns.Request

  /** The request writes the file, or takes it away: by an upload or a rename onto it, or when it lies at or
      below what is deleted or renamed. */
  ghost predicate Touches(storageRoot: Path, s: Store, q: Request, p: Path) {
    var r := StorageRuns.Outcome(storageRoot, s, q).1;
    r.Ok? && match q
             case Enter(_, _, _) => false
             case CreateFolder(_, _, _, _) => false
             case Upload(_, _, _, _, _, _) => p == r.value
             case Delete(_, _, _, _) => r.value <= p
             case Rename(team, project, _, oldPath, _) =>
               p == r.value || SafePath(RootFor(storageRoot, s, team, project), oldPath).value <= p
             case DeleteEnvironment(_, _) => r.value <= p
  }

  ghost predicate Keeps(storageRoot: Path, s: Store, q: Request, p: Path) {
    var files := StorageRuns.Next(storageRoot, s, q).tree.files;
    p in s.tree.files ==> p in files && files[p] == s.tree.files[p]
  }

  lemma UploadKeeps(storageRoot: Path, s: Store, q: Request, p: Path)
    requires q.Upload? && !Touches(storageRoot, s, q, p)
    ensures Keeps(storageRoot, s, q, p)
  {
    FolderDoes(storageRoot, s, q.team, q.project, q.actor, if q.directory == "" then "." else q.directory);
    UploadDoes(storageRoot, s, q.team, q.project, q.actor, q.directory, q.filename, q.size);
  }

  lemma DeleteKeeps(storageRoot: Path, s: Store, q: Request, p: Path)
    requires q.Delete? && !Touches(storageRoot, s, q, p)
    ensures Keeps(storageRoot, s, q, p)
  {
    EnterDoes(storageRoot, s, q.team, q.project, q.actor);
    DeleteDoes(storageRoot, s, q.team, q.project, q.actor, q.path);
  }

  lemma RenameKeeps(storageRoot: Path, s: Store, q: Request, p: Path)
    requires q.Rename? && !Touches(storageRoot, s, q, p)
    ensures Keeps(storageRoot, s, q, p)
  {
    EnterDoes(storageRoot, s, q.team, q.project, q.actor);
    RenameDoes(storageRoot, s, q.team, q.project, q.actor, q.oldPath, q.newPath);
  }

  lemma UntouchedStays(storageRoot: Path, s: Store, q: Request, p: Path)
    requires !Touches(storageRoot, s, q, p)
    ensures Keeps(storageRoot, s, q, p)
  {
    match q
    case Enter(team, project, actor) => EnterDoes(storageRoot, s, team, project, actor);
    case CreateFolder(team, project, actor, path) => FolderDoes(storageRoot, s, team, project, actor, path);
    case Upload(_, _, _, _, _, _) => UploadKeeps(storageRoot, s, q, p);
    case Delete(_, _, _, _) => DeleteKeeps(storageRoot, s, q, p);
    case Rename(_, _, _, _, _) => RenameKeeps(storageRoot, s, q, p);
    case DeleteEnvironment(scope, actor) => EnvironmentGoes(s, scope, actor);
  }

  ghost predicate Untouched(storageRoot: Path, s: Store, run: seq<Request>, p: Path)
    decreases run
  {
    run == [] || (!Touches(storageRoot, s, run[0], p) && Untouched(storageRoot, StorageRuns.Next(storageRoot, s, run[0]), run[1..], p))
  }

  lemma {:induction false} FileStays(storageRoot: Path, s: Store, run: seq<Request>, p: Path)
    requires p in s.tree.files && Untouched(storageRoot, s, run, p)
    ensures var files := StorageRuns.After(storageRoot, s, run).tree.files; p in files && files[p] == s.tree.files[p]
    decreases run
  {
    if run != [] {
      UntouchedStays(storageRoot, s, run[0], p);
      FileStays(storageRoot, StorageRuns.Next(storageRoot, s, run[0]), run[1..], p);
    }
  }

  lemma {:induction false} RunSplits(storageRoot: Path, s: Store, a: seq<Request>, b: seq<Request>)
    ensures StorageRuns.After(storageRoot, s, a + b) == StorageRuns.After(storageRoot, StorageRuns.After(storageRoot, s, a), b)
    decreases a
  {
    if a == [] {
      assert a + b == b;
    } else {
      assert (a + b)[1..] == a[1..] + b;
      RunSplits(storageRoot, StorageRuns.Next(storageRoot, s, a[0]), a[1..], b);
    }
  }

  /** What is uploaded is kept: at any point of a run a successful upload leaves its file, and that is still
      there at the end, with the size sent, unless a later request touches it. */
  lemma UploadKept(storageRoot: Path, s: Store, before: seq<Request>, q: Request, rest: seq<Request>)
    requires q.Upload?
    ensures var s1 := StorageRuns.After(storageRoot, s, before);
      var r := StorageRuns.Outcome(storageRoot, s1, q).1;
      r.Ok? && Untouched(storageRoot, StorageRuns.Next(storageRoot, s1, q), rest, r.value) ==>
      var files := StorageRuns.After(storageRoot, s, before + [q] + rest).tree.files;
      r.value in files && files[r.value] == q.size
  {
    var s1 := StorageRuns.After(storageRoot, s, before);
    var s2, r := StorageRuns.Next(storageRoot, s1, q), StorageRuns.Outcome(storageRoot, s1, q).1;
    FolderDoes(storageRoot, s1, q.team, q.project, q.actor, if q.directory == "" then "." else q.directory);
    UploadDoes(storageRoot, s1, q.team, q.project, q.actor, q.directory, q.filename, q.size);
    RunSplits(storageRoot, s, before, [q]);
    RunSplits(storageRoot, s, before + [q], rest);
    assert [q][1..] == [] && StorageRuns.After(storageRoot, s1, [q]) == s2;
    if r.Ok? && Untouched(storageRoot, s2, rest, r.value) {
      FileStays(storageRoot, s2, rest, r.value);
    }
  }
}
