/** How the file service turns what a client sends into a scope and into a path, and why no
    accepted path leaves its environment. */
module SafePaths {
  import opened Text
  import opened FileTree

  datatype Error = BadScope | Forbidden | BadPath | NotFound | QuotaExceeded | FileSystem

  // --- scope ids ---

  predicate IsAlphanumeric(c: char) {
    'A' <= c <= 'Z' || 'a' <= c <= 'z' || '0' <= c <= '9'
  }

  predicate IsScopeChar(c: char) {
    IsAlphanumeric(c) || c == '_' || c == '.' || c == ':' || c == '-'
  }

  predicate IsScopeId(s: string) {
    1 <= |s| <= 128 && IsAlphanumeric(s[0]) && forall i :: 0 <= i < |s| ==> IsScopeChar(s[i])
  }

  function SafeScopeId(value: string): Result<string, Error> {
    var normalized := Trim(Python, value);
    if IsScopeId(normalized) then Ok(normalized) else Err(BadScope)
  }

  // --- roots ---

  datatype Scope = Scope(teamID: string, projectID: string)

  function TeamDir(storageRoot: Path, teamID: string): Path {
    storageRoot + ["team-" + teamID]
  }

  function RootOf(storageRoot: Path, scope: Scope): Path {
    TeamDir(storageRoot, scope.teamID) + ["project-" + scope.projectID]
  }

  lemma SamePrefix(prefix: string, a: string, b: string)
    requires prefix + a == prefix + b
    ensures a == b
  {
    assert (prefix + a)[|prefix|..] == a;
    assert (prefix + b)[|prefix|..] == b;
  }

  /** A path lies in the environment of one scope at most: roots are never nested. */
  lemma RootsNotNested(storageRoot: Path, a: Scope, b: Scope, p: Path)
    requires RootOf(storageRoot, a) <= p && RootOf(storageRoot, b) <= p
    ensures a == b
  {
    var n := |storageRoot|;
    assert RootOf(storageRoot, a)[n] == p[n] == RootOf(storageRoot, b)[n];
    assert RootOf(storageRoot, a)[n + 1] == p[n + 1] == RootOf(storageRoot, b)[n + 1];
    SamePrefix("team-", a.teamID, b.teamID);
    SamePrefix("project-", a.projectID, b.projectID);
  }

  lemma TeamDirsNotNested(storageRoot: Path, a: string, b: string, p: Path)
    requires TeamDir(storageRoot, a) <= p && TeamDir(storageRoot, b) <= p
    ensures a == b
  {
    var n := |storageRoot|;
    assert TeamDir(storageRoot, a)[n] == p[n] == TeamDir(storageRoot, b)[n];
    SamePrefix("team-", a, b);
  }

  lemma TeamOfRoot(storageRoot: Path, scope: Scope, p: Path, team: string)
    requires RootOf(storageRoot, scope) <= p
    ensures TeamDir(storageRoot, team) <= p <==> team == scope.teamID
  {
    assert TeamDir(storageRoot, scope.teamID) <= RootOf(storageRoot, scope) <= p;
    if TeamDir(storageRoot, team) <= p {
      TeamDirsNotNested(storageRoot, team, scope.teamID, p);
    }
  }

  // --- paths ---

  function SplitSlash(s: string): (r: seq<string>)
    ensures r != []
  {
    if s == "" then [""]
    else
      var rest := SplitSlash(s[1..]);
      if s[0] == '/' then [""] + rest else [[s[0]] + rest[0]] + rest[1..]
  }

  /** The names of a path; empty ones and single dots do not count. */
  function Names(parts: seq<string>): (r: seq<string>)
    ensures forall x :: x in r <==> x in parts && x != "" && x != "."
  {
    if parts == [] then []
    else (if parts[0] == "" || parts[0] == "." then [] else [parts[0]]) + Names(parts[1..])
  }

  function StripSlashes(s: string): string {
    if s != "" && s[0] == '/' then StripSlashes(s[1..]) else s
  }

  function Relative(path: string): seq<string> {
    Names(SplitSlash(StripSlashes(Trim(Python, path))))
  }

  /** Walking from base, name by name; two dots go up, and stay at the top. */
  function Resolve(base: Path, names: seq<string>): Path
    decreases names
  {
    if names == [] then base
    else if names[0] == ".." then Resolve(if base == [] then [] else base[..|base| - 1], names[1..])
    else Resolve(base + [names[0]], names[1..])
  }

  function SafePath(root: Path, path: string): (r: Result<Path, Error>)
    ensures r.Ok? ==> root <= r.value
  {
    var target := Resolve(root, Relative(path));
    if root <= target then Ok(target) else Err(BadPath)
  }

  /** What a walk amounts to: so many steps up, then down through these names. */
  datatype Walk = Walk(ups: nat, names: seq<string>)

  function Step(w: Walk, name: string): Walk {
    if name != ".." then w.(names := w.names + [name])
    else if w.names != [] then w.(names := w.names[..|w.names| - 1])
    else w.(ups := w.ups + 1)
  }

  function Walked(w: Walk, names: seq<string>): Walk
    decreases names
  {
    if names == [] then w else Walked(Step(w, names[0]), names[1..])
  }

  function Up(root: Path, ups: nat): Path {
    if ups <= |root| then root[..|root| - ups] else []
  }

  lemma {:induction false} ResolveWalks(root: Path, w: Walk, names: seq<string>)
    ensures Resolve(Up(root, w.ups) + w.names, names) == var v := Walked(w, names); Up(root, v.ups) + v.names
    decreases names
  {
    if names != [] {
      var v := Step(w, names[0]);
      var at := Up(root, w.ups) + w.names;
      if names[0] != ".." {
        assert at + [names[0]] == Up(root, v.ups) + v.names;
      } else if w.names != [] {
        assert at[..|at| - 1] == Up(root, v.ups) + v.names;
      } else {
        assert at == Up(root, w.ups);
        assert (if at == [] then [] else at[..|at| - 1]) == Up(root, v.ups) + v.names;
      }
      ResolveWalks(root, v, names[1..]);
    }
  }

  lemma PrefixAfter(up: Path, below: Path, names: Path)
    ensures up + below <= up + names <==> below <= names
  {
    if up + below <= up + names {
      assert forall i :: 0 <= i < |below| ==> below[i] == (up + below)[|up| + i] == (up + names)[|up| + i] == names[i];
    }
  }

  /** A path is accepted exactly when its steps above the root are retraced by name. */
  lemma SafePathAccepts(root: Path, path: string)
    ensures var w := Walked(Walk(0, []), Relative(path));
            SafePath(root, path).Ok? <==> root[|Up(root, w.ups)|..] <= w.names
  {
    var w := Walked(Walk(0, []), Relative(path));
    ResolveWalks(root, Walk(0, []), Relative(path));
    assert Up(root, 0) + [] == root;
    var up := Up(root, w.ups);
    PrefixAfter(up, root[|up|..], w.names);
    assert root == up + root[|up|..];
  }

  /** In particular a path without steps up is accepted and names just what it says. */
  lemma {:induction false} PlainResolves(base: Path, names: seq<string>)
    requires ".." !in names
    ensures Resolve(base, names) == base + names
    decreases names
  {
    if names != [] {
      PlainResolves(base + [names[0]], names[1..]);
      assert base + [names[0]] + names[1..] == base + names;
    }
  }

  /** The file name of an upload: what follows the last slash. */
  function Basename(s: string): string {
    var parts := SplitSlash(s);
    parts[|parts| - 1]
  }

  lemma {:induction false} PiecesHaveNoSlash(s: string, piece: string)
    requires piece in SplitSlash(s)
    ensures '/' !in piece
  {
    if s != "" {
      var rest := SplitSlash(s[1..]);
      if piece in rest {
        PiecesHaveNoSlash(s[1..], piece);
      } else if s[0] != '/' {
        PiecesHaveNoSlash(s[1..], rest[0]);
      }
    }
  }

  lemma {:induction false} NoSlashOnePiece(s: string)
    requires '/' !in s
    ensures SplitSlash(s) == [s]
  {
    if s != "" {
      assert s == [s[0]] + s[1..];
      NoSlashOnePiece(s[1..]);
    }
  }

  lemma {:induction false} TrimLeftAddsNothing(s: string, c: char)
    requires c !in s
    ensures c !in TrimLeft(Python, s)
  {
    if s != "" && IsSpace(Python, s[0]) {
      TrimLeftAddsNothing(s[1..], c);
    }
  }

  /** An upload lands in the directory it was sent to: on it, or one name below. */
  lemma UploadLandsInDirectory(base: Path, filename: string)
    ensures var target := SafePath(base, Basename(filename));
            target.Ok? ==> target.value == base || (|target.value| == |base| + 1 && target.value[..|base|] == base)
  {
    var name := Basename(filename);
    PiecesHaveNoSlash(filename, name);
    var right := TrimRight(Python, name);
    assert right <= name;
    assert '/' !in right;
    TrimLeftAddsNothing(right, '/');
    var trimmed := Trim(Python, name);
    NoSlashOnePiece(trimmed);
    assert Relative(name) == Names([trimmed]);
    assert Names([]) == [];
    if trimmed == "" || trimmed == "." {
      assert Relative(name) == [];
    } else {
      assert Relative(name) == [trimmed];
      assert Resolve(base, [trimmed]) ==
        if trimmed == ".." then Resolve(if base == [] then [] else base[..|base| - 1], []) else Resolve(base + [trimmed], []);
    }
  }

  /** Letters, digits and the four marks may be in an id, but not a mark in front, a blank or a slash. */
  lemma ProperIds()
    ensures IsScopeId("Team_7.a:b-Z") && IsScopeId("0") && SafeScopeId(" a1 ") == Ok("a1")
    ensures !IsScopeId("") && !IsScopeId("-a") && !IsScopeId("a b") && !IsScopeId("a/b")
  {
    assert "a b"[1] == ' ' && "a/b"[1] == '/';
    assert TrimRight(Python, " a1 ") == " a1" by {
      assert " a1 "[..3] == " a1";
    }
    assert TrimLeft(Python, " a1") == "a1" by {
      assert " a1"[1..] == "a1";
    }
  }

  lemma {:induction false} LastPiece(front: string, name: string)
    requires '/' !in name
    ensures Basename(front + "/" + name) == name
  {
    var s := front + "/" + name;
    if front == "" {
      NoSlashOnePiece(name);
      assert s[1..] == name;
    } else {
      assert s[1..] == front[1..] + "/" + name;
      LastPiece(front[1..], name);
      NotOnePiece(front[1..], name);
    }
  }

  lemma {:induction false} NotOnePiece(front: string, name: string)
    ensures |SplitSlash(front + "/" + name)| >= 2
  {
    var s := front + "/" + name;
    if front == "" {
      assert s[1..] == name;
    } else {
      assert s[1..] == front[1..] + "/" + name;
      NotOnePiece(front[1..], name);
    }
  }
}
