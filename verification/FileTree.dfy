/** A file tree with sizes, and the operations the file service performs on it. Paths are absolute
    and already resolved: sequences of names. */
module FileTree {
  import opened Text

  type Path = seq<string>

  datatype Tree = Tree(files: map<Path, nat>, dirs: set<Path>)

  // --- sizes ---

  /** The sizes of the files in S, added up. */
  ghost function Sum(files: map<Path, nat>, S: set<Path>): nat
    requires S <= files.Keys
  {
    if exists p :: p in S then
      var p :| p in S;
      files[p] + Sum(files, S - {p})
    else 0
  }

  lemma {:induction false} SumPick(files: map<Path, nat>, S: set<Path>, p: Path)
    requires S <= files.Keys && p in S
    ensures Sum(files, S) == files[p] + Sum(files, S - {p})
    decreases S
  {
    var q :| q in S && Sum(files, S) == files[q] + Sum(files, S - {q});
    if p != q {
      SumPick(files, S - {q}, p);
      SumPick(files, S - {p}, q);
      assert S - {q} - {p} == S - {p} - {q};
    }
  }

  lemma {:induction false} SumSplit(files: map<Path, nat>, A: set<Path>, B: set<Path>)
    requires A + B <= files.Keys && A !! B
    ensures Sum(files, A + B) == Sum(files, A) + Sum(files, B)
    decreases A
  {
    if p :| p in A {
      SumPick(files, A, p);
      SumPick(files, A + B, p);
      assert A + B - {p} == (A - {p}) + B;
      SumSplit(files, A - {p}, B);
    } else {
      assert A + B == B;
    }
  }

  /** Renaming the files of S one to one, with their sizes, keeps the sum. */
  lemma {:induction false} SumRenamed(files: map<Path, nat>, S: set<Path>, files': map<Path, nat>, S': set<Path>, to: map<Path, Path>)
    requires S <= files.Keys && S' <= files'.Keys && S <= to.Keys
    requires forall p :: p in S ==> to[p] in S' && files'[to[p]] == files[p]
    requires forall p, q :: p in S && q in S && to[p] == to[q] ==> p == q
    requires forall q :: q in S' ==> exists p :: p in S && to[p] == q
    ensures Sum(files', S') == Sum(files, S)
    decreases S
  {
    if p :| p in S {
      SumPick(files, S, p);
      SumPick(files', S', to[p]);
      SumRenamed(files, S - {p}, files', S' - {to[p]}, to);
    } else {
      assert S' == {};
    }
  }

  lemma SumSame(files: map<Path, nat>, files': map<Path, nat>, S: set<Path>)
    requires S <= files.Keys && S <= files'.Keys && forall p :: p in S ==> files[p] == files'[p]
    ensures Sum(files, S) == Sum(files', S)
  {
    SumRenamed(files, S, files', S, map p | p in S :: p);
  }

  function FilesUnder(files: map<Path, nat>, root: Path): set<Path> {
    set p | p in files && root <= p
  }

  ghost function Bytes(files: map<Path, nat>, root: Path): nat {
    Sum(files, FilesUnder(files, root))
  }

  method DirectorySize(files: map<Path, nat>, root: Path) returns (total: nat)
    ensures total == Bytes(files, root)
  {
    total := 0;
    var rest := FilesUnder(files, root);
    while rest != {}
      invariant rest <= FilesUnder(files, root)
      invariant total + Sum(files, rest) == Bytes(files, root)
      decreases rest
    {
      var p :| p in rest;
      SumPick(files, rest, p);
      total := total + files[p];
      rest := rest - {p};
    }
  }

  // --- operations ---

  function Ancestors(p: Path): set<Path> {
    set i | 0 <= i <= |p| :: p[..i]
  }

  /** mkdir with all missing parents; a file in the way is an error and nothing is made. */
  function MakeDirs(t: Tree, p: Path): Option<Tree> {
    if exists q :: q in t.files && q <= p then None else Some(t.(dirs := t.dirs + Ancestors(p)))
  }

  function WriteFile(t: Tree, p: Path, size: nat): Option<Tree> {
    if p in t.dirs then None else Some(t.(files := t.files[p := size]))
  }

  function RemoveTree(t: Tree, root: Path): Tree {
    Tree(map p | p in t.files && !(root <= p) :: t.files[p], set d | d in t.dirs && !(root <= d))
  }

  function Moved(p: Path, source: Path, destination: Path): Path {
    if source <= p then destination + p[|source|..] else p
  }

  predicate AnyUnder(t: Tree, root: Path) {
    (exists p :: p in t.files && root <= p) || (exists d :: d in t.dirs && root <= d && d != root)
  }

  function MovedFiles(files: map<Path, nat>, source: Path, destination: Path): map<Path, nat> {
    map q | q in (set p | p in files :: Moved(p, source, destination)) && Moved(q, destination, source) in files ::
      files[Moved(q, destination, source)]
  }

  /** POSIX rename: a file replaces a file, a directory an empty directory, and neither is put
      inside itself. */
  function Rename(t: Tree, source: Path, destination: Path): Option<Tree> {
    if source == destination then Some(t)
    else if source in t.files then
      if destination in t.dirs then None
      else Some(t.(files := (t.files - {source})[destination := t.files[source]]))
    else if source <= destination || AnyUnder(t, destination) then None
    else Some(Tree(MovedFiles(t.files, source, destination), set d | d in t.dirs :: Moved(d, source, destination)))
  }

  // --- what they do to the sizes ---

  lemma BytesAfterWrite(files: map<Path, nat>, p: Path, size: nat, root: Path)
    ensures Bytes(files[p := size], root) ==
            Bytes(files, root) + if root <= p then size - (if p in files then files[p] else 0) else 0
  {
    var files' := files[p := size];
    var S, S' := FilesUnder(files, root), FilesUnder(files', root);
    if root <= p {
      assert S' == (S - {p}) + {p};
      SumPick(files', S', p);
      assert S' - {p} == S - {p};
      SumSame(files, files', S - {p});
      if p in files {
        SumPick(files, S, p);
      } else {
        assert S - {p} == S;
      }
    } else {
      assert S' == S;
      SumSame(files, files', S);
    }
  }

  /** Forgetting files frees what they took. */
  lemma BytesAfterRemoval(files: map<Path, nat>, files': map<Path, nat>, root: Path)
    requires files'.Keys <= files.Keys && forall p :: p in files' ==> files'[p] == files[p]
    ensures Bytes(files', root) == Bytes(files, root) - Sum(files, FilesUnder(files, root) - files'.Keys)
  {
    var S, S' := FilesUnder(files, root), FilesUnder(files', root);
    assert S == S' + (S - files'.Keys);
    SumSplit(files, S', S - files'.Keys);
    SumSame(files, files', S');
  }

  /** A directory moved within a subtree, or outside it, leaves the subtree's size alone. */
  lemma BytesAfterMove(files: map<Path, nat>, source: Path, destination: Path, root: Path)
    requires forall p :: p in files ==> !(destination <= p)
    requires |root| <= |source| && |root| <= |destination| && (root <= source <==> root <= destination)
    ensures Bytes(MovedFiles(files, source, destination), root) == Bytes(files, root)
  {
    var files' := MovedFiles(files, source, destination);
    var S, S' := FilesUnder(files, root), FilesUnder(files', root);
    var to := map p | p in S :: Moved(p, source, destination);
    forall p | p in S
      ensures to[p] in S' && files'[to[p]] == files[p] && Moved(to[p], destination, source) == p
    {
      MoveBack(files, p, source, destination);
      MoveKeepsUnder(p, source, destination, root);
    }
    forall q | q in S'
      ensures exists p :: p in S && to[p] == q
    {
      var p := MovedFrom(files, q, source, destination);
      MoveKeepsUnder(p, source, destination, root);
      assert p in S;
    }
    SumRenamed(files, S, files', S', to);
  }

  lemma MovedFrom(files: map<Path, nat>, q: Path, source: Path, destination: Path) returns (p: Path)
    requires q in MovedFiles(files, source, destination)
    ensures p in files && Moved(p, source, destination) == q
  {
    p :| p in files && Moved(p, source, destination) == q;
  }

  lemma MoveBack(files: map<Path, nat>, p: Path, source: Path, destination: Path)
    requires p in files && forall p :: p in files ==> !(destination <= p)
    ensures Moved(Moved(p, source, destination), destination, source) == p
    ensures var (q, files') := (Moved(p, source, destination), MovedFiles(files, source, destination));
      q in files' && files'[q] == files[p]
  {
    var q := Moved(p, source, destination);
    if source <= p {
      assert q[|destination|..] == p[|source|..];
      assert p == source + p[|source|..];
    }
  }

  lemma MoveKeepsUnder(p: Path, source: Path, destination: Path, root: Path)
    requires |root| <= |source| && |root| <= |destination| && (root <= source <==> root <= destination)
    ensures root <= Moved(p, source, destination) <==> root <= p
  {
    if source <= p {
      var q := Moved(p, source, destination);
      assert root <= p <==> p[..|root|] == root;
      assert p[..|root|] == source[..|root|];
      assert q[..|root|] == destination[..|root|];
    }
  }
}
