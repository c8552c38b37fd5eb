/** Runs of whole service calls. In every reachable board, positions tell the tasks of a column
    and the columns of a project apart, so the order users see is a function of the positions. */
module Positions {
  import opened Text
  import opened Sorting
  import opened TaskModel
  import opened TaskStore
  import opened TaskService

  datatype Call =
    | CallCreate(create: CreateTaskInput, id: string, now: int)
    | CallUpdate(id: string, update: UpdateTaskInput, now: int)
    | CallDelete(id: string)
    | CallReorder(project: string, status: string, ids: seq<string>, now: int)
    | CallCreateColumn(team: string, project: string, title: string, id: string, now: int)
    | CallUpdateColumn(id: string, edit: UpdateColumnInput, now: int)
    | CallDeleteColumn(id: string)
    | CallReorderColumns(project: string, ids: seq<string>, versions: map<string, int>, now: int)

  lemma EnumerationExists<T(!new)>(S: set<T>)
    ensures exists xs :: Lists(xs, S)
  {
    if x :| x in S {
      EnumerationExists(S - {x});
      var xs :| Lists(xs, S - {x});
      assert Lists(xs + [x], S);
    } else {
      assert Lists([], S);
    }
  }

  lemma ListingExists(columns: Columns, project: string)
    ensures exists l :: IsColumnListing(columns, project, l)
  {
    EnumerationExists(ProjectColumns(columns, project));
    var xs :| Lists(xs, ProjectColumns(columns, project));
    SortSorts(ColumnLe, xs);
    SameElements(xs, Sort(ColumnLe, xs));
    assert IsColumnListing(columns, project, Sort(ColumnLe, xs));
  }

  /** A listing of the project's columns; under Distinct below there is only one. */
  ghost function Listing(columns: Columns, project: string): (l: seq<TaskColumn>)
    ensures IsColumnListing(columns, project, l)
  {
    ListingExists(columns, project);
    var l :| IsColumnListing(columns, project, l);
    l
  }

  ghost function After(env: Env, b: Board, call: Call): Board {
    match call
    case CallCreate(input, id, now) => CreateTask(env, b, input, id, now).0
    case CallUpdate(id, input, now) => UpdateTask(env, b, id, input, now).0
    case CallDelete(id) => DeleteTask(b, id).0
    case CallReorder(project, status, ids, now) => ReorderTasks(b, project, status, ids, now)
    case CallCreateColumn(team, project, title, id, now) => CreateColumn(b, team, project, title, id, now).0
    case CallUpdateColumn(id, input, now) => UpdateColumn(b, id, input, now).0
    case CallDeleteColumn(id) => DeleteColumn(b, id).0
    case CallReorderColumns(project, ids, versions, now) =>
      if Trim(Go, project) == "" then b
      else ReorderColumns(b, Listing(b.columns, Trim(Go, project)), ids, versions, now).0
  }

  ghost function AfterAll(env: Env, b: Board, calls: seq<Call>): Board
    decreases calls
  {
    if calls == [] then b else AfterAll(env, After(env, b, calls[0]), calls[1..])
  }

  // --- the invariant ---

  predicate Named(s: string) {
    s != "" && IsTrimmed(Go, s)
  }

  ghost predicate Filed(b: Board) {
    && FiledById(b.tasks) && ColumnsFiledById(b.columns)
    && (forall id :: id in b.tasks ==> Named(b.tasks[id].projectId) && Named(b.tasks[id].status))
    && (forall id :: id in b.columns ==> Named(b.columns[id].projectId))
  }

  predicate SameColumn(a: Task, b: Task) {
    a.projectId == b.projectId && a.status == b.status
  }

  ghost predicate TasksDistinct(tasks: Tasks) {
    forall i, j :: i in tasks && j in tasks && i != j && SameColumn(tasks[i], tasks[j]) ==>
      tasks[i].sortPosition != tasks[j].sortPosition
  }

  ghost predicate ColumnsDistinct(columns: Columns) {
    forall i, j :: i in columns && j in columns && i != j && columns[i].projectId == columns[j].projectId ==>
      columns[i].position != columns[j].position
  }

  ghost predicate Distinct(b: Board) {
    Filed(b) && TasksDistinct(b.tasks) && ColumnsDistinct(b.columns)
  }

  lemma AboveMax(tasks: Tasks, project: string, status: string, id: string)
    requires Named(project) && Named(status)
    requires id in tasks && InColumn(tasks[id], project, status)
    ensures tasks[id].sortPosition <= MaxPosition(tasks, project, status)
  {
    assert tasks[id].sortPosition in PositionsIn(tasks, project, status);
  }

  /** Storing a record whose position is above its column's maximum, or which has not moved,
      keeps positions distinct. */
  lemma StoreKeepsDistinct(tasks: Tasks, t: Task)
    requires FiledById(tasks) && TasksDistinct(tasks) && Named(t.projectId) && Named(t.status)
    requires t.sortPosition == MaxPosition(tasks, t.projectId, t.status) + 1
      || (t.id in tasks && SameColumn(t, tasks[t.id]) && t.sortPosition == tasks[t.id].sortPosition)
    ensures TasksDistinct(tasks[t.id := t])
  {
    forall i | i in tasks && i != t.id && SameColumn(tasks[i], t)
      ensures tasks[i].sortPosition != t.sortPosition
    {
      AboveMax(tasks, t.projectId, t.status, i);
    }
  }

  lemma FiledAfterStore(b: Board, t: Task)
    requires Filed(b) && Named(t.projectId) && Named(t.status)
    ensures Filed(b.(tasks := b.tasks[t.id := t]))
  {
  }

  lemma CreateKeepsDistinct(env: Env, b: Board, input: CreateTaskInput, id: string, now: int)
    requires Distinct(b)
    ensures Distinct(CreateTask(env, b, input, id, now).0)
  {
    var r := CreateTask(env, b, input, id, now);
    if r.1.Ok? {
      var t := r.1.value;
      assert r.0 == b.(tasks := b.tasks[t.id := t]) && Named(t.projectId) && Named(t.status);
      assert t.sortPosition == MaxPosition(b.tasks, t.projectId, t.status) + 1;
      StoreKeepsDistinct(b.tasks, t);
      FiledAfterStore(b, t);
    }
  }

  lemma UpdateKeepsDistinct(env: Env, b: Board, id: string, input: UpdateTaskInput, now: int)
    requires Distinct(b)
    ensures Distinct(UpdateTask(env, b, id, input, now).0)
  {
    var r := UpdateTask(env, b, id, input, now);
    UpdateReplacesOne(env, b, id, input, now);
    if r.1.Ok? {
      var task, t := b.tasks[Trim(Go, id)], r.1.value;
      assert t.projectId == task.projectId && t.status == NewStatus(env, task, input);
      assert t.sortPosition ==
        if t.status == task.status then task.sortPosition else MaxPosition(b.tasks, t.projectId, t.status) + 1;
      StoreKeepsDistinct(b.tasks, t);
    }
  }

  lemma ReorderKeepsDistinct(b: Board, project: string, status: string, ids: seq<string>, now: int)
    requires Distinct(b)
    ensures Distinct(ReorderTasks(b, project, status, ids, now))
  {
    var p, s, xs := Trim(Go, project), Trim(Go, status), TrimAll(Go, ids);
    var tasks := ReorderTasks(b, project, status, ids, now).tasks;
    if ReorderAccepted(b.tasks, p, s, ids) {
      forall i, j | i in tasks && j in tasks && i != j && SameColumn(tasks[i], tasks[j])
        ensures tasks[i].sortPosition != tasks[j].sortPosition
      {
        assert SameColumn(b.tasks[i], b.tasks[j]);
        assert i in xs <==> i in ColumnIds(b.tasks, p, s);
        assert j in xs <==> j in ColumnIds(b.tasks, p, s);
      }
    }
  }

  lemma CreateColumnKeepsDistinct(b: Board, team: string, project: string, title: string, id: string, now: int)
    requires Distinct(b)
    ensures Distinct(CreateColumn(b, team, project, title, id, now).0)
  {
    var p := Trim(Go, project);
    forall i | i in b.columns && b.columns[i].projectId == p
      ensures b.columns[i].position <= MaxColumnPosition(b.columns, p)
    {
      assert b.columns[i].position in ColumnPositions(b.columns, p);
    }
  }

  lemma ReorderColumnsKeepsDistinct(b: Board, project: string, listing: seq<TaskColumn>, ids: seq<string>,
                                    versions: map<string, int>, now: int)
    requires Distinct(b) && IsColumnListing(b.columns, project, listing)
    ensures Distinct(ReorderColumns(b, listing, ids, versions, now).0)
  {
    ListingIds(b.columns, project, listing);
    var order := FinalOrder(IdsOf(listing), ids);
    FinalOrderPermutes(IdsOf(listing), ids);
    assert forall id :: id in order <==> id in ProjectColumnIds(b.columns, project);
    RenumberedColumnsDistinct(b.columns, project, order, now);
  }

  lemma RenumberedColumnsDistinct(columns: Columns, project: string, order: seq<string>, now: int)
    requires ColumnsDistinct(columns) && forall id :: id in order <==> id in ProjectColumnIds(columns, project)
    ensures ColumnsDistinct(ColumnsRenumbered(columns, order, now))
  {
    var columns' := ColumnsRenumbered(columns, order, now);
    forall i, j | i in columns' && j in columns' && i != j && columns'[i].projectId == columns'[j].projectId
      ensures columns'[i].position != columns'[j].position
    {
      assert columns'[i].projectId == columns[i].projectId && columns'[j].projectId == columns[j].projectId;
      assert (i in order <==> columns[i].projectId == project) && (j in order <==> columns[j].projectId == project);
    }
  }

  lemma RemovalKeepsDistinct(b: Board, tasks: Tasks, columns: Columns)
    requires Distinct(b)
    requires tasks.Keys <= b.tasks.Keys && forall id :: id in tasks ==> tasks[id] == b.tasks[id]
    requires columns.Keys <= b.columns.Keys && forall id :: id in columns ==> columns[id] == b.columns[id]
    ensures Distinct(Board(tasks, columns))
  {
  }

  lemma UpdateColumnKeepsDistinct(b: Board, id: string, input: UpdateColumnInput, now: int)
    requires Distinct(b)
    ensures Distinct(UpdateColumn(b, id, input, now).0)
  {
  }

  lemma DeletesKeepDistinct(b: Board, id: string)
    requires Distinct(b)
    ensures Distinct(DeleteTask(b, id).0) && Distinct(DeleteColumn(b, id).0)
  {
    DeleteColumnKeepsDistinct(b, id);
  }

  lemma DeleteColumnKeepsDistinct(b: Board, id: string)
    requires Distinct(b)
    ensures Distinct(DeleteColumn(b, id).0)
  {
    RemovalKeepsDistinct(b, b.tasks, DeleteColumn(b, id).0.columns);
  }

  lemma CallKeepsDistinct(env: Env, b: Board, call: Call)
    requires Distinct(b)
    ensures Distinct(After(env, b, call))
  {
    match call
    case CallCreate(input, id, now) => CreateKeepsDistinct(env, b, input, id, now);
    case CallUpdate(id, input, now) => UpdateKeepsDistinct(env, b, id, input, now);
    case CallDelete(id) => DeletesKeepDistinct(b, id);
    case CallReorder(project, status, ids, now) => ReorderKeepsDistinct(b, project, status, ids, now);
    case CallCreateColumn(team, project, title, id, now) => CreateColumnKeepsDistinct(b, team, project, title, id, now);
    case CallUpdateColumn(id, input, now) => UpdateColumnKeepsDistinct(b, id, input, now);
    case CallDeleteColumn(id) => DeletesKeepDistinct(b, id);
    case CallReorderColumns(project, ids, versions, now) =>
      if Trim(Go, project) != "" {
        ReorderColumnsKeepsDistinct(b, Trim(Go, project), Listing(b.columns, Trim(Go, project)), ids, versions, now);
      }
  }

  /** From the empty board, any sequence of atomic calls leaves positions distinct. */
  lemma {:induction false} ReachableDistinct(env: Env, b: Board, calls: seq<Call>)
    requires Distinct(b)
    ensures Distinct(AfterAll(env, b, calls))
    decreases calls
  {
    if calls != [] {
      CallKeepsDistinct(env, b, calls[0]);
      ReachableDistinct(env, After(env, b, calls[0]), calls[1..]);
    }
  }

  function TargetOf(env: Env, input: CreateTaskInput): (string, string) {
    (Trim(Go, input.projectId), NormalizeStatus(env, input.status))
  }

  /** The tasks after a creation that looked its position up in the tasks read. */
  ghost function CreatedFrom(env: Env, read: Tasks, tasks: Tasks, input: CreateTaskInput, list: seq<Assignee>, id: string, now: int)
    : Tasks
  {
    var (project, status) := TargetOf(env, input);
    Created(tasks, FromCreate(env, input, list, id, MaxPosition(read, project, status), now)).0
  }

  /** A new task in one column leaves the positions of every other column alone. */
  lemma OtherColumnSame(tasks: Tasks, t: Task, project: string, status: string)
    requires Named(project) && Named(status) && t.id !in tasks && (t.projectId, t.status) != (project, status)
    ensures MaxPosition(tasks[t.id := t], project, status) == MaxPosition(tasks, project, status)
  {
    var tasks' := tasks[t.id := t];
    forall id | id in tasks && InColumn(tasks[id], project, status)
      ensures id in tasks' && tasks'[id] == tasks[id]
    {
    }
    assert PositionsIn(tasks', project, status) <= PositionsIn(tasks, project, status);
    assert PositionsIn(tasks', project, status) == PositionsIn(tasks, project, status);
  }

  /** Calls must be atomic for that. Two creations that both look up their maximum before either
      writes leave positions distinct exactly when they go to different columns. */
  lemma SplitCreatesCollide(env: Env, b: Board, first: CreateTaskInput, second: CreateTaskInput,
                            list1: seq<Assignee>, list2: seq<Assignee>, id1: string, id2: string, now: int)
    requires Distinct(b) && Trim(Go, first.projectId) != "" && Trim(Go, second.projectId) != ""
    requires id1 !in b.tasks && id2 !in b.tasks && id1 != id2
    ensures var after := CreatedFrom(env, b.tasks, b.tasks, first, list1, id1, now);
      TasksDistinct(CreatedFrom(env, b.tasks, after, second, list2, id2, now)) <==> TargetOf(env, first) != TargetOf(env, second)
  {
    var ((p1, s1), (p2, s2)) := (TargetOf(env, first), TargetOf(env, second));
    var t1 := FromCreate(env, first, list1, id1, MaxPosition(b.tasks, p1, s1), now);
    var t2 := FromCreate(env, second, list2, id2, MaxPosition(b.tasks, p2, s2), now);
    TwoNewTasks(b.tasks, t1, t2);
  }

  lemma TwoNewTasks(tasks: Tasks, t1: Task, t2: Task)
    requires FiledById(tasks) && TasksDistinct(tasks) && t1.id !in tasks && t2.id !in tasks && t1.id != t2.id
    requires Named(t1.projectId) && Named(t1.status) && t1.sortPosition == MaxPosition(tasks, t1.projectId, t1.status) + 1
    requires Named(t2.projectId) && Named(t2.status) && t2.sortPosition == MaxPosition(tasks, t2.projectId, t2.status) + 1
    ensures TasksDistinct(tasks[t1.id := t1][t2.id := t2]) <==> !SameColumn(t1, t2)
  {
    var after := tasks[t1.id := t1];
    if SameColumn(t1, t2) {
      var both := after[t2.id := t2];
      assert both[t1.id] == t1 && both[t2.id] == t2;
    } else {
      StoreKeepsDistinct(tasks, t1);
      OtherColumnSame(tasks, t1, t2.projectId, t2.status);
      StoreKeepsDistinct(after, t2);
    }
  }

  // --- what the user sees ---

  function OnlyStatus(listing: seq<Task>, status: string): (r: seq<Task>)
    ensures forall t :: t in r <==> t in listing && t.status == status
  {
    if listing == [] then [] else
      (if listing[0].status == status then [listing[0]] else []) + OnlyStatus(listing[1..], status)
  }

  lemma {:induction false} OnlyStatusKeepsOrder(listing: seq<Task>, status: string)
    requires Sorted(TaskLe, listing) && NoDup(listing)
    ensures Sorted(TaskLe, OnlyStatus(listing, status)) && NoDup(OnlyStatus(listing, status))
  {
    if listing != [] {
      OnlyStatusKeepsOrder(listing[1..], status);
      var rest := OnlyStatus(listing[1..], status);
      forall t | t in rest
        ensures TaskLe(listing[0], t) && listing[0] != t
      {
        var i :| 0 <= i < |listing[1..]| && listing[1..][i] == t;
        assert listing[i + 1] == t;
      }
    }
  }

  /** The order within a column does not depend on how the map was walked or ties were broken:
      any sorted arrangement of exactly the column's tasks is the one shown. */
  lemma ColumnViewUnique(b: Board, project: string, status: string, listing: seq<Task>, view: seq<Task>)
    requires Distinct(b) && IsTaskListing(b.tasks, project, listing)
    requires Sorted(TaskLe, view) && NoDup(view)
    requires forall t :: t in view <==> t in ProjectTasks(b.tasks, project) && t.status == status
    ensures OnlyStatus(listing, status) == view
  {
    var shown := OnlyStatus(listing, status);
    OnlyStatusKeepsOrder(listing, status);
    SameMultisetNoDup(shown, view);
    forall x, y | x in shown && y in shown && TaskLe(x, y) && TaskLe(y, x)
      ensures x == y
    {
      assert x in ProjectTasks(b.tasks, project) && y in ProjectTasks(b.tasks, project);
      assert x.id in b.tasks && y.id in b.tasks && SameColumn(b.tasks[x.id], b.tasks[y.id]);
    }
    SortedUnique(TaskLe, shown, view);
  }

  /** After an accepted reorder every listing of the project shows the column in the order asked for. */
  lemma ReorderShowsRequestedOrder(b: Board, project: string, status: string, ids: seq<string>, now: int, listing: seq<Task>)
    requires Distinct(b) && ReorderAccepted(b.tasks, Trim(Go, project), Trim(Go, status), ids)
    requires IsTaskListing(ReorderTasks(b, project, status, ids, now).tasks, Trim(Go, project), listing)
    ensures var view := OnlyStatus(listing, Trim(Go, status));
      |view| == |ids| && forall i :: 0 <= i < |ids| ==> view[i].id == Trim(Go, ids[i])
  {
    var p, s, xs := Trim(Go, project), Trim(Go, status), TrimAll(Go, ids);
    var b' := ReorderTasks(b, project, status, ids, now);
    ReorderKeepsDistinct(b, project, status, ids, now);
    var view := ArrangedTasks(b.tasks, p, s, xs, now);
    ColumnViewUnique(b', p, s, listing, view);
  }

  /** The column laid out by the renumbering: the moved tasks in the order of xs. */
  lemma ArrangedTasks(tasks: Tasks, p: string, s: string, xs: seq<string>, now: int) returns (view: seq<Task>)
    requires FiledById(tasks) && Lists(xs, ColumnIds(tasks, p, s))
    ensures |view| == |xs| && forall i :: 0 <= i < |xs| ==> view[i].id == xs[i] && view[i].sortPosition == i
    ensures Sorted(TaskLe, view) && NoDup(view)
    ensures forall t :: t in view <==> t in ProjectTasks(Renumbered(tasks, xs, now), p) && t.status == s
  {
    var tasks' := Renumbered(tasks, xs, now);
    forall i | 0 <= i < |xs|
      ensures xs[i] in tasks && InColumn(tasks[xs[i]], p, s) && tasks'[xs[i]] == Moved(tasks[xs[i]], i, now)
    {
      assert xs[i] in xs;
      assert xs[i] in ColumnIds(tasks, p, s);
      IndexUnique(xs, i, xs[i]);
    }
    view := seq(|xs|, i requires 0 <= i < |xs| && xs[i] in tasks' => tasks'[xs[i]]);
    forall t
      ensures t in view <==> t in ProjectTasks(tasks', p) && t.status == s
    {
      if t in view {
        var i :| 0 <= i < |view| && view[i] == t;
        assert t == tasks'[xs[i]];
      }
      if t in ProjectTasks(tasks', p) && t.status == s {
        assert t.id in ColumnIds(tasks, p, s);
        assert view[IndexOf(xs, t.id)] == t;
      }
    }
  }

  // --- reordering columns ---

  lemma ListingDetermined(b: Board, project: string, a: seq<TaskColumn>, c: seq<TaskColumn>)
    requires Distinct(b) && IsColumnListing(b.columns, project, a) && IsColumnListing(b.columns, project, c)
    ensures a == c
  {
    ColumnListingUnique(b.columns, project, a, c);
  }

  /** No column listed has another version than the request expects of it. */
  predicate NoneStale(listing: seq<TaskColumn>, versions: map<string, int>) {
    !exists i :: 0 <= i < |listing| && listing[i].id in versions && versions[listing[i].id] != listing[i].version
  }

  /** After a column reorder the project lists exactly the final order, every version one up;
      a stale version changes nothing and reports the current columns. */
  lemma ReorderColumnsShowsFinalOrder(b: Board, project: string, listing: seq<TaskColumn>, ids: seq<string>,
                                      versions: map<string, int>, now: int, after: seq<TaskColumn>)
    requires Distinct(b) && IsColumnListing(b.columns, project, listing)
    requires IsColumnListing(ReorderColumns(b, listing, ids, versions, now).0.columns, project, after)
    ensures NoneStale(listing, versions) ==> IdsOf(after) == FinalOrder(IdsOf(listing), ids)
    ensures NoneStale(listing, versions) ==> forall c :: c in after ==>
      c.id in b.columns && c == b.columns[c.id].(position := c.position, version := b.columns[c.id].version + 1, updatedAt := now)
    ensures !NoneStale(listing, versions) ==>
      after == listing && ReorderColumns(b, listing, ids, versions, now) == (b, Err(StaleColumns(listing)))
  {
    var b' := ReorderColumns(b, listing, ids, versions, now).0;
    ReorderColumnsKeepsDistinct(b, project, listing, ids, versions, now);
    assert NoneStale(listing, versions) <==> VersionsMatch(listing, versions);
    if listing == [] {
      ListingDetermined(b, project, listing, after);
      NothingRequested(ids);
    } else if VersionsMatch(listing, versions) {
      var order := FinalOrder(IdsOf(listing), ids);
      ListingIds(b.columns, project, listing);
      FinalOrderPermutes(IdsOf(listing), ids);
      var view := ArrangedColumns(b.columns, project, order, now);
      ListingDetermined(b', project, after, view);
    } else {
      ListingDetermined(b, project, listing, after);
    }
  }

  lemma {:induction false} NothingRequested(ids: seq<string>)
    ensures FinalOrder([], ids) == []
  {
    if ids != [] {
      NothingRequested(ids[..|ids| - 1]);
    }
  }

  lemma ArrangedColumns(columns: Columns, project: string, order: seq<string>, now: int) returns (view: seq<TaskColumn>)
    requires ColumnsFiledById(columns) && Lists(order, ProjectColumnIds(columns, project))
    ensures IsColumnListing(ColumnsRenumbered(columns, order, now), project, view) && IdsOf(view) == order
    ensures forall c :: c in view ==> c.id in columns && c == MovedColumn(columns[c.id], c.position, now)
  {
    var columns' := ColumnsRenumbered(columns, order, now);
    forall i | 0 <= i < |order|
      ensures order[i] in columns && columns'[order[i]] == MovedColumn(columns[order[i]], i, now)
    {
      assert order[i] in order;
      IndexUnique(order, i, order[i]);
    }
    view := seq(|order|, i requires 0 <= i < |order| && order[i] in columns' => columns'[order[i]]);
    forall c
      ensures c in view <==> c in ProjectColumns(columns', project)
    {
      if c in view {
        var i :| 0 <= i < |view| && view[i] == c;
        assert order[i] in order;
      }
      if c in ProjectColumns(columns', project) {
        assert c.id in ProjectColumnIds(columns, project);
        assert view[IndexOf(order, c.id)] == c;
      }
    }
  }

  lemma {:induction false} RequestedDependsOnMembers(a: seq<string>, b: seq<string>, ids: seq<string>)
    requires Lists(a, Elements(b))
    ensures Requested(a, ids) == Requested(b, ids)
  {
    if ids != [] {
      RequestedDependsOnMembers(a, b, ids[..|ids| - 1]);
    }
  }

  lemma {:induction false} WithoutConcat(xs: seq<string>, zs: seq<string>, ys: seq<string>)
    ensures Without(xs + zs, ys) == Without(xs, ys) + Without(zs, ys)
  {
    if zs == [] {
      assert xs + zs == xs;
    } else {
      assert (xs + zs)[..|xs + zs| - 1] == xs + zs[..|zs| - 1];
      WithoutConcat(xs, zs[..|zs| - 1], ys);
    }
  }

  lemma {:induction false} WithoutAll(xs: seq<string>, ys: seq<string>)
    ensures (forall x :: x in xs ==> x in ys) ==> Without(xs, ys) == []
    ensures (forall x :: x in xs ==> x !in ys) ==> Without(xs, ys) == xs
  {
    if xs != [] {
      WithoutAll(xs[..|xs| - 1], ys);
      assert xs[|xs| - 1] in xs;
    }
  }

  lemma SecondPass(known: seq<string>, requested: seq<string>)
    ensures var rest := Without(known, requested); Without(requested + rest, requested) == rest
  {
    WithoutFacts(known, requested);
    WithoutConcat(requested, Without(known, requested), requested);
    WithoutAll(requested, requested);
    WithoutAll(Without(known, requested), requested);
  }

  /** Repeating a request does not change the order any further. */
  lemma FinalOrderStable(known: seq<string>, ids: seq<string>)
    requires NoDup(known)
    ensures FinalOrder(FinalOrder(known, ids), ids) == FinalOrder(known, ids)
  {
    var requested, order := Requested(known, ids), FinalOrder(known, ids);
    FinalOrderPermutes(known, ids);
    RequestedDependsOnMembers(order, known, ids);
    SecondPass(known, requested);
  }

  lemma {:induction false} RequestedKeepsDistinctIds(known: seq<string>, ids: seq<string>)
    requires NoDup(TrimAll(Go, ids)) && forall x :: x in TrimAll(Go, ids) ==> x in known && x != ""
    ensures Requested(known, ids) == TrimAll(Go, ids)
  {
    if ids != [] {
      var init, all, last := ids[..|ids| - 1], TrimAll(Go, ids), Trim(Go, ids[|ids| - 1]);
      assert all == TrimAll(Go, init) + [last] && last in all;
      NoDupInit(all);
      assert all[..|all| - 1] == TrimAll(Go, init);
      assert forall x :: x in TrimAll(Go, init) ==> x in all;
      RequestedKeepsDistinctIds(known, init);
    }
  }

  /** A request that names known columns, each once, is honoured as a prefix; when it names all
      of them it is the new order. */
  lemma FullRequestHonoured(known: seq<string>, ids: seq<string>)
    requires NoDup(known) && NoDup(TrimAll(Go, ids))
    requires forall x :: x in TrimAll(Go, ids) ==> x in known && x != ""
    ensures TrimAll(Go, ids) <= FinalOrder(known, ids)
    ensures (forall x :: x in known ==> x in TrimAll(Go, ids)) ==> FinalOrder(known, ids) == TrimAll(Go, ids)
  {
    RequestedKeepsDistinctIds(known, ids);
    WithoutAll(known, TrimAll(Go, ids));
  }
}
