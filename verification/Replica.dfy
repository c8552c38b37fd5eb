/** The browser's copy of a board, kept up to date by events. The viewer is never the actor,
    events arrive in order and none is lost. Columns then always equal the server's listing;
    tasks agree on every field that is always serialised. */
module Replica {
  import opened Text
  import opened Sorting
  import opened TaskModel
  import opened TaskStore
  import opened TaskService
  import opened Positions

  datatype Event =
    | TaskCreated(task: Task)
    | TaskUpdated(task: Task)
    | TaskDeleted(team: string, project: string, taskId: string)
    | TasksReordered(team: string, project: string, tasks: seq<Task>)
    | ColumnCreated(column: TaskColumn)
    | ColumnChanged(column: TaskColumn)
    | ColumnDeleted(team: string, project: string, columnId: string)
    | ColumnsReordered(team: string, project: string, columns: seq<TaskColumn>)

  function Room(e: Event): (string, string) {
    match e
    case TaskCreated(t) => (t.teamId, t.projectId)
    case TaskUpdated(t) => (t.teamId, t.projectId)
    case TaskDeleted(team, project, _) => (team, project)
    case TasksReordered(team, project, _) => (team, project)
    case ColumnCreated(c) => (c.teamId, c.projectId)
    case ColumnChanged(c) => (c.teamId, c.projectId)
    case ColumnDeleted(team, project, _) => (team, project)
    case ColumnsReordered(team, project, _) => (team, project)
  }

  // --- the server's events ---

  /** The tasks of an accepted reorder, in the requested order. */
  ghost function ReorderedTasks(tasks: Tasks, ids: seq<string>): seq<Task> {
    if ids == [] then [] else
      ReorderedTasks(tasks, ids[..|ids| - 1]) +
        if Trim(Go, ids[|ids| - 1]) in tasks then [tasks[Trim(Go, ids[|ids| - 1])]] else []
  }

  /** The event a successful call publishes, None when it publishes nothing. */
  ghost function Emitted(env: Env, b: Board, call: Call): Option<Event> {
    match call
    case CallCreate(input, id, now) =>
      var r := CreateTask(env, b, input, id, now).1;
      if r.Ok? then Some(TaskCreated(r.value)) else None
    case CallUpdate(id, input, now) =>
      var r := UpdateTask(env, b, id, input, now).1;
      if r.Ok? then Some(TaskUpdated(r.value)) else None
    case CallDelete(rawId) =>
      var id := Trim(Go, rawId);
      if id in b.tasks then Some(TaskDeleted(b.tasks[id].teamId, b.tasks[id].projectId, b.tasks[id].id)) else None
    case CallReorder(project, status, ids, now) =>
      var moved := ReorderedTasks(After(env, b, call).tasks, ids);
      if ReorderAccepted(b.tasks, Trim(Go, project), Trim(Go, status), ids) && moved != []
      then Some(TasksReordered(Trim(Go, moved[0].teamId), Trim(Go, project), moved)) else None
    case CallCreateColumn(team, project, title, id, now) =>
      var r := CreateColumn(b, team, project, title, id, now).1;
      if r.Ok? then Some(ColumnCreated(r.value)) else None
    case CallUpdateColumn(id, input, now) =>
      var r := UpdateColumn(b, id, input, now).1;
      if r.Ok? then Some(ColumnChanged(r.value)) else None
    case CallDeleteColumn(rawId) =>
      var id := Trim(Go, rawId);
      if DeleteColumn(b, rawId).1.Ok? then Some(ColumnDeleted(b.columns[id].teamId, b.columns[id].projectId, b.columns[id].id)) else None
    case CallReorderColumns(rawProject, ids, versions, now) =>
      var project := Trim(Go, rawProject);
      if project == "" then None else
        var listing := Listing(b.columns, project);
        var after := Listing(After(env, b, call).columns, project);
        if listing != [] && VersionsMatch(listing, versions) && after != []
        then Some(ColumnsReordered(after[0].teamId, project, after)) else None
  }

  // --- the client's reducers ---

  /** The fields every serialised task carries; the others are dropped from JSON when empty. */
  function Core(t: Task): Task {
    t.(description := "", dueAt := None, completedAt := None, completedBy := "", assignees := [], tags := [],
       assigneeUserId := "", assigneeName := "", teamId := "", projectId := "")
  }

  /** The object spread of prior, then recent: recent wins wherever it was serialised. */
  function Spread(prior: Task, recent: Task): Task {
    recent.(
      description := if recent.description == "" then prior.description else recent.description,
      dueAt := if recent.dueAt.None? then prior.dueAt else recent.dueAt,
      completedAt := if recent.completedAt.None? then prior.completedAt else recent.completedAt,
      completedBy := if recent.completedBy == "" then prior.completedBy else recent.completedBy,
      assignees := if recent.assignees == [] then prior.assignees else recent.assignees,
      tags := if recent.tags == [] then prior.tags else recent.tags,
      assigneeUserId := if recent.assigneeUserId == "" then prior.assigneeUserId else recent.assigneeUserId,
      assigneeName := if recent.assigneeName == "" then prior.assigneeName else recent.assigneeName,
      teamId := if recent.teamId == "" then prior.teamId else recent.teamId,
      projectId := if recent.projectId == "" then prior.projectId else recent.projectId)
  }

  function TaskIds(tasks: seq<Task>): (r: seq<string>)
    ensures |r| == |tasks| && forall i :: 0 <= i < |r| ==> r[i] == tasks[i].id
  {
    seq(|tasks|, i requires 0 <= i < |tasks| => tasks[i].id)
  }

  function Refresh(tasks: seq<Task>, t: Task): seq<Task> {
    if t.id in TaskIds(tasks)
    then var i := IndexOf(TaskIds(tasks), t.id); tasks[i := Spread(tasks[i], t)]
    else tasks
  }

  function Upsert(tasks: seq<Task>, t: Task): seq<Task> {
    if t.id in TaskIds(tasks) then Refresh(tasks, t) else tasks + [t]
  }

  function RefreshAll(tasks: seq<Task>, recent: seq<Task>): seq<Task>
    decreases |recent|
  {
    if recent == [] then tasks else RefreshAll(Refresh(tasks, recent[0]), recent[1..])
  }

  function DropTask(tasks: seq<Task>, id: string): seq<Task> {
    if tasks == [] then [] else (if tasks[0].id == id then [] else [tasks[0]]) + DropTask(tasks[1..], id)
  }

  function ApplyToTasks(tasks: seq<Task>, e: Event): seq<Task> {
    match e
    case TaskCreated(t) => if t.id == "" then tasks else Upsert(tasks, t)
    case TaskUpdated(t) => if t.id == "" then tasks else Upsert(tasks, t)
    case TaskDeleted(_, _, id) => if id == "" then tasks else DropTask(tasks, id)
    case TasksReordered(_, _, moved) => RefreshAll(tasks, moved)
    case _ => tasks
  }

  predicate PositionLe(a: TaskColumn, b: TaskColumn) {
    a.position <= b.position
  }

  function UpsertColumn(columns: seq<TaskColumn>, c: TaskColumn): seq<TaskColumn> {
    var next := if c.id in IdsOf(columns) then columns[IndexOf(IdsOf(columns), c.id) := c] else columns + [c];
    Sort(PositionLe, next)
  }

  function DropColumn(columns: seq<TaskColumn>, id: string): seq<TaskColumn> {
    if columns == [] then [] else (if columns[0].id == id then [] else [columns[0]]) + DropColumn(columns[1..], id)
  }

  function ApplyToColumns(columns: seq<TaskColumn>, e: Event): seq<TaskColumn> {
    match e
    case ColumnCreated(c) => if c.id == "" then columns else UpsertColumn(columns, c)
    case ColumnChanged(c) => if c.id == "" then columns else UpsertColumn(columns, c)
    case ColumnDeleted(_, _, id) => if id == "" then columns else DropColumn(columns, id)
    case ColumnsReordered(_, _, all) => all
    case _ => columns
  }

  datatype View = View(tasks: seq<Task>, columns: seq<TaskColumn>)

  /** The viewer of one room after an event, if it is for that room. */
  function Receive(v: View, team: string, project: string, e: Option<Event>): View {
    if e.Some? && Room(e.value) == (team, project)
    then View(ApplyToTasks(v.tasks, e.value), ApplyToColumns(v.columns, e.value)) else v
  }

  // --- agreement ---

  ghost function ProjectTaskIds(tasks: Tasks, project: string): set<string> {
    set id | id in tasks && tasks[id].projectId == project
  }

  ghost predicate TasksAgree(tasks: Tasks, project: string, view: seq<Task>) {
    && Lists(TaskIds(view), ProjectTaskIds(tasks, project))
    && forall i :: 0 <= i < |view| ==> view[i].id in tasks && Core(view[i]) == Core(tasks[view[i].id])
  }

  ghost predicate Synced(b: Board, project: string, v: View) {
    TasksAgree(b.tasks, project, v.tasks) && v.columns == Listing(b.columns, project)
  }

  /** The project belongs to one team, and every record has an id. */
  ghost predicate OneTeam(b: Board, team: string, project: string) {
    && (forall id :: id in b.tasks ==> id != "" && (b.tasks[id].projectId == project ==> b.tasks[id].teamId == team))
    && (forall id :: id in b.columns ==> id != "" && (b.columns[id].projectId == project ==> b.columns[id].teamId == team))
  }

  /** New ids are fresh and not blank; the project is only used with its team. */
  ghost predicate Orderly(b: Board, team: string, project: string, call: Call) {
    match call
    case CallCreate(input, id, _) =>
      id != "" && id !in b.tasks && (Trim(Go, input.projectId) == project ==> Trim(Go, input.teamId) == team)
    case CallCreateColumn(t, p, _, id, _) =>
      id != "" && id !in b.columns && (Trim(Go, p) == project ==> Trim(Go, t) == team)
    case _ => true
  }

  lemma SpreadCore(prior: Task, recent: Task)
    ensures Core(Spread(prior, recent)) == Core(recent) && Spread(prior, recent).id == recent.id
  {
  }

  lemma RefreshIds(view: seq<Task>, t: Task)
    ensures TaskIds(Refresh(view, t)) == TaskIds(view)
  {
  }

  /** The stored tasks change to tasks' by writing t; the view follows by an upsert. */
  lemma UpsertFollows(tasks: Tasks, project: string, view: seq<Task>, t: Task)
    requires TasksAgree(tasks, project, view) && t.projectId == project
    requires t.id in tasks ==> tasks[t.id].projectId == project
    ensures TasksAgree(tasks[t.id := t], project, Upsert(view, t))
  {
    var tasks', view' := tasks[t.id := t], Upsert(view, t);
    var ids, ids' := TaskIds(view), TaskIds(view');
    assert t.id in ids <==> t.id in ProjectTaskIds(tasks, project);
    if t.id in ids {
      RefreshIds(view, t);
      var i := IndexOf(ids, t.id);
      SpreadCore(view[i], t);
      assert ProjectTaskIds(tasks', project) == ProjectTaskIds(tasks, project);
      forall j | 0 <= j < |view'|
        ensures view'[j].id in tasks' && Core(view'[j]) == Core(tasks'[view'[j].id])
      {
        assert j != i ==> ids[j] != ids[i];
      }
    } else {
      assert ids' == ids + [t.id];
      assert ProjectTaskIds(tasks', project) == ProjectTaskIds(tasks, project) + {t.id};
      forall j | 0 <= j < |view|
        ensures view[j].id != t.id
      {
        assert ids[j] in ids;
      }
    }
  }

  lemma {:induction false} DropTaskFacts(view: seq<Task>, id: string)
    ensures forall t :: t in DropTask(view, id) <==> t in view && t.id != id
    ensures NoDup(TaskIds(view)) ==> NoDup(TaskIds(DropTask(view, id)))
  {
    if view != [] {
      DropTaskFacts(view[1..], id);
      var rest := DropTask(view[1..], id);
      if NoDup(TaskIds(view)) {
        assert TaskIds(view)[1..] == TaskIds(view[1..]);
        forall j | 0 <= j < |rest|
          ensures rest[j].id != view[0].id
        {
          assert rest[j] in view[1..];
          var k :| 0 <= k < |view[1..]| && view[1..][k] == rest[j];
          assert TaskIds(view)[k + 1] == rest[j].id && TaskIds(view)[0] == view[0].id;
        }
      }
    }
  }

  lemma DropFollows(tasks: Tasks, project: string, view: seq<Task>, id: string)
    requires TasksAgree(tasks, project, view)
    ensures TasksAgree(tasks - {id}, project, DropTask(view, id))
  {
    var view' := DropTask(view, id);
    DropTaskFacts(view, id);
    forall x
      ensures x in TaskIds(view') <==> x in ProjectTaskIds(tasks - {id}, project)
    {
      InIds(view, x);
      InIds(view', x);
      assert x in TaskIds(view) <==> x in ProjectTaskIds(tasks, project);
    }
    forall i | 0 <= i < |view'|
      ensures view'[i].id in tasks - {id} && Core(view'[i]) == Core((tasks - {id})[view'[i].id])
    {
      assert view'[i] in view;
    }
  }

  lemma InIds(view: seq<Task>, x: string)
    ensures x in TaskIds(view) <==> exists t :: t in view && t.id == x
  {
    if x in TaskIds(view) {
      var i :| 0 <= i < |view| && TaskIds(view)[i] == x;
      assert view[i] in view;
    }
    if t :| t in view && t.id == x {
      var i :| 0 <= i < |view| && view[i] == t;
      assert TaskIds(view)[i] == x;
    }
  }

  ghost predicate AgreesOr(tasks: Tasks, t: Task, pending: seq<Task>) {
    t.id in tasks && (Core(t) == Core(tasks[t.id]) || t.id in TaskIds(pending))
  }

  /** Entries still to come may disagree; everything else already agrees. */
  ghost predicate AgreeExcept(tasks: Tasks, view: seq<Task>, pending: seq<Task>) {
    forall i :: 0 <= i < |view| ==> AgreesOr(tasks, view[i], pending)
  }

  lemma {:induction false} RefreshAllFollows(tasks: Tasks, view: seq<Task>, recent: seq<Task>)
    requires NoDup(TaskIds(view)) && AgreeExcept(tasks, view, recent)
    requires forall t :: t in recent ==> t.id in tasks && tasks[t.id] == t
    ensures TaskIds(RefreshAll(view, recent)) == TaskIds(view)
    ensures AgreeExcept(tasks, RefreshAll(view, recent), [])
    decreases |recent|
  {
    if recent != [] {
      var t, view' := recent[0], Refresh(view, recent[0]);
      RefreshIds(view, t);
      forall i | 0 <= i < |view'|
        ensures Core(view'[i]) == Core(tasks[view'[i].id]) || view'[i].id in TaskIds(recent[1..])
      {
        assert TaskIds(view')[i] == TaskIds(view)[i];
        if view[i].id == t.id {
          assert t.id in TaskIds(view);
          var k := IndexOf(TaskIds(view), t.id);
          assert TaskIds(view)[k] == TaskIds(view)[i];
          SpreadCore(view[i], t);
        } else if view[i].id in TaskIds(recent) {
          var k :| 0 <= k < |recent| && TaskIds(recent)[k] == view[i].id;
          assert TaskIds(recent[1..])[k - 1] == view[i].id;
        }
      }
      RefreshAllFollows(tasks, view', recent[1..]);
    }
  }

  lemma TaskIdsSnoc(view: seq<Task>, t: Task)
    ensures TaskIds(view + [t]) == TaskIds(view) + [t.id]
  {
  }

  lemma {:induction false} ReorderedTasksFacts(tasks: Tasks, ids: seq<string>)
    requires FiledById(tasks)
    requires forall x :: x in TrimAll(Go, ids) ==> x in tasks
    ensures forall t :: t in ReorderedTasks(tasks, ids) ==> t.id in tasks && tasks[t.id] == t && t.id in TrimAll(Go, ids)
    ensures TaskIds(ReorderedTasks(tasks, ids)) == TrimAll(Go, ids)
  {
    if ids != [] {
      var init, last := ids[..|ids| - 1], Trim(Go, ids[|ids| - 1]);
      assert TrimAll(Go, ids) == TrimAll(Go, init) + [last] && last in TrimAll(Go, ids);
      ReorderedTasksFacts(tasks, init);
      TaskIdsSnoc(ReorderedTasks(tasks, init), tasks[last]);
    }
  }

  // --- columns ---

  lemma {:induction false} DropColumnFacts(columns: seq<TaskColumn>, id: string)
    ensures forall c :: c in DropColumn(columns, id) <==> c in columns && c.id != id
    ensures NoDup(columns) ==> NoDup(DropColumn(columns, id))
    ensures Sorted(ColumnLe, columns) ==> Sorted(ColumnLe, DropColumn(columns, id))
  {
    if columns != [] {
      DropColumnFacts(columns[1..], id);
      var rest := DropColumn(columns[1..], id);
      forall j | 0 <= j < |rest|
        ensures NoDup(columns) ==> rest[j] != columns[0]
        ensures Sorted(ColumnLe, columns) ==> ColumnLe(columns[0], rest[j])
      {
        assert rest[j] in columns[1..];
        var k :| 0 <= k < |columns[1..]| && columns[1..][k] == rest[j];
        assert columns[k + 1] == rest[j];
      }
    }
  }

  lemma InProject(columns: Columns, project: string, c: TaskColumn)
    requires ColumnsFiledById(columns)
    ensures c in ProjectColumns(columns, project) <==> c.id in columns && columns[c.id] == c && c.projectId == project
  {
  }

  /** Any arrangement of the project's columns sorted by position alone is the listing. */
  lemma SortedByPositionIsListing(b: Board, project: string, columns: seq<TaskColumn>)
    requires Distinct(b) && Sorted(PositionLe, columns) && Lists(columns, ProjectColumns(b.columns, project))
    ensures columns == Listing(b.columns, project)
  {
    var l := Listing(b.columns, project);
    assert Sorted(PositionLe, l);
    SameMultisetNoDup(columns, l);
    forall x, y | x in columns && y in columns && PositionLe(x, y) && PositionLe(y, x)
      ensures x == y
    {
      assert x in ProjectColumns(b.columns, project) && y in ProjectColumns(b.columns, project);
      assert x.id in b.columns && y.id in b.columns;
    }
    SortedUnique(PositionLe, columns, l);
  }

  lemma SortedListing(b: Board, project: string, columns: seq<TaskColumn>)
    requires Distinct(b) && Lists(columns, ProjectColumns(b.columns, project))
    ensures Sort(PositionLe, columns) == Listing(b.columns, project)
  {
    SortSorts(PositionLe, columns);
    SameElements(columns, Sort(PositionLe, columns));
    SortedByPositionIsListing(b, project, Sort(PositionLe, columns));
  }

  /** Writing column c to the board; the view follows by an upsert and a sort by position. */
  lemma UpsertColumnFollows(b: Board, b': Board, project: string, c: TaskColumn)
    requires Distinct(b) && Distinct(b') && c.projectId == project && b'.columns == b.columns[c.id := c]
    requires c.id in b.columns ==> b.columns[c.id].projectId == project
    ensures UpsertColumn(Listing(b.columns, project), c) == Listing(b'.columns, project)
  {
    var l := Listing(b.columns, project);
    ListingIds(b.columns, project, l);
    var ids := IdsOf(l);
    assert c.id in ids <==> c.id in ProjectColumnIds(b.columns, project);
    var next := if c.id in ids then l[IndexOf(ids, c.id) := c] else l + [c];
    forall i | 0 <= i < |l| && !(c.id in ids && i == IndexOf(ids, c.id))
      ensures next[i] == l[i] && l[i].id != c.id
    {
      assert ids[i] in ids;
    }
    forall x
      ensures x in next <==> x in ProjectColumns(b'.columns, project)
    {
      InProject(b.columns, project, x);
      InProject(b'.columns, project, x);
      assert x in l <==> x in ProjectColumns(b.columns, project);
      if x in l && x.id != c.id {
        var i :| 0 <= i < |l| && l[i] == x;
        assert next[i] == x;
      }
      if x == c {
        assert next[if c.id in ids then IndexOf(ids, c.id) else |l|] == c;
      }
    }
    SortedListing(b', project, next);
  }

  lemma DropColumnFollows(b: Board, b': Board, project: string, id: string)
    requires Distinct(b) && Distinct(b') && b'.columns == b.columns - {id}
    ensures DropColumn(Listing(b.columns, project), id) == Listing(b'.columns, project)
  {
    var l := Listing(b.columns, project);
    DropColumnFacts(l, id);
    forall x
      ensures x in DropColumn(l, id) <==> x in ProjectColumns(b'.columns, project)
    {
      InProject(b.columns, project, x);
      InProject(b'.columns, project, x);
      assert x in l <==> x in ProjectColumns(b.columns, project);
    }
    ListingDetermined(b', project, DropColumn(l, id), Listing(b'.columns, project));
  }

  lemma UnaffectedListing(b: Board, b': Board, project: string)
    requires Distinct(b') && ProjectColumns(b.columns, project) == ProjectColumns(b'.columns, project)
    ensures Listing(b.columns, project) == Listing(b'.columns, project)
  {
    ListingDetermined(b', project, Listing(b.columns, project), Listing(b'.columns, project));
  }

  lemma UnaffectedTasks(tasks: Tasks, tasks': Tasks, project: string, view: seq<Task>)
    requires TasksAgree(tasks, project, view)
    requires ProjectTaskIds(tasks, project) == ProjectTaskIds(tasks', project)
    requires forall id :: id in ProjectTaskIds(tasks, project) ==> tasks'[id] == tasks[id]
    ensures TasksAgree(tasks', project, view)
  {
    forall i | 0 <= i < |view|
      ensures view[i].id in tasks' && Core(view[i]) == Core(tasks'[view[i].id])
    {
      assert TaskIds(view)[i] in TaskIds(view);
    }
  }

  // --- one call, then a whole run ---

  /** A task was written and its event published. */
  lemma PutFollows(b: Board, b': Board, team: string, project: string, e: Event, v: View)
    requires e.TaskCreated? || e.TaskUpdated?
    requires var t := e.task;
      && t.id != "" && b'.tasks == b.tasks[t.id := t]
      && (t.projectId == project ==> t.teamId == team)
      && (t.id in b.tasks ==> b.tasks[t.id].projectId == t.projectId)
    requires TasksAgree(b.tasks, project, v.tasks)
    ensures TasksAgree(b'.tasks, project, Receive(v, team, project, Some(e)).tasks)
  {
    var t := e.task;
    if t.projectId == project {
      UpsertFollows(b.tasks, project, v.tasks, t);
    } else {
      UnaffectedTasks(b.tasks, b'.tasks, project, v.tasks);
    }
  }

  lemma PutStep(b: Board, b': Board, team: string, project: string, t: Task, e: Event, v: View)
    requires (e.TaskCreated? || e.TaskUpdated?) && e.task == t
    requires t.id != "" && b' == b.(tasks := b.tasks[t.id := t])
    requires t.projectId == project ==> t.teamId == team
    requires t.id in b.tasks ==> b.tasks[t.id].projectId == t.projectId
    requires OneTeam(b, team, project) && Synced(b, project, v)
    ensures OneTeam(b', team, project) && Synced(b', project, Receive(v, team, project, Some(e)))
  {
    PutFollows(b, b', team, project, e, v);
  }

  lemma CreateFacts(env: Env, b: Board, input: CreateTaskInput, id: string, now: int)
    ensures var (b', r) := CreateTask(env, b, input, id, now); r.Ok? ==>
      && r.value.id == id && b' == b.(tasks := b.tasks[id := r.value])
      && r.value.projectId == Trim(Go, input.projectId) && r.value.teamId == Trim(Go, input.teamId)
  {
  }

  lemma CreateFollows(env: Env, b: Board, team: string, project: string, call: Call, v: View)
    requires OneTeam(b, team, project) && Orderly(b, team, project, call) && call.CallCreate?
    requires Synced(b, project, v)
    ensures OneTeam(After(env, b, call), team, project)
    ensures Synced(After(env, b, call), project, Receive(v, team, project, Emitted(env, b, call)))
  {
    var r := CreateTask(env, b, call.create, call.id, call.now);
    if r.1.Ok? {
      CreateFacts(env, b, call.create, call.id, call.now);
      PutStep(b, r.0, team, project, r.1.value, TaskCreated(r.1.value), v);
    }
  }

  lemma UpdateFollows(env: Env, b: Board, team: string, project: string, call: Call, v: View)
    requires FiledById(b.tasks) && OneTeam(b, team, project) && call.CallUpdate?
    requires Synced(b, project, v)
    ensures OneTeam(After(env, b, call), team, project)
    ensures Synced(After(env, b, call), project, Receive(v, team, project, Emitted(env, b, call)))
  {
    var r := UpdateTask(env, b, call.id, call.update, call.now);
    UpdateReplacesOne(env, b, call.id, call.update, call.now);
    if r.1.Ok? {
      var task, t := b.tasks[Trim(Go, call.id)], r.1.value;
      var maxPos := MaxPosition(b.tasks, task.projectId, NewStatus(env, task, call.update));
      PatchTouchesOnlyInput(env, task, call.update, maxPos, call.now);
      assert t.projectId == task.projectId && t.teamId == task.teamId;
      PutStep(b, r.0, team, project, t, TaskUpdated(t), v);
    }
  }

  lemma DeleteFollows(env: Env, b: Board, team: string, project: string, call: Call, v: View)
    requires FiledById(b.tasks) && OneTeam(b, team, project) && call.CallDelete?
    requires Synced(b, project, v)
    ensures OneTeam(After(env, b, call), team, project)
    ensures Synced(After(env, b, call), project, Receive(v, team, project, Emitted(env, b, call)))
  {
    var id := Trim(Go, call.id);
    if id in b.tasks {
      if b.tasks[id].projectId == project {
        DropFollows(b.tasks, project, v.tasks, id);
      } else {
        UnaffectedTasks(b.tasks, b.tasks - {id}, project, v.tasks);
      }
    }
  }

  /** The tasks of one column were renumbered and sent; the view refreshes those it knows. */
  lemma RenumberFollows(tasks: Tasks, tasks': Tasks, project: string, view: seq<Task>, moved: seq<Task>)
    requires TasksAgree(tasks, project, view)
    requires tasks'.Keys == tasks.Keys && forall id :: id in tasks ==> tasks'[id].projectId == tasks[id].projectId
    requires forall id :: id in tasks && id !in TaskIds(moved) ==> tasks'[id] == tasks[id]
    requires forall t :: t in moved ==> t.id in tasks' && tasks'[t.id] == t
    ensures TasksAgree(tasks', project, RefreshAll(view, moved))
  {
    forall i | 0 <= i < |view|
      ensures AgreesOr(tasks', view[i], moved)
    {
    }
    RefreshAllFollows(tasks', view, moved);
    var view' := RefreshAll(view, moved);
    assert ProjectTaskIds(tasks', project) == ProjectTaskIds(tasks, project);
    forall i | 0 <= i < |view'|
      ensures view'[i].id in tasks' && Core(view'[i]) == Core(tasks'[view'[i].id])
    {
      assert AgreesOr(tasks', view'[i], []);
    }
  }

  lemma ReorderFollows(env: Env, b: Board, team: string, project: string, call: Call, v: View)
    requires FiledById(b.tasks) && Named(team) && OneTeam(b, team, project) && call.CallReorder?
    requires Synced(b, project, v)
    ensures OneTeam(After(env, b, call), team, project)
    ensures Synced(After(env, b, call), project, Receive(v, team, project, Emitted(env, b, call)))
  {
    var p, s := Trim(Go, call.project), Trim(Go, call.status);
    var tasks' := ReorderTasks(b, call.project, call.status, call.ids, call.now).tasks;
    if ReorderAccepted(b.tasks, p, s, call.ids) {
      var moved := MovedTasks(b.tasks, tasks', p, s, call.ids, call.now);
      var e := TasksReordered(Trim(Go, moved[0].teamId), p, moved);
      assert Emitted(env, b, call) == Some(e);
      SentTasksFollow(b.tasks, tasks', team, project, p, s, v, moved);
    }
  }

  lemma SentTasksFollow(tasks: Tasks, tasks': Tasks, team: string, project: string, p: string, s: string, v: View, moved: seq<Task>)
    requires Named(team) && TasksAgree(tasks, project, v.tasks)
    requires tasks'.Keys == tasks.Keys
    requires forall id :: id in tasks ==> tasks'[id].projectId == tasks[id].projectId
    requires forall id :: id in tasks && id !in TaskIds(moved) ==> tasks'[id] == tasks[id]
    requires forall t :: t in moved ==> t.id in tasks' && tasks'[t.id] == t
    requires moved != [] && (p == project ==> moved[0].teamId == team)
    requires forall id :: id in tasks && !InColumn(tasks[id], p, s) ==> tasks'[id] == tasks[id]
    ensures var e := TasksReordered(Trim(Go, moved[0].teamId), p, moved);
      TasksAgree(tasks', project, Receive(v, team, project, Some(e)).tasks)
  {
    if p == project {
      RenumberFollows(tasks, tasks', project, v.tasks, moved);
    } else {
      UnaffectedTasks(tasks, tasks', project, v.tasks);
    }
  }

  /** What an accepted reorder sends: the moved records, all of the column's. */
  lemma MovedTasks(tasks: Tasks, tasks': Tasks, p: string, s: string, ids: seq<string>, now: int) returns (moved: seq<Task>)
    requires FiledById(tasks) && ReorderAccepted(tasks, p, s, ids) && p == Trim(Go, p) && s == Trim(Go, s)
    requires tasks' == Renumbered(tasks, TrimAll(Go, ids), now)
    ensures moved == ReorderedTasks(tasks', ids) && moved != []
    ensures forall id :: id in tasks && id !in TaskIds(moved) ==> tasks'[id] == tasks[id]
    ensures forall t :: t in moved ==> t.id in tasks' && tasks'[t.id] == t
    ensures moved[0].id in tasks && InColumn(tasks[moved[0].id], p, s) && moved[0].teamId == tasks[moved[0].id].teamId
    ensures forall id :: id in tasks && !InColumn(tasks[id], p, s) ==> tasks'[id] == tasks[id]
    ensures forall id :: id in tasks ==> tasks'[id].projectId == tasks[id].projectId && tasks'[id].teamId == tasks[id].teamId
  {
    var xs := TrimAll(Go, ids);
    RenumberedFacts(tasks, p, s, xs, now);
    ReorderedTasksFacts(tasks', ids);
    moved := ReorderedTasks(tasks', ids);
    assert |TaskIds(moved)| == |ids|;
    assert moved[0] in moved && moved[0].id in xs;
  }

  lemma RenumberedFacts(tasks: Tasks, p: string, s: string, xs: seq<string>, now: int)
    requires FiledById(tasks) && Lists(xs, ColumnIds(tasks, p, s))
    ensures var tasks' := Renumbered(tasks, xs, now);
      && FiledById(tasks') && tasks'.Keys == tasks.Keys
      && (forall x :: x in xs ==> x in tasks && InColumn(tasks[x], p, s))
      && (forall id :: id in tasks && id !in xs ==> tasks'[id] == tasks[id])
      && (forall id :: id in tasks && !InColumn(tasks[id], p, s) ==> tasks'[id] == tasks[id])
      && (forall id :: id in tasks ==> tasks'[id].projectId == tasks[id].projectId && tasks'[id].teamId == tasks[id].teamId)
  {
    forall x | x in xs
      ensures x in tasks && InColumn(tasks[x], p, s)
    {
      assert x in ColumnIds(tasks, p, s);
    }
  }

  /** A column was written and its event published. */
  lemma PutColumnFollows(b: Board, b': Board, team: string, project: string, e: Event, v: View)
    requires Distinct(b) && Distinct(b') && (e.ColumnCreated? || e.ColumnChanged?)
    requires var c := e.column;
      && c.id != "" && b'.columns == b.columns[c.id := c]
      && (c.projectId == project ==> c.teamId == team)
      && (c.id in b.columns ==> b.columns[c.id].projectId == c.projectId)
    requires v.columns == Listing(b.columns, project)
    ensures Receive(v, team, project, Some(e)).columns == Listing(b'.columns, project)
  {
    var c := e.column;
    if c.projectId == project {
      UpsertColumnFollows(b, b', project, c);
    } else {
      ElsewhereSame(b.columns, c);
      SameProjectColumns(b, b', project, c.id);
    }
  }

  lemma ElsewhereSame(columns: Columns, c: TaskColumn)
    ensures columns[c.id := c] - {c.id} == columns - {c.id}
  {
  }

  lemma PutColumnStep(b: Board, b': Board, team: string, project: string, c: TaskColumn, e: Event, v: View)
    requires Distinct(b) && Distinct(b') && (e.ColumnCreated? || e.ColumnChanged?) && e.column == c
    requires c.id != "" && b' == b.(columns := b.columns[c.id := c])
    requires c.projectId == project ==> c.teamId == team
    requires c.id in b.columns ==> b.columns[c.id].projectId == c.projectId
    requires OneTeam(b, team, project) && Synced(b, project, v)
    ensures OneTeam(b', team, project) && Synced(b', project, Receive(v, team, project, Some(e)))
  {
    PutColumnFollows(b, b', team, project, e, v);
  }

  lemma CreateColumnFacts(b: Board, team: string, project: string, title: string, id: string, now: int)
    requires CreateColumn(b, team, project, title, id, now).1.Ok?
    ensures var (b', r) := CreateColumn(b, team, project, title, id, now);
      && r.value.id == id && b' == b.(columns := b.columns[id := r.value])
      && r.value.projectId == Trim(Go, project) && r.value.teamId == Trim(Go, team)
  {
  }

  lemma CreateColumnFollows(env: Env, b: Board, team: string, project: string, call: Call, v: View)
    requires Distinct(b) && OneTeam(b, team, project) && Orderly(b, team, project, call) && call.CallCreateColumn?
    requires Synced(b, project, v)
    ensures OneTeam(After(env, b, call), team, project)
    ensures Synced(After(env, b, call), project, Receive(v, team, project, Emitted(env, b, call)))
  {
    var r := CreateColumn(b, call.team, call.project, call.title, call.id, call.now);
    CallKeepsDistinct(env, b, call);
    if r.1.Ok? {
      CreateColumnFacts(b, call.team, call.project, call.title, call.id, call.now);
      PutColumnStep(b, r.0, team, project, r.1.value, ColumnCreated(r.1.value), v);
    }
  }

  lemma UpdateColumnFollows(env: Env, b: Board, team: string, project: string, call: Call, v: View)
    requires Distinct(b) && OneTeam(b, team, project) && call.CallUpdateColumn?
    requires Synced(b, project, v)
    ensures OneTeam(After(env, b, call), team, project)
    ensures Synced(After(env, b, call), project, Receive(v, team, project, Emitted(env, b, call)))
  {
    var r := UpdateColumn(b, call.id, call.edit, call.now);
    CallKeepsDistinct(env, b, call);
    if r.1.Ok? {
      PutColumnStep(b, r.0, team, project, r.1.value, ColumnChanged(r.1.value), v);
    }
  }

  lemma DeleteColumnFollows(env: Env, b: Board, team: string, project: string, call: Call, v: View)
    requires Distinct(b) && OneTeam(b, team, project) && call.CallDeleteColumn?
    requires Synced(b, project, v)
    ensures OneTeam(After(env, b, call), team, project)
    ensures Synced(After(env, b, call), project, Receive(v, team, project, Emitted(env, b, call)))
  {
    var id, r := Trim(Go, call.id), DeleteColumn(b, call.id);
    CallKeepsDistinct(env, b, call);
    if r.1.Ok? {
      if b.columns[id].projectId == project {
        DropColumnFollows(b, r.0, project, id);
      } else {
        SameProjectColumns(b, r.0, project, id);
      }
    }
  }

  lemma SameProjectColumns(b: Board, b': Board, project: string, id: string)
    requires Distinct(b) && Distinct(b')
    requires b'.columns - {id} == b.columns - {id}
    requires id in b.columns ==> b.columns[id].projectId != project
    requires id in b'.columns ==> b'.columns[id].projectId != project
    ensures Listing(b.columns, project) == Listing(b'.columns, project)
  {
    forall x
      ensures x in ProjectColumns(b.columns, project) <==> x in ProjectColumns(b'.columns, project)
    {
      InProject(b.columns, project, x);
      InProject(b'.columns, project, x);
      assert x.id != id ==> (x.id in b.columns <==> x.id in b.columns - {id});
      assert x.id != id ==> (x.id in b'.columns <==> x.id in b'.columns - {id});
      assert x.id != id && x.id in b.columns ==> (b.columns - {id})[x.id] == b.columns[x.id];
      assert x.id != id && x.id in b'.columns ==> (b'.columns - {id})[x.id] == b'.columns[x.id];
    }
    UnaffectedListing(b, b', project);
  }

  /** An accepted reorder of columns sends the new listing, which the view takes over. */
  lemma SentColumnsFollow(b: Board, b': Board, team: string, project: string, p: string, after: seq<TaskColumn>, v: View)
    requires Distinct(b') && OneTeam(b', team, project) && b'.tasks == b.tasks
    requires after == Listing(b'.columns, p) && after != [] && after[0] in ProjectColumns(b'.columns, p)
    requires p != project ==> Listing(b.columns, project) == Listing(b'.columns, project)
    requires Synced(b, project, v)
    ensures Synced(b', project, Receive(v, team, project, Some(ColumnsReordered(after[0].teamId, p, after))))
  {
    InProject(b'.columns, p, after[0]);
  }

  lemma ReorderColumnsFollows(env: Env, b: Board, team: string, project: string, call: Call, v: View)
    requires Distinct(b) && OneTeam(b, team, project) && call.CallReorderColumns?
    requires Synced(b, project, v)
    ensures OneTeam(After(env, b, call), team, project)
    ensures Synced(After(env, b, call), project, Receive(v, team, project, Emitted(env, b, call)))
  {
    var p := Trim(Go, call.project);
    if p != "" {
      var listing := Listing(b.columns, p);
      var b' := ReorderColumns(b, listing, call.ids, call.versions, call.now).0;
      var after := Listing(b'.columns, p);
      ReorderColumnsKeepsDistinct(b, p, listing, call.ids, call.versions, call.now);
      OneTeamAfterReorder(b, listing, call.ids, call.versions, call.now, team, project);
      if listing != [] && VersionsMatch(listing, call.versions) {
        AfterNotEmpty(b, p, listing, call.ids, call.versions, call.now, after);
        if p != project {
          OtherProjectUntouched(b, p, listing, call.ids, call.versions, call.now, project);
        }
        assert Emitted(env, b, call) == Some(ColumnsReordered(after[0].teamId, p, after));
        SentColumnsFollow(b, b', team, project, p, after, v);
      } else {
        assert b' == b && Emitted(env, b, call) == None;
      }
    }
  }

  lemma OneTeamAfterReorder(b: Board, listing: seq<TaskColumn>, ids: seq<string>, versions: map<string, int>, now: int,
                            team: string, project: string)
    requires OneTeam(b, team, project)
    ensures OneTeam(ReorderColumns(b, listing, ids, versions, now).0, team, project)
  {
  }

  lemma AfterNotEmpty(b: Board, p: string, listing: seq<TaskColumn>, ids: seq<string>, versions: map<string, int>, now: int,
                      after: seq<TaskColumn>)
    requires Distinct(b) && IsColumnListing(b.columns, p, listing) && listing != [] && VersionsMatch(listing, versions)
    requires IsColumnListing(ReorderColumns(b, listing, ids, versions, now).0.columns, p, after)
    ensures after != [] && after[0] in ProjectColumns(ReorderColumns(b, listing, ids, versions, now).0.columns, p)
  {
    ReorderColumnsShowsFinalOrder(b, p, listing, ids, versions, now, after);
    SameLength(b, p, listing, ids);
    assert |IdsOf(after)| == |listing|;
    assert after[0] in after;
  }

  lemma SameLength(b: Board, p: string, listing: seq<TaskColumn>, ids: seq<string>)
    requires Distinct(b) && IsColumnListing(b.columns, p, listing)
    ensures |FinalOrder(IdsOf(listing), ids)| == |listing|
  {
    ListingIds(b.columns, p, listing);
    FinalOrderPermutes(IdsOf(listing), ids);
    ListsCount(FinalOrder(IdsOf(listing), ids), Elements(IdsOf(listing)));
    NoDupCount(IdsOf(listing));
  }

  lemma OtherProjectUntouched(b: Board, p: string, listing: seq<TaskColumn>, ids: seq<string>,
                              versions: map<string, int>, now: int, project: string)
    requires Distinct(b) && IsColumnListing(b.columns, p, listing) && p != project
    ensures Listing(b.columns, project) == Listing(ReorderColumns(b, listing, ids, versions, now).0.columns, project)
  {
    var b' := ReorderColumns(b, listing, ids, versions, now).0;
    ReorderColumnsKeepsDistinct(b, p, listing, ids, versions, now);
    ListingIds(b.columns, p, listing);
    FinalOrderPermutes(IdsOf(listing), ids);
    var order := FinalOrder(IdsOf(listing), ids);
    forall x
      ensures x in ProjectColumns(b.columns, project) <==> x in ProjectColumns(b'.columns, project)
    {
      InProject(b.columns, project, x);
      InProject(b'.columns, project, x);
      assert x.id in order <==> x.id in Elements(IdsOf(listing));
      assert x.id in IdsOf(listing) <==> x.id in ProjectColumnIds(b.columns, p);
    }
    UnaffectedListing(b, b', project);
  }

  /** After one call and its event the replica is in step again. */
  lemma CallFollows(env: Env, b: Board, team: string, project: string, call: Call, v: View)
    requires Named(team) && Distinct(b) && OneTeam(b, team, project) && Orderly(b, team, project, call)
    requires Synced(b, project, v)
    ensures OneTeam(After(env, b, call), team, project)
    ensures Synced(After(env, b, call), project, Receive(v, team, project, Emitted(env, b, call)))
  {
    match call
    case CallCreate(_, _, _) => CreateFollows(env, b, team, project, call, v);
    case CallUpdate(_, _, _) => UpdateFollows(env, b, team, project, call, v);
    case CallDelete(_) => DeleteFollows(env, b, team, project, call, v);
    case CallReorder(_, _, _, _) => ReorderFollows(env, b, team, project, call, v);
    case CallCreateColumn(_, _, _, _, _) => CreateColumnFollows(env, b, team, project, call, v);
    case CallUpdateColumn(_, _, _) => UpdateColumnFollows(env, b, team, project, call, v);
    case CallDeleteColumn(_) => DeleteColumnFollows(env, b, team, project, call, v);
    case CallReorderColumns(_, _, _, _) => ReorderColumnsFollows(env, b, team, project, call, v);
  }

  /** Every call of the run meets the assumptions above at its own board. */
  ghost predicate OrderlyRun(env: Env, b: Board, team: string, project: string, calls: seq<Call>)
    decreases calls
  {
    calls == [] ||
    (Orderly(b, team, project, calls[0]) && OrderlyRun(env, After(env, b, calls[0]), team, project, calls[1..]))
  }

  ghost function Watch(env: Env, b: Board, team: string, project: string, calls: seq<Call>, v: View): View
    decreases calls
  {
    if calls == [] then v
    else Watch(env, After(env, b, calls[0]), team, project, calls[1..], Receive(v, team, project, Emitted(env, b, calls[0])))
  }

  /** Started in step, the replica stays in step through any run: the same columns in the same
      order, the same task ids without repetition, and equal always-serialised fields. */
  lemma {:induction false} ReplicaConverges(env: Env, b: Board, team: string, project: string, calls: seq<Call>, v: View)
    requires Named(team) && Distinct(b) && OneTeam(b, team, project) && OrderlyRun(env, b, team, project, calls)
    requires Synced(b, project, v)
    ensures Synced(AfterAll(env, b, calls), project, Watch(env, b, team, project, calls, v))
    decreases calls
  {
    if calls != [] {
      CallFollows(env, b, team, project, calls[0], v);
      CallKeepsDistinct(env, b, calls[0]);
      ReplicaConverges(env, After(env, b, calls[0]), team, project, calls[1..],
        Receive(v, team, project, Emitted(env, b, calls[0])));
    }
  }

  /** The id an event is about. */
  function Subject(e: Event): string
    requires !e.TasksReordered? && !e.ColumnsReordered?
  {
    match e
    case TaskCreated(t) => t.id
    case TaskUpdated(t) => t.id
    case TaskDeleted(_, _, id) => id
    case ColumnCreated(c) => c.id
    case ColumnChanged(c) => c.id
    case ColumnDeleted(_, _, id) => id
  }

  /** An event about nothing changes nothing. */
  lemma BlankSubjectIgnored(v: View, team: string, project: string, e: Event)
    requires !e.TasksReordered? && !e.ColumnsReordered? && Subject(e) == ""
    ensures Receive(v, team, project, Some(e)) == v
  {
  }
}
