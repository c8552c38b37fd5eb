/** The fields an event can leave out. JSON omits an empty description, due date, list and so on,
    and the viewer then keeps the old value: exactly when does a replica that shows every field of
    every task correctly stay that way? */
module ReplicaFields {
  import opened Text
  import opened Sorting
  import opened TaskModel
  import opened TaskStore
  import opened TaskService
  import opened Positions
  import opened Replica

  /** The change empties a field that JSON drops when empty. */
  predicate Empties(before: Task, after: Task) {
    || (before.description != "" && after.description == "")
    || (before.dueAt.Some? && after.dueAt.None?)
    || (before.completedAt.Some? && after.completedAt.None?)
    || (before.completedBy != "" && after.completedBy == "")
    || (before.assignees != [] && after.assignees == [])
    || (before.tags != [] && after.tags == [])
    || (before.assigneeUserId != "" && after.assigneeUserId == "")
    || (before.assigneeName != "" && after.assigneeName == "")
    || (before.teamId != "" && after.teamId == "")
    || (before.projectId != "" && after.projectId == "")
  }

  lemma SpreadExact(prior: Task, recent: Task)
    ensures Spread(prior, recent) == recent <==> !Empties(prior, recent)
    ensures Spread(Spread(prior, recent), recent) == Spread(prior, recent)
    ensures Spread(prior, recent).id == recent.id
  {
  }

  /** The view shows exactly the project's tasks, every field as stored. */
  ghost predicate Exact(tasks: Tasks, project: string, view: seq<Task>) {
    && Lists(TaskIds(view), ProjectTaskIds(tasks, project))
    && forall i :: 0 <= i < |view| ==> view[i].id in tasks && view[i] == tasks[view[i].id]
  }

  /** The entry is the stored task as an event shows it over the task before. */
  predicate ShownOver(tasks: Tasks, tasks': Tasks, project: string, t: Task) {
    t.id in tasks' &&
    t == if t.id in tasks && tasks[t.id].projectId == project then Spread(tasks[t.id], tasks'[t.id]) else tasks'[t.id]
  }

  ghost predicate AllShownOver(tasks: Tasks, tasks': Tasks, project: string, view: seq<Task>) {
    forall i :: 0 <= i < |view| ==> ShownOver(tasks, tasks', project, view[i])
  }

  /** Some task of the project loses a droppable field. */
  ghost predicate EmptiesAny(tasks: Tasks, tasks': Tasks, project: string) {
    exists id :: id in tasks && id in tasks' && tasks[id].projectId == project && Empties(tasks[id], tasks'[id])
  }

  lemma ExactIffNothingEmptied(tasks: Tasks, tasks': Tasks, project: string, view: seq<Task>)
    requires Lists(TaskIds(view), ProjectTaskIds(tasks', project)) && AllShownOver(tasks, tasks', project, view)
    requires forall id :: id in tasks && id in tasks' ==> tasks'[id].projectId == tasks[id].projectId
    ensures Exact(tasks', project, view) <==> !EmptiesAny(tasks, tasks', project)
  {
    if EmptiesAny(tasks, tasks', project) {
      var id :| id in tasks && id in tasks' && tasks[id].projectId == project && Empties(tasks[id], tasks'[id]);
      assert id in ProjectTaskIds(tasks', project) && id in TaskIds(view);
      var i :| 0 <= i < |view| && TaskIds(view)[i] == id;
      assert ShownOver(tasks, tasks', project, view[i]);
      SpreadExact(tasks[id], tasks'[id]);
    } else {
      forall i | 0 <= i < |view|
        ensures view[i].id in tasks' && view[i] == tasks'[view[i].id]
      {
        assert ShownOver(tasks, tasks', project, view[i]);
        var id := view[i].id;
        if id in tasks && tasks[id].projectId == project {
          SpreadExact(tasks[id], tasks'[id]);
        }
      }
    }
  }

  // --- the reducers, entry by entry ---

  lemma RefreshAt(view: seq<Task>, t: Task, j: nat)
    requires NoDup(TaskIds(view)) && j < |view|
    ensures |Refresh(view, t)| == |view|
    ensures Refresh(view, t)[j] == if view[j].id == t.id then Spread(view[j], t) else view[j]
  {
    var ids := TaskIds(view);
    if t.id in ids {
      var i := IndexOf(ids, t.id);
      assert j != i ==> ids[j] != ids[i];
    } else {
      assert ids[j] in ids;
    }
  }

  lemma {:induction false} RefreshAllAt(tasks': Tasks, view: seq<Task>, recent: seq<Task>, j: nat)
    requires NoDup(TaskIds(view)) && j < |view|
    requires forall t :: t in recent ==> t.id in tasks' && tasks'[t.id] == t
    ensures |RefreshAll(view, recent)| == |view|
    ensures RefreshAll(view, recent)[j] ==
      if view[j].id in TaskIds(recent) && view[j].id in tasks' then Spread(view[j], tasks'[view[j].id]) else view[j]
    decreases |recent|
  {
    if recent != [] {
      var t := recent[0];
      RefreshAt(view, t, j);
      RefreshIds(view, t);
      RefreshAllAt(tasks', Refresh(view, t), recent[1..], j);
      SpreadExact(view[j], t);
      assert TaskIds(recent) == [t.id] + TaskIds(recent[1..]);
      assert t in recent;
    }
  }

  /** Tasks that stay as they are look as before. */
  lemma SameShown(tasks: Tasks, tasks': Tasks, project: string, view: seq<Task>)
    requires Exact(tasks, project, view)
    requires forall id :: id in ProjectTaskIds(tasks, project) ==> id in tasks' && tasks'[id] == tasks[id]
    ensures AllShownOver(tasks, tasks', project, view)
  {
    forall i | 0 <= i < |view|
      ensures ShownOver(tasks, tasks', project, view[i])
    {
      assert TaskIds(view)[i] in TaskIds(view);
      SpreadExact(tasks[view[i].id], tasks[view[i].id]);
    }
  }

  lemma UpsertShown(tasks: Tasks, project: string, view: seq<Task>, t: Task)
    requires Exact(tasks, project, view) && t.projectId == project
    requires t.id in tasks ==> tasks[t.id].projectId == project
    ensures AllShownOver(tasks, tasks[t.id := t], project, Upsert(view, t))
  {
    var view' := Upsert(view, t);
    forall j | 0 <= j < |view'|
      ensures ShownOver(tasks, tasks[t.id := t], project, view'[j])
    {
      if j < |view| {
        assert TaskIds(view)[j] in TaskIds(view);
        assert TaskIds(view)[j] in ProjectTaskIds(tasks, project);
        RefreshAt(view, t, j);
        SpreadExact(view[j], t);
        SpreadExact(view[j], view[j]);
      } else {
        assert t.id !in ProjectTaskIds(tasks, project);
      }
    }
  }

  lemma DropShown(tasks: Tasks, project: string, view: seq<Task>, id: string)
    requires Exact(tasks, project, view)
    ensures AllShownOver(tasks, tasks - {id}, project, DropTask(view, id))
  {
    var view' := DropTask(view, id);
    DropTaskFacts(view, id);
    forall j | 0 <= j < |view'|
      ensures ShownOver(tasks, tasks - {id}, project, view'[j])
    {
      assert view'[j] in view;
      SpreadExact(view'[j], view'[j]);
    }
  }

  lemma RefreshShown(tasks: Tasks, tasks': Tasks, project: string, view: seq<Task>, moved: seq<Task>)
    requires Exact(tasks, project, view) && tasks'.Keys == tasks.Keys
    requires forall id :: id in tasks && id !in TaskIds(moved) ==> tasks'[id] == tasks[id]
    requires forall t :: t in moved ==> t.id in tasks' && tasks'[t.id] == t
    ensures AllShownOver(tasks, tasks', project, RefreshAll(view, moved))
  {
    RefreshAllLength(view, moved);
    forall j | 0 <= j < |view|
      ensures ShownOver(tasks, tasks', project, RefreshAll(view, moved)[j])
    {
      RefreshedEntry(tasks, tasks', project, view, moved, j);
    }
  }

  lemma RefreshedEntry(tasks: Tasks, tasks': Tasks, project: string, view: seq<Task>, moved: seq<Task>, j: nat)
    requires Exact(tasks, project, view) && tasks'.Keys == tasks.Keys && j < |view|
    requires forall id :: id in tasks && id !in TaskIds(moved) ==> tasks'[id] == tasks[id]
    requires forall t :: t in moved ==> t.id in tasks' && tasks'[t.id] == t
    ensures |RefreshAll(view, moved)| == |view| && ShownOver(tasks, tasks', project, RefreshAll(view, moved)[j])
  {
    RefreshAllAt(tasks', view, moved, j);
    assert TaskIds(view)[j] in TaskIds(view);
    assert TaskIds(view)[j] in ProjectTaskIds(tasks, project);
    SpreadExact(view[j], tasks'[view[j].id]);
    SpreadExact(view[j], view[j]);
  }

  lemma {:induction false} RefreshAllLength(view: seq<Task>, recent: seq<Task>)
    ensures |RefreshAll(view, recent)| == |view|
    decreases |recent|
  {
    if recent != [] {
      RefreshIds(view, recent[0]);
      RefreshAllLength(Refresh(view, recent[0]), recent[1..]);
    }
  }

  // --- one call ---

  /** What a call does to the stored tasks, and what its event does to the view's. */
  ghost predicate ShownAfter(env: Env, b: Board, team: string, project: string, call: Call, v: View) {
    var b' := After(env, b, call);
    && AllShownOver(b.tasks, b'.tasks, project, Receive(v, team, project, Emitted(env, b, call)).tasks)
    && forall id :: id in b.tasks && id in b'.tasks ==> b'.tasks[id].projectId == b.tasks[id].projectId
  }

  lemma PutShown(b: Board, b': Board, team: string, project: string, t: Task, e: Event, v: View)
    requires (e.TaskCreated? || e.TaskUpdated?) && e.task == t
    requires t.id != "" && b' == b.(tasks := b.tasks[t.id := t])
    requires t.projectId == project ==> t.teamId == team
    requires t.id in b.tasks ==> b.tasks[t.id].projectId == t.projectId
    requires Exact(b.tasks, project, v.tasks)
    ensures AllShownOver(b.tasks, b'.tasks, project, Receive(v, team, project, Some(e)).tasks)
  {
    if t.projectId == project {
      UpsertShown(b.tasks, project, v.tasks, t);
    } else {
      SameShown(b.tasks, b'.tasks, project, v.tasks);
    }
  }

  lemma CreateShown(env: Env, b: Board, team: string, project: string, call: Call, v: View)
    requires Orderly(b, team, project, call) && call.CallCreate? && Exact(b.tasks, project, v.tasks)
    ensures ShownAfter(env, b, team, project, call, v)
  {
    var r := CreateTask(env, b, call.create, call.id, call.now);
    if r.1.Ok? {
      CreateFacts(env, b, call.create, call.id, call.now);
      PutShown(b, r.0, team, project, r.1.value, TaskCreated(r.1.value), v);
    } else {
      SameShown(b.tasks, b.tasks, project, v.tasks);
    }
  }

  lemma UpdateShown(env: Env, b: Board, team: string, project: string, call: Call, v: View)
    requires FiledById(b.tasks) && OneTeam(b, team, project) && call.CallUpdate? && Exact(b.tasks, project, v.tasks)
    ensures ShownAfter(env, b, team, project, call, v)
  {
    var r := UpdateTask(env, b, call.id, call.update, call.now);
    UpdateReplacesOne(env, b, call.id, call.update, call.now);
    if r.1.Ok? {
      PutShown(b, r.0, team, project, r.1.value, TaskUpdated(r.1.value), v);
    } else {
      SameShown(b.tasks, b.tasks, project, v.tasks);
    }
  }

  lemma DeleteShown(env: Env, b: Board, team: string, project: string, call: Call, v: View)
    requires FiledById(b.tasks) && OneTeam(b, team, project) && call.CallDelete? && Exact(b.tasks, project, v.tasks)
    ensures ShownAfter(env, b, team, project, call, v)
  {
    var id := Trim(Go, call.id);
    if id in b.tasks && b.tasks[id].projectId == project {
      DropShown(b.tasks, project, v.tasks, id);
    } else {
      SameShown(b.tasks, b.tasks - {id}, project, v.tasks);
    }
  }

  lemma SentTasksShown(tasks: Tasks, tasks': Tasks, team: string, project: string, p: string, s: string, v: View, moved: seq<Task>)
    requires Named(team) && Exact(tasks, project, v.tasks) && tasks'.Keys == tasks.Keys
    requires forall id :: id in tasks && id !in TaskIds(moved) ==> tasks'[id] == tasks[id]
    requires forall t :: t in moved ==> t.id in tasks' && tasks'[t.id] == t
    requires moved != [] && (p == project ==> moved[0].teamId == team)
    requires forall id :: id in tasks && !InColumn(tasks[id], p, s) ==> tasks'[id] == tasks[id]
    ensures var e := TasksReordered(Trim(Go, moved[0].teamId), p, moved);
      AllShownOver(tasks, tasks', project, Receive(v, team, project, Some(e)).tasks)
  {
    if p == project {
      RefreshShown(tasks, tasks', project, v.tasks, moved);
    } else {
      SameShown(tasks, tasks', project, v.tasks);
    }
  }

  lemma ReorderShown(env: Env, b: Board, team: string, project: string, call: Call, v: View)
    requires FiledById(b.tasks) && Named(team) && OneTeam(b, team, project) && call.CallReorder? && Exact(b.tasks, project, v.tasks)
    ensures ShownAfter(env, b, team, project, call, v)
  {
    var p, s := Trim(Go, call.project), Trim(Go, call.status);
    var tasks' := ReorderTasks(b, call.project, call.status, call.ids, call.now).tasks;
    if ReorderAccepted(b.tasks, p, s, call.ids) {
      var moved := MovedTasks(b.tasks, tasks', p, s, call.ids, call.now);
      var e := TasksReordered(Trim(Go, moved[0].teamId), p, moved);
      assert Emitted(env, b, call) == Some(e);
      SentTasksShown(b.tasks, tasks', team, project, p, s, v, moved);
    } else {
      SameShown(b.tasks, b.tasks, project, v.tasks);
    }
  }

  predicate OnColumns(call: Call) {
    call.CallCreateColumn? || call.CallUpdateColumn? || call.CallDeleteColumn? || call.CallReorderColumns?
  }

  lemma ColumnsShown(env: Env, b: Board, team: string, project: string, call: Call, v: View)
    requires OnColumns(call) && Exact(b.tasks, project, v.tasks)
    ensures ShownAfter(env, b, team, project, call, v)
  {
    ColumnCallKeepsTasks(env, b, call);
    SameShown(b.tasks, b.tasks, project, v.tasks);
  }

  lemma ColumnCallKeepsTasks(env: Env, b: Board, call: Call)
    requires OnColumns(call)
    ensures After(env, b, call).tasks == b.tasks
    ensures var e := Emitted(env, b, call); e.Some? ==> forall view :: ApplyToTasks(view, e.value) == view
  {
    match call
    case CallCreateColumn(_, _, _, _, _) =>
    case CallUpdateColumn(_, _, _) =>
    case CallDeleteColumn(_) =>
    case CallReorderColumns(_, _, _, _) =>
  }

  lemma CallShown(env: Env, b: Board, team: string, project: string, call: Call, v: View)
    requires Named(team) && FiledById(b.tasks) && OneTeam(b, team, project) && Orderly(b, team, project, call)
    requires Exact(b.tasks, project, v.tasks)
    ensures ShownAfter(env, b, team, project, call, v)
  {
    match call
    case CallCreate(_, _, _) => CreateShown(env, b, team, project, call, v);
    case CallUpdate(_, _, _) => UpdateShown(env, b, team, project, call, v);
    case CallDelete(_) => DeleteShown(env, b, team, project, call, v);
    case CallReorder(_, _, _, _) => ReorderShown(env, b, team, project, call, v);
    case _ => ColumnsShown(env, b, team, project, call, v);
  }

  /** After one call and its event a replica that was right in every field still is, exactly when
      the call empties no droppable field of a task of the project. */
  lemma CallStaysExact(env: Env, b: Board, team: string, project: string, call: Call, v: View)
    requires Named(team) && Distinct(b) && OneTeam(b, team, project) && Orderly(b, team, project, call)
    requires Synced(b, project, v) && Exact(b.tasks, project, v.tasks)
    ensures Exact(After(env, b, call).tasks, project, Receive(v, team, project, Emitted(env, b, call)).tasks) <==>
            !EmptiesAny(b.tasks, After(env, b, call).tasks, project)
  {
    CallFollows(env, b, team, project, call, v);
    CallShown(env, b, team, project, call, v);
    ExactIffNothingEmptied(b.tasks, After(env, b, call).tasks, project, Receive(v, team, project, Emitted(env, b, call)).tasks);
  }

  // --- whole runs ---

  /** The replica is right in every field before, between and after the calls. */
  ghost predicate ExactThroughout(env: Env, b: Board, team: string, project: string, calls: seq<Call>, v: View)
    decreases calls
  {
    Exact(b.tasks, project, v.tasks) &&
    (calls == [] || ExactThroughout(env, After(env, b, calls[0]), team, project, calls[1..],
                                    Receive(v, team, project, Emitted(env, b, calls[0]))))
  }

  ghost predicate NothingEmptied(env: Env, b: Board, project: string, calls: seq<Call>)
    decreases calls
  {
    calls == [] ||
    (!EmptiesAny(b.tasks, After(env, b, calls[0]).tasks, project) && NothingEmptied(env, After(env, b, calls[0]), project, calls[1..]))
  }

  /** Over runs: a replica that starts right in every field stays so throughout exactly when no call
      of the run empties a droppable field of a task of the project. */
  lemma {:induction false} ReplicaStaysExact(env: Env, b: Board, team: string, project: string, calls: seq<Call>, v: View)
    requires Named(team) && Distinct(b) && OneTeam(b, team, project) && OrderlyRun(env, b, team, project, calls)
    requires Synced(b, project, v) && Exact(b.tasks, project, v.tasks)
    ensures ExactThroughout(env, b, team, project, calls, v) <==> NothingEmptied(env, b, project, calls)
    decreases calls
  {
    if calls != [] {
      var b', v' := After(env, b, calls[0]), Receive(v, team, project, Emitted(env, b, calls[0]));
      CallFollows(env, b, team, project, calls[0], v);
      CallKeepsDistinct(env, b, calls[0]);
      CallStaysExact(env, b, team, project, calls[0], v);
      if Exact(b'.tasks, project, v'.tasks) {
        ReplicaStaysExact(env, b', team, project, calls[1..], v');
      }
    }
  }
}
