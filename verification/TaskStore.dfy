/** The in-memory repository: two maps behind one lock, so every method is one atomic step.
    Each method is proved against a function or predicate over the map values; the runs of
    StoreRuns and the calls of TaskService are built from those. */
module TaskStore {
  import opened Text
  import opened Sorting
  import opened TaskModel

  // --- what the operations mean on the maps ---

  function Created(tasks: Tasks, task: Task): (Tasks, Task) {
    var t := if task.version <= 0 then task.(version := 1) else task;
    (tasks[t.id := t], t)
  }

  function Updated(tasks: Tasks, task: Task): (Tasks, Result<Task, Error>) {
    if task.id !in tasks then (tasks, Err(NotFound)) else
      var t := task.(version := tasks[task.id].version + 1);
      (tasks[t.id := t], Ok(t))
  }

  function UpdatedIfVersion(tasks: Tasks, task: Task, expected: int): (Tasks, Result<Task, Error>) {
    if task.id in tasks && tasks[task.id].version != expected then (tasks, Err(VersionConflict))
    else Updated(tasks, task)
  }

  function ColumnUpdated(columns: Columns, column: TaskColumn): (Columns, Result<TaskColumn, Error>) {
    if column.id !in columns then (columns, Err(NotFound)) else
      var c := column.(version := columns[column.id].version + 1);
      (columns[c.id := c], Ok(c))
  }

  function ColumnUpdatedIfVersion(columns: Columns, column: TaskColumn, expected: int)
    : (Columns, Result<TaskColumn, Error>)
  {
    if column.id in columns && columns[column.id].version != expected then (columns, Err(VersionConflict))
    else ColumnUpdated(columns, column)
  }

  predicate InColumn(task: Task, project: string, status: string) {
    task.projectId == project && task.status == status
  }

  /** The ids of the tasks shown in one column. */
  ghost function ColumnIds(tasks: Tasks, project: string, status: string): set<string> {
    set id | id in tasks && InColumn(tasks[id], project, status)
  }

  ghost function PositionsIn(tasks: Tasks, project: string, status: string): (r: set<int>)
    ensures forall id :: id in tasks && InColumn(tasks[id], project, status) ==> tasks[id].sortPosition in r
  {
    set id | id in tasks && InColumn(tasks[id], project, status) :: tasks[id].sortPosition
  }

  ghost function ColumnPositions(columns: Columns, project: string): (r: set<int>)
    ensures forall id :: id in columns && columns[id].projectId == project ==> columns[id].position in r
  {
    set id | id in columns && columns[id].projectId == project :: columns[id].position
  }

  ghost function MaxPosition(tasks: Tasks, project: string, status: string): int {
    var p, s := Trim(Go, project), Trim(Go, status);
    if p == "" || s == "" then -1 else MaxOf(PositionsIn(tasks, p, s))
  }

  ghost function MaxColumnPosition(columns: Columns, project: string): int {
    MaxOf(ColumnPositions(columns, Trim(Go, project)))
  }

  /** A reorder request is accepted exactly when its trimmed ids are the column's tasks, each once. */
  ghost predicate ReorderAccepted(tasks: Tasks, project: string, status: string, ids: seq<string>) {
    && Trim(Go, project) != "" && Trim(Go, status) != "" && ids != []
    && "" !in TrimAll(Go, ids)
    && Lists(TrimAll(Go, ids), ColumnIds(tasks, Trim(Go, project), Trim(Go, status)))
  }

  /** Only the tasks named in xs move: each to its index, one version up. */
  ghost function Renumbered(tasks: Tasks, xs: seq<string>, now: int): (r: Tasks)
    ensures r.Keys == tasks.Keys
  {
    map id | id in tasks :: if id in xs then Moved(tasks[id], IndexOf(xs, id), now) else tasks[id]
  }

  function Moved(task: Task, position: int, now: int): Task {
    task.(sortPosition := position, updatedAt := now, version := task.version + 1)
  }

  lemma RenumberedStep(tasks: Tasks, xs: seq<string>, i: nat, now: int)
    requires NoDup(xs) && i < |xs| && xs[i] in tasks
    ensures Renumbered(tasks, xs[..i], now)[xs[i]] == tasks[xs[i]]
    ensures Renumbered(tasks, xs[..i + 1], now) ==
      Renumbered(tasks, xs[..i], now)[xs[i] := Moved(tasks[xs[i]], i, now)]
  {
    assert xs[..i + 1] == xs[..i] + [xs[i]];
    var a, b := Renumbered(tasks, xs[..i + 1], now), Renumbered(tasks, xs[..i], now);
    forall id | id in tasks
      ensures a[id] == if id == xs[i] then Moved(tasks[id], i, now) else b[id]
    {
      if id in xs[..i] {
        IndexUnique(xs[..i + 1], IndexOf(xs[..i], id), id);
      } else if id == xs[i] {
        IndexUnique(xs[..i + 1], i, id);
      }
    }
  }

  lemma IndexUnique(xs: seq<string>, i: nat, id: string)
    requires NoDup(xs) && i < |xs| && xs[i] == id
    ensures IndexOf(xs, id) == i
  {
  }

  ghost function Reordered(tasks: Tasks, project: string, status: string, ids: seq<string>, now: int): Tasks {
    if ReorderAccepted(tasks, project, status, ids) then Renumbered(tasks, TrimAll(Go, ids), now) else tasks
  }

  predicate ColumnLe(a: TaskColumn, b: TaskColumn) {
    a.position < b.position || (a.position == b.position && a.createdAt <= b.createdAt)
  }

  predicate TaskLe(a: Task, b: Task) {
    a.sortPosition < b.sortPosition || (a.sortPosition == b.sortPosition && a.createdAt >= b.createdAt)
  }

  ghost function ProjectColumns(columns: Columns, project: string): set<TaskColumn> {
    set id | id in columns && columns[id].projectId == project :: columns[id]
  }

  ghost function ProjectTasks(tasks: Tasks, project: string): set<Task> {
    set id | id in tasks && tasks[id].projectId == project :: tasks[id]
  }

  /** One of the orders a listing may come out in: map iteration leaves ties open. */
  ghost predicate IsColumnListing(columns: Columns, project: string, out: seq<TaskColumn>) {
    Sorted(ColumnLe, out) && Lists(out, ProjectColumns(columns, project))
  }

  ghost predicate IsTaskListing(tasks: Tasks, project: string, out: seq<Task>) {
    Sorted(TaskLe, out) && Lists(out, ProjectTasks(tasks, project))
  }

  // --- the repository ---

  class InMemoryTaskRepository {
    var tasks: Tasks
    var columns: Columns

    ghost predicate Valid()
      reads this
    {
      FiledById(tasks) && ColumnsFiledById(columns)
    }

    constructor ()
      ensures Valid() && tasks == map[] && columns == map[]
    {
      tasks, columns := map[], map[];
    }

    method Create(task: Task) returns (r: Task)
      requires Valid()
      modifies this`tasks
      ensures Valid()
      ensures (tasks, r) == Created(old(tasks), task)
    {
      r := task;
      if r.version <= 0 {
        r := r.(version := 1);
      }
      tasks := tasks[r.id := r];
    }

    method GetByID(id: string) returns (r: Result<Task, Error>)
      requires Valid()
      ensures r == if id in tasks then Ok(tasks[id]) else Err(NotFound)
    {
      if id !in tasks {
        return Err(NotFound);
      }
      r := Ok(tasks[id]);
    }

    method Update(task: Task) returns (r: Result<Task, Error>)
      requires Valid()
      modifies this`tasks
      ensures Valid()
      ensures (tasks, r) == Updated(old(tasks), task)
    {
      if task.id !in tasks {
        return Err(NotFound);
      }
      var existing := tasks[task.id];
      var t := task.(version := existing.version + 1);
      tasks := tasks[t.id := t];
      r := Ok(t);
    }

    method UpdateIfVersion(task: Task, expectedVersion: int) returns (r: Result<Task, Error>)
      requires Valid()
      modifies this`tasks
      ensures Valid()
      ensures (tasks, r) == UpdatedIfVersion(old(tasks), task, expectedVersion)
    {
      if task.id !in tasks {
        return Err(NotFound);
      }
      var existing := tasks[task.id];
      if existing.version != expectedVersion {
        return Err(VersionConflict);
      }
      var t := task.(version := existing.version + 1);
      tasks := tasks[t.id := t];
      r := Ok(t);
    }

    method Delete(id: string) returns (r: Result<(), Error>)
      requires Valid()
      modifies this`tasks
      ensures Valid()
      ensures r == if id in old(tasks) then Ok(()) else Err(NotFound)
      ensures tasks == old(tasks) - {id}
    {
      if id !in tasks {
        return Err(NotFound);
      }
      tasks := tasks - {id};
      r := Ok(());
    }

    method MaxSortPosition(projectID: string, columnStatus: string) returns (max: int)
      requires Valid()
      ensures max == MaxPosition(tasks, projectID, columnStatus)
    {
      var project, status := Trim(Go, projectID), Trim(Go, columnStatus);
      if project == "" || status == "" {
        return -1;
      }
      max := -1;
      var rest := tasks.Keys;
      ghost var seen := {};
      while rest != {}
        invariant seen !! rest && seen + rest == tasks.Keys
        invariant max >= -1
        invariant forall id :: id in seen && InColumn(tasks[id], project, status) ==> tasks[id].sortPosition <= max
        invariant max == -1 || exists id :: id in seen && InColumn(tasks[id], project, status) && tasks[id].sortPosition == max
        decreases rest
      {
        var id :| id in rest;
        var task := tasks[id];
        if InColumn(task, project, status) && task.sortPosition > max {
          max := task.sortPosition;
        }
        rest, seen := rest - {id}, seen + {id};
      }
      IsMaxOf(max, PositionsIn(tasks, project, status));
    }

    method GetMaxColumnPosition(projectID: string) returns (max: int)
      requires Valid()
      ensures max == MaxColumnPosition(columns, projectID)
    {
      var project := Trim(Go, projectID);
      max := -1;
      var rest := columns.Keys;
      ghost var seen := {};
      while rest != {}
        invariant seen !! rest && seen + rest == columns.Keys
        invariant max >= -1
        invariant forall id :: id in seen && columns[id].projectId == project ==> columns[id].position <= max
        invariant max == -1 || exists id :: id in seen && columns[id].projectId == project && columns[id].position == max
        decreases rest
      {
        var id :| id in rest;
        var item := columns[id];
        if item.projectId == project && item.position > max {
          max := item.position;
        }
        rest, seen := rest - {id}, seen + {id};
      }
      IsMaxOf(max, ColumnPositions(columns, project));
    }

    method ReorderTasksInColumn(projectID: string, columnStatus: string, orderedIDs: seq<string>, now: int)
      returns (r: Result<seq<Task>, Error>)
      requires Valid()
      modifies this`tasks
      ensures Valid()
      ensures r.Ok? <==> ReorderAccepted(old(tasks), projectID, columnStatus, orderedIDs)
      ensures r.Err? ==> r.error == InvalidReorder
      ensures tasks == Reordered(old(tasks), projectID, columnStatus, orderedIDs, now)
      ensures r.Ok? ==> |r.value| == |orderedIDs| && forall i :: 0 <= i < |orderedIDs| ==>
        Trim(Go, orderedIDs[i]) in tasks && r.value[i] == tasks[Trim(Go, orderedIDs[i])]
    {
      var project, status := Trim(Go, projectID), Trim(Go, columnStatus);
      if project == "" || status == "" || |orderedIDs| == 0 {
        return Err(InvalidReorder);
      }
      var cleaned := CleanIds(orderedIDs);
      if cleaned.None? {
        return Err(InvalidReorder);
      }
      var ids := cleaned.value;
      var current := CurrentIds(project, status);
      if |current| != |ids| {
        if Lists(ids, current) {
          ListsCount(ids, current);
        }
        return Err(InvalidReorder);
      }
      for i := 0 to |ids|
        invariant forall j :: 0 <= j < i ==> ids[j] in current
      {
        if ids[i] !in current {
          return Err(InvalidReorder);
        }
      }
      Pigeonhole(ids, current);
      var out := Renumber(ids, now);
      r := Ok(out);
    }

    /** The trimmed ids, or None when one is blank or repeated. */
    method CleanIds(orderedIDs: seq<string>) returns (r: Option<seq<string>>)
      ensures r.Some? <==> "" !in TrimAll(Go, orderedIDs) && NoDup(TrimAll(Go, orderedIDs))
      ensures r.Some? ==> r.value == TrimAll(Go, orderedIDs)
    {
      ghost var want := TrimAll(Go, orderedIDs);
      var cleaned: seq<string> := [];
      for i := 0 to |orderedIDs|
        invariant |cleaned| == i && cleaned == want[..i]
        invariant "" !in cleaned && NoDup(cleaned)
      {
        var id := Trim(Go, orderedIDs[i]);
        assert want[i] == id;
        if id == "" || id in cleaned {
          return None;
        }
        cleaned := cleaned + [id];
      }
      r := Some(cleaned);
    }

    method CurrentIds(project: string, status: string) returns (current: set<string>)
      requires Valid()
      ensures current == ColumnIds(tasks, project, status)
    {
      current := {};
      var rest := tasks.Keys;
      while rest != {}
        invariant rest <= tasks.Keys
        invariant current == ColumnIds(tasks, project, status) - rest
        decreases rest
      {
        var key :| key in rest;
        if InColumn(tasks[key], project, status) {
          current := current + {tasks[key].id};
        }
        rest := rest - {key};
      }
    }

    method Renumber(ids: seq<string>, now: int) returns (out: seq<Task>)
      requires Valid()
      requires NoDup(ids) && forall id :: id in ids ==> id in tasks
      modifies this`tasks
      ensures Valid()
      ensures tasks == Renumbered(old(tasks), ids, now)
      ensures |out| == |ids| && forall i :: 0 <= i < |ids| ==> out[i] == tasks[ids[i]]
    {
      ghost var before := tasks;
      out := [];
      for i := 0 to |ids|
        invariant tasks == Renumbered(before, ids[..i], now)
        invariant |out| == i
        invariant forall j :: 0 <= j < i ==> out[j] == Moved(before[ids[j]], j, now)
      {
        RenumberedStep(before, ids, i, now);
        var t := tasks[ids[i]];
        t := t.(sortPosition := i, updatedAt := now, version := t.version + 1);
        tasks := tasks[ids[i] := t];
        out := out + [t];
      }
      assert ids[..|ids|] == ids;
      forall i | 0 <= i < |ids|
        ensures out[i] == tasks[ids[i]]
      {
        IndexUnique(ids, i, ids[i]);
      }
    }

    method CreateColumn(column: TaskColumn) returns (r: TaskColumn)
      requires Valid()
      modifies this`columns
      ensures Valid()
      ensures r == if column.version <= 0 then column.(version := 1) else column
      ensures columns == old(columns)[r.id := r]
    {
      r := column;
      if r.version <= 0 {
        r := r.(version := 1);
      }
      columns := columns[r.id := r];
    }

    method GetColumnByID(id: string) returns (r: Result<TaskColumn, Error>)
      requires Valid()
      ensures r == if id in columns then Ok(columns[id]) else Err(NotFound)
    {
      if id !in columns {
        return Err(NotFound);
      }
      r := Ok(columns[id]);
    }

    method ListColumnsByProject(projectID: string) returns (items: seq<TaskColumn>)
      requires Valid()
      ensures IsColumnListing(columns, Trim(Go, projectID), items)
    {
      var project := Trim(Go, projectID);
      items := [];
      var rest := columns.Keys;
      while rest != {}
        invariant rest <= columns.Keys
        invariant NoDup(items)
        invariant forall c :: c in items <==> c in ProjectColumns(columns, project) && c.id !in rest
        decreases rest
      {
        var id :| id in rest;
        if columns[id].projectId == project {
          items := items + [columns[id]];
        }
        rest := rest - {id};
      }
      ghost var unsorted := items;
      items := Sort(ColumnLe, items);
      SortSorts(ColumnLe, unsorted);
      SameElements(unsorted, items);
    }

    method UpdateColumn(column: TaskColumn) returns (r: Result<TaskColumn, Error>)
      requires Valid()
      modifies this`columns
      ensures Valid()
      ensures (columns, r) == ColumnUpdated(old(columns), column)
    {
      if column.id !in columns {
        return Err(NotFound);
      }
      var c := column.(version := columns[column.id].version + 1);
      columns := columns[c.id := c];
      r := Ok(c);
    }

    method UpdateColumnIfVersion(column: TaskColumn, expectedVersion: int) returns (r: Result<TaskColumn, Error>)
      requires Valid()
      modifies this`columns
      ensures Valid()
      ensures (columns, r) == ColumnUpdatedIfVersion(old(columns), column, expectedVersion)
    {
      if column.id !in columns {
        return Err(NotFound);
      }
      var existing := columns[column.id];
      if existing.version != expectedVersion {
        return Err(VersionConflict);
      }
      var c := column.(version := existing.version + 1);
      columns := columns[c.id := c];
      r := Ok(c);
    }

    method UpdateColumnPosition(id: string, position: int, now: int) returns (r: Result<(), Error>)
      requires Valid()
      modifies this`columns
      ensures Valid()
      ensures id !in old(columns) ==> r == Err(NotFound) && columns == old(columns)
      ensures id in old(columns) ==> r == Ok(()) && columns == old(columns)[id :=
        old(columns)[id].(position := position, updatedAt := now, version := old(columns)[id].version + 1)]
    {
      if id !in columns {
        return Err(NotFound);
      }
      var item := columns[id];
      item := item.(position := position, updatedAt := now, version := item.version + 1);
      columns := columns[id := item];
      r := Ok(());
    }

    method DeleteColumn(id: string) returns (r: Result<(), Error>)
      requires Valid()
      modifies this`columns
      ensures Valid()
      ensures r == if id in old(columns) then Ok(()) else Err(NotFound)
      ensures columns == old(columns) - {id}
    {
      if id !in columns {
        return Err(NotFound);
      }
      columns := columns - {id};
      r := Ok(());
    }

    method CountByProjectAndStatus(projectID: string, statusID: string) returns (count: nat)
      requires Valid()
      ensures count == |ColumnIds(tasks, Trim(Go, projectID), Trim(Go, statusID))|
    {
      var project, status := Trim(Go, projectID), Trim(Go, statusID);
      count := 0;
      var rest := tasks.Keys;
      ghost var column := ColumnIds(tasks, project, status);
      while rest != {}
        invariant rest <= tasks.Keys && count == |column - rest|
        decreases rest
      {
        var id :| id in rest;
        OneFewerLeft(column, rest, id);
        if InColumn(tasks[id], project, status) {
          count := count + 1;
        }
        rest := rest - {id};
      }
      assert column - rest == column;
    }
  }

  lemma OneFewerLeft<T>(column: set<T>, rest: set<T>, id: T)
    requires id in rest
    ensures |column - (rest - {id})| == |column - rest| + if id in column then 1 else 0
  {
    if id in column {
      assert column - (rest - {id}) == (column - rest) + {id};
    } else {
      assert column - (rest - {id}) == column - rest;
    }
  }

  lemma SameElements<T(!new)>(a: seq<T>, b: seq<T>)
    requires multiset(a) == multiset(b) && NoDup(a)
    ensures NoDup(b) && forall x :: x in a <==> x in b
  {
    forall x
      ensures x in a <==> x in b
    {
      assert x in multiset(a) <==> x in multiset(b);
    }
    forall i, j | 0 <= i < j < |b|
      ensures b[i] != b[j]
    {
      NoDupMultiplicity(a, b[i]);
      if b[i] == b[j] {
        RepeatedMultiplicity(b, i, j);
      }
    }
  }

  lemma RepeatedMultiplicity<T>(s: seq<T>, i: nat, j: nat)
    requires i < j < |s| && s[i] == s[j]
    ensures multiset(s)[s[i]] >= 2
  {
    assert s == s[..i] + [s[i]] + s[i + 1..j] + [s[j]] + s[j + 1..];
  }

  // --- what the operations promise ---

  /** Positions in an accepted reorder become 0..n-1 in the requested order; versions go up by one;
      tasks outside the column keep everything; nothing appears or disappears. */
  lemma ReorderAssignsIndices(tasks: Tasks, project: string, status: string, ids: seq<string>, now: int, i: nat)
    requires ReorderAccepted(tasks, project, status, ids) && i < |ids|
    ensures var r := Reordered(tasks, project, status, ids, now); var id := Trim(Go, ids[i]);
      && r.Keys == tasks.Keys && id in tasks
      && r[id] == tasks[id].(sortPosition := i, version := tasks[id].version + 1, updatedAt := now)
    ensures forall id :: id in tasks && !InColumn(tasks[id], Trim(Go, project), Trim(Go, status)) ==>
      Reordered(tasks, project, status, ids, now)[id] == tasks[id]
  {
    var xs := TrimAll(Go, ids);
    assert xs[i] in xs;
    assert IndexOf(xs, xs[i]) == i;
  }

  /** The position looked up for a new entry is the largest in use, or -1 when there is none. */
  lemma LargestPositions(tasks: Tasks, columns: Columns, project: string, status: string)
    ensures var (p, s, max) := (Trim(Go, project), Trim(Go, status), MaxPosition(tasks, project, status));
      && (p != "" && s != "" ==> forall id :: id in tasks && InColumn(tasks[id], p, s) ==> tasks[id].sortPosition <= max)
      && (max == -1 || (p != "" && s != "" && exists id :: id in tasks && InColumn(tasks[id], p, s) && tasks[id].sortPosition == max))
    ensures var (p, max) := (Trim(Go, project), MaxColumnPosition(columns, project));
      && (forall id :: id in columns && columns[id].projectId == p ==> columns[id].position <= max)
      && (max == -1 || exists id :: id in columns && columns[id].projectId == p && columns[id].position == max)
  {
    var max, most := MaxPosition(tasks, project, status), MaxColumnPosition(columns, project);
    if max != -1 {
      assert max in PositionsIn(tasks, Trim(Go, project), Trim(Go, status));
    }
    if most != -1 {
      assert most in ColumnPositions(columns, Trim(Go, project));
    }
  }

  ghost predicate PlacesSeparate(columns: set<TaskColumn>) {
    forall x, y :: x in columns && y in columns && x.position == y.position && x.createdAt == y.createdAt ==> x == y
  }

  /** When positions and creation times tell a project's columns apart there is one listing,
      whatever order the map was walked in. */
  lemma ColumnListingUnique(columns: Columns, project: string, a: seq<TaskColumn>, b: seq<TaskColumn>)
    requires IsColumnListing(columns, project, a) && IsColumnListing(columns, project, b)
    requires PlacesSeparate(ProjectColumns(columns, project))
    ensures a == b
  {
    SameMultisetNoDup(a, b);
    SortedUnique(ColumnLe, a, b);
  }
}
