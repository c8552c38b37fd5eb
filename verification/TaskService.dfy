/** The task service: each call reads the repository, edits a copy and writes it back. Every
    call is proved against a function on the board value, which Positions and Replica run.
    Clock, fresh ids, lower-casing and the user directory are parameters. */
module TaskService {
  import opened Text
  import opened Sorting
  import opened TaskModel
  import opened TaskStore
  import Tags

  datatype Lookup = Known | Unknown | Unavailable

  datatype Env = Env(lower: string -> string, directory: string -> Lookup)

  datatype Board = Board(tasks: Tasks, columns: Columns)

  datatype CreateTaskInput = CreateTaskInput(
    title: string, description: string, status: string, priority: string, dueAt: Option<int>,
    createdBy: string, assignees: seq<Assignee>, tags: seq<string>, assigneeUserId: string,
    assigneeName: string, teamId: string, projectId: string)

  datatype UpdateTaskInput = UpdateTaskInput(
    title: Option<string>, description: Option<string>, status: Option<string>, priority: Option<string>,
    dueAt: Option<int>, assignees: Option<seq<Assignee>>, tags: Option<seq<string>>,
    assigneeUserId: Option<string>, assigneeName: Option<string>, completed: Option<bool>,
    actor: string, expectedVersion: Option<int>, skipVersionCheck: bool)

  // --- normalising the input ---

  function NormalizeStatus(env: Env, value: string): (s: string)
    ensures s != "" && IsTrimmed(Go, s)
  {
    var s := Trim(Go, env.lower(value));
    if s == "" then "todo" else s
  }

  function NormalizePriority(env: Env, value: string): string {
    var p := Trim(Go, env.lower(value));
    if p == "low" || p == "high" then p else "medium"
  }

  predicate HasUser(list: seq<Assignee>, userId: string) {
    exists a :: a in list && a.userId == userId
  }

  /** Adds the entries of explicit to done: blank and repeated users are skipped, the first
      user the directory does not vouch for fails the call. */
  function ResolveInto(env: Env, done: seq<Assignee>, explicit: seq<Assignee>): (r: Result<seq<Assignee>, Error>)
    decreases |explicit|
  {
    if explicit == [] then Ok(done) else
      var id := Trim(Go, explicit[0].userId);
      if id == "" || HasUser(done, id) then ResolveInto(env, done, explicit[1..])
      else match env.directory(id)
        case Unavailable => Err(Upstream)
        case Unknown => Err(BadRequest)
        case Known => ResolveInto(env, done + [Assignee(id, Trim(Go, explicit[0].displayName))], explicit[1..])
  }

  function Resolved(env: Env, explicit: seq<Assignee>, legacyUserId: string, legacyName: string)
    : Result<seq<Assignee>, Error>
  {
    if explicit != [] then ResolveInto(env, [], explicit)
    else
      var id := Trim(Go, legacyUserId);
      if id == "" then Ok([]) else match env.directory(id)
        case Unavailable => Err(Upstream)
        case Unknown => Err(BadRequest)
        case Known => Ok([Assignee(id, Trim(Go, legacyName))])
  }

  predicate CleanAssignee(env: Env, a: Assignee) {
    a.userId != "" && env.directory(a.userId) == Known && IsTrimmed(Go, a.userId) && IsTrimmed(Go, a.displayName)
  }

  /** Assignees as stored: each user once, known to the directory, with trimmed id and name. */
  ghost predicate CleanAssignees(env: Env, list: seq<Assignee>) {
    && (forall i, j :: 0 <= i < j < |list| ==> list[i].userId != list[j].userId)
    && (forall i :: 0 <= i < |list| ==> CleanAssignee(env, list[i]))
  }

  lemma {:induction false} ResolvedClean(env: Env, done: seq<Assignee>, explicit: seq<Assignee>)
    requires CleanAssignees(env, done)
    ensures var r := ResolveInto(env, done, explicit); r.Ok? ==>
      && CleanAssignees(env, r.value) && done <= r.value
      && forall i :: 0 <= i < |explicit| && Trim(Go, explicit[i].userId) != "" ==>
           HasUser(r.value, Trim(Go, explicit[i].userId))
    decreases |explicit|
  {
    if explicit != [] {
      var id, r := Trim(Go, explicit[0].userId), ResolveInto(env, done, explicit);
      if id == "" {
        ResolvedClean(env, done, explicit[1..]);
      } else if HasUser(done, id) {
        ResolvedClean(env, done, explicit[1..]);
        if r.Ok? {
          var a :| a in done && a.userId == id;
          assert a in r.value;
        }
      } else if env.directory(id) == Known {
        var a := Assignee(id, Trim(Go, explicit[0].displayName));
        ResolvedClean(env, done + [a], explicit[1..]);
        if r.Ok? {
          assert (done + [a])[|done|] == a;
          assert a in r.value;
        }
      }
    }
  }

  lemma UserListed(list: seq<Assignee>, id: string)
    ensures HasUser(list, id) <==> id in UserIds(list)
  {
    if id in UserIds(list) {
      var i :| 0 <= i < |list| && UserIds(list)[i] == id;
      assert list[i] in list;
    }
  }

  lemma {:induction false} ResolvedIntoMentions(env: Env, read: seq<Assignee>, done: seq<Assignee>, explicit: seq<Assignee>)
    requires FirstMentions(Go, read, done)
    ensures var r := ResolveInto(env, done, explicit); r.Ok? ==> FirstMentions(Go, read + explicit, r.value)
    decreases |explicit|
  {
    if explicit == [] {
      assert read + explicit == read;
    } else {
      var a := explicit[0];
      UserListed(done, Trim(Go, a.userId));
      FirstMentionsNext(Go, read, done, a);
      ResolvedIntoMentions(env, read + [a], WithMention(Go, done, a), explicit[1..]);
      assert read + [a] + explicit[1..] == read + explicit;
    }
  }

  /** The directory knows the user; blanks around the id do not count, and a blank id names nobody. */
  predicate Vouched(env: Env, a: Assignee) {
    Trim(Go, a.userId) != "" ==> env.directory(Trim(Go, a.userId)) == Known
  }

  predicate AllVouched(env: Env, list: seq<Assignee>) {
    forall i :: 0 <= i < |list| ==> Vouched(env, list[i])
  }

  lemma {:induction false} ResolveIntoFails(env: Env, done: seq<Assignee>, explicit: seq<Assignee>)
    requires forall a :: a in done ==> env.directory(a.userId) == Known
    ensures var r := ResolveInto(env, done, explicit);
      && (r.Ok? <==> AllVouched(env, explicit))
      && (r.Err? ==> r.error == FirstFailure(env, explicit))
    decreases |explicit|
  {
    if explicit != [] {
      var id := Trim(Go, explicit[0].userId);
      var next := if id == "" || HasUser(done, id) then done else done + [Assignee(id, Trim(Go, explicit[0].displayName))];
      if Vouched(env, explicit[0]) {
        ResolveIntoFails(env, next, explicit[1..]);
        assert forall i :: 0 < i < |explicit| ==> explicit[i] == explicit[1..][i - 1];
      }
    }
  }

  /** What the first user not vouched for makes of the call. */
  function FirstFailure(env: Env, list: seq<Assignee>): Error {
    if list == [] then BadRequest
    else if Vouched(env, list[0]) then FirstFailure(env, list[1..])
    else if env.directory(Trim(Go, list[0].userId)) == Unavailable then Upstream else BadRequest
  }

  /** The assignees a call names: the explicit list, or the legacy pair when there is none. */
  function Asked(explicit: seq<Assignee>, userId: string, name: string): seq<Assignee> {
    if explicit != [] then explicit else [Assignee(userId, name)]
  }

  lemma LegacyAlone(env: Env, userId: string, name: string)
    ensures Resolved(env, [], userId, name) == ResolveInto(env, [], [Assignee(userId, name)])
  {
    var a := Assignee(userId, name);
    var done := [Assignee(Trim(Go, userId), Trim(Go, name))];
    var none: seq<Assignee> := [];
    assert !HasUser(none, Trim(Go, userId));
    assert [a][1..] == none && none + done == done;
    assert ResolveInto(env, done, none) == Ok(done) && ResolveInto(env, none, none) == Ok(none);
  }

  /** The stored list is the first mentions among those asked for; there is one exactly when the directory
      knows them all, and otherwise the first it does not know decides the error. */
  lemma ResolvedMentions(env: Env, explicit: seq<Assignee>, userId: string, name: string)
    ensures var (r, asked) := (Resolved(env, explicit, userId, name), Asked(explicit, userId, name));
      && (r.Ok? <==> AllVouched(env, asked))
      && (r.Ok? ==> FirstMentions(Go, asked, r.value))
      && (r.Err? ==> r.error == FirstFailure(env, asked))
  {
    var asked := Asked(explicit, userId, name);
    assert FirstMentions(Go, [], []);
    ResolvedIntoMentions(env, [], [], asked);
    ResolveIntoFails(env, [], asked);
    assert [] + asked == asked;
    LegacyAlone(env, userId, name);
  }

  // --- what one update does to a task ---

  function WithAssignees(task: Task, list: seq<Assignee>): Task {
    task.(assignees := list,
          assigneeUserId := if list == [] then "" else Trim(Go, list[0].userId),
          assigneeName := if list == [] then "" else Trim(Go, list[0].displayName))
  }

  /** The new assignee list, None when the input leaves the assignees alone. */
  function NewAssignees(env: Env, input: UpdateTaskInput): Option<Result<seq<Assignee>, Error>> {
    if input.assignees.Some? then Some(Resolved(env, input.assignees.value, "", ""))
    else if input.assigneeUserId.Some? then
      var name := if input.assigneeName.Some? then Trim(Go, input.assigneeName.value) else "";
      Some(Resolved(env, [], Trim(Go, input.assigneeUserId.value), name))
    else None
  }

  function NewStatus(env: Env, task: Task, input: UpdateTaskInput): string {
    if input.status.Some? then NormalizeStatus(env, input.status.value) else task.status
  }

  /** Completion after the update: an explicit flag decides, otherwise a done task is complete
      and nothing is ever un-completed. The first completion time is kept. */
  function NewCompletion(env: Env, task: Task, input: UpdateTaskInput, now: int): (Option<int>, string) {
    var time := if task.completedAt.Some? then task.completedAt else Some(now);
    var actor := Trim(Go, input.actor);
    match input.completed
    case Some(true) => (time, actor)
    case Some(false) => (None, "")
    case None =>
      if task.completedAt.None? && NewStatus(env, task, input) == "done" then (time, actor)
      else (task.completedAt, task.completedBy)
  }

  function Or<T>(choice: Option<T>, otherwise: T): T {
    if choice.Some? then choice.value else otherwise
  }

  /** The record an accepted update writes; maxPos is the largest position in the new column. */
  function Patched(env: Env, task: Task, input: UpdateTaskInput, maxPos: int, now: int): Result<Task, Error> {
    var people := NewAssignees(env, input);
    if input.title.Some? && Trim(Go, input.title.value) == "" then Err(BadRequest)
    else if people.Some? && people.value.Err? then Err(people.value.error)
    else
      var t := if people.Some? then WithAssignees(task, people.value.value) else task;
      var status, done := NewStatus(env, task, input), NewCompletion(env, task, input, now);
      Ok(t.(
        title := if input.title.Some? then Trim(Go, input.title.value) else task.title,
        description := if input.description.Some? then Trim(Go, input.description.value) else task.description,
        status := status,
        sortPosition := if status != task.status then maxPos + 1 else task.sortPosition,
        priority := if input.priority.Some? then NormalizePriority(env, input.priority.value) else task.priority,
        dueAt := if input.dueAt.Some? then input.dueAt else task.dueAt,
        tags := if input.tags.Some? then Tags.Normalized(env.lower, input.tags.value) else task.tags,
        completedAt := done.0, completedBy := done.1, updatedAt := now))
  }

  /** The expected version decides about the write, not about the edit. */
  lemma PatchedIgnoresVersion(env: Env, task: Task, input: UpdateTaskInput, expected: Option<int>, maxPos: int, now: int)
    ensures var other := input.(expectedVersion := expected);
      && Patched(env, task, other, maxPos, now) == Patched(env, task, input, maxPos, now)
      && NewStatus(env, task, other) == NewStatus(env, task, input)
  {
    var other := input.(expectedVersion := expected);
    assert NewAssignees(env, other) == NewAssignees(env, input);
    assert NewCompletion(env, task, other, now) == NewCompletion(env, task, input, now);
  }

  // The same edit as the code performs it, one group of fields after the other.

  function TextEdited(task: Task, input: UpdateTaskInput): Result<Task, Error> {
    if input.title.Some? && Trim(Go, input.title.value) == "" then Err(BadRequest) else
      Ok(task.(title := if input.title.Some? then Trim(Go, input.title.value) else task.title,
               description := if input.description.Some? then Trim(Go, input.description.value) else task.description))
  }

  /** The status edit decides completion when it moves an open task to done. */
  predicate CompletedByStatus(env: Env, task: Task, input: UpdateTaskInput) {
    input.status.Some? && NewStatus(env, task, input) == "done" && task.completedAt.None?
  }

  function StatusEdited(env: Env, task: Task, input: UpdateTaskInput, maxPos: int, now: int): Task {
    var status, done := NewStatus(env, task, input), CompletedByStatus(env, task, input);
    task.(status := status,
          sortPosition := if status == task.status then task.sortPosition else maxPos + 1,
          completedAt := if done then Some(now) else task.completedAt,
          completedBy := if done then Trim(Go, input.actor) else task.completedBy)
  }

  function PlainEdited(env: Env, task: Task, input: UpdateTaskInput): Task {
    task.(priority := if input.priority.Some? then NormalizePriority(env, input.priority.value) else task.priority,
          dueAt := if input.dueAt.Some? then input.dueAt else task.dueAt)
  }

  function PeopleEdited(env: Env, task: Task, input: UpdateTaskInput): Result<Task, Error> {
    match NewAssignees(env, input)
    case None => Ok(task)
    case Some(Err(e)) => Err(e)
    case Some(Ok(list)) => Ok(WithAssignees(task, list))
  }

  function TagsEdited(env: Env, task: Task, input: UpdateTaskInput): Task {
    task.(tags := if input.tags.Some? then Tags.Normalized(env.lower, input.tags.value) else task.tags)
  }

  function CompletionEdited(task: Task, input: UpdateTaskInput, decided: bool, now: int): Task {
    match input.completed
    case Some(true) => task.(completedAt := Some(Or(task.completedAt, now)), completedBy := Trim(Go, input.actor))
    case Some(false) => task.(completedAt := None, completedBy := "")
    case None =>
      if !decided && task.completedAt == None && task.status == "done"
      then task.(completedAt := Some(now), completedBy := Trim(Go, input.actor))
      else task
  }

  function Edited(env: Env, task: Task, input: UpdateTaskInput, maxPos: int, now: int): Result<Task, Error> {
    var text := TextEdited(task, input);
    if text.Err? then text else
      var decided := CompletedByStatus(env, text.value, input);
      var t := PlainEdited(env, StatusEdited(env, text.value, input, maxPos, now), input);
      var people := PeopleEdited(env, t, input);
      if people.Err? then people else
        Ok(CompletionEdited(TagsEdited(env, people.value, input), input, decided, now).(updatedAt := now))
  }

  lemma CompletionMatches(env: Env, task: Task, t: Task, input: UpdateTaskInput, now: int)
    requires t.status == NewStatus(env, task, input)
    requires var decided := CompletedByStatus(env, task, input);
      && t.completedAt == (if decided then Some(now) else task.completedAt)
      && t.completedBy == (if decided then Trim(Go, input.actor) else task.completedBy)
    ensures var done := NewCompletion(env, task, input, now);
      CompletionEdited(t, input, CompletedByStatus(env, task, input), now) == t.(completedAt := done.0, completedBy := done.1)
  {
  }

  /** Editing group by group amounts to the one simultaneous change Patched describes: no
      edit disturbs what a later one reads. */
  lemma EditedIsPatched(env: Env, task: Task, input: UpdateTaskInput, maxPos: int, now: int)
    ensures Edited(env, task, input, maxPos, now) == Patched(env, task, input, maxPos, now)
  {
    var text := TextEdited(task, input);
    if text.Ok? {
      var t := PlainEdited(env, StatusEdited(env, text.value, input, maxPos, now), input);
      var people := PeopleEdited(env, t, input);
      if people.Ok? {
        CompletionMatches(env, task, TagsEdited(env, people.value, input), input, now);
      }
    }
  }

  /** The write that ends an update: unconditional, or a swap on the expected version. */
  function Written(tasks: Tasks, task: Task, input: UpdateTaskInput): (Tasks, Result<Task, Error>) {
    if input.skipVersionCheck || input.expectedVersion.None? then Updated(tasks, task)
    else UpdatedIfVersion(tasks, task, input.expectedVersion.value)
  }

  // --- the calls, as functions on the board ---

  function FromCreate(env: Env, input: CreateTaskInput, list: seq<Assignee>, id: string, maxPos: int, now: int): Task {
    var createdBy := if Trim(Go, input.createdBy) == "" then "anonymous" else Trim(Go, input.createdBy);
    var status := NormalizeStatus(env, input.status);
    WithAssignees(
      Task(id, Trim(Go, input.title), Trim(Go, input.description), status, NormalizePriority(env, input.priority),
        input.dueAt, if status == "done" then Some(now) else None, if status == "done" then createdBy else "", createdBy,
        [], Tags.Normalized(env.lower, input.tags), "", "", Trim(Go, input.teamId), Trim(Go, input.projectId),
        maxPos + 1, 1, now, now), list)
  }

  lemma DraftPositioned(env: Env, input: CreateTaskInput, list: seq<Assignee>, id: string, maxPos: int, now: int)
    ensures FromCreate(env, input, list, id, -1, now).(sortPosition := maxPos + 1) == FromCreate(env, input, list, id, maxPos, now)
    ensures FromCreate(env, input, list, id, -1, now).status == NormalizeStatus(env, input.status)
  {
  }

  ghost function CreateTask(env: Env, b: Board, input: CreateTaskInput, id: string, now: int): (Board, Result<Task, Error>) {
    var list := Resolved(env, input.assignees, input.assigneeUserId, input.assigneeName);
    if Trim(Go, input.title) == "" || Trim(Go, input.teamId) == "" || Trim(Go, input.projectId) == "" then
      (b, Err(BadRequest))
    else if list.Err? then (b, Err(list.error))
    else
      var maxPos := MaxPosition(b.tasks, Trim(Go, input.projectId), NormalizeStatus(env, input.status));
      var (tasks, task) := Created(b.tasks, FromCreate(env, input, list.value, id, maxPos, now));
      (b.(tasks := tasks), Ok(task))
  }

  ghost function UpdateTask(env: Env, b: Board, rawId: string, input: UpdateTaskInput, now: int): (Board, Result<Task, Error>) {
    var id := Trim(Go, rawId);
    if id !in b.tasks then (b, Err(NotFound)) else
      var task := b.tasks[id];
      var patched := Patched(env, task, input, MaxPosition(b.tasks, task.projectId, NewStatus(env, task, input)), now);
      if patched.Err? then (b, Err(patched.error)) else
        var (tasks, r) := Written(b.tasks, patched.value, input);
        (b.(tasks := tasks), if r == Err(VersionConflict) then Err(StaleTask(task)) else r)
  }

  /** A successful update replaces exactly one record, by its patch one version up. */
  lemma UpdateReplacesOne(env: Env, b: Board, rawId: string, input: UpdateTaskInput, now: int)
    requires FiledById(b.tasks)
    ensures UpdateTask(env, b, rawId, input, now).1.Err? ==> UpdateTask(env, b, rawId, input, now).0 == b
    ensures UpdateTask(env, b, rawId, input, now).1.Ok? ==>
      var t, id := UpdateTask(env, b, rawId, input, now).1.value, Trim(Go, rawId);
      && id in b.tasks && t.id == id && t.version == b.tasks[id].version + 1
      && UpdateTask(env, b, rawId, input, now).0 == b.(tasks := b.tasks[id := t])
      && Patched(env, b.tasks[id], input, MaxPosition(b.tasks, b.tasks[id].projectId, NewStatus(env, b.tasks[id], input)), now)
           == Ok(t.(version := b.tasks[id].version))
  {
    var id := Trim(Go, rawId);
    if id in b.tasks {
      var task := b.tasks[id];
      var patched := Patched(env, task, input, MaxPosition(b.tasks, task.projectId, NewStatus(env, task, input)), now);
      if patched.Ok? {
        assert patched.value.id == task.id && patched.value.version == task.version;
      }
    }
  }

  function DeleteTask(b: Board, rawId: string): (Board, Result<(), Error>) {
    var id := Trim(Go, rawId);
    if id in b.tasks then (b.(tasks := b.tasks - {id}), Ok(())) else (b, Err(NotFound))
  }

  ghost function ReorderTasks(b: Board, project: string, status: string, ids: seq<string>, now: int): Board {
    b.(tasks := Reordered(b.tasks, Trim(Go, project), Trim(Go, status), ids, now))
  }

  ghost function CreateColumn(b: Board, team: string, project: string, title: string, id: string, now: int)
    : (Board, Result<TaskColumn, Error>)
  {
    if Trim(Go, team) == "" || Trim(Go, project) == "" || Trim(Go, title) == "" then (b, Err(BadRequest)) else
      var c := TaskColumn(id, Trim(Go, team), Trim(Go, project), Trim(Go, title),
        MaxColumnPosition(b.columns, Trim(Go, project)) + 1, 1, now, now);
      (b.(columns := b.columns[id := c]), Ok(c))
  }

  datatype UpdateColumnInput = UpdateColumnInput(title: Option<string>, expectedVersion: Option<int>, skipVersionCheck: bool)

  function UpdateColumn(b: Board, rawId: string, input: UpdateColumnInput, now: int)
    : (Board, Result<TaskColumn, Error>)
  {
    var id := Trim(Go, rawId);
    if id == "" then (b, Err(BadRequest))
    else if id !in b.columns then (b, Err(NotFound))
    else if input.title.Some? && Trim(Go, input.title.value) == "" then (b, Err(BadRequest))
    else
      var c := b.columns[id].(title := if input.title.Some? then Trim(Go, input.title.value) else b.columns[id].title, updatedAt := now);
      var (columns, r) := if input.skipVersionCheck || input.expectedVersion.None? then ColumnUpdated(b.columns, c)
                          else ColumnUpdatedIfVersion(b.columns, c, input.expectedVersion.value);
      (b.(columns := columns), if r == Err(VersionConflict) then Err(StaleColumn(b.columns[id])) else r)
  }

  ghost function DeleteColumn(b: Board, rawId: string): (Board, Result<(), Error>) {
    var id := Trim(Go, rawId);
    if id == "" then (b, Err(BadRequest))
    else if id !in b.columns then (b, Err(NotFound))
    else if ColumnIds(b.tasks, Trim(Go, b.columns[id].projectId), Trim(Go, id)) != {} then (b, Err(BadRequest))
    else (b.(columns := b.columns - {id}), Ok(()))
  }

  // --- reordering columns ---

  function IdsOf(listing: seq<TaskColumn>): (r: seq<string>)
    ensures |r| == |listing| && forall i :: 0 <= i < |r| ==> r[i] == listing[i].id
  {
    seq(|listing|, i requires 0 <= i < |listing| => listing[i].id)
  }

  /** The requested ids that name a known column, first occurrences, in request order. */
  function Requested(known: seq<string>, ids: seq<string>): seq<string> {
    if ids == [] then [] else
      var r, id := Requested(known, ids[..|ids| - 1]), Trim(Go, ids[|ids| - 1]);
      if id in known && id !in r && id != "" then r + [id] else r
  }

  /** The elements of xs that are not in ys, in order. */
  function Without(xs: seq<string>, ys: seq<string>): seq<string> {
    if xs == [] then [] else
      Without(xs[..|xs| - 1], ys) + if xs[|xs| - 1] in ys then [] else [xs[|xs| - 1]]
  }

  /** Requested columns first, the others behind them in their old order. */
  function FinalOrder(known: seq<string>, ids: seq<string>): seq<string> {
    Requested(known, ids) + Without(known, Requested(known, ids))
  }

  function MovedColumn(c: TaskColumn, position: int, now: int): TaskColumn {
    c.(position := position, updatedAt := now, version := c.version + 1)
  }

  function ColumnsRenumbered(columns: Columns, order: seq<string>, now: int): (r: Columns)
    ensures r.Keys == columns.Keys
  {
    map id | id in columns :: if id in order then MovedColumn(columns[id], IndexOf(order, id), now) else columns[id]
  }

  predicate VersionsMatch(listing: seq<TaskColumn>, expected: map<string, int>) {
    forall c :: c in listing && c.id in expected ==> c.version == expected[c.id]
  }

  /** The outcome of a column reorder, given the listing the call worked from. */
  function ReorderColumns(b: Board, listing: seq<TaskColumn>, ids: seq<string>, expected: map<string, int>, now: int)
    : (Board, Result<(), Error>)
  {
    if listing == [] then (b, Ok(()))
    else if !VersionsMatch(listing, expected) then (b, Err(StaleColumns(listing)))
    else (b.(columns := ColumnsRenumbered(b.columns, FinalOrder(IdsOf(listing), ids), now)), Ok(()))
  }

  // --- the service object ---

  class Service {
    const repo: InMemoryTaskRepository
    const env: Env

    constructor (repo: InMemoryTaskRepository, env: Env)
      ensures this.repo == repo && this.env == env
    {
      this.repo, this.env := repo, env;
    }

    ghost function View(): Board
      reads repo
    {
      Board(repo.tasks, repo.columns)
    }

    method ResolveAssignees(explicit: seq<Assignee>, legacyUserId: string, legacyName: string)
      returns (r: Result<seq<Assignee>, Error>)
      ensures r == Resolved(env, explicit, legacyUserId, legacyName)
    {
      if |explicit| == 0 {
        var id := Trim(Go, legacyUserId);
        if id == "" {
          return Ok([]);
        }
        match env.directory(id) {
          case Unavailable => return Err(Upstream);
          case Unknown => return Err(BadRequest);
          case Known => return Ok([Assignee(id, Trim(Go, legacyName))]);
        }
      }
      var seen: set<string> := {};
      var out: seq<Assignee> := [];
      for i := 0 to |explicit|
        invariant forall id :: id in seen <==> HasUser(out, id)
        invariant ResolveInto(env, [], explicit) == ResolveInto(env, out, explicit[i..])
      {
        assert explicit[i..][1..] == explicit[i + 1..];
        var id := Trim(Go, explicit[i].userId);
        if id == "" || id in seen {
          continue;
        }
        seen := seen + {id};
        match env.directory(id) {
          case Unavailable => return Err(Upstream);
          case Unknown => return Err(BadRequest);
          case Known =>
        }
        out := out + [Assignee(id, Trim(Go, explicit[i].displayName))];
      }
      r := Ok(out);
    }

    method Create(input: CreateTaskInput, id: string, now: int) returns (r: Result<Task, Error>)
      requires repo.Valid()
      modifies repo`tasks
      ensures repo.Valid()
      ensures (View(), r) == CreateTask(env, old(View()), input, id, now)
    {
      var title := Trim(Go, input.title);
      if title == "" {
        return Err(BadRequest);
      }
      var teamID, projectID := Trim(Go, input.teamId), Trim(Go, input.projectId);
      if teamID == "" || projectID == "" {
        return Err(BadRequest);
      }
      var assignees := ResolveAssignees(input.assignees, input.assigneeUserId, input.assigneeName);
      if assignees.Err? {
        return Err(assignees.error);
      }
      var task := Draft(input, assignees.value, id, now);
      var maxPos := repo.MaxSortPosition(projectID, task.status);
      DraftPositioned(env, input, assignees.value, id, maxPos, now);
      task := task.(sortPosition := maxPos + 1);
      var created := repo.Create(task);
      r := Ok(created);
    }

    /** The new task before it gets a position. */
    method Draft(input: CreateTaskInput, assignees: seq<Assignee>, id: string, now: int) returns (task: Task)
      ensures task == FromCreate(env, input, assignees, id, -1, now)
    {
      var createdBy := Trim(Go, input.createdBy);
      if createdBy == "" {
        createdBy := "anonymous";
      }
      var tags := Tags.NormalizeTaskTags(env.lower, input.tags);
      task := Task(id, Trim(Go, input.title), Trim(Go, input.description), NormalizeStatus(env, input.status),
        NormalizePriority(env, input.priority), input.dueAt, None, "", createdBy, assignees, tags, "", "",
        Trim(Go, input.teamId), Trim(Go, input.projectId), 0, 1, now, now);
      task := WithAssignees(task, task.assignees);
      if task.status == "done" {
        task := task.(completedAt := Some(now), completedBy := createdBy);
      }
    }

    method Update(rawId: string, input: UpdateTaskInput, now: int) returns (r: Result<Task, Error>)
      requires repo.Valid()
      modifies repo`tasks
      ensures repo.Valid()
      ensures (View(), r) == UpdateTask(env, old(View()), rawId, input, now)
    {
      var id := Trim(Go, rawId);
      var found := repo.GetByID(id);
      if found.Err? {
        return Err(found.error);
      }
      var edited := Edit(found.value, input, now);
      if edited.Err? {
        return Err(edited.error);
      }
      if input.skipVersionCheck || input.expectedVersion == None {
        r := repo.Update(edited.value);
      } else {
        r := repo.UpdateIfVersion(edited.value, input.expectedVersion.value);
      }
      if r == Err(VersionConflict) {
        var latest := repo.GetByID(id);
        assert latest.Ok?;  // nothing runs in between: the call is one step here
        return Err(StaleTask(latest.value));
      }
    }

    /** The field-by-field edit of a task that an update read. */
    method Edit(task: Task, input: UpdateTaskInput, now: int) returns (r: Result<Task, Error>)
      requires repo.Valid()
      ensures r == Patched(env, task, input, MaxPosition(repo.tasks, task.projectId, NewStatus(env, task, input)), now)
    {
      ghost var maxPos := MaxPosition(repo.tasks, task.projectId, NewStatus(env, task, input));
      EditedIsPatched(env, task, input, maxPos, now);
      var text := EditText(task, input);
      if text.Err? {
        return text;
      }
      var current, decided := EditStatus(text.value, input, now);
      current := EditPlain(current, input);
      var people := EditPeople(current, input);
      if people.Err? {
        return people;
      }
      current := EditTags(people.value, input);
      current := EditCompletion(current, input, decided, now);
      r := Ok(current.(updatedAt := now));
    }

    method EditTags(task: Task, input: UpdateTaskInput) returns (r: Task)
      ensures r == TagsEdited(env, task, input)
    {
      r := task;
      if input.tags.Some? {
        var tags := Tags.NormalizeTaskTags(env.lower, input.tags.value);
        r := r.(tags := tags);
      }
    }

    method EditPlain(task: Task, input: UpdateTaskInput) returns (r: Task)
      ensures r == PlainEdited(env, task, input)
    {
      r := task;
      if input.priority.Some? {
        r := r.(priority := NormalizePriority(env, input.priority.value));
      }
      if input.dueAt.Some? {
        r := r.(dueAt := input.dueAt);
      }
    }

    method EditText(task: Task, input: UpdateTaskInput) returns (r: Result<Task, Error>)
      ensures r == TextEdited(task, input)
    {
      var current := task;
      if input.title.Some? {
        var title := Trim(Go, input.title.value);
        if title == "" {
          return Err(BadRequest);
        }
        current := current.(title := title);
      }
      if input.description.Some? {
        current := current.(description := Trim(Go, input.description.value));
      }
      r := Ok(current);
    }

    method EditStatus(task: Task, input: UpdateTaskInput, now: int) returns (r: Task, explicit: bool)
      requires repo.Valid()
      ensures explicit == CompletedByStatus(env, task, input)
      ensures r == StatusEdited(env, task, input, MaxPosition(repo.tasks, task.projectId, NewStatus(env, task, input)), now)
    {
      r, explicit := task, false;
      if input.status.Some? {
        var nextStatus := NormalizeStatus(env, input.status.value);
        if nextStatus != r.status {
          var maxPos := repo.MaxSortPosition(Trim(Go, r.projectId), nextStatus);
          r := r.(sortPosition := maxPos + 1);
        }
        r := r.(status := nextStatus);
        if r.status == "done" && r.completedAt == None {
          r := r.(completedAt := Some(now), completedBy := Trim(Go, input.actor));
          explicit := true;
        }
      }
    }

    method EditPeople(task: Task, input: UpdateTaskInput) returns (r: Result<Task, Error>)
      ensures r == PeopleEdited(env, task, input)
    {
      var legacyName := "";
      if input.assigneeName.Some? {
        legacyName := Trim(Go, input.assigneeName.value);
      }
      var list: Result<seq<Assignee>, Error>;
      if input.assignees.Some? {
        list := ResolveAssignees(input.assignees.value, "", "");
      } else if input.assigneeUserId.Some? {
        list := ResolveAssignees([], Trim(Go, input.assigneeUserId.value), legacyName);
      } else {
        return Ok(task);
      }
      if list.Err? {
        return Err(list.error);
      }
      r := Ok(WithAssignees(task, list.value));
    }

    /** explicit: completion was already decided by the status edit. */
    method EditCompletion(task: Task, input: UpdateTaskInput, explicit: bool, now: int) returns (r: Task)
      ensures r == CompletionEdited(task, input, explicit, now)
    {
      r := task;
      var decided := explicit;
      if input.completed.Some? {
        decided := true;
        if input.completed.value {
          if r.completedAt == None {
            r := r.(completedAt := Some(now));
          }
          r := r.(completedBy := Trim(Go, input.actor));
        } else {
          r := r.(completedAt := None, completedBy := "");
        }
      }
      if !decided && r.completedAt == None && r.status == "done" {
        r := r.(completedAt := Some(now), completedBy := Trim(Go, input.actor));
      }
    }

    method Delete(rawId: string) returns (r: Result<(), Error>)
      requires repo.Valid()
      modifies repo`tasks
      ensures repo.Valid()
      ensures (View(), r) == DeleteTask(old(View()), rawId)
    {
      var id := Trim(Go, rawId);
      var current := repo.GetByID(id);
      if current.Err? {
        return Err(current.error);
      }
      r := repo.Delete(id);
    }

    method ReorderTasksInColumn(projectID: string, columnStatus: string, orderedIDs: seq<string>, now: int)
      returns (r: Result<seq<Task>, Error>)
      requires repo.Valid()
      modifies repo`tasks
      ensures repo.Valid()
      ensures View() == ReorderTasks(old(View()), projectID, columnStatus, orderedIDs, now)
      ensures r.Ok? <==> ReorderAccepted(old(repo.tasks), projectID, columnStatus, orderedIDs)
      ensures r.Err? ==> r.error == BadRequest
    {
      var project, status := Trim(Go, projectID), Trim(Go, columnStatus);
      if project == "" || status == "" || |orderedIDs| == 0 {
        return Err(BadRequest);
      }
      r := repo.ReorderTasksInColumn(project, status, orderedIDs, now);
      if r == Err(InvalidReorder) {
        return Err(BadRequest);
      }
    }

    method CreateNewColumn(teamId: string, projectId: string, rawTitle: string, id: string, now: int)
      returns (r: Result<TaskColumn, Error>)
      requires repo.Valid()
      modifies repo`columns
      ensures repo.Valid()
      ensures (View(), r) == CreateColumn(old(View()), teamId, projectId, rawTitle, id, now)
    {
      var team, project, title := Trim(Go, teamId), Trim(Go, projectId), Trim(Go, rawTitle);
      if team == "" || project == "" || title == "" {
        return Err(BadRequest);
      }
      var maxPosition := repo.GetMaxColumnPosition(project);
      var created := repo.CreateColumn(TaskColumn(id, team, project, title, maxPosition + 1, 1, now, now));
      r := Ok(created);
    }

    method RenameColumn(rawId: string, input: UpdateColumnInput, now: int)
      returns (r: Result<TaskColumn, Error>)
      requires repo.Valid()
      modifies repo`columns
      ensures repo.Valid()
      ensures (View(), r) == UpdateColumn(old(View()), rawId, input, now)
    {
      var id := Trim(Go, rawId);
      if id == "" {
        return Err(BadRequest);
      }
      var found := repo.GetColumnByID(id);
      if found.Err? {
        return Err(found.error);
      }
      var current := found.value;
      if input.title.Some? {
        if Trim(Go, input.title.value) == "" {
          return Err(BadRequest);
        }
        current := current.(title := Trim(Go, input.title.value));
      }
      current := current.(updatedAt := now);
      if input.skipVersionCheck || input.expectedVersion == None {
        r := repo.UpdateColumn(current);
      } else {
        r := repo.UpdateColumnIfVersion(current, input.expectedVersion.value);
      }
      if r == Err(VersionConflict) {
        var latest := repo.GetColumnByID(id);
        assert latest.Ok?;
        return Err(StaleColumn(latest.value));
      }
    }

    method RemoveColumn(rawId: string) returns (r: Result<(), Error>)
      requires repo.Valid()
      modifies repo`columns
      ensures repo.Valid()
      ensures (View(), r) == DeleteColumn(old(View()), rawId)
    {
      var id := Trim(Go, rawId);
      if id == "" {
        return Err(BadRequest);
      }
      var column := repo.GetColumnByID(id);
      if column.Err? {
        return Err(column.error);
      }
      var count := repo.CountByProjectAndStatus(column.value.projectId, column.value.id);
      if count > 0 {
        return Err(BadRequest);
      }
      r := repo.DeleteColumn(id);
    }

    method ReorderProjectColumns(projectID: string, orderedIDs: seq<string>, expectedVersions: map<string, int>, now: int)
      returns (r: Result<(), Error>)
      requires repo.Valid()
      modifies repo`columns
      ensures repo.Valid()
      ensures Trim(Go, projectID) == "" ==> r == Err(BadRequest) && View() == old(View())
      ensures Trim(Go, projectID) != "" ==> exists listing ::
        && IsColumnListing(old(repo.columns), Trim(Go, projectID), listing)
        && (View(), r) == ReorderColumns(old(View()), listing, orderedIDs, expectedVersions, now)
    {
      var project := Trim(Go, projectID);
      if project == "" {
        return Err(BadRequest);
      }
      var listing := repo.ListColumnsByProject(project);
      if |listing| == 0 {
        assert View() == old(View());
        return Ok(());
      }
      for i := 0 to |listing|
        invariant forall j :: 0 <= j < i && listing[j].id in expectedVersions ==> listing[j].version == expectedVersions[listing[j].id]
      {
        var column := listing[i];
        if column.id in expectedVersions && column.version != expectedVersions[column.id] {
          assert !VersionsMatch(listing, expectedVersions);
          return Err(StaleColumns(listing));
        }
      }
      var finalOrder := OrderColumns(listing, orderedIDs);
      ListingIds(repo.columns, project, listing);
      FinalOrderPermutes(IdsOf(listing), orderedIDs);
      ApplyOrder(finalOrder, now);
      r := Ok(());
    }

    method OrderColumns(listing: seq<TaskColumn>, orderedIDs: seq<string>) returns (finalOrder: seq<string>)
      ensures finalOrder == FinalOrder(IdsOf(listing), orderedIDs)
    {
      var known := IdsOf(listing);
      var used: set<string> := {};
      finalOrder := [];
      for i := 0 to |orderedIDs|
        invariant finalOrder == Requested(known, orderedIDs[..i])
        invariant used == Elements(finalOrder)
      {
        assert orderedIDs[..i + 1][..i] == orderedIDs[..i];
        var id := Trim(Go, orderedIDs[i]);
        if id == "" || id !in known || id in used {
          continue;
        }
        used := used + {id};
        finalOrder := finalOrder + [id];
      }
      assert orderedIDs[..|orderedIDs|] == orderedIDs;
      ghost var requested := finalOrder;
      for i := 0 to |listing|
        invariant finalOrder == requested + Without(known[..i], requested)
      {
        assert known[..i + 1][..i] == known[..i];
        if listing[i].id in used {
          continue;
        }
        finalOrder := finalOrder + [listing[i].id];
      }
      assert known[..|listing|] == known;
    }

    method ApplyOrder(order: seq<string>, now: int)
      requires repo.Valid()
      requires NoDup(order) && forall id :: id in order ==> id in repo.columns
      modifies repo`columns
      ensures repo.Valid()
      ensures repo.columns == ColumnsRenumbered(old(repo.columns), order, now)
    {
      ghost var before := repo.columns;
      for i := 0 to |order|
        invariant repo.Valid()
        invariant repo.columns == ColumnsRenumbered(before, order[..i], now)
      {
        ColumnsRenumberedStep(before, order, i, now);
        var moved := repo.UpdateColumnPosition(order[i], i, now);
      }
      assert order[..|order|] == order;
    }
  }

  lemma ColumnsRenumberedStep(columns: Columns, xs: seq<string>, i: nat, now: int)
    requires NoDup(xs) && i < |xs| && xs[i] in columns
    ensures ColumnsRenumbered(columns, xs[..i], now)[xs[i]] == columns[xs[i]]
    ensures ColumnsRenumbered(columns, xs[..i + 1], now) ==
      ColumnsRenumbered(columns, xs[..i], now)[xs[i] := MovedColumn(columns[xs[i]], i, now)]
  {
    assert xs[..i + 1] == xs[..i] + [xs[i]];
    var a, b := ColumnsRenumbered(columns, xs[..i + 1], now), ColumnsRenumbered(columns, xs[..i], now);
    forall id | id in columns
      ensures a[id] == if id == xs[i] then MovedColumn(columns[id], i, now) else b[id]
    {
      if id in xs[..i + 1] {
        IndexUnique(xs[..i + 1], IndexOf(xs[..i + 1], id), id);
        if id in xs[..i] {
          IndexUnique(xs[..i + 1], IndexOf(xs[..i], id), id);
        } else {
          IndexUnique(xs[..i + 1], i, id);
        }
      }
    }
  }

  ghost function ProjectColumnIds(columns: Columns, project: string): set<string> {
    set id | id in columns && columns[id].projectId == project
  }

  lemma ListingIds(columns: Columns, project: string, listing: seq<TaskColumn>)
    requires ColumnsFiledById(columns) && IsColumnListing(columns, project, listing)
    ensures Lists(IdsOf(listing), ProjectColumnIds(columns, project))
    ensures forall c :: c in listing ==> c.id in columns && columns[c.id] == c
  {
    forall c | c in listing
      ensures c.id in columns && columns[c.id] == c && c.projectId == project
    {
      assert c in ProjectColumns(columns, project);
    }
    var ids := IdsOf(listing);
    forall id
      ensures id in ids <==> id in ProjectColumnIds(columns, project)
    {
      if id in ids {
        var i :| 0 <= i < |ids| && ids[i] == id;
        assert listing[i] in listing;
      }
      if id in ProjectColumnIds(columns, project) {
        assert columns[id] in ProjectColumns(columns, project);
        var i :| 0 <= i < |listing| && listing[i] == columns[id];
        assert ids[i] == id;
      }
    }
    forall i, j | 0 <= i < j < |ids|
      ensures ids[i] != ids[j]
    {
      assert listing[i] in listing && listing[j] in listing;
    }
  }

  lemma {:induction false} RequestedFacts(known: seq<string>, ids: seq<string>)
    ensures NoDup(Requested(known, ids))
    ensures forall x :: x in Requested(known, ids) <==> x in known && x != "" && x in TrimAll(Go, ids)
  {
    if ids != [] {
      var init := ids[..|ids| - 1];
      RequestedFacts(known, init);
      assert TrimAll(Go, ids) == TrimAll(Go, init) + [Trim(Go, ids[|ids| - 1])];
    }
  }

  lemma {:induction false} WithoutFacts(xs: seq<string>, ys: seq<string>)
    ensures forall x :: x in Without(xs, ys) <==> x in xs && x !in ys
    ensures NoDup(xs) ==> NoDup(Without(xs, ys))
  {
    if xs != [] {
      WithoutFacts(xs[..|xs| - 1], ys);
      assert xs == xs[..|xs| - 1] + [xs[|xs| - 1]];
    }
  }

  /** Whatever was requested, the final order is a permutation of the project's columns. */
  lemma FinalOrderPermutes(known: seq<string>, ids: seq<string>)
    requires NoDup(known)
    ensures Lists(FinalOrder(known, ids), Elements(known))
  {
    var requested, order := Requested(known, ids), FinalOrder(known, ids);
    RequestedFacts(known, ids);
    WithoutFacts(known, requested);
    forall i, j | 0 <= i < j < |order|
      ensures order[i] != order[j]
    {
      if i < |requested| <= j {
        assert order[i] in requested && order[j] in Without(known, requested);
      }
    }
  }

  // --- what an update promises ---

  /** An update is accepted unless its title is blank or its assignees do not resolve. */
  predicate Acceptable(env: Env, input: UpdateTaskInput) {
    && (input.title.Some? ==> Trim(Go, input.title.value) != "")
    && (NewAssignees(env, input).Some? ==> NewAssignees(env, input).value.Ok?)
  }

  lemma AcceptableIsPatched(env: Env, task: Task, input: UpdateTaskInput, maxPos: int, now: int)
    ensures Patched(env, task, input, maxPos, now).Ok? <==> Acceptable(env, input)
  {
  }

  /** A status as stored: in lower case and trimmed, with "todo" for a blank one. */
  predicate StoresStatus(env: Env, asked: string, stored: string) {
    var s := Trim(Go, env.lower(asked));
    (s != "" ==> stored == s) && (s == "" ==> stored == "todo")
  }

  /** A priority as stored: low and high, however spelt, and medium for anything else. */
  predicate StoresPriority(env: Env, asked: string, stored: string) {
    var p := Trim(Go, env.lower(asked));
    && (stored == "low" <==> p == "low") && (stored == "high" <==> p == "high")
    && (stored == "low" || stored == "high" || stored == "medium")
  }

  /** The list stored is the one asked for, with its first entry in the legacy fields. */
  ghost predicate StoresPeople(asked: seq<Assignee>, t: Task) {
    && FirstMentions(Go, asked, t.assignees)
    && (t.assignees != [] ==> t.assigneeUserId == t.assignees[0].userId && t.assigneeName == t.assignees[0].displayName)
    && (t.assignees == [] ==> t.assigneeUserId == t.assigneeName == "")
  }

  /** At the end of its column: behind every other task that is there. */
  ghost predicate LastIn(tasks: Tasks, project: string, status: string, position: int) {
    && (forall id :: id in tasks && InColumn(tasks[id], project, status) ==> tasks[id].sortPosition < position)
    && (position == 0 || exists id :: id in tasks && InColumn(tasks[id], project, status) && tasks[id].sortPosition == position - 1)
  }

  /** What a created task holds. */
  ghost predicate StoresCreated(env: Env, input: CreateTaskInput, id: string, now: int, t: Task) {
    && t.id == id && t.title == Trim(Go, input.title) && t.description == Trim(Go, input.description)
    && StoresStatus(env, input.status, t.status) && StoresPriority(env, input.priority, t.priority)
    && t.dueAt == input.dueAt && t.teamId == Trim(Go, input.teamId) && t.projectId == Trim(Go, input.projectId)
    && t.createdBy == (if Trim(Go, input.createdBy) == "" then "anonymous" else Trim(Go, input.createdBy))
    && StoresPeople(Asked(input.assignees, input.assigneeUserId, input.assigneeName), t)
    && t.tags == Tags.Normalized(env.lower, input.tags)
    && (t.status == "done" ==> t.completedAt == Some(now) && t.completedBy == t.createdBy)
    && (t.status != "done" ==> t.completedAt == None && t.completedBy == "")
    && t.version == 1 && t.createdAt == t.updatedAt == now
  }

  predicate CreatesTask(env: Env, input: CreateTaskInput) {
    && Trim(Go, input.title) != "" && Trim(Go, input.teamId) != "" && Trim(Go, input.projectId) != ""
    && AllVouched(env, Asked(input.assignees, input.assigneeUserId, input.assigneeName))
  }

  lemma AfterLargest(tasks: Tasks, project: string, status: string)
    requires Trim(Go, project) == project != "" && Trim(Go, status) == status != ""
    ensures LastIn(tasks, project, status, MaxPosition(tasks, project, status) + 1)
  {
    var max := MaxPosition(tasks, project, status);
    if max != -1 {
      assert max in PositionsIn(tasks, project, status);
    }
  }

  lemma PeopleStoredFor(task: Task, asked: seq<Assignee>, list: seq<Assignee>)
    requires FirstMentions(Go, asked, list)
    ensures StoresPeople(asked, WithAssignees(task, list))
  {
    if list != [] {
      assert list[0] in list && UserIds(list)[0] in UserIds(list);
    }
  }

  lemma DraftStores(env: Env, input: CreateTaskInput, list: seq<Assignee>, id: string, maxPos: int, now: int)
    requires FirstMentions(Go, Asked(input.assignees, input.assigneeUserId, input.assigneeName), list)
    ensures StoresCreated(env, input, id, now, FromCreate(env, input, list, id, maxPos, now))
  {
    var t := FromCreate(env, input, list, id, maxPos, now);
    PeopleStoredFor(t, Asked(input.assignees, input.assigneeUserId, input.assigneeName), list);
    assert t == WithAssignees(t, list);
  }

  /** A creation succeeds exactly when title, team and project are given and the directory knows the
      assignees. It then adds one task, as asked for, at the end of its column, and nothing else changes. */
  lemma CreateStores(env: Env, b: Board, input: CreateTaskInput, id: string, now: int)
    ensures var (b', r) := CreateTask(env, b, input, id, now);
      && (r.Ok? <==> CreatesTask(env, input)) && (r.Err? ==> b' == b)
      && (r.Err? && r.error != BadRequest ==>
           r.error == FirstFailure(env, Asked(input.assignees, input.assigneeUserId, input.assigneeName)))
      && (r.Ok? ==> b' == b.(tasks := b.tasks[id := r.value]) && StoresCreated(env, input, id, now, r.value)
                    && LastIn(b.tasks, r.value.projectId, r.value.status, r.value.sortPosition))
  {
    ResolvedMentions(env, input.assignees, input.assigneeUserId, input.assigneeName);
    if CreatesTask(env, input) {
      var list := Resolved(env, input.assignees, input.assigneeUserId, input.assigneeName);
      var maxPos := MaxPosition(b.tasks, Trim(Go, input.projectId), NormalizeStatus(env, input.status));
      DraftStores(env, input, list.value, id, maxPos, now);
      AfterLargest(b.tasks, Trim(Go, input.projectId), NormalizeStatus(env, input.status));
    }
  }

  /** The list an update asks for, None when it leaves the assignees alone; a legacy id without a list
      stands for itself. */
  function AskedOf(input: UpdateTaskInput): Option<seq<Assignee>> {
    if input.assignees.Some? then Some(Asked(input.assignees.value, "", ""))
    else if input.assigneeUserId.Some? then
      Some([Assignee(input.assigneeUserId.value, if input.assigneeName.Some? then input.assigneeName.value else "")])
    else None
  }

  /** What an updated task holds in the fields the update is about. */
  ghost predicate StoresUpdated(env: Env, input: UpdateTaskInput, now: int, t: Task) {
    && (input.title.Some? ==> t.title == Trim(Go, input.title.value))
    && (input.description.Some? ==> t.description == Trim(Go, input.description.value))
    && (input.status.Some? ==> StoresStatus(env, input.status.value, t.status))
    && (input.priority.Some? ==> StoresPriority(env, input.priority.value, t.priority))
    && (input.dueAt.Some? ==> t.dueAt == input.dueAt)
    && (input.tags.Some? ==> t.tags == Tags.Normalized(env.lower, input.tags.value))
    && (AskedOf(input).Some? ==> StoresPeople(AskedOf(input).value, t))
    && t.updatedAt == now
  }

  /** Who an update credits with the completion: the actor who sets the flag, or whose update first finds
      the task done. */
  ghost predicate StoresCompleter(input: UpdateTaskInput, before: Task, t: Task) {
    && (input.completed == Some(true) ==> t.completedBy == Trim(Go, input.actor))
    && (input.completed == Some(false) ==> t.completedBy == "")
    && (input.completed == None && before.completedAt.None? && t.status == "done" ==> t.completedBy == Trim(Go, input.actor))
  }

  predicate UpdatesTask(env: Env, input: UpdateTaskInput) {
    && (input.title.Some? ==> Trim(Go, input.title.value) != "")
    && (AskedOf(input).Some? ==> AllVouched(env, AskedOf(input).value))
  }

  /** The write goes through: no version is asked for, or it is the stored one. */
  predicate VersionAgrees(input: UpdateTaskInput, stored: Task) {
    input.skipVersionCheck || input.expectedVersion == None || input.expectedVersion == Some(stored.version)
  }

  lemma NewAssigneesAsked(env: Env, input: UpdateTaskInput)
    ensures NewAssignees(env, input).Some? <==> AskedOf(input).Some?
    ensures AskedOf(input).Some? ==> (NewAssignees(env, input).value.Ok? <==> AllVouched(env, AskedOf(input).value))
    ensures AskedOf(input).Some? && NewAssignees(env, input).value.Err? ==>
      NewAssignees(env, input).value.error == FirstFailure(env, AskedOf(input).value)
    ensures AskedOf(input).Some? && NewAssignees(env, input).value.Ok? ==>
      FirstMentions(Go, AskedOf(input).value, NewAssignees(env, input).value.value)
  {
    if input.assignees.Some? {
      ResolvedMentions(env, input.assignees.value, "", "");
    } else if input.assigneeUserId.Some? {
      var name := if input.assigneeName.Some? then input.assigneeName.value else "";
      ResolvedMentions(env, [], input.assigneeUserId.value, name);
      TrimmedTwice(env, input.assigneeUserId.value, name);
    }
  }

  lemma TrimmedTwice(env: Env, userId: string, name: string)
    ensures Resolved(env, [], Trim(Go, userId), Trim(Go, name)) == Resolved(env, [], userId, name)
  {
  }

  lemma PatchStores(env: Env, task: Task, input: UpdateTaskInput, maxPos: int, now: int)
    ensures var r := Patched(env, task, input, maxPos, now);
      && (r.Ok? <==> UpdatesTask(env, input))
      && (r.Ok? ==> StoresUpdated(env, input, now, r.value) && StoresCompleter(input, task, r.value))
  {
    NewAssigneesAsked(env, input);
    var people := NewAssignees(env, input);
    if people.Some? && people.value.Ok? {
      PeopleStoredFor(task, AskedOf(input).value, people.value.value);
    }
  }

  lemma VersionAside(env: Env, input: UpdateTaskInput, now: int, before: Task, t: Task, version: int)
    requires StoresUpdated(env, input, now, t.(version := version)) && StoresCompleter(input, before, t.(version := version))
    ensures StoresUpdated(env, input, now, t) && StoresCompleter(input, before, t)
  {
  }

  lemma WriteSucceeds(tasks: Tasks, task: Task, input: UpdateTaskInput)
    requires task.id in tasks
    ensures Written(tasks, task, input).1.Ok? <==> VersionAgrees(input, tasks[task.id])
    ensures Written(tasks, task, input).1.Err? ==> Written(tasks, task, input).1.error == VersionConflict
  {
  }

  lemma UpdateSucceeds(env: Env, b: Board, rawId: string, input: UpdateTaskInput, now: int)
    requires FiledById(b.tasks)
    ensures var id := Trim(Go, rawId);
      UpdateTask(env, b, rawId, input, now).1.Ok? <==> id in b.tasks && UpdatesTask(env, input) && VersionAgrees(input, b.tasks[id])
  {
    var id := Trim(Go, rawId);
    if id in b.tasks {
      var task := b.tasks[id];
      var patched := Patched(env, task, input, MaxPosition(b.tasks, task.projectId, NewStatus(env, task, input)), now);
      PatchStores(env, task, input, MaxPosition(b.tasks, task.projectId, NewStatus(env, task, input)), now);
      if patched.Ok? {
        assert patched.value.id == id;
        WriteSucceeds(b.tasks, patched.value, input);
      }
    }
  }

  /** An update succeeds exactly when the task is there, the title is not blank, the directory knows the
      assignees and the version agrees; the task then holds what was asked for, and has moved to the end of
      its column if its status changed. */
  lemma UpdateStores(env: Env, b: Board, rawId: string, input: UpdateTaskInput, now: int)
    requires FiledById(b.tasks)
    ensures var (id, (b', r)) := (Trim(Go, rawId), UpdateTask(env, b, rawId, input, now));
      && (r.Ok? <==> id in b.tasks && UpdatesTask(env, input) && VersionAgrees(input, b.tasks[id]))
      && (r.Ok? ==> StoresUpdated(env, input, now, r.value) && StoresCompleter(input, b.tasks[id], r.value))
      && (r.Ok? && r.value.status != b.tasks[id].status ==>
           r.value.sortPosition == MaxPosition(b.tasks, r.value.projectId, r.value.status) + 1)
  {
    var id := Trim(Go, rawId);
    if id in b.tasks {
      var task := b.tasks[id];
      PatchStores(env, task, input, MaxPosition(b.tasks, task.projectId, NewStatus(env, task, input)), now);
      UpdateSucceeds(env, b, rawId, input, now);
      UpdateReplacesOne(env, b, rawId, input, now);
      if UpdateTask(env, b, rawId, input, now).1.Ok? {
        VersionAside(env, input, now, task, UpdateTask(env, b, rawId, input, now).1.value, task.version);
      }
    }
  }

  lemma PatchFails(env: Env, task: Task, input: UpdateTaskInput, maxPos: int, now: int)
    ensures var r := Patched(env, task, input, maxPos, now); r.Err? ==>
      if input.title.Some? && Trim(Go, input.title.value) == "" then r.error == BadRequest
      else AskedOf(input).Some? && r.error == FirstFailure(env, AskedOf(input).value)
  {
    NewAssigneesAsked(env, input);
  }

  /** Why an update fails, when it does. */
  lemma UpdateFails(env: Env, b: Board, rawId: string, input: UpdateTaskInput, now: int)
    requires FiledById(b.tasks)
    ensures var (id, (b', r)) := (Trim(Go, rawId), UpdateTask(env, b, rawId, input, now)); r.Err? ==>
      b' == b &&
      if id !in b.tasks then r.error == NotFound
      else if UpdatesTask(env, input) then r.error == StaleTask(b.tasks[id])
      else if input.title.Some? && Trim(Go, input.title.value) == "" then r.error == BadRequest
      else AskedOf(input).Some? && r.error == FirstFailure(env, AskedOf(input).value)
  {
    var id := Trim(Go, rawId);
    UpdateReplacesOne(env, b, rawId, input, now);
    if id in b.tasks {
      var task := b.tasks[id];
      var maxPos := MaxPosition(b.tasks, task.projectId, NewStatus(env, task, input));
      PatchStores(env, task, input, maxPos, now);
      PatchFails(env, task, input, maxPos, now);
      assert Patched(env, task, input, maxPos, now).Ok? ==> Patched(env, task, input, maxPos, now).value.id == id;
    }
  }

  /** So a status already in stored form is stored as sent, and moves the task there. */
  lemma StatusStoredAsSent(env: Env, b: Board, rawId: string, input: UpdateTaskInput, status: string, now: int)
    requires FiledById(b.tasks) && input.status == Some(status) && env.lower(status) == status && Trim(Go, status) == status != ""
    ensures var r := UpdateTask(env, b, rawId, input, now).1; r.Ok? ==> r.value.status == status
  {
    UpdateStores(env, b, rawId, input, now);
  }

  /** The texts as given, behind the project's other columns. */
  ghost predicate StoresColumn(columns: Columns, team: string, project: string, title: string, id: string, now: int, c: TaskColumn) {
    && c == TaskColumn(id, Trim(Go, team), Trim(Go, project), Trim(Go, title), c.position, 1, now, now)
    && forall k :: k in columns && columns[k].projectId == c.projectId ==> columns[k].position < c.position
  }

  /** A column is created exactly when team, project and title are given; nothing else changes. */
  lemma CreateColumnStores(b: Board, team: string, project: string, title: string, id: string, now: int)
    ensures var (b', r) := CreateColumn(b, team, project, title, id, now);
      && (r.Ok? <==> Trim(Go, team) != "" && Trim(Go, project) != "" && Trim(Go, title) != "")
      && (r.Err? ==> b' == b && r.error == BadRequest)
      && (r.Ok? ==> b' == b.(columns := b.columns[id := r.value]))
      && (r.Ok? ==> StoresColumn(b.columns, team, project, title, id, now, r.value))
  {
    assert Trim(Go, Trim(Go, project)) == Trim(Go, project);
  }

  /** A new title, if one is given, and not a blank one; the version rule is that of tasks. */
  predicate UpdatesColumn(input: UpdateColumnInput, stored: TaskColumn) {
    && (input.title.Some? ==> Trim(Go, input.title.value) != "")
    && (input.skipVersionCheck || input.expectedVersion == None || input.expectedVersion == Some(stored.version))
  }

  predicate StoresTitle(input: UpdateColumnInput, before: TaskColumn, now: int, c: TaskColumn) {
    && c == before.(title := c.title, version := before.version + 1, updatedAt := now)
    && (input.title.Some? ==> c.title == Trim(Go, input.title.value))
    && (input.title.None? ==> c.title == before.title)
  }

  lemma UpdateColumnStores(b: Board, rawId: string, input: UpdateColumnInput, now: int)
    requires ColumnsFiledById(b.columns)
    ensures var (id, (b', r)) := (Trim(Go, rawId), UpdateColumn(b, rawId, input, now));
      && (r.Ok? <==> id != "" && id in b.columns && UpdatesColumn(input, b.columns[id]))
      && (r.Err? ==> b' == b)
      && (r.Err? && (id == "" || (id in b.columns && input.title.Some? && Trim(Go, input.title.value) == "")) ==> r.error == BadRequest)
      && (r.Err? && id != "" && id !in b.columns ==> r.error == NotFound)
      && (r.Err? && id != "" && id in b.columns && (input.title.Some? ==> Trim(Go, input.title.value) != "") ==>
            r.error == StaleColumn(b.columns[id]))
      && (r.Ok? ==> b' == b.(columns := b.columns[id := r.value]) && StoresTitle(input, b.columns[id], now, r.value))
  {
  }

  /** A task is deleted exactly when it is there. */
  lemma DeletesTask(b: Board, rawId: string)
    ensures var (id, (b', r)) := (Trim(Go, rawId), DeleteTask(b, rawId));
      && (r == if id in b.tasks then Ok(()) else Err(NotFound))
      && b'.columns == b.columns && (forall t :: t in b'.tasks <==> t in b.tasks && t != id)
      && forall t :: t in b'.tasks ==> b'.tasks[t] == b.tasks[t]
  {
  }

  /** A column is deleted exactly when it is there and no task is in it. */
  lemma DeletesEmptyColumns(b: Board, rawId: string)
    ensures var (id, (b', r)) := (Trim(Go, rawId), DeleteColumn(b, rawId));
      && (r.Ok? <==> id != "" && id in b.columns && forall t :: t in b.tasks ==>
           !(b.tasks[t].status == id && b.tasks[t].projectId == Trim(Go, b.columns[id].projectId)))
      && (r.Ok? ==> b'.tasks == b.tasks && forall c :: c in b'.columns <==> c in b.columns && c != id)
      && (r.Err? ==> b' == b)
  {
    var id := Trim(Go, rawId);
    if id in b.columns {
      var ids := ColumnIds(b.tasks, Trim(Go, b.columns[id].projectId), Trim(Go, id));
      if t :| t in b.tasks && b.tasks[t].status == id && b.tasks[t].projectId == Trim(Go, b.columns[id].projectId) {
        assert t in ids;
      }
    }
  }

  /** Identity, place and history survive every update; the position moves exactly when the status
      does; and a field the input leaves out keeps its value, but for the completion: see below. */
  lemma PatchTouchesOnlyInput(env: Env, task: Task, input: UpdateTaskInput, maxPos: int, now: int)
    requires Patched(env, task, input, maxPos, now).Ok?
    ensures var t := Patched(env, task, input, maxPos, now).value;
      && t.id == task.id && t.teamId == task.teamId && t.projectId == task.projectId && t.version == task.version
      && t.createdBy == task.createdBy && t.createdAt == task.createdAt
      && (input.title.None? ==> t.title == task.title)
      && (input.description.None? ==> t.description == task.description)
      && (input.status.None? ==> t.status == task.status)
      && (input.priority.None? ==> t.priority == task.priority)
      && (input.dueAt.None? ==> t.dueAt == task.dueAt)
      && (input.tags.None? ==> t.tags == task.tags)
      && (input.assignees.None? && input.assigneeUserId.None? ==>
           t.assignees == task.assignees && t.assigneeUserId == task.assigneeUserId && t.assigneeName == task.assigneeName)
      && t.sortPosition == (if t.status == task.status then task.sortPosition else maxPos + 1)
      && (input.completed.None? && (task.completedAt.Some? || t.status != "done") ==>
           t.completedAt == task.completedAt && t.completedBy == task.completedBy)
  {
  }

  /** When a task counts as completed after an update, and which completion time it carries. */
  lemma CompletionRule(env: Env, task: Task, input: UpdateTaskInput, maxPos: int, now: int)
    requires Patched(env, task, input, maxPos, now).Ok?
    ensures var t := Patched(env, task, input, maxPos, now).value;
      && (t.completedAt.Some? <==>
           if input.completed.Some? then input.completed.value else task.completedAt.Some? || t.status == "done")
      && (t.completedAt.Some? ==> t.completedAt == (if task.completedAt.Some? then task.completedAt else Some(now)))
      && (t.completedAt.None? && input.completed.Some? ==> t.completedBy == "")
  {
  }

  /** An update that says nothing of the completion leaves it alone exactly when the task is complete
      already or does not end up done. */
  lemma CompletionKept(env: Env, task: Task, input: UpdateTaskInput, maxPos: int, now: int)
    requires Patched(env, task, input, maxPos, now).Ok? && input.completed.None?
    ensures var t := Patched(env, task, input, maxPos, now).value;
      t.completedAt == task.completedAt && t.completedBy == task.completedBy <==> task.completedAt.Some? || t.status != "done"
  {
  }

  function CompletedEdit(flag: bool, actor: string): UpdateTaskInput {
    UpdateTaskInput(None, None, None, None, None, None, None, None, None, Some(flag), actor, None, false)
  }

  function TitleEdit(title: string, actor: string): UpdateTaskInput {
    UpdateTaskInput(Some(title), None, None, None, None, None, None, None, None, None, actor, None, false)
  }

  /** A done task that is reopened keeps its status; so the next edit of its title, by anyone,
      completes it again in that person's name. */
  lemma TitleEditCompletesReopened(env: Env, task: Task, reopener: string, editor: string, title: string, maxPos: int, now: int, later: int)
    requires task.status == "done" && Trim(Go, title) != ""
    ensures var reopened := Patched(env, task, CompletedEdit(false, reopener), maxPos, now);
      && reopened.Ok? && reopened.value.completedAt == None && reopened.value.completedBy == "" && reopened.value.status == "done"
      && var edited := Patched(env, reopened.value, TitleEdit(title, editor), maxPos, later);
         edited.Ok? && edited.value.completedAt == Some(later) && edited.value.completedBy == Trim(Go, editor)
  {
  }

  lemma NewAssigneesClean(env: Env, input: UpdateTaskInput)
    ensures var people := NewAssignees(env, input);
      people.Some? && people.value.Ok? ==> CleanAssignees(env, people.value.value)
  {
    if input.assignees.Some? {
      ResolvedClean(env, [], input.assignees.value);
    }
  }

  /** Stored assignees and tags are always in normal form, and the legacy assignee fields
      mirror the first assignee. */
  lemma UpdateKeepsNormalForms(env: Env, task: Task, input: UpdateTaskInput, maxPos: int, now: int)
    requires Patched(env, task, input, maxPos, now).Ok?
    requires CleanAssignees(env, task.assignees) && Tags.NormalForm(env.lower, task.tags)
    requires task == WithAssignees(task, task.assignees)
    ensures var t := Patched(env, task, input, maxPos, now).value;
      && CleanAssignees(env, t.assignees) && Tags.NormalForm(env.lower, t.tags)
      && t == WithAssignees(t, t.assignees)
  {
    if input.tags.Some? {
      Tags.NormalizedIsNormal(env.lower, input.tags.value);
    }
    NewAssigneesClean(env, input);
  }
}
