/** The entities of the task service. Times are integers, an absent time is None. */
module TaskModel {
  import opened Text
  import opened Sorting

  datatype Assignee = Assignee(userId: string, displayName: string)

  datatype Task = Task(
    id: string, title: string, description: string, status: string, priority: string,
    dueAt: Option<int>, completedAt: Option<int>, completedBy: string, createdBy: string,
    assignees: seq<Assignee>, tags: seq<string>, assigneeUserId: string, assigneeName: string,
    teamId: string, projectId: string, sortPosition: int, version: int,
    createdAt: int, updatedAt: int)

  datatype TaskColumn = TaskColumn(
    id: string, teamId: string, projectId: string, title: string,
    position: int, version: int, createdAt: int, updatedAt: int)

  datatype Error =
    | NotFound
    | VersionConflict
    | InvalidReorder
    | BadRequest
    | Upstream
    | StaleTask(task: Task)
    | StaleColumn(column: TaskColumn)
    | StaleColumns(columns: seq<TaskColumn>)

  type Tasks = map<string, Task>
  type Columns = map<string, TaskColumn>

  /** Every record is filed under its own id. */
  ghost predicate FiledById(tasks: Tasks) {
    forall id :: id in tasks ==> tasks[id].id == id
  }

  ghost predicate ColumnsFiledById(columns: Columns) {
    forall id :: id in columns ==> columns[id].id == id
  }

  // --- lists of people ---

  function UserIds(list: seq<Assignee>): (r: seq<string>)
    ensures |r| == |list| && forall i :: 0 <= i < |r| ==> r[i] == list[i].userId
  {
    seq(|list|, i requires 0 <= i < |list| => list[i].userId)
  }

  function MentionedIds(runtime: Runtime, raw: seq<Assignee>): seq<string> {
    TrimAll(runtime, UserIds(raw))
  }

  /** The entry has the name that raw gives the user first. */
  predicate NamedFirst(runtime: Runtime, raw: seq<Assignee>, a: Assignee) {
    && a.userId in MentionedIds(runtime, raw)
    && a.displayName == Trim(runtime, raw[IndexOf(MentionedIds(runtime, raw), a.userId)].displayName)
  }

  /** The list names every user of raw once, in the order of first mention, with the name given there;
      blanks around ids and names do not count. */
  ghost predicate FirstMentions(runtime: Runtime, raw: seq<Assignee>, list: seq<Assignee>) {
    && KeepsFirsts(MentionedIds(runtime, raw), UserIds(list))
    && forall a :: a in list ==> NamedFirst(runtime, raw, a)
  }

  lemma MentionedNext(runtime: Runtime, raw: seq<Assignee>, a: Assignee)
    ensures MentionedIds(runtime, raw + [a]) == MentionedIds(runtime, raw) + [Trim(runtime, a.userId)]
  {
  }

  lemma NamedFirstNext(runtime: Runtime, raw: seq<Assignee>, a: Assignee, b: Assignee)
    requires NamedFirst(runtime, raw, b)
    ensures NamedFirst(runtime, raw + [a], b)
  {
    MentionedNext(runtime, raw, a);
    IndexOfPrefix(MentionedIds(runtime, raw), Trim(runtime, a.userId), b.userId);
  }

  lemma NewNamedFirst(runtime: Runtime, raw: seq<Assignee>, a: Assignee)
    requires Trim(runtime, a.userId) !in MentionedIds(runtime, raw)
    ensures NamedFirst(runtime, raw + [a], Assignee(Trim(runtime, a.userId), Trim(runtime, a.displayName)))
  {
    var ids, id := MentionedIds(runtime, raw), Trim(runtime, a.userId);
    MentionedNext(runtime, raw, a);
    assert (ids + [id])[|ids|] == id;
    assert IndexOf(ids + [id], id) == |ids|;
  }

  /** With one more entry read, the list takes it up or stays. */
  function WithMention(runtime: Runtime, list: seq<Assignee>, a: Assignee): seq<Assignee> {
    var id := Trim(runtime, a.userId);
    if id == "" || id in UserIds(list) then list else list + [Assignee(id, Trim(runtime, a.displayName))]
  }

  lemma WithMentionIds(runtime: Runtime, list: seq<Assignee>, a: Assignee)
    ensures var (ids, id) := (UserIds(list), Trim(runtime, a.userId));
      UserIds(WithMention(runtime, list, a)) == if id == "" || id in ids then ids else ids + [id]
  {
  }

  lemma WithMentionNamed(runtime: Runtime, raw: seq<Assignee>, list: seq<Assignee>, a: Assignee, b: Assignee)
    requires b in list ==> NamedFirst(runtime, raw, b)
    requires Trim(runtime, a.userId) != "" && Trim(runtime, a.userId) !in UserIds(list) ==>
      Trim(runtime, a.userId) !in MentionedIds(runtime, raw)
    requires b in WithMention(runtime, list, a)
    ensures NamedFirst(runtime, raw + [a], b)
  {
    if b in list {
      NamedFirstNext(runtime, raw, a, b);
    } else {
      NewNamedFirst(runtime, raw, a);
    }
  }

  lemma FirstMentionsNext(runtime: Runtime, raw: seq<Assignee>, list: seq<Assignee>, a: Assignee)
    requires FirstMentions(runtime, raw, list)
    ensures FirstMentions(runtime, raw + [a], WithMention(runtime, list, a))
  {
    MentionedNext(runtime, raw, a);
    WithMentionIds(runtime, list, a);
    KeepsFirstsNext(MentionedIds(runtime, raw), UserIds(list), Trim(runtime, a.userId));
    forall b | b in WithMention(runtime, list, a)
      ensures NamedFirst(runtime, raw + [a], b)
    {
      WithMentionNamed(runtime, raw, list, a, b);
    }
  }
}
