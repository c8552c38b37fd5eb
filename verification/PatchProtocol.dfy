/** Saving an edit: the client's request, conflict merge and single retry against a server whose
    update is not atomic. Read, position lookup, write and re-read are separate locked steps, and
    any writes of other clients run in the gaps between them. */
module PatchProtocol {
  import opened Text
  import opened TaskModel
  import opened TaskStore
  import opened StoreRuns
  import TaskService
  import ETag
  import opened BoardMerge

  type Env = TaskService.Env
  type UpdateInput = TaskService.UpdateTaskInput

  /** What other clients do between the steps of one request. */
  datatype Gaps = Gaps(beforeRead: seq<Op>, beforeMax: seq<Op>, beforeWrite: seq<Op>, beforeReread: seq<Op>)

  datatype Reply = Saved(task: Task) | Stale(current: Task) | Refused(error: Error)

  ghost function AtRead(w: World, g: Gaps): World { Run(w, g.beforeRead) }
  ghost function AtMax(w: World, g: Gaps): World { Run(AtRead(w, g), g.beforeMax) }
  ghost function AtWrite(w: World, g: Gaps): World { Run(AtMax(w, g), g.beforeWrite) }
  ghost function AtReread(w: World, g: Gaps): World { Run(AtWrite(w, g), g.beforeReread) }

  ghost predicate Interleaves(w: World, g: Gaps) {
    && WellFormed(w) && Admissible(w, g.beforeRead) && Admissible(AtRead(w, g), g.beforeMax)
    && Admissible(AtMax(w, g), g.beforeWrite) && Admissible(AtWrite(w, g), g.beforeReread)
  }

  /** The edit computed from the record read at AtRead and the maximum looked up at AtMax. */
  ghost function EditAt(env: Env, w: World, g: Gaps, id: string, input: UpdateInput, now: int): Result<Task, Error>
    requires id in AtRead(w, g).tasks
  {
    var task := AtRead(w, g).tasks[id];
    TaskService.Patched(env, task, input,
      MaxPosition(AtMax(w, g).tasks, task.projectId, TaskService.NewStatus(env, task, input)), now)
  }

  /** One update request, step by step. */
  ghost function Request(env: Env, w: World, g: Gaps, id: string, input: UpdateInput, now: int): (World, Reply) {
    if id !in AtRead(w, g).tasks then (AtRead(w, g), Refused(NotFound)) else
      var edit := EditAt(env, w, g, id, input, now);
      if edit.Err? then (AtMax(w, g), Refused(edit.error)) else
        var w3 := AtWrite(w, g);
        var (tasks, r) := TaskService.Written(w3.tasks, edit.value, input);
        match r
        case Ok(task) => (w3.(tasks := tasks), Saved(task))
        case Err(VersionConflict) =>
          var w4 := AtReread(w, g);
          (w4, if id in w4.tasks then Stale(w4.tasks[id]) else Refused(NotFound))
        case Err(e) => (w3, Refused(e))
  }

  lemma GapsKeepWellFormed(w: World, g: Gaps)
    requires Interleaves(w, g)
    ensures WellFormed(AtRead(w, g)) && WellFormed(AtMax(w, g)) && WellFormed(AtWrite(w, g)) && WellFormed(AtReread(w, g))
  {
    RunKeepsWellFormed(w, g.beforeRead);
    RunKeepsWellFormed(AtRead(w, g), g.beforeMax);
    RunKeepsWellFormed(AtMax(w, g), g.beforeWrite);
    RunKeepsWellFormed(AtWrite(w, g), g.beforeReread);
  }

  /** A record alive at the write was alive at the read, and its version tells whether it changed. */
  lemma ReadToWrite(w: World, g: Gaps, id: string)
    requires Interleaves(w, g) && id in AtRead(w, g).tasks && id in AtWrite(w, g).tasks
    ensures AtWrite(w, g).tasks[id].version >= AtRead(w, g).tasks[id].version
    ensures AtWrite(w, g).tasks[id] == AtRead(w, g).tasks[id] <==>
      AtWrite(w, g).tasks[id].version == AtRead(w, g).tasks[id].version
  {
    GapsKeepWellFormed(w, g);
    RunSplits(AtRead(w, g), g.beforeMax, g.beforeWrite);
    VersionIdentifiesRecord(AtRead(w, g), g.beforeMax + g.beforeWrite, id);
  }

  lemma SeenToRead(w: World, g: Gaps, id: string)
    requires Interleaves(w, g) && id in w.tasks && id in AtRead(w, g).tasks
    ensures AtRead(w, g).tasks[id].version >= w.tasks[id].version
    ensures AtRead(w, g).tasks[id].version == w.tasks[id].version ==> AtRead(w, g).tasks[id] == w.tasks[id]
  {
    VersionIdentifiesRecord(w, g.beforeRead, id);
  }

  lemma EditKeepsIdentity(env: Env, w: World, g: Gaps, id: string, input: UpdateInput, now: int)
    requires Interleaves(w, g) && id in AtRead(w, g).tasks && EditAt(env, w, g, id, input, now).Ok?
    ensures var edit := EditAt(env, w, g, id, input, now).value; edit.id == id && edit.version == AtRead(w, g).tasks[id].version
  {
    GapsKeepWellFormed(w, g);
    var task := AtRead(w, g).tasks[id];
    TaskService.PatchTouchesOnlyInput(env, task, input,
      MaxPosition(AtMax(w, g).tasks, task.projectId, TaskService.NewStatus(env, task, input)), now);
  }

  /** What the request does to the store when it is saved: one record replaced by the edit. */
  lemma SavedWritesEdit(env: Env, w: World, g: Gaps, id: string, input: UpdateInput, now: int)
    requires Interleaves(w, g) && Request(env, w, g, id, input, now).1.Saved?
    ensures id in AtRead(w, g).tasks && id in AtWrite(w, g).tasks
    ensures var (w', reply) := Request(env, w, g, id, input, now);
      && w' == AtWrite(w, g).(tasks := AtWrite(w, g).tasks[id := reply.task])
      && reply.task.id == id && reply.task.version == AtWrite(w, g).tasks[id].version + 1
      && EditAt(env, w, g, id, input, now) == Ok(reply.task.(version := AtRead(w, g).tasks[id].version))
    ensures WellFormed(Request(env, w, g, id, input, now).0)
  {
    GapsKeepWellFormed(w, g);
    EditKeepsIdentity(env, w, g, id, input, now);
  }

  /** No lost update, in any interleaving. The client names the version of a record the store had
      returned before the request. If the request is saved, the record it overwrote is exactly the
      one the client had seen, so the result is the client's edit of that record and nobody's write
      is lost. If it is stale, the client is handed a strictly newer record. */
  lemma ConditionalUpdateIsSafe(env: Env, w: World, g: Gaps, id: string, input: UpdateInput, now: int)
    requires Interleaves(w, g) && id in w.tasks
    requires !input.skipVersionCheck && input.expectedVersion == Some(w.tasks[id].version)
    ensures var (w', reply) := Request(env, w, g, id, input, now);
      && (reply.Saved? ==> id in AtRead(w, g).tasks && AtRead(w, g).tasks[id] == w.tasks[id])
      && (reply.Saved? ==> id in AtWrite(w, g).tasks && AtWrite(w, g).tasks[id] == w.tasks[id])
      && (reply.Stale? ==> reply.current.version > w.tasks[id].version && id in w'.tasks && w'.tasks[id] == reply.current)
    ensures WellFormed(Request(env, w, g, id, input, now).0)
  {
    SavedSawSame(env, w, g, id, input, now);
    StaleIsNewer(env, w, g, id, input, now);
    RequestKeepsWellFormed(env, w, g, id, input, now);
  }

  lemma SavedSawSame(env: Env, w: World, g: Gaps, id: string, input: UpdateInput, now: int)
    requires Interleaves(w, g) && id in w.tasks
    requires !input.skipVersionCheck && input.expectedVersion == Some(w.tasks[id].version)
    ensures Request(env, w, g, id, input, now).1.Saved? ==>
      && id in AtRead(w, g).tasks && AtRead(w, g).tasks[id] == w.tasks[id]
      && id in AtWrite(w, g).tasks && AtWrite(w, g).tasks[id] == w.tasks[id]
  {
    if Request(env, w, g, id, input, now).1.Saved? {
      GapsKeepWellFormed(w, g);
      EditKeepsIdentity(env, w, g, id, input, now);
      SeenToRead(w, g, id);
      ReadToWrite(w, g, id);
    }
  }

  lemma RequestKeepsWellFormed(env: Env, w: World, g: Gaps, id: string, input: UpdateInput, now: int)
    requires Interleaves(w, g)
    ensures WellFormed(Request(env, w, g, id, input, now).0)
  {
    GapsKeepWellFormed(w, g);
    if Request(env, w, g, id, input, now).1.Saved? {
      SavedWritesEdit(env, w, g, id, input, now);
    }
  }

  lemma StaleIsNewer(env: Env, w: World, g: Gaps, id: string, input: UpdateInput, now: int)
    requires Interleaves(w, g) && id in w.tasks
    requires !input.skipVersionCheck && input.expectedVersion == Some(w.tasks[id].version)
    ensures var (w', reply) := Request(env, w, g, id, input, now); reply.Stale? ==>
      reply.current.version > w.tasks[id].version && id in w'.tasks && w'.tasks[id] == reply.current
  {
    GapsKeepWellFormed(w, g);
    if Request(env, w, g, id, input, now).1.Stale? {
      SeenToRead(w, g, id);
      EditKeepsIdentity(env, w, g, id, input, now);
      ReadToWrite(w, g, id);
      VersionIdentifiesRecord(AtWrite(w, g), g.beforeReread, id);
    }
  }

  /** And it is saved whenever nobody else wrote the record and the edit itself is acceptable. */
  lemma UncontendedUpdateSaves(env: Env, w: World, g: Gaps, id: string, input: UpdateInput, now: int)
    requires Interleaves(w, g) && id in w.tasks && id in AtWrite(w, g).tasks
    requires !input.skipVersionCheck && input.expectedVersion == Some(w.tasks[id].version)
    requires id in AtRead(w, g).tasks && EditAt(env, w, g, id, input, now).Ok?
    ensures Request(env, w, g, id, input, now).1.Saved? <==> AtWrite(w, g).tasks[id] == w.tasks[id]
  {
    GapsKeepWellFormed(w, g);
    EditKeepsIdentity(env, w, g, id, input, now);
    SeenToRead(w, g, id);
    ReadToWrite(w, g, id);
  }

  /** The write replaces the very record the edit was made on. */
  ghost predicate WritesOverRead(w: World, g: Gaps, id: string) {
    id in AtRead(w, g).tasks && id in AtWrite(w, g).tasks && AtWrite(w, g).tasks[id] == AtRead(w, g).tasks[id]
  }

  /** However the operations of others fall, a saved request loses none of them. */
  ghost predicate NeverLosesWrites(env: Env, w: World, id: string, input: UpdateInput, now: int) {
    forall g :: Interleaves(w, g) && Request(env, w, g, id, input, now).1.Saved? ==> WritesOverRead(w, g, id)
  }

  /** The request names a version, and one the task has or had. */
  predicate NamesKnownVersion(w: World, id: string, input: UpdateInput)
    requires id in w.tasks
  {
    !input.skipVersionCheck && input.expectedVersion.Some? && input.expectedVersion.value <= w.tasks[id].version
  }

  lemma KnownVersionIsSafe(env: Env, w: World, g: Gaps, id: string, input: UpdateInput, now: int)
    requires Interleaves(w, g) && id in w.tasks && NamesKnownVersion(w, id, input)
    ensures Request(env, w, g, id, input, now).1.Saved? ==> WritesOverRead(w, g, id)
  {
    if Request(env, w, g, id, input, now).1.Saved? {
      GapsKeepWellFormed(w, g);
      EditKeepsIdentity(env, w, g, id, input, now);
      SeenToRead(w, g, id);
      ReadToWrite(w, g, id);
    }
  }

  /** The task written n times over. */
  function Rewrites(task: Task, n: nat): seq<Op> {
    if n == 0 then [] else [OpUpdate(task)] + Rewrites(task, n - 1)
  }

  lemma {:induction false} RewritesRaise(w: World, task: Task, n: nat)
    requires WellFormed(w) && task.id in w.tasks
    ensures Admissible(w, Rewrites(task, n))
    ensures var w' := Run(w, Rewrites(task, n)); task.id in w'.tasks && w'.tasks[task.id].version == w.tasks[task.id].version + n
    decreases n
  {
    if n > 0 {
      var op := OpUpdate(task);
      assert Rewrites(task, n)[1..] == Rewrites(task, n - 1);
      RewritesRaise(Step(w, op), task, n - 1);
    }
  }

  /** An unconditional write loses whatever is written after the read, and a conditional one that
      names a version still to come loses what leads up to it. */
  lemma OtherRequestsLose(env: Env, w: World, id: string, input: UpdateInput, now: int)
    requires WellFormed(w) && id in w.tasks && TaskService.Acceptable(env, input) && !NamesKnownVersion(w, id, input)
    ensures !NeverLosesWrites(env, w, id, input, now)
  {
    var task := w.tasks[id];
    var n := if input.skipVersionCheck || input.expectedVersion.None? then 1 else input.expectedVersion.value - task.version;
    var g := Gaps([], [], Rewrites(task, n), []);
    RewritesRaise(w, task, n);
    assert AtRead(w, g) == AtMax(w, g) == w && AtWrite(w, g) == AtReread(w, g) == Run(w, Rewrites(task, n));
    TaskService.AcceptableIsPatched(env, task, input, MaxPosition(w.tasks, task.projectId, TaskService.NewStatus(env, task, input)), now);
    EditKeepsIdentity(env, w, g, id, input, now);
    assert Interleaves(w, g) && Request(env, w, g, id, input, now).1.Saved? && !WritesOverRead(w, g, id);
  }

  /** So an acceptable update is safe in every interleaving exactly when it names a version that the
      task has or had when the request was made; without If-Match it never is. */
  lemma UnconditionalUpdateOverwrites(env: Env, w: World, id: string, input: UpdateInput, now: int)
    requires WellFormed(w) && id in w.tasks && TaskService.Acceptable(env, input)
    ensures NeverLosesWrites(env, w, id, input, now) <==> NamesKnownVersion(w, id, input)
  {
    if NamesKnownVersion(w, id, input) {
      forall g | Interleaves(w, g) && Request(env, w, g, id, input, now).1.Saved?
        ensures WritesOverRead(w, g, id)
      {
        KnownVersionIsSafe(env, w, g, id, input, now);
      }
    } else {
      OtherRequestsLose(env, w, id, input, now);
    }
  }

  /** A description written in that window is gone after a title-only update. */
  lemma DescriptionLost(env: Env, w: World, id: string, input: UpdateInput, now: int, text: string)
    requires WellFormed(w) && id in w.tasks && text != w.tasks[id].description
    requires (input.skipVersionCheck || input.expectedVersion.None?) && input.description.None?
    requires var g := Gaps([], [], [OpUpdate(w.tasks[id].(description := text))], []); EditAt(env, w, g, id, input, now).Ok?
    ensures var g := Gaps([], [], [OpUpdate(w.tasks[id].(description := text))], []);
      && id in AtWrite(w, g).tasks && AtWrite(w, g).tasks[id].description == text
      && Request(env, w, g, id, input, now).1.Saved?
      && Request(env, w, g, id, input, now).1.task.description != text
  {
    var op := OpUpdate(w.tasks[id].(description := text));
    var g := Gaps([], [], [op], []);
    assert AtMax(w, g) == w;
    assert AtWrite(w, g) == Step(w, op) by {
      assert Run(Step(w, op), [op][1..]) == Step(w, op);
    }
    TaskService.PatchTouchesOnlyInput(env, w.tasks[id], input,
      MaxPosition(w.tasks, w.tasks[id].projectId, TaskService.NewStatus(env, w.tasks[id], input)), now);
  }

  // --- the client ---

  /** How the wire shows times, and how the server reads them back. */
  datatype Wire = Wire(formatTime: int -> string, parseTime: string -> Option<int>)

  function TimeText(wire: Wire, t: Option<int>): string {
    if t.Some? then wire.formatTime(t.value) else ""
  }

  /** A task as the client receives it. */
  function Received(wire: Wire, t: Task): ClientTask {
    ClientTask(
      map[Title := t.title, Description := t.description, Status := t.status, Priority := t.priority,
          DueAt := TimeText(wire, t.dueAt), AssigneeUserId := t.assigneeUserId, AssigneeName := t.assigneeName],
      t.assignees, t.tags, TimeText(wire, t.completedAt), None, t.version)
  }

  const EMPTY_INPUT: UpdateInput :=
    TaskService.UpdateTaskInput(None, None, None, None, None, None, None, None, None, None, "", None, false)

  /** The server's reading of the JSON body; null leaves a field alone, a malformed one fails. */
  function Decode(wire: Wire, patch: Patch): Option<UpdateInput> {
    if patch == [] then Some(EMPTY_INPUT) else
      var rest := Decode(wire, patch[..|patch| - 1]);
      if rest.None? then None else
        var i := rest.value;
        match patch[|patch| - 1]
        case SetText(Title, v) => Some(i.(title := v))
        case SetText(Description, v) => Some(i.(description := v))
        case SetText(Status, v) => Some(i.(status := v))
        case SetText(Priority, v) => Some(i.(priority := v))
        case SetText(DueAt, v) =>
          if v.None? then Some(i.(dueAt := None))
          else if wire.parseTime(v.value).None? then None else Some(i.(dueAt := wire.parseTime(v.value)))
        case SetText(AssigneeUserId, v) => Some(i.(assigneeUserId := v))
        case SetText(AssigneeName, v) => Some(i.(assigneeName := v))
        case SetAssignees(people) => Some(i.(assignees := people))
        case SetTags(TagList(list)) => Some(i.(tags := Some(list)))
        case SetTags(TagText(_)) => None
        case SetCompleted(flag) => Some(i.(completed := flag))
  }

  /** A PATCH as sent: the If-Match header, if any, and the body. */
  datatype Message = Message(ifMatch: Option<string>, body: Patch)

  datatype Outcome =
    | Done(task: Task, merged: bool)
    | Conflicted(serverTask: Task, conflicts: seq<Conflict>)
    | Failed(error: Error)

  /** The remembered version decides the header; the base task's version is the fallback. */
  function FirstMessage(remembered: int, base: ClientTask, patch: Patch): Message {
    Message(if remembered != 0 then Some("\"" + ETag.PrintInt(remembered) + "\"") else ETag.EtagFromVersion(base.version), patch)
  }

  /** After the first reply: finished, or one retry carrying the server's version. */
  function AfterFirst(le: Collation, wire: Wire, base: ClientTask, patch: Patch, reply: Reply): Result<Message, Outcome> {
    match reply
    case Saved(task) => Err(Done(task, false))
    case Refused(e) => Err(Failed(e))
    case Stale(current) =>
      var conflicts := ConflictsOf(le, base, patch, Received(wire, current));
      if conflicts != [] then Err(Conflicted(current, conflicts))
      else Ok(Message(ETag.EtagFromVersion(current.version), patch))
  }

  function AfterSecond(reply: Reply): Outcome {
    match reply
    case Saved(task) => Done(task, true)
    case Stale(_) => Failed(VersionConflict)
    case Refused(e) => Failed(e)
  }

  /** The browser's side, keeping the last version it heard of for every task. */
  class BoardClient {
    var taskVersions: map<string, int>

    constructor ()
      ensures taskVersions == map[]
    {
      taskVersions := map[];
    }

    method RememberTask(task: Task)
      modifies this
      ensures taskVersions == if task.id == "" then old(taskVersions) else old(taskVersions)[task.id := task.version]
    {
      if task.id != "" {
        taskVersions := taskVersions[task.id := task.version];
      }
    }

    /** The exchange given the network's two answers; the second is only consulted after a retry. */
    method PatchTask(le: Collation, wire: Wire, taskId: string, base: ClientTask, patch: Patch, first: Reply, second: Reply)
      returns (outcome: Outcome, sent: seq<Message>)
      modifies this
      ensures var request := FirstMessage(if taskId in old(taskVersions) then old(taskVersions)[taskId] else 0, base, patch);
        match AfterFirst(le, wire, base, patch, first)
        case Err(o) => outcome == o && sent == [request]
        case Ok(retry) => outcome == AfterSecond(second) && sent == [request, retry]
      ensures outcome.Done? && outcome.task.id != "" ==>
        taskVersions == old(taskVersions)[outcome.task.id := outcome.task.version]
      ensures !outcome.Done? ==> taskVersions == old(taskVersions)
    {
      var version := if taskId in taskVersions then taskVersions[taskId] else 0;
      var ifMatch := if version != 0 then Some("\"" + ETag.PrintInt(version) + "\"") else ETag.EtagFromVersion(base.version);
      sent := [Message(ifMatch, patch)];
      match first {
        case Saved(task) =>
          RememberTask(task);
          outcome := Done(task, false);
        case Refused(e) =>
          outcome := Failed(e);
        case Stale(current) =>
          var merge, merged := MergeTaskPatch(le, base, patch, Received(wire, current));
          NoConflictsIff(le, base, patch, Received(wire, current));
          if !merge.canAutoMerge {
            return Conflicted(current, merge.conflicts), sent;
          }
          sent := sent + [Message(ETag.EtagFromVersion(current.version), merge.mergedBody.value)];
          match second {
            case Saved(task) =>
              RememberTask(task);
              outcome := Done(task, true);
            case Stale(_) =>
              outcome := Failed(VersionConflict);
            case Refused(e) =>
              outcome := Failed(e);
          }
      }
    }
  }

  // --- the whole exchange ---

  /** The server receiving a message: the handler decodes body and header, then updates. */
  ghost function Serve(env: Env, wire: Wire, w: World, g: Gaps, id: string, m: Message, actor: string, now: int): (World, Reply) {
    match Decode(wire, m.body)
    case None => (w, Refused(BadRequest))
    case Some(i) =>
      var version := if m.ifMatch.Some? then ETag.ParseIfMatch(m.ifMatch.value) else None;
      Request(env, w, g, id, i.(actor := actor, expectedVersion := version), now)
  }

  datatype Session = Session(env: Env, wire: Wire, le: Collation, id: string, actor: string, now: int)

  /** patchTask against the store: the final state, the outcome and the messages sent. */
  ghost function Save(s: Session, w: World, remembered: int, base: ClientTask, patch: Patch, g1: Gaps, g2: Gaps)
    : (World, Outcome, seq<Message>)
  {
    var m1 := FirstMessage(remembered, base, patch);
    var (w1, reply1) := Serve(s.env, s.wire, w, g1, s.id, m1, s.actor, s.now);
    match AfterFirst(s.le, s.wire, base, patch, reply1)
    case Err(o) => (w1, o, [m1])
    case Ok(m2) =>
      var (w2, reply2) := Serve(s.env, s.wire, w1, g2, s.id, m2, s.actor, s.now);
      (w2, AfterSecond(reply2), [m1, m2])
  }

  // --- at most one write ---

  ghost function GapOps(g: Gaps): seq<Op> {
    g.beforeRead + g.beforeMax + g.beforeWrite + g.beforeReread
  }

  /** The operation puts the task in the store, one version up. */
  ghost predicate Writes(w: World, op: Op, task: Task) {
    && (op.OpUpdate? || op.OpUpdateIfVersion?) && op.task.(version := task.version) == task
    && task.id in w.tasks && Step(w, op) == w.(tasks := w.tasks[task.id := task]) && task.version == w.tasks[task.id].version + 1
  }

  /** From w to w' the others ran theirs, the first of their operations, and then this client its
      own: one write, of the task it was told is saved, or none. */
  ghost predicate RanWithOneWrite(w: World, w': World, others: seq<Op>, theirs: seq<Op>, own: seq<Op>, saved: Option<Task>) {
    && theirs <= others && w' == Run(w, theirs + own)
    && (saved.None? ==> own == [])
    && (saved.Some? ==> |own| == 1 && Writes(Run(w, theirs), own[0], saved.value))
  }

  lemma OneStep(w: World, theirs: seq<Op>, op: Op)
    ensures Run(w, theirs + [op]) == Step(Run(w, theirs), op)
  {
    RunSplits(w, theirs, [op]);
    assert Run(Step(Run(w, theirs), op), [op][1..]) == Step(Run(w, theirs), op);
  }

  lemma GapRuns(w: World, g: Gaps)
    ensures AtMax(w, g) == Run(w, g.beforeRead + g.beforeMax)
    ensures AtWrite(w, g) == Run(w, g.beforeRead + g.beforeMax + g.beforeWrite)
    ensures AtReread(w, g) == Run(w, GapOps(g))
  {
    RunSplits(w, g.beforeRead, g.beforeMax);
    RunSplits(w, g.beforeRead + g.beforeMax, g.beforeWrite);
    RunSplits(w, g.beforeRead + g.beforeMax + g.beforeWrite, g.beforeReread);
  }

  function SavedTask(reply: Reply): Option<Task> {
    if reply.Saved? then Some(reply.task) else None
  }

  lemma RequestWritesOnce(env: Env, w: World, g: Gaps, id: string, input: UpdateInput, now: int) returns (theirs: seq<Op>, own: seq<Op>)
    ensures var (w', reply) := Request(env, w, g, id, input, now);
      RanWithOneWrite(w, w', GapOps(g), theirs, own, SavedTask(reply)) && (reply.Stale? ==> theirs == GapOps(g))
  {
    var (w', reply) := Request(env, w, g, id, input, now);
    own := [];
    GapRuns(w, g);
    if id !in AtRead(w, g).tasks {
      theirs := g.beforeRead;
    } else if EditAt(env, w, g, id, input, now).Err? {
      theirs := g.beforeRead + g.beforeMax;
    } else {
      var edit := EditAt(env, w, g, id, input, now).value;
      theirs := g.beforeRead + g.beforeMax + g.beforeWrite;
      if reply.Saved? {
        var op := if input.skipVersionCheck || input.expectedVersion.None? then OpUpdate(edit)
          else OpUpdateIfVersion(edit, input.expectedVersion.value);
        own := [op];
        OneStep(w, theirs, op);
      } else if TaskService.Written(AtWrite(w, g).tasks, edit, input).1 == Err(VersionConflict) {
        theirs := GapOps(g);
      }
    }
    assert theirs + [] == theirs;
  }

  lemma RunsCompose(w: World, w1: World, w2: World, others1: seq<Op>, others2: seq<Op>, more: seq<Op>, own: seq<Op>, saved: Option<Task>)
    requires RanWithOneWrite(w, w1, others1, others1, [], None) && RanWithOneWrite(w1, w2, others2, more, own, saved)
    ensures RanWithOneWrite(w, w2, others1 + others2, others1 + more, own, saved)
  {
    assert others1 + [] == others1;
    RunSplits(w, others1, more + own);
    RunSplits(w, others1, more);
    assert others1 + (more + own) == (others1 + more) + own;
  }

  lemma MoreOthers(w: World, w1: World, others1: seq<Op>, others2: seq<Op>, theirs: seq<Op>, own: seq<Op>, saved: Option<Task>)
    requires RanWithOneWrite(w, w1, others1, theirs, own, saved)
    ensures RanWithOneWrite(w, w1, others1 + others2, theirs, own, saved)
  {
  }

  function DoneTask(outcome: Outcome): Option<Task> {
    if outcome.Done? then Some(outcome.task) else None
  }

  ghost predicate SavedOnce(w: World, w': World, others: seq<Op>, saved: Option<Task>) {
    exists theirs, own :: RanWithOneWrite(w, w', others, theirs, own, saved)
  }

  /** Saving sends at most two requests, all with the whole patch. The store ends as if the others
      had run some of their operations and this client a single write, of the task reported, when
      it reports success, and none at all when it does not. */
  lemma AtMostOneWrite(s: Session, w: World, remembered: int, base: ClientTask, patch: Patch, g1: Gaps, g2: Gaps)
    ensures var (w', outcome, sent) := Save(s, w, remembered, base, patch, g1, g2);
      && 1 <= |sent| <= 2 && (outcome.Done? ==> (outcome.merged <==> |sent| == 2)) && (forall m :: m in sent ==> m.body == patch)
      && SavedOnce(w, w', GapOps(g1) + GapOps(g2), DoneTask(outcome))
  {
    var m1 := FirstMessage(remembered, base, patch);
    var (w1, reply1) := Serve(s.env, s.wire, w, g1, s.id, m1, s.actor, s.now);
    var theirs, own := ServedOnce(s, w, g1, m1);
    var next := AfterFirst(s.le, s.wire, base, patch, reply1);
    if next.Ok? {
      var (w2, reply2) := Serve(s.env, s.wire, w1, g2, s.id, next.value, s.actor, s.now);
      var more, own2 := ServedOnce(s, w1, g2, next.value);
      RunsCompose(w, w1, w2, GapOps(g1), GapOps(g2), more, own2, SavedTask(reply2));
    } else {
      MoreOthers(w, w1, GapOps(g1), GapOps(g2), theirs, own, SavedTask(reply1));
    }
  }

  lemma ServedOnce(s: Session, w: World, g: Gaps, m: Message) returns (theirs: seq<Op>, own: seq<Op>)
    ensures var (w', reply) := Serve(s.env, s.wire, w, g, s.id, m, s.actor, s.now);
      RanWithOneWrite(w, w', GapOps(g), theirs, own, SavedTask(reply)) && (reply.Stale? ==> theirs == GapOps(g))
  {
    var decoded := Decode(s.wire, m.body);
    if decoded.None? {
      theirs, own := [], [];
    } else {
      var version := if m.ifMatch.Some? then ETag.ParseIfMatch(m.ifMatch.value) else None;
      theirs, own := RequestWritesOnce(s.env, w, g, s.id, decoded.value.(actor := s.actor, expectedVersion := version), s.now);
    }
  }

  lemma DecodeSetsNoVersion(wire: Wire, patch: Patch)
    ensures var i := Decode(wire, patch); i.Some? ==> !i.value.skipVersionCheck
  {
  }

  /** The server's state between the two requests. */
  ghost function AfterFirstRequest(s: Session, w: World, remembered: int, base: ClientTask, patch: Patch, g1: Gaps): (World, Reply) {
    Serve(s.env, s.wire, w, g1, s.id, FirstMessage(remembered, base, patch), s.actor, s.now)
  }

  /** The server's reading of the retry. */
  function RetryInput(s: Session, patch: Patch, server: Task): UpdateInput
    requires Decode(s.wire, patch).Some?
  {
    Decode(s.wire, patch).value.(actor := s.actor, expectedVersion := Some(server.version))
  }

  /** In this interleaving the client reports a merged save. Versions fit the header's integers. */
  ghost predicate SavesMerged(s: Session, w: World, remembered: int, base: ClientTask, patch: Patch, g1: Gaps, g2: Gaps) {
    var w1 := AfterFirstRequest(s, w, remembered, base, patch, g1).0;
    && Interleaves(w, g1) && Interleaves(w1, g2)
    && (forall id :: id in w1.tasks ==> w1.tasks[id].version <= ETag.INT64_MAX)
    && Save(s, w, remembered, base, patch, g1, g2).1.Done? && Save(s, w, remembered, base, patch, g1, g2).1.merged
  }

  /** The retry was computed from the server task and written over it, as the edit of that record. */
  ghost predicate OverwroteServer(s: Session, w1: World, patch: Patch, g2: Gaps, server: Task, saved: Task, w2: World) {
    && s.id in AtWrite(w1, g2).tasks && AtWrite(w1, g2).tasks[s.id] == server
    && w2.tasks == AtWrite(w1, g2).tasks[s.id := saved]
    && Decode(s.wire, patch).Some? && s.id in AtRead(w1, g2).tasks && AtRead(w1, g2).tasks[s.id] == server
    && EditAt(s.env, w1, g2, s.id, RetryInput(s, patch, server), s.now) == Ok(saved.(version := server.version))
  }

  /** When the client reports a merged save, the record it overwrote is the very task the merge was
      computed from, whatever ran in between. So every field it changed still held the base value
      or already the desired one (for completed: the base value): nothing else was overwritten there. */
  lemma MergedSaveIsSafe(s: Session, w: World, remembered: int, base: ClientTask, patch: Patch, g1: Gaps, g2: Gaps)
    ensures SavesMerged(s, w, remembered, base, patch, g1, g2) ==>
      var (w1, reply1) := AfterFirstRequest(s, w, remembered, base, patch, g1);
      var (w2, outcome, _) := Save(s, w, remembered, base, patch, g1, g2);
      && reply1.Stale? && OverwroteServer(s, w1, patch, g2, reply1.current, outcome.task, w2)
      && (forall edit :: edit in patch && ChangedLocally(s.le, base, edit) ==> HeldBaseOrDesired(s, base, reply1.current, edit))
  {
    if SavesMerged(s, w, remembered, base, patch, g1, g2) {
      var (w1, reply1) := AfterFirstRequest(s, w, remembered, base, patch, g1);
      var server := reply1.current;
      var m1 := FirstMessage(remembered, base, patch);
      var version1 := if m1.ifMatch.Some? then ETag.ParseIfMatch(m1.ifMatch.value) else None;
      StaleIsCurrent(s.env, w, g1, s.id, Decode(s.wire, patch).value.(actor := s.actor, expectedVersion := version1), s.now);
      ETag.ClientTagUnderstood(server.version);
      var input := RetryInput(s, patch, server);
      DecodeSetsNoVersion(s.wire, patch);
      ConditionalUpdateIsSafe(s.env, w1, g2, s.id, input, s.now);
      SavedWritesEdit(s.env, w1, g2, s.id, input, s.now);
      NoConflictsIff(s.le, base, patch, Received(s.wire, server));
    }
  }

  /** The field still held the base value, or already the desired one. */
  predicate HeldBaseOrDesired(s: Session, base: ClientTask, server: Task, edit: Edit) {
    var overwritten := FieldValue(s.le, Received(s.wire, server), FieldOf(edit));
    overwritten == FieldValue(s.le, base, FieldOf(edit)) || overwritten == EditedValue(s.le, base, edit)
  }

  /** The record handed back with a 412 is the one stored at that moment. */
  lemma StaleIsCurrent(env: Env, w: World, g: Gaps, id: string, input: UpdateInput, now: int)
    requires Interleaves(w, g) && Request(env, w, g, id, input, now).1.Stale?
    ensures var (w', reply) := Request(env, w, g, id, input, now);
      id in w'.tasks && w'.tasks[id] == reply.current && WellFormed(w') && reply.current.version >= 1
  {
    GapsKeepWellFormed(w, g);
  }

  /** The version the server reads off a message; None without a header or with one it does not read. */
  function NamedVersion(m: Message): Option<int> {
    if m.ifMatch.None? then None else ETag.ParseIfMatch(m.ifMatch.value)
  }

  /** The first request names the version remembered, or the base's when there is none, or none at all; the
      retry names that of the task it was merged with. */
  lemma RequestsNameVersions(s: Session, w: World, remembered: int, base: ClientTask, patch: Patch, g1: Gaps, g2: Gaps)
    ensures var (reply, sent) := (AfterFirstRequest(s, w, remembered, base, patch, g1).1, Save(s, w, remembered, base, patch, g1, g2).2);
      && (1 <= remembered <= ETag.INT64_MAX ==> NamedVersion(sent[0]) == Some(remembered))
      && (remembered == 0 && 1 <= base.version <= ETag.INT64_MAX ==> NamedVersion(sent[0]) == Some(base.version))
      && (remembered == 0 && base.version <= 0 ==> sent[0].ifMatch == None)
      && (|sent| == 2 ==> reply.Stale?)
      && (|sent| == 2 && 1 <= reply.current.version <= ETag.INT64_MAX ==> NamedVersion(sent[1]) == Some(reply.current.version))
  {
    ETag.ETagRoundTrip(remembered);
    ETag.ClientTagUnderstood(base.version);
    var reply := AfterFirstRequest(s, w, remembered, base, patch, g1).1;
    if reply.Stale? {
      ETag.ClientTagUnderstood(reply.current.version);
    }
  }

  lemma ConflictedWhenStale(s: Session, w: World, remembered: int, base: ClientTask, patch: Patch, g1: Gaps, g2: Gaps)
    ensures var (reply, o) := (AfterFirstRequest(s, w, remembered, base, patch, g1).1, Save(s, w, remembered, base, patch, g1, g2).1);
      && (o.Conflicted? <==> reply.Stale? && ConflictsOf(s.le, base, patch, Received(s.wire, reply.current)) != [])
      && (o.Conflicted? ==>
            o.serverTask == reply.current && o.conflicts == ConflictsOf(s.le, base, patch, Received(s.wire, reply.current)))
  {
  }

  /** When the client reports a conflict, and what it reports: a stale first reply, and every edit that
      both the user and the server changed, with what the server's task shows there. */
  lemma ConflictsReported(s: Session, w: World, remembered: int, base: ClientTask, patch: Patch, g1: Gaps, g2: Gaps)
    requires TellsApart(s.le) && Built(patch) && DistinctFields(patch)
    ensures var (reply, o) := (AfterFirstRequest(s, w, remembered, base, patch, g1).1, Save(s, w, remembered, base, patch, g1, g2).1);
      && (o.Conflicted? <==>
           reply.Stale? && exists edit :: edit in patch && BothChanged(base, Received(s.wire, reply.current), edit))
      && (o.Conflicted? ==>
           o.serverTask == reply.current && Reports(s.le, base, patch, Received(s.wire, o.serverTask), o.conflicts))
  {
    ConflictedWhenStale(s, w, remembered, base, patch, g1, g2);
    var reply := AfterFirstRequest(s, w, remembered, base, patch, g1).1;
    if reply.Stale? {
      ConflictsReport(s.le, base, patch, Received(s.wire, reply.current));
    }
  }

  /** A merged save was retried after a reply that left no conflict. */
  lemma MergedWasSecond(s: Session, w: World, remembered: int, base: ClientTask, patch: Patch, g1: Gaps, g2: Gaps)
    ensures var o := Save(s, w, remembered, base, patch, g1, g2).1; o.Done? && o.merged ==>
      var reply := AfterFirstRequest(s, w, remembered, base, patch, g1).1;
      reply.Stale? && ConflictsOf(s.le, base, patch, Received(s.wire, reply.current)) == []
  {
  }

  lemma UnmergedWasFirst(s: Session, w: World, remembered: int, base: ClientTask, patch: Patch, g1: Gaps, g2: Gaps)
    ensures var o := Save(s, w, remembered, base, patch, g1, g2).1; o.Done? && !o.merged ==>
      AfterFirstRequest(s, w, remembered, base, patch, g1).1.Saved? && Decode(s.wire, patch).Some?
  {
  }

  /** A save that needed no merge overwrote the record whose version the client remembered.
      That is the base the edit was made on exactly when the remembered version is the base's. */
  lemma UnmergedSaveUsesRemembered(s: Session, w: World, remembered: int, base: Task, patch: Patch, g1: Gaps, g2: Gaps)
    requires Interleaves(w, g1) && s.id in w.tasks
    requires 1 <= remembered <= ETag.INT64_MAX && w.tasks[s.id].version == remembered
    requires base.version == remembered ==> base == w.tasks[s.id]
    ensures var o := Save(s, w, remembered, Received(s.wire, base), patch, g1, g2).1; o.Done? && !o.merged ==>
      && s.id in AtWrite(w, g1).tasks && AtWrite(w, g1).tasks[s.id] == w.tasks[s.id]
      && (AtWrite(w, g1).tasks[s.id] == base <==> base.version == remembered)
  {
    var o := Save(s, w, remembered, Received(s.wire, base), patch, g1, g2).1;
    if o.Done? && !o.merged {
      UnmergedWasFirst(s, w, remembered, Received(s.wire, base), patch, g1, g2);
      ETag.ETagRoundTrip(remembered);
      DecodeSetsNoVersion(s.wire, patch);
      var input := Decode(s.wire, patch).value.(actor := s.actor, expectedVersion := Some(remembered));
      assert AfterFirstRequest(s, w, remembered, Received(s.wire, base), patch, g1) == Request(s.env, w, g1, s.id, input, s.now);
      ConditionalUpdateIsSafe(s.env, w, g1, s.id, input, s.now);
    }
  }

  // --- nobody else around ---

  const QUIET: Gaps := Gaps([], [], [], [])

  lemma EditIgnoresVersion(env: Env, w: World, id: string, input: UpdateInput, expected: Option<int>, now: int)
    requires id in w.tasks
    ensures EditAt(env, w, QUIET, id, input.(expectedVersion := expected), now) == EditAt(env, w, QUIET, id, input, now)
  {
    var task := w.tasks[id];
    TaskService.PatchedIgnoresVersion(env, task, input, expected,
      MaxPosition(w.tasks, task.projectId, TaskService.NewStatus(env, task, input)), now);
  }

  /** Without interference a conditional request is refused for its edit, stale, or saved. */
  lemma QuietRequest(env: Env, w: World, id: string, input: UpdateInput, version: int, now: int)
    requires WellFormed(w) && id in w.tasks && !input.skipVersionCheck && input.expectedVersion == Some(version)
    ensures var (w', reply) := Request(env, w, QUIET, id, input, now);
      if EditAt(env, w, QUIET, id, input, now).Err? then w' == w && reply.Refused?
      else if w.tasks[id].version != version then w' == w && reply == Stale(w.tasks[id])
      else reply.Saved?
  {
    assert AtRead(w, QUIET) == AtMax(w, QUIET) == AtWrite(w, QUIET) == AtReread(w, QUIET) == w;
    if EditAt(env, w, QUIET, id, input, now).Ok? {
      EditKeepsIdentity(env, w, QUIET, id, input, now);
    }
  }

  /** Without interference the outcome is decided by the edit, the remembered version and the
      merge: saved at once, saved after a merge, reported as a conflict, or refused. */
  lemma QuietSave(s: Session, w: World, remembered: int, base: ClientTask, patch: Patch)
    requires WellFormed(w) && s.id in w.tasks
    requires 1 <= remembered <= ETag.INT64_MAX && w.tasks[s.id].version <= ETag.INT64_MAX
    requires Decode(s.wire, patch).Some?
    ensures var o, stored := Save(s, w, remembered, base, patch, QUIET, QUIET).1, w.tasks[s.id];
      var accepted := EditAt(s.env, w, QUIET, s.id, Decode(s.wire, patch).value.(actor := s.actor), s.now).Ok?;
      var clean := ConflictsOf(s.le, base, patch, Received(s.wire, stored)) == [];
      if !accepted then o.Failed?
      else if stored.version == remembered then o.Done? && !o.merged
      else if clean then o.Done? && o.merged
      else o.Conflicted? && o.serverTask == stored
  {
    var stored, input := w.tasks[s.id], Decode(s.wire, patch).value.(actor := s.actor);
    DecodeSetsNoVersion(s.wire, patch);
    ETag.ETagRoundTrip(remembered);
    ETag.ClientTagUnderstood(stored.version);
    EditIgnoresVersion(s.env, w, s.id, input, Some(remembered), s.now);
    EditIgnoresVersion(s.env, w, s.id, input, Some(stored.version), s.now);
    QuietRequest(s.env, w, s.id, input.(expectedVersion := Some(remembered)), remembered, s.now);
    QuietRequest(s.env, w, s.id, input.(expectedVersion := Some(stored.version)), stored.version, s.now);
  }

  /** An update with an If-Match header that is not read as a version is served as if it had none. */
  lemma UnreadHeaderIsNoHeader(env: Env, wire: Wire, w: World, g: Gaps, id: string, m: Message, actor: string, now: int)
    requires m.ifMatch.Some? && ETag.ParseIfMatch(m.ifMatch.value) == None
    ensures Serve(env, wire, w, g, id, m, actor, now) == Serve(env, wire, w, g, id, m.(ifMatch := None), actor, now)
  {
  }

  /** So without interference an acceptable edit of a task is saved, over whatever is stored, exactly
      when the header is missing, is not read as a version, or is read as the stored one. */
  lemma HeaderGuards(env: Env, wire: Wire, w: World, id: string, m: Message, actor: string, now: int)
    requires WellFormed(w) && id in w.tasks && Decode(wire, m.body).Some?
    requires EditAt(env, w, QUIET, id, Decode(wire, m.body).value.(actor := actor), now).Ok?
    ensures Serve(env, wire, w, QUIET, id, m, actor, now).1.Saved? <==>
      m.ifMatch.None? || ETag.LetsPass(m.ifMatch.value, w.tasks[id].version)
  {
    var version := if m.ifMatch.Some? then ETag.ParseIfMatch(m.ifMatch.value) else None;
    var input := Decode(wire, m.body).value.(actor := actor);
    DecodeSetsNoVersion(wire, m.body);
    EditIgnoresVersion(env, w, id, input, version, now);
    if version.Some? {
      QuietRequest(env, w, id, input.(expectedVersion := version), version.value, now);
    } else {
      QuietUnconditional(env, w, id, input.(expectedVersion := None), now);
    }
  }

  lemma QuietUnconditional(env: Env, w: World, id: string, input: UpdateInput, now: int)
    requires WellFormed(w) && id in w.tasks && input.expectedVersion.None? && EditAt(env, w, QUIET, id, input, now).Ok?
    ensures Request(env, w, QUIET, id, input, now).1.Saved?
  {
    EditKeepsIdentity(env, w, QUIET, id, input, now);
  }

  /** Undisturbed, the request is the service call that Positions and Replica take as one step. */
  lemma QuietIsUpdateTask(env: Env, w: World, columns: Columns, id: string, input: UpdateInput, now: int)
    requires WellFormed(w) && Trim(Go, id) == id
    ensures var (w', reply) := Request(env, w, QUIET, id, input, now);
      var (b', r) := TaskService.UpdateTask(env, TaskService.Board(w.tasks, columns), id, input, now);
      && w'.tasks == b'.tasks && b'.columns == columns
      && r == match reply
              case Saved(task) => Ok(task)
              case Stale(current) => Err(StaleTask(current))
              case Refused(e) => Err(e)
  {
    assert AtRead(w, QUIET) == AtMax(w, QUIET) == AtWrite(w, QUIET) == AtReread(w, QUIET) == w;
    if id in w.tasks && EditAt(env, w, QUIET, id, input, now).Ok? {
      EditKeepsIdentity(env, w, QUIET, id, input, now);
    }
  }
}
