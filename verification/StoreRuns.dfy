/** Runs of the task store: any number of clients, their writes interleaved one locked step
    at a time. Versions only grow, and a version seen twice means the record never changed
    in between; that is what makes compare-and-swap on the version safe. */
module StoreRuns {
  import opened Text
  import opened Sorting
  import opened TaskModel
  import opened TaskStore

  /** The tasks, and every id ever handed out: ids are random and assumed never to repeat. */
  datatype World = World(tasks: Tasks, used: set<string>)

  datatype Op =
    | OpCreate(task: Task)
    | OpUpdate(task: Task)
    | OpUpdateIfVersion(task: Task, expected: int)
    | OpReorder(project: string, status: string, ids: seq<string>, now: int)
    | OpDelete(id: string)

  ghost function Step(w: World, op: Op): World {
    match op
    case OpCreate(task) => World(Created(w.tasks, task).0, w.used + {task.id})
    case OpUpdate(task) => w.(tasks := Updated(w.tasks, task).0)
    case OpUpdateIfVersion(task, expected) => w.(tasks := UpdatedIfVersion(w.tasks, task, expected).0)
    case OpReorder(project, status, ids, now) => w.(tasks := Reordered(w.tasks, project, status, ids, now))
    case OpDelete(id) => w.(tasks := w.tasks - {id})
  }

  ghost function Run(w: World, ops: seq<Op>): World
    decreases ops
  {
    if ops == [] then w else Run(Step(w, ops[0]), ops[1..])
  }

  ghost predicate Fresh(w: World, op: Op) {
    op.OpCreate? ==> op.task.id !in w.used
  }

  /** Every creation in the run uses a fresh id. */
  ghost predicate Admissible(w: World, ops: seq<Op>)
    decreases ops
  {
    ops == [] || (Fresh(w, ops[0]) && Admissible(Step(w, ops[0]), ops[1..]))
  }

  ghost predicate WellFormed(w: World) {
    && FiledById(w.tasks)
    && w.tasks.Keys <= w.used
    && forall id :: id in w.tasks ==> w.tasks[id].version >= 1
  }

  /** What one step may do to one record: leave it, or replace it one version up. */
  ghost predicate Advances(before: Task, after: Task) {
    after == before || after.version == before.version + 1
  }

  /** One admissible step keeps the store in order and no id comes back. */
  lemma StepKeepsWellFormed(w: World, op: Op)
    requires WellFormed(w) && Fresh(w, op)
    ensures WellFormed(Step(w, op)) && w.used <= Step(w, op).used
    ensures forall id :: id in w.used && id !in w.tasks ==> id !in Step(w, op).tasks
  {
  }

  lemma StepAdvances(w: World, op: Op, id: string)
    requires WellFormed(w) && Fresh(w, op) && id in w.tasks && id in Step(w, op).tasks
    ensures Advances(w.tasks[id], Step(w, op).tasks[id])
  {
  }

  lemma {:induction false} RunKeepsWellFormed(w: World, ops: seq<Op>)
    requires WellFormed(w) && Admissible(w, ops)
    ensures WellFormed(Run(w, ops))
    ensures w.used <= Run(w, ops).used
    ensures forall id :: id in w.used && id !in w.tasks ==> id !in Run(w, ops).tasks
    decreases ops
  {
    if ops != [] {
      StepKeepsWellFormed(w, ops[0]);
      RunKeepsWellFormed(Step(w, ops[0]), ops[1..]);
    }
  }

  /** Over any run a surviving record's version never drops, and if it comes back to the same
      number the record is untouched: versions identify record contents. */
  lemma {:induction false} VersionIdentifiesRecord(w: World, ops: seq<Op>, id: string)
    requires WellFormed(w) && Admissible(w, ops)
    requires id in w.tasks && id in Run(w, ops).tasks
    ensures Run(w, ops).tasks[id].version >= w.tasks[id].version
    ensures Run(w, ops).tasks[id].version == w.tasks[id].version ==> Run(w, ops).tasks[id] == w.tasks[id]
    decreases ops
  {
    if ops != [] {
      var w' := Step(w, ops[0]);
      StepKeepsWellFormed(w, ops[0]);
      if id !in w'.tasks {
        RunKeepsWellFormed(w', ops[1..]);
      }
      StepAdvances(w, ops[0], id);
      VersionIdentifiesRecord(w', ops[1..], id);
    }
  }

  lemma {:induction false} RunSplits(w: World, a: seq<Op>, b: seq<Op>)
    ensures Run(w, a + b) == Run(Run(w, a), b)
    ensures Admissible(w, a + b) <==> Admissible(w, a) && Admissible(Run(w, a), b)
    decreases a
  {
    if a == [] {
      assert a + b == b;
    } else {
      assert (a + b)[1..] == a[1..] + b;
      RunSplits(Step(w, a[0]), a[1..], b);
    }
  }

  /** A record present before and after a run was present all along. */
  lemma PresentThroughout(w: World, a: seq<Op>, b: seq<Op>, id: string)
    requires WellFormed(w) && Admissible(w, a + b)
    requires id in w.tasks && id in Run(w, a + b).tasks
    ensures Admissible(w, a) && WellFormed(Run(w, a)) && Admissible(Run(w, a), b)
    ensures id in Run(w, a).tasks
  {
    RunSplits(w, a, b);
    RunKeepsWellFormed(w, a);
    if id !in Run(w, a).tasks {
      RunKeepsWellFormed(Run(w, a), b);
    }
  }

  /** Compare-and-swap after a separate read. The client names a version; the service reads the
      record at w1, other writes run, and the swap is tried at the end. When the swap succeeds,
      the record it overwrites is the record that was read exactly when the version named is the
      version read. */
  lemma SwapOverwritesWhatWasRead(w1: World, between: seq<Op>, id: string, expected: int)
    requires WellFormed(w1) && Admissible(w1, between) && id in w1.tasks
    requires id in Run(w1, between).tasks && Run(w1, between).tasks[id].version == expected
    ensures Run(w1, between).tasks[id] == w1.tasks[id] <==> w1.tasks[id].version == expected
  {
    VersionIdentifiesRecord(w1, between, id);
  }

  /** The version named had been returned by the store at w0, before the read at Run(w0, before).
      Then a successful swap overwrites the very record that was read, and that the client saw. */
  lemma NoLostUpdate(w0: World, before: seq<Op>, between: seq<Op>, id: string, expected: int)
    requires WellFormed(w0) && Admissible(w0, before + between)
    requires id in w0.tasks && w0.tasks[id].version == expected
    requires id in Run(w0, before + between).tasks && Run(w0, before + between).tasks[id].version == expected
    ensures id in Run(w0, before).tasks
    ensures Run(w0, before + between).tasks[id] == Run(w0, before).tasks[id] == w0.tasks[id]
  {
    PresentThroughout(w0, before, between, id);
    RunSplits(w0, before, between);
    VersionIdentifiesRecord(w0, before, id);
    VersionIdentifiesRecord(Run(w0, before), between, id);
  }

  /** Two readers of the same version both try to swap: at most one of them can succeed,
      whatever runs before, between and after. */
  lemma OneWinnerPerVersion(w: World, ops: seq<Op>, first: Task, second: Task, expected: int)
    requires WellFormed(w) && first.id == second.id && first.id in w.tasks
    requires UpdatedIfVersion(w.tasks, first, expected).1.Ok?
    requires Admissible(Step(w, OpUpdateIfVersion(first, expected)), ops)
    ensures var later := Run(Step(w, OpUpdateIfVersion(first, expected)), ops);
      UpdatedIfVersion(later.tasks, second, expected).1.Err?
  {
    var w' := Step(w, OpUpdateIfVersion(first, expected));
    if first.id in Run(w', ops).tasks {
      VersionIdentifiesRecord(w', ops, first.id);
    }
  }

  // --- what the operations do ---

  /** Which tasks there are after one operation: a creation adds one and a deletion takes one away. */
  lemma StepPresence(w: World, op: Op, id: string)
    ensures id in Step(w, op).tasks <==> (op.OpCreate? && op.task.id == id) || (id in w.tasks && op != OpDelete(id))
  {
  }

  /** The operation writes the task, as given, one version up: an update always, a swap when its version is
      the stored one. */
  predicate WritesTask(w: World, op: Op, id: string)
    requires id in w.tasks
  {
    || (op.OpUpdate? && op.task.id == id)
    || (op.OpUpdateIfVersion? && op.task.id == id && op.expected == w.tasks[id].version)
  }

  /** The task is one of a column put in order. */
  ghost predicate Reorders(w: World, op: Op, id: string)
    requires id in w.tasks
  {
    op.OpReorder? && ReorderAccepted(w.tasks, op.project, op.status, op.ids) &&
    w.tasks[id].projectId == Trim(Go, op.project) && w.tasks[id].status == Trim(Go, op.status)
  }

  /** What becomes of a task that was there and still is. */
  lemma StepContents(w: World, op: Op, id: string)
    requires WellFormed(w) && Fresh(w, op) && id in w.tasks && id in Step(w, op).tasks
    ensures var (before, after) := (w.tasks[id], Step(w, op).tasks[id]);
      if WritesTask(w, op, id) then after == op.task.(version := before.version + 1)
      else if Reorders(w, op, id) then
        after == before.(sortPosition := after.sortPosition, version := before.version + 1, updatedAt := op.now) &&
        0 <= after.sortPosition < |op.ids| && Trim(Go, op.ids[after.sortPosition]) == id
      else after == before
  {
    if op.OpReorder? && ReorderAccepted(w.tasks, op.project, op.status, op.ids) {
      assert id in ColumnIds(w.tasks, Trim(Go, op.project), Trim(Go, op.status)) <==> id in TrimAll(Go, op.ids);
    }
  }

  lemma StepCreates(w: World, op: Op)
    requires op.OpCreate?
    ensures Step(w, op).tasks[op.task.id] == op.task.(version := if op.task.version < 1 then 1 else op.task.version)
  {
  }
}
