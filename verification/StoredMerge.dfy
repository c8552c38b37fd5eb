/** What a merged save does to the record in the store. The retry sends the whole patch, and the server
    writes every field of it; so a colleague's change to a field the form merely carried along is
    undone. */
module StoredMerge {
  import opened Text
  import opened TaskModel
  import opened TaskStore
  import opened StoreRuns
  import TaskService
  import Tags
  import opened BoardMerge
  import opened PatchProtocol

  /** The text fields that are stored as text, each in its normal form. */
  predicate Plain(f: TextField) {
    f == Title || f == Description || f == Status || f == Priority
  }

  predicate IsLegacy(f: TextField) {
    f == AssigneeUserId || f == AssigneeName
  }

  function Normal(env: Env, f: TextField, value: string): string
    requires Plain(f)
  {
    match f
    case Status => TaskService.NormalizeStatus(env, value)
    case Priority => TaskService.NormalizePriority(env, value)
    case _ => Trim(Go, value)
  }

  // --- what an edit leaves in the store ---

  /** Edits that decide their field alone: not the completion, and not the legacy assignee, which the
      assignee list overrides. */
  predicate Direct(edit: Edit) {
    match edit
    case SetText(f, _) => !IsLegacy(f)
    case SetTags(tags) => tags.TagList?
    case SetAssignees(people) => people.Some?
    case SetCompleted(_) => false
  }

  /** The legacy assignee of a stored list is its first entry. */
  function FirstOf(list: seq<Assignee>): seq<Assignee> {
    if list == [] then [] else Legacy(Trim(Go, list[0].userId), Trim(Go, list[0].displayName))
  }

  function StoredText(wire: Wire, env: Env, f: TextField, value: string): Option<string> {
    if Plain(f) then Some(Normal(env, f, value))
    else if f == DueAt && wire.parseTime(value).Some? then Some(TimeText(wire, wire.parseTime(value)))
    else None
  }

  /** The list and its legacy assignee as the server stores them. */
  function StoredPeople(env: Env, people: seq<Assignee>): Option<seq<Assignee>> {
    match TaskService.Resolved(env, people, "", "")
    case Ok(list) => Some(Shown(list, FirstOf(list)))
    case Err(_) => None
  }

  /** What the field reads once the edit is stored; None when null leaves it as it was. */
  function StoredValue(le: Collation, wire: Wire, env: Env, edit: Edit): Option<Value>
    requires Direct(edit)
  {
    match edit
    case SetText(f, value) =>
      var text := if value.Some? then StoredText(wire, env, f, value.value) else None;
      if text.Some? then Some(Str(text.value)) else None
    case SetTags(tags) => Some(TagsSignature(le, Tags.Normalized(env.lower, tags.list)))
    case SetAssignees(people) =>
      var list := StoredPeople(env, people.value);
      if list.Some? then Some(PeopleOf(le, list.value)) else None
  }

  // --- decoding ---

  function InputText(input: UpdateInput, f: TextField): Option<string>
    requires Plain(f)
  {
    match f
    case Title => input.title
    case Description => input.description
    case Status => input.status
    case _ => input.priority
  }

  /** The decoded input holds the edit. */
  predicate Holds(wire: Wire, input: UpdateInput, edit: Edit) {
    match edit
    case SetText(DueAt, value) => input.dueAt == if value.Some? then wire.parseTime(value.value) else None
    case SetText(AssigneeUserId, value) => input.assigneeUserId == value
    case SetText(AssigneeName, value) => input.assigneeName == value
    case SetText(f, value) => InputText(input, f) == value
    case SetTags(tags) => tags.TagList? ==> input.tags == Some(tags.list)
    case SetAssignees(people) => input.assignees == people
    case SetCompleted(flag) => input.completed == flag
  }

  /** The decoded input holds nothing for the field. */
  predicate Lacks(input: UpdateInput, field: Field) {
    match field
    case FText(DueAt) => input.dueAt == None
    case FText(AssigneeUserId) => input.assigneeUserId == None
    case FText(AssigneeName) => input.assigneeName == None
    case FText(f) => InputText(input, f) == None
    case FTags => input.tags == None
    case FAssignees => input.assignees == None
    case FCompleted => input.completed == None
  }

  lemma {:induction false} DecodeLacks(wire: Wire, patch: Patch, field: Field)
    requires Decode(wire, patch).Some? && !Mentions(patch, field)
    ensures Lacks(Decode(wire, patch).value, field)
  {
    if patch != [] {
      var init := patch[..|patch| - 1];
      assert FieldOf(patch[|patch| - 1]) != field;
      assert forall i :: 0 <= i < |init| ==> init[i] == patch[i];
      DecodeLacks(wire, init, field);
    }
  }

  lemma DecodeStep(wire: Wire, patch: Patch, edit: Edit)
    requires patch != [] && Decode(wire, patch).Some?
    ensures var init := patch[..|patch| - 1];
      Decode(wire, init).Some? &&
      if edit == patch[|patch| - 1] then Holds(wire, Decode(wire, patch).value, edit)
      else FieldOf(edit) != FieldOf(patch[|patch| - 1]) ==>
        (Holds(wire, Decode(wire, init).value, edit) ==> Holds(wire, Decode(wire, patch).value, edit))
  {
  }

  lemma {:induction false} DecodeHolds(wire: Wire, patch: Patch, i: nat)
    requires DistinctFields(patch) && i < |patch| && Decode(wire, patch).Some?
    ensures Holds(wire, Decode(wire, patch).value, patch[i])
    decreases |patch|
  {
    var n := |patch| - 1;
    DecodeStep(wire, patch, patch[i]);
    if i < n {
      assert FieldOf(patch[i]) != FieldOf(patch[n]) && patch[..n][i] == patch[i];
      DecodeHolds(wire, patch[..n], i);
    }
  }

  /** The server can read the body: tags come as a list, and the due date as a time. */
  ghost predicate Readable(wire: Wire, patch: Patch) {
    forall edit :: edit in patch ==>
      !(edit.SetTags? && edit.tags.TagText?) && (edit.SetText? && edit.field == DueAt && edit.value.Some? ==> wire.parseTime(edit.value.value).Some?)
  }

  lemma {:induction false} DecodesReadable(wire: Wire, patch: Patch)
    ensures Decode(wire, patch).Some? <==> Readable(wire, patch)
  {
    if patch != [] {
      var init, last := patch[..|patch| - 1], patch[|patch| - 1];
      DecodesReadable(wire, init);
      assert patch == init + [last];
      assert last in patch && forall edit :: edit in init ==> edit in patch;
    }
  }

  /** A body is read exactly when its tags are a list and its due date a time; then the update holds every
      edit of it and nothing else. */
  lemma BodyDecoded(wire: Wire, patch: Patch)
    requires DistinctFields(patch)
    ensures Decode(wire, patch).Some? <==> Readable(wire, patch)
    ensures Readable(wire, patch) ==> forall i :: 0 <= i < |patch| ==> Holds(wire, Decode(wire, patch).value, patch[i])
    ensures Readable(wire, patch) ==> forall field :: !Mentions(patch, field) ==> Lacks(Decode(wire, patch).value, field)
  {
    DecodesReadable(wire, patch);
    if Readable(wire, patch) {
      forall i | 0 <= i < |patch|
        ensures Holds(wire, Decode(wire, patch).value, patch[i])
      {
        DecodeHolds(wire, patch, i);
      }
      forall field | !Mentions(patch, field)
        ensures Lacks(Decode(wire, patch).value, field)
      {
        DecodeLacks(wire, patch, field);
      }
    }
  }

  // --- storing ---

  function TextOf(t: Task, f: TextField): string
    requires Plain(f)
  {
    match f
    case Title => t.title
    case Description => t.description
    case Status => t.status
    case _ => t.priority
  }

  predicate SamePeople(a: Task, b: Task) {
    a.assignees == b.assignees && a.assigneeUserId == b.assigneeUserId && a.assigneeName == b.assigneeName
  }

  /** The list resolved is stored, with its first entry in the legacy fields. */
  predicate PeopleStored(env: Env, people: seq<Assignee>, t: Task) {
    match TaskService.Resolved(env, people, "", "")
    case Ok(list) => SamePeople(t, TaskService.WithAssignees(t, list))
    case Err(_) => false
  }

  /** What an update with this input leaves of the fields a patch can edit. */
  ghost predicate IsStored(env: Env, input: UpdateInput, task: Task, t: Task) {
    && (forall f :: Plain(f) ==>
         TextOf(t, f) == if InputText(input, f).Some? then Normal(env, f, InputText(input, f).value) else TextOf(task, f))
    && t.dueAt == (if input.dueAt.Some? then input.dueAt else task.dueAt)
    && t.tags == (if input.tags.Some? then Tags.Normalized(env.lower, input.tags.value) else task.tags)
    && (input.assignees.Some? ==> PeopleStored(env, input.assignees.value, t))
    && (input.assignees.None? && input.assigneeUserId.None? ==> SamePeople(t, task))
    && (input.completed.None? ==> t.completedAt.Some? == (task.completedAt.Some? || t.status == "done"))
    && (input.completed.None? && task.completedAt.Some? ==> t.completedAt == task.completedAt)
  }

  lemma PatchedIsStored(env: Env, task: Task, input: UpdateInput, maxPos: int, now: int)
    ensures var r := TaskService.Patched(env, task, input, maxPos, now); r.Ok? ==> IsStored(env, input, task, r.value)
  {
  }

  // --- reading what is stored ---

  lemma TextReads(le: Collation, wire: Wire, t: Task, f: TextField)
    requires Plain(f)
    ensures FieldValue(le, Received(wire, t), FText(f)) == Str(TextOf(t, f))
  {
  }

  lemma DueDateReads(le: Collation, wire: Wire, t: Task)
    ensures FieldValue(le, Received(wire, t), FText(DueAt)) == Str(TimeText(wire, t.dueAt))
  {
  }

  lemma TagsRead(le: Collation, wire: Wire, t: Task)
    ensures FieldValue(le, Received(wire, t), FTags) == TagsSignature(le, t.tags)
  {
  }

  lemma PeopleRead(le: Collation, wire: Wire, t: Task)
    ensures FieldValue(le, Received(wire, t), FAssignees) == PeopleOf(le, Shown(t.assignees, Legacy(t.assigneeUserId, t.assigneeName)))
    ensures FieldValue(le, Received(wire, t), FText(AssigneeUserId)) == Str(t.assigneeUserId)
    ensures FieldValue(le, Received(wire, t), FText(AssigneeName)) == Str(t.assigneeName)
  {
  }

  /** An update stores what its edits say. */
  lemma EditStored(le: Collation, wire: Wire, env: Env, input: UpdateInput, task: Task, t: Task, edit: Edit)
    requires IsStored(env, input, task, t) && Holds(wire, input, edit) && Direct(edit)
    ensures FieldValue(le, Received(wire, t), FieldOf(edit)) ==
      if StoredValue(le, wire, env, edit).Some? then StoredValue(le, wire, env, edit).value
      else FieldValue(le, Received(wire, task), FieldOf(edit))
  {
    match edit
    case SetText(DueAt, _) =>
      DueDateReads(le, wire, t);
      DueDateReads(le, wire, task);
    case SetText(f, _) =>
      TextReads(le, wire, t, f);
      TextReads(le, wire, task, f);
    case SetTags(_) => TagsRead(le, wire, t);
    case SetAssignees(people) => PeopleRead(le, wire, t);
  }

  /** Every time is shown as some text. */
  ghost predicate TimesShow(wire: Wire) {
    forall t :: wire.formatTime(t) != ""
  }

  predicate OnPeople(field: Field) {
    field == FAssignees || (field.FText? && IsLegacy(field.text))
  }

  /** The patch leaves the field alone: no edit of it, and for the assignees none of the list or the
      legacy id, which the server keeps together. */
  ghost predicate LeavesAlone(patch: Patch, field: Field) {
    && !Mentions(patch, field)
    && (OnPeople(field) ==> !Mentions(patch, FAssignees) && !Mentions(patch, FText(AssigneeUserId)))
  }

  lemma TimeIsNot(wire: Wire, t: Option<int>, text: string)
    requires forall v :: wire.formatTime(v) != text
    ensures TimeText(wire, t) == text <==> t.None? && text == ""
  {
    if t.Some? {
      var v := t.value;
      assert wire.formatTime(v) != text;
    }
  }

  lemma CompletionReads(le: Collation, wire: Wire, t: Task)
    requires TimesShow(wire)
    ensures FieldValue(le, Received(wire, t), FCompleted) == Flag(t.completedAt.Some?)
  {
    TimeIsNot(wire, t.completedAt, "");
  }

  /** A field the update leaves alone reads as before; only the completion may not, because a done
      task without one is completed by any update. */
  lemma OthersStored(le: Collation, wire: Wire, env: Env, input: UpdateInput, task: Task, t: Task, field: Field)
    requires IsStored(env, input, task, t) && Lacks(input, field)
    requires OnPeople(field) ==> input.assignees.None? && input.assigneeUserId.None?
    requires field == FCompleted ==> TimesShow(wire)
    ensures FieldValue(le, Received(wire, t), field) == FieldValue(le, Received(wire, task), field) <==>
      (field == FCompleted ==> task.completedAt.Some? || t.status != "done")
  {
    match field
    case FText(DueAt) =>
      DueDateReads(le, wire, t);
      DueDateReads(le, wire, task);
    case FText(f) =>
      if Plain(f) {
        TextReads(le, wire, t, f);
        TextReads(le, wire, task, f);
      } else {
        PeopleRead(le, wire, t);
        PeopleRead(le, wire, task);
      }
    case FTags =>
      TagsRead(le, wire, t);
      TagsRead(le, wire, task);
    case FAssignees =>
      PeopleRead(le, wire, t);
      PeopleRead(le, wire, task);
    case FCompleted =>
      CompletionReads(le, wire, t);
      CompletionReads(le, wire, task);
  }

  // --- the merged save ---

  /** Between base and the overwritten task the field had changed, and the stored task has it back
      at the base value. */
  predicate Reverted(le: Collation, wire: Wire, base: ClientTask, server: Task, saved: Task, field: Field) {
    && FieldValue(le, Received(wire, server), field) != FieldValue(le, base, field)
    && FieldValue(le, Received(wire, saved), field) == FieldValue(le, base, field)
  }

  /** The task saved is the server's with the patch stored. */
  ghost predicate IsPatchOf(s: Session, patch: Patch, server: Task, saved: Task) {
    Decode(s.wire, patch).Some? && IsStored(s.env, RetryInput(s, patch, server), server, saved)
  }

  lemma SavedIsPatched(s: Session, w: World, remembered: int, base: ClientTask, patch: Patch, g1: Gaps, g2: Gaps)
    ensures SavesMerged(s, w, remembered, base, patch, g1, g2) ==>
      var reply := AfterFirstRequest(s, w, remembered, base, patch, g1).1;
      reply.Stale? && IsPatchOf(s, patch, reply.current, Save(s, w, remembered, base, patch, g1, g2).1.task)
  {
    MergedSaveIsSafe(s, w, remembered, base, patch, g1, g2);
    if SavesMerged(s, w, remembered, base, patch, g1, g2) {
      var (w1, reply) := AfterFirstRequest(s, w, remembered, base, patch, g1);
      EditIsStored(s.env, w1, g2, s.id, RetryInput(s, patch, reply.current), s.now);
    }
  }

  lemma EditIsStored(env: Env, w: World, g: Gaps, id: string, input: UpdateInput, now: int)
    requires id in AtRead(w, g).tasks
    ensures var r := EditAt(env, w, g, id, input, now); r.Ok? ==> IsStored(env, input, AtRead(w, g).tasks[id], r.value)
  {
    var task := AtRead(w, g).tasks[id];
    PatchedIsStored(env, task, input, MaxPosition(AtMax(w, g).tasks, task.projectId, TaskService.NewStatus(env, task, input)), now);
  }

  lemma PatchUndoes(s: Session, base: ClientTask, patch: Patch, server: Task, saved: Task, i: nat)
    requires DistinctFields(patch) && i < |patch| && Direct(patch[i]) && IsPatchOf(s, patch, server, saved)
    ensures Reverted(s.le, s.wire, base, server, saved, FieldOf(patch[i])) <==>
      && ChangedOnServer(s.le, base, Received(s.wire, server), FieldOf(patch[i]))
      && StoredValue(s.le, s.wire, s.env, patch[i]) == Some(FieldValue(s.le, base, FieldOf(patch[i])))
  {
    DecodeHolds(s.wire, patch, i);
    EditStored(s.le, s.wire, s.env, RetryInput(s, patch, server), server, saved, patch[i]);
  }

  /** In the record a merged save leaves, another user's change to a field is undone exactly when the
      server had moved the field and stores the patch's edit of it as the base value. */
  lemma MergedSaveUndoes(s: Session, w: World, remembered: int, base: ClientTask, patch: Patch, g1: Gaps, g2: Gaps, i: nat)
    requires DistinctFields(patch) && i < |patch| && Direct(patch[i])
    ensures SavesMerged(s, w, remembered, base, patch, g1, g2) ==>
      var (reply, f) := (AfterFirstRequest(s, w, remembered, base, patch, g1).1, FieldOf(patch[i]));
      reply.Stale? &&
      (Reverted(s.le, s.wire, base, reply.current, Save(s, w, remembered, base, patch, g1, g2).1.task, f) <==>
       ChangedOnServer(s.le, base, Received(s.wire, reply.current), f) &&
       StoredValue(s.le, s.wire, s.env, patch[i]) == Some(FieldValue(s.le, base, f)))
  {
    SavedIsPatched(s, w, remembered, base, patch, g1, g2);
    if SavesMerged(s, w, remembered, base, patch, g1, g2) {
      PatchUndoes(s, base, patch, AfterFirstRequest(s, w, remembered, base, patch, g1).1.current,
                  Save(s, w, remembered, base, patch, g1, g2).1.task, i);
    }
  }

  ghost predicate Trimmed(list: seq<Assignee>) {
    CleanList(list) && forall i :: 0 <= i < |list| ==> IsTrimmed(Go, list[i].userId) && IsTrimmed(Go, list[i].displayName)
  }

  /** The edit's value is in the form the server stores and prints. */
  ghost predicate StoredAsSent(wire: Wire, env: Env, edit: Edit) {
    match edit
    case SetText(DueAt, value) =>
      value.Some? ==> wire.parseTime(value.value).Some? && TimeText(wire, wire.parseTime(value.value)) == value.value
    case SetText(f, value) => Plain(f) && (value.Some? ==> Normal(env, f, value.value) == value.value)
    case SetTags(tags) => tags.TagList? && Tags.NormalForm(env.lower, tags.list)
    case SetAssignees(people) => people.Some? && Trimmed(people.value) && TaskService.Resolved(env, people.value, "", "").Ok?
    case SetCompleted(_) => false
  }

  lemma OneMoreUser(done: seq<Assignee>, a: Assignee, userId: string)
    ensures TaskService.HasUser(done + [a], userId) <==> TaskService.HasUser(done, userId) || a.userId == userId
  {
    assert a in done + [a] && forall x :: x in done + [a] <==> x in done || x == a;
  }

  lemma RestStillNew(done: seq<Assignee>, list: seq<Assignee>)
    requires list != [] && CleanList(list) && forall i :: 0 <= i < |list| ==> !TaskService.HasUser(done, list[i].userId)
    ensures forall i :: 0 <= i < |list[1..]| ==> !TaskService.HasUser(done + [list[0]], list[1..][i].userId)
  {
    forall i | 0 <= i < |list[1..]|
      ensures !TaskService.HasUser(done + [list[0]], list[1..][i].userId)
    {
      OneMoreUser(done, list[0], list[i + 1].userId);
    }
  }

  /** A clean, trimmed list resolves to itself, if it resolves. */
  lemma {:induction false} ResolvesToItself(env: Env, done: seq<Assignee>, list: seq<Assignee>)
    requires TaskService.ResolveInto(env, done, list).Ok? && Trimmed(list)
    requires forall i :: 0 <= i < |list| ==> !TaskService.HasUser(done, list[i].userId)
    ensures TaskService.ResolveInto(env, done, list).value == done + list
    decreases |list|
  {
    if list == [] {
      assert done + list == done;
    } else {
      var a, rest := list[0], list[1..];
      TrimsToItself(Go, a.userId);
      TrimsToItself(Go, a.displayName);
      assert CleanList(rest) && a.userId != "";
      RestStillNew(done, list);
      ResolvesToItself(env, done + [a], rest);
      assert done + [a] + rest == done + list;
    }
  }

  lemma ListStoredAsSent(env: Env, list: seq<Assignee>)
    requires Trimmed(list) && TaskService.Resolved(env, list, "", "").Ok?
    ensures StoredPeople(env, list) == Some(list)
  {
    if list != [] {
      CleaningClean(list);
      ResolvesToItself(env, [], list);
      assert [] + list == list && TaskService.Resolved(env, list, "", "") == Ok(list);
    }
  }

  /** An edit in the stored form is read back as it was sent. */
  lemma SentIsStored(le: Collation, wire: Wire, env: Env, edit: Edit)
    requires StoredAsSent(wire, env, edit)
    ensures Direct(edit) && StoredValue(le, wire, env, edit) == if Desired(le, edit) == Null then None else Some(Desired(le, edit))
  {
    match edit
    case SetText(_, _) =>
    case SetTags(tags) => Tags.NormalizeFixesExactlyNormal(env.lower, tags.list);
    case SetAssignees(people) =>
      SignatureOfClean(le, edit);
      ListStoredAsSent(env, people.value);
  }

  /** So for an edit in the stored form: exactly when the patch carries the field unchanged from its
      base while the server had moved it. */
  lemma MergedSaveReverts(s: Session, w: World, remembered: int, base: ClientTask, patch: Patch, g1: Gaps, g2: Gaps, i: nat)
    requires DistinctFields(patch) && i < |patch| && StoredAsSent(s.wire, s.env, patch[i])
    ensures SavesMerged(s, w, remembered, base, patch, g1, g2) ==>
      var (reply, f) := (AfterFirstRequest(s, w, remembered, base, patch, g1).1, FieldOf(patch[i]));
      reply.Stale? &&
      (Reverted(s.le, s.wire, base, reply.current, Save(s, w, remembered, base, patch, g1, g2).1.task, f) <==>
       !ChangedLocally(s.le, base, patch[i]) && ChangedOnServer(s.le, base, Received(s.wire, reply.current), f))
  {
    SentIsStored(s.le, s.wire, s.env, patch[i]);
    MergedSaveUndoes(s, w, remembered, base, patch, g1, g2, i);
  }

  lemma PatchKeeps(s: Session, patch: Patch, server: Task, saved: Task, field: Field)
    requires LeavesAlone(patch, field) && (field == FCompleted ==> TimesShow(s.wire)) && IsPatchOf(s, patch, server, saved)
    ensures FieldValue(s.le, Received(s.wire, saved), field) == FieldValue(s.le, Received(s.wire, server), field) <==>
      (field == FCompleted ==> server.completedAt.Some? || saved.status != "done")
  {
    DecodeLacks(s.wire, patch, field);
    if OnPeople(field) {
      DecodeLacks(s.wire, patch, FAssignees);
      DecodeLacks(s.wire, patch, FText(AssigneeUserId));
    }
    OthersStored(s.le, s.wire, s.env, RetryInput(s, patch, server), server, saved, field);
  }

  /** A field the patch leaves alone is left as the server had it, but for the completion: that is kept
      exactly when the server's task was complete or the saved one is not done. */
  lemma MergedSaveKeepsOthers(s: Session, w: World, remembered: int, base: ClientTask, patch: Patch, g1: Gaps, g2: Gaps, field: Field)
    requires LeavesAlone(patch, field) && (field == FCompleted ==> TimesShow(s.wire))
    ensures SavesMerged(s, w, remembered, base, patch, g1, g2) ==>
      var (reply, saved) := (AfterFirstRequest(s, w, remembered, base, patch, g1).1, Save(s, w, remembered, base, patch, g1, g2).1.task);
      reply.Stale? &&
      (FieldValue(s.le, Received(s.wire, saved), field) == FieldValue(s.le, Received(s.wire, reply.current), field) <==>
       (field == FCompleted ==> reply.current.completedAt.Some? || saved.status != "done"))
  {
    SavedIsPatched(s, w, remembered, base, patch, g1, g2);
    if SavesMerged(s, w, remembered, base, patch, g1, g2) {
      PatchKeeps(s, patch, AfterFirstRequest(s, w, remembered, base, patch, g1).1.current,
                 Save(s, w, remembered, base, patch, g1, g2).1.task, field);
    }
  }

  // --- due dates ---

  /** The client prints times with thousandths and the server without, so a due date the form merely
      carries along is never the text it came from: it counts as a local change, and conflicts exactly
      when the server has moved the due date. */
  lemma CarriedDueDateConflicts(le: Collation, wire: Wire, base: Task, server: Task, sent: string)
    requires sent != "" && forall t :: wire.formatTime(t) != sent
    ensures var edit := SetText(DueAt, Some(sent));
      && ChangedLocally(le, Received(wire, base), edit)
      && (Conflicting(le, Received(wire, base), Received(wire, server), edit) <==>
          ChangedOnServer(le, Received(wire, base), Received(wire, server), FText(DueAt)))
  {
    DueDateReads(le, wire, base);
    DueDateReads(le, wire, server);
    TimeIsNot(wire, base.dueAt, sent);
    TimeIsNot(wire, server.dueAt, sent);
  }

  /** So a merged save never undoes another user's change of the due date behind the form's back. */
  lemma DueDateNotReverted(s: Session, w: World, remembered: int, base: Task, patch: Patch, g1: Gaps, g2: Gaps, sent: string)
    requires SetText(DueAt, Some(sent)) in patch && sent != "" && forall t :: s.wire.formatTime(t) != sent
    ensures SavesMerged(s, w, remembered, Received(s.wire, base), patch, g1, g2) ==>
      var reply := AfterFirstRequest(s, w, remembered, Received(s.wire, base), patch, g1).1;
      reply.Stale? && !ChangedOnServer(s.le, Received(s.wire, base), Received(s.wire, reply.current), FText(DueAt))
  {
    var client := Received(s.wire, base);
    MergedWasSecond(s, w, remembered, client, patch, g1, g2);
    if SavesMerged(s, w, remembered, client, patch, g1, g2) {
      var server := AfterFirstRequest(s, w, remembered, client, patch, g1).1.current;
      NoConflictsIff(s.le, client, patch, Received(s.wire, server));
      CarriedDueDateConflicts(s.le, s.wire, base, server, sent);
    }
  }
}
