/** The browser's three-way merge of an edit (patch) made on an old copy of a task (base) with
    the server's current copy. A client task is a JavaScript object; an absent text property
    reads as "". The collation used to sort signatures is a parameter. */
module BoardMerge {
  import opened Text
  import opened Sorting
  import opened TaskModel
  import Tags

  datatype TextField = Title | Description | Status | Priority | DueAt | AssigneeUserId | AssigneeName

  datatype Field = FText(text: TextField) | FAssignees | FTags | FCompleted

  datatype ClientTask = ClientTask(
    text: map<TextField, string>, assignees: seq<Assignee>, tags: seq<string>,
    completedAt: string, completed: Option<bool>, version: int)

  /** Tags arrive as an array, or as the text of the editor field. */
  datatype TagInput = TagList(list: seq<string>) | TagText(value: string)

  /** One property of the patch object. None is null, or for assignees anything not an array. */
  datatype Edit =
    | SetText(field: TextField, value: Option<string>)
    | SetAssignees(people: Option<seq<Assignee>>)
    | SetTags(tags: TagInput)
    | SetCompleted(flag: Option<bool>)

  type Patch = seq<Edit>

  /** What strict equality compares: text, null, a flag, or a JSON signature. */
  datatype Value = Str(s: string) | Null | Flag(b: bool) | TagSignature(tags: seq<string>) | PeopleSignature(people: seq<Assignee>)

  type Collation = (string, string) -> bool

  function FieldOf(edit: Edit): Field {
    match edit
    case SetText(f, _) => FText(f)
    case SetAssignees(_) => FAssignees
    case SetTags(_) => FTags
    case SetCompleted(_) => FCompleted
  }

  // --- assignee lists ---

  predicate Listed(list: seq<Assignee>, userId: string) {
    exists a :: a in list && a.userId == userId
  }

  /** Trimmed entries, blank ids dropped, first entry of each user. */
  function CleanPeople(raw: seq<Assignee>): seq<Assignee> {
    if raw == [] then [] else
      var out, last := CleanPeople(raw[..|raw| - 1]), raw[|raw| - 1];
      var id := Trim(JavaScript, last.userId);
      if id == "" || Listed(out, id) then out else out + [Assignee(id, Trim(JavaScript, last.displayName))]
  }

  function Get(task: ClientTask, f: TextField): string {
    if f in task.text then task.text[f] else ""
  }

  /** The single assignee of the legacy fields, if they name one. */
  function Legacy(userId: string, name: string): seq<Assignee> {
    if Trim(JavaScript, userId) == "" then [] else [Assignee(Trim(JavaScript, userId), Trim(JavaScript, name))]
  }

  /** What the assignees field shows: the array when it names anyone, otherwise the legacy assignee. */
  function Shown(people: seq<Assignee>, legacy: seq<Assignee>): seq<Assignee> {
    if CleanPeople(people) != [] then CleanPeople(people) else legacy
  }

  function AssigneesOf(task: ClientTask): seq<Assignee> {
    Shown(task.assignees, Legacy(Get(task, AssigneeUserId), Get(task, AssigneeName)))
  }

  method TaskAssigneesList(task: ClientTask) returns (r: seq<Assignee>)
    ensures r == AssigneesOf(task)
  {
    var out: seq<Assignee> := [];
    var seen: set<string> := {};
    assert task.assignees[..|task.assignees|] == task.assignees;
    for i := 0 to |task.assignees|
      invariant out == CleanPeople(task.assignees[..i])
      invariant forall id :: id in seen <==> Listed(out, id)
    {
      assert task.assignees[..i + 1][..i] == task.assignees[..i];
      var entry := task.assignees[i];
      var userId := Trim(JavaScript, entry.userId);
      if userId == "" || userId in seen {
        continue;
      }
      seen := seen + {userId};
      out := out + [Assignee(userId, Trim(JavaScript, entry.displayName))];
    }
    if |out| > 0 {
      return out;
    }
    var id := Trim(JavaScript, Get(task, AssigneeUserId));
    if id == "" {
      return [];
    }
    r := [Assignee(id, Trim(JavaScript, Get(task, AssigneeName)))];
  }

  /** new Map(list.map(a => [a.userId, a.displayName])): the last entry of a user wins. */
  function Labels(list: seq<Assignee>): map<string, string> {
    if list == [] then map[] else
      Labels(list[..|list| - 1])[list[|list| - 1].userId := list[|list| - 1].displayName]
  }

  function Label(labels: map<string, string>, id: string): string {
    Trim(JavaScript, if id in labels then labels[id] else "")
  }

  /** Each non-blank id once, with its label. */
  function Payload(ids: seq<string>, labels: map<string, string>): seq<Assignee> {
    if ids == [] then [] else
      var out, id := Payload(ids[..|ids| - 1], labels), Trim(JavaScript, ids[|ids| - 1]);
      if id == "" || Listed(out, id) then out else out + [Assignee(id, Label(labels, id))]
  }

  method BuildAssigneesPayload(userIds: seq<string>, labelById: map<string, string>) returns (out: seq<Assignee>)
    ensures out == Payload(userIds, labelById)
  {
    var seen: set<string> := {};
    out := [];
    assert userIds[..|userIds|] == userIds;
    for i := 0 to |userIds|
      invariant out == Payload(userIds[..i], labelById)
      invariant forall id :: id in seen <==> Listed(out, id)
    {
      assert userIds[..i + 1][..i] == userIds[..i];
      var userId := Trim(JavaScript, userIds[i]);
      if userId == "" || userId in seen {
        continue;
      }
      seen := seen + {userId};
      out := out + [Assignee(userId, Label(labelById, userId))];
    }
  }

  ghost predicate CleanList(list: seq<Assignee>) {
    && (forall i :: 0 <= i < |list| ==> list[i].userId != "" && IsTrimmed(JavaScript, list[i].userId))
    && (forall i :: 0 <= i < |list| ==> IsTrimmed(JavaScript, list[i].displayName))
    && (forall i, j :: 0 <= i < j < |list| ==> list[i].userId != list[j].userId)
  }

  lemma ListedIds(list: seq<Assignee>, id: string)
    ensures Listed(list, id) <==> id in UserIds(list)
  {
    if id in UserIds(list) {
      var i :| 0 <= i < |list| && UserIds(list)[i] == id;
      assert list[i] in list;
    }
  }

  /** The cleaned array names each user once, at the first mention. */
  lemma {:induction false} CleanPeopleMentions(raw: seq<Assignee>)
    ensures FirstMentions(JavaScript, raw, CleanPeople(raw))
  {
    if raw != [] {
      var init, last := raw[..|raw| - 1], raw[|raw| - 1];
      CleanPeopleMentions(init);
      ListedIds(CleanPeople(init), Trim(JavaScript, last.userId));
      FirstMentionsNext(JavaScript, init, CleanPeople(init), last);
      assert raw == init + [last];
    }
  }

  /** Every entry without a user id. */
  predicate NamesNobody(raw: seq<Assignee>) {
    forall a :: a in raw ==> Trim(JavaScript, a.userId) == ""
  }

  /** The assignees a task shows are the first mentions of its array, or of the legacy pair when the
      array names nobody. */
  lemma ShownAssignees(task: ClientTask)
    ensures FirstMentions(JavaScript,
      if NamesNobody(task.assignees) then [Assignee(Get(task, AssigneeUserId), Get(task, AssigneeName))] else task.assignees,
      AssigneesOf(task))
  {
    var legacy := [Assignee(Get(task, AssigneeUserId), Get(task, AssigneeName))];
    CleanPeopleMentions(task.assignees);
    CleanPeopleMentions(legacy);
    assert CleanPeople(legacy) == Legacy(legacy[0].userId, legacy[0].displayName) by {
      assert legacy[..0] == [];
    }
    NobodyIffEmpty(task.assignees, CleanPeople(task.assignees));
  }

  lemma NobodyIffEmpty(raw: seq<Assignee>, list: seq<Assignee>)
    requires FirstMentions(JavaScript, raw, list)
    ensures list == [] <==> NamesNobody(raw)
  {
    var ids := MentionedIds(JavaScript, raw);
    if a :| a in raw && Trim(JavaScript, a.userId) != "" {
      var i :| 0 <= i < |raw| && raw[i] == a;
      assert ids[i] in ids && ids[i] in UserIds(list);
    }
    if list != [] {
      assert UserIds(list)[0] in ids;
      var i :| 0 <= i < |ids| && ids[i] == UserIds(list)[0];
      assert raw[i] in raw;
    }
  }

  lemma MentionsClean(raw: seq<Assignee>, list: seq<Assignee>)
    requires FirstMentions(JavaScript, raw, list)
    ensures CleanList(list)
  {
    forall i | 0 <= i < |list|
      ensures list[i].userId != "" && IsTrimmed(JavaScript, list[i].userId) && IsTrimmed(JavaScript, list[i].displayName)
    {
      assert list[i] in list && UserIds(list)[i] in UserIds(list);
    }
    forall i, j | 0 <= i < j < |list|
      ensures list[i].userId != list[j].userId
    {
      assert UserIds(list)[i] != UserIds(list)[j];
    }
  }

  lemma ShownIsClean(task: ClientTask)
    ensures CleanList(AssigneesOf(task))
  {
    ShownAssignees(task);
    MentionsClean(if NamesNobody(task.assignees) then [Assignee(Get(task, AssigneeUserId), Get(task, AssigneeName))] else task.assignees,
                  AssigneesOf(task));
  }

  lemma TrimAllNext(xs: seq<string>, x: string)
    ensures TrimAll(JavaScript, xs + [x]) == TrimAll(JavaScript, xs) + [Trim(JavaScript, x)]
  {
  }

  lemma PayloadNext(ids: seq<string>, labels: map<string, string>, next: string)
    ensures var (out, id) := (Payload(ids, labels), Trim(JavaScript, next));
      Payload(ids + [next], labels) == if id == "" || id in UserIds(out) then out else out + [Assignee(id, Label(labels, id))]
  {
    assert (ids + [next])[..|ids|] == ids;
    ListedIds(Payload(ids, labels), Trim(JavaScript, next));
  }

  lemma PayloadIdsNext(ids: seq<string>, labels: map<string, string>, next: string)
    requires KeepsFirsts(TrimAll(JavaScript, ids), UserIds(Payload(ids, labels)))
    ensures KeepsFirsts(TrimAll(JavaScript, ids + [next]), UserIds(Payload(ids + [next], labels)))
  {
    var out, id := Payload(ids, labels), Trim(JavaScript, next);
    PayloadNext(ids, labels, next);
    UserIdsSnoc(out, Assignee(id, Label(labels, id)));
    TrimAllNext(ids, next);
    KeepsFirstsNext(TrimAll(JavaScript, ids), UserIds(out), id);
  }

  lemma {:induction false} PayloadIds(ids: seq<string>, labels: map<string, string>)
    ensures KeepsFirsts(TrimAll(JavaScript, ids), UserIds(Payload(ids, labels)))
  {
    if ids != [] {
      PayloadIds(ids[..|ids| - 1], labels);
      PayloadIdsNext(ids[..|ids| - 1], labels, ids[|ids| - 1]);
      assert ids == ids[..|ids| - 1] + [ids[|ids| - 1]];
    }
  }

  lemma {:induction false} PayloadLabels(ids: seq<string>, labels: map<string, string>, a: Assignee)
    requires a in Payload(ids, labels)
    ensures a.displayName == if a.userId in labels then Trim(JavaScript, labels[a.userId]) else ""
  {
    if a in Payload(ids[..|ids| - 1], labels) {
      PayloadLabels(ids[..|ids| - 1], labels, a);
    }
  }

  /** The payload keeps each picked id once, in order, under the label known for it. */
  lemma PayloadKeepsFirsts(ids: seq<string>, labels: map<string, string>)
    ensures KeepsFirsts(TrimAll(JavaScript, ids), UserIds(Payload(ids, labels)))
    ensures forall a :: a in Payload(ids, labels) ==>
      a.displayName == if a.userId in labels then Trim(JavaScript, labels[a.userId]) else ""
  {
    PayloadIds(ids, labels);
    forall a | a in Payload(ids, labels)
      ensures a.displayName == if a.userId in labels then Trim(JavaScript, labels[a.userId]) else ""
    {
      PayloadLabels(ids, labels, a);
    }
  }

  lemma {:induction false} LabelsOfClean(list: seq<Assignee>, i: nat)
    requires CleanList(list) && i < |list|
    ensures list[i].userId in Labels(list) && Labels(list)[list[i].userId] == list[i].displayName
  {
    var init := list[..|list| - 1];
    if i < |init| {
      LabelsOfClean(init, i);
    }
  }

  lemma PayloadSnoc(ids: seq<string>, labels: map<string, string>, id: string)
    requires id != "" && Trim(JavaScript, id) == id && !Listed(Payload(ids, labels), id)
    ensures Payload(ids + [id], labels) == Payload(ids, labels) + [Assignee(id, Label(labels, id))]
  {
    assert (ids + [id])[..|ids|] == ids;
  }

  lemma UserIdsSnoc(list: seq<Assignee>, a: Assignee)
    ensures UserIds(list + [a]) == UserIds(list) + [a.userId]
  {
  }

  lemma CleanEntry(list: seq<Assignee>, n: nat)
    requires CleanList(list) && n < |list|
    ensures list[n].userId != "" && IsTrimmed(JavaScript, list[n].userId) && !Listed(list[..n], list[n].userId)
    ensures list[..n + 1] == list[..n] + [list[n]]
  {
  }

  lemma OneMoreLabelled(init: seq<Assignee>, a: Assignee, labels: map<string, string>)
    requires Payload(UserIds(init), labels) == init && a.userId != "" && IsTrimmed(JavaScript, a.userId)
    requires !Listed(init, a.userId) && Label(labels, a.userId) == a.displayName
    ensures Payload(UserIds(init + [a]), labels) == init + [a]
  {
    TrimsToItself(JavaScript, a.userId);
    PayloadSnoc(UserIds(init), labels, a.userId);
    UserIdsSnoc(init, a);
  }

  lemma {:induction false} PayloadOfLabelled(list: seq<Assignee>, n: nat, labels: map<string, string>)
    requires CleanList(list) && n <= |list|
    requires forall i :: 0 <= i < |list| ==> Label(labels, list[i].userId) == list[i].displayName
    ensures Payload(UserIds(list[..n]), labels) == list[..n]
    decreases n
  {
    if n > 0 {
      PayloadOfLabelled(list, n - 1, labels);
      CleanEntry(list, n - 1);
      OneMoreLabelled(list[..n - 1], list[n - 1], labels);
    }
  }

  /** Building the payload of a clean list gives the list back: the signature of a task is
      simply its sorted assignee list. */
  lemma PayloadOfClean(list: seq<Assignee>)
    requires CleanList(list)
    ensures Payload(UserIds(list), Labels(list)) == list
  {
    forall i | 0 <= i < |list|
      ensures Label(Labels(list), list[i].userId) == list[i].displayName
    {
      LabelsOfClean(list, i);
    }
    PayloadOfLabelled(list, |list|, Labels(list));
    assert list[..|list|] == list;
  }

  // --- signatures ---

  function PersonLe(le: Collation): (Assignee, Assignee) -> bool {
    (a: Assignee, b: Assignee) => le(a.userId, b.userId)
  }

  function TagsSignature(le: Collation, list: seq<string>): Value {
    TagSignature(Sort(le, NonEmpty(TrimAll(JavaScript, list))))
  }

  function PatchTags(input: TagInput): seq<string> {
    match input
    case TagList(list) => list
    case TagText(value) => Tags.ParseTagsInput(value)
  }

  function PeopleOf(le: Collation, list: seq<Assignee>): Value {
    PeopleSignature(Sort(PersonLe(le), Payload(UserIds(list), Labels(list))))
  }

  /** Entries with trimmed fields, those without an id dropped. */
  function TrimmedPeople(raw: seq<Assignee>): seq<Assignee> {
    if raw == [] then [] else
      var a := Assignee(Trim(JavaScript, raw[0].userId), Trim(JavaScript, raw[0].displayName));
      (if a.userId == "" then [] else [a]) + TrimmedPeople(raw[1..])
  }

  function PatchPeople(le: Collation, people: Option<seq<Assignee>>): Value {
    if people.None? then PeopleSignature([]) else PeopleOf(le, TrimmedPeople(people.value))
  }

  function FieldValue(le: Collation, task: ClientTask, field: Field): Value {
    match field
    case FText(f) => Str(Get(task, f))
    case FAssignees => PeopleOf(le, AssigneesOf(task))
    case FTags => TagsSignature(le, task.tags)
    case FCompleted => Flag(task.completedAt != "")
  }

  /** The desired value as the merge compares it with the base: text and flags raw. */
  function Desired(le: Collation, edit: Edit): Value {
    match edit
    case SetText(_, value) => if value.Some? then Str(value.value) else Null
    case SetAssignees(people) => PatchPeople(le, people)
    case SetTags(tags) => TagsSignature(le, PatchTags(tags))
    case SetCompleted(flag) => if flag.Some? then Flag(flag.value) else Null
  }

  predicate ChangedLocally(le: Collation, base: ClientTask, edit: Edit) {
    Desired(le, edit) != FieldValue(le, base, FieldOf(edit))
  }

  predicate ChangedOnServer(le: Collation, base: ClientTask, server: ClientTask, field: Field) {
    FieldValue(le, server, field) != FieldValue(le, base, field)
  }

  /** The task with one property set. */
  function Applied(task: ClientTask, edit: Edit): ClientTask {
    match edit
    case SetText(f, value) => task.(text := task.text[f := if value.Some? then value.value else ""])
    case SetAssignees(people) => task.(assignees := if people.Some? then people.value else [])
    case SetTags(tags) => task.(tags := if tags.TagList? then tags.list else [])
    case SetCompleted(flag) => task.(completed := flag)
  }

  /** What the field would read after the edit alone; the completed property is not read back. */
  function EditedValue(le: Collation, base: ClientTask, edit: Edit): Value {
    match edit
    case SetText(f, _) => FieldValue(le, Applied(base, edit), FText(f))
    case SetAssignees(_) => Desired(le, edit)
    case SetTags(_) => Desired(le, edit)
    case SetCompleted(_) => FieldValue(le, base, FCompleted)
  }

  predicate Conflicting(le: Collation, base: ClientTask, server: ClientTask, edit: Edit) {
    && ChangedLocally(le, base, edit)
    && ChangedOnServer(le, base, server, FieldOf(edit))
    && FieldValue(le, server, FieldOf(edit)) != EditedValue(le, base, edit)
  }

  datatype Conflict = Conflict(field: Field, local: Edit, server: Value)

  datatype MergeResult = MergeResult(
    canAutoMerge: bool, conflicts: seq<Conflict>, mergedBody: Option<Patch>, serverTask: ClientTask)

  function ConflictsOf(le: Collation, base: ClientTask, patch: Patch, server: ClientTask): seq<Conflict> {
    if patch == [] then [] else
      var edit := patch[|patch| - 1];
      ConflictsOf(le, base, patch[..|patch| - 1], server) +
        if Conflicting(le, base, server, edit)
        then [Conflict(FieldOf(edit), edit, FieldValue(le, server, FieldOf(edit)))] else []
  }

  /** The server's task with every locally changed, non-conflicting edit applied. */
  function MergedOf(le: Collation, base: ClientTask, patch: Patch, server: ClientTask): ClientTask {
    if patch == [] then server else
      var m, edit := MergedOf(le, base, patch[..|patch| - 1], server), patch[|patch| - 1];
      if ChangedLocally(le, base, edit) && !Conflicting(le, base, server, edit) then Applied(m, edit) else m
  }

  /** The merge as the client runs it. The client keeps merged to itself and hands back the
      whole patch as mergedBody. */
  method MergeTaskPatch(le: Collation, base: ClientTask, patch: Patch, server: ClientTask)
    returns (r: MergeResult, merged: ClientTask)
    ensures r.conflicts == ConflictsOf(le, base, patch, server)
    ensures r.canAutoMerge <==> forall edit :: edit in patch ==> !Conflicting(le, base, server, edit)
    ensures TellsApart(le) && Built(patch) ==>
      (r.canAutoMerge <==> forall edit :: edit in patch ==> !BothChanged(base, server, edit))
    ensures r.mergedBody == if r.canAutoMerge then Some(patch) else None
    ensures r.serverTask == server
    ensures merged == MergedOf(le, base, patch, server)
  {
    var conflicts: seq<Conflict> := [];
    merged := server;
    assert patch[..|patch|] == patch;
    for i := 0 to |patch|
      invariant conflicts == ConflictsOf(le, base, patch[..i], server)
      invariant merged == MergedOf(le, base, patch[..i], server)
    {
      assert patch[..i + 1][..i] == patch[..i];
      var edit := patch[i];
      var field := FieldOf(edit);
      var baseValue, serverValue := FieldValue(le, base, field), FieldValue(le, server, field);
      var desiredComparable := Desired(le, edit);
      if desiredComparable == baseValue {
        continue;
      }
      var serverMatchesDesired := serverValue ==
        if edit.SetAssignees? || edit.SetTags? then desiredComparable
        else if edit.SetCompleted? then baseValue
        else FieldValue(le, Applied(base, edit), field);
      if serverValue == baseValue || serverMatchesDesired {
        merged := Applied(merged, edit);
        continue;
      }
      conflicts := conflicts + [Conflict(field, edit, serverValue)];
    }
    NoConflictsIff(le, base, patch, server);
    if TellsApart(le) && Built(patch) {
      forall edit | edit in patch
        ensures Conflicting(le, base, server, edit) <==> BothChanged(base, server, edit)
      {
        ConflictIsBothChanged(le, base, server, edit);
      }
    }
    r := MergeResult(conflicts == [], conflicts, if conflicts == [] then Some(patch) else None, server);
  }

  lemma {:induction false} NoConflictsIff(le: Collation, base: ClientTask, patch: Patch, server: ClientTask)
    ensures ConflictsOf(le, base, patch, server) == [] <==>
      forall edit :: edit in patch ==> !Conflicting(le, base, server, edit)
  {
    if patch != [] {
      var init, last := patch[..|patch| - 1], patch[|patch| - 1];
      NoConflictsIff(le, base, init, server);
      assert forall edit :: edit in patch <==> edit in init || edit == last;
    }
  }

  // --- what the merge reports ---

  /** A text, tag or assignee edit conflicts exactly when both sides changed the field and do
      not agree on it; completed conflicts exactly when both sides changed it, even alike. */
  lemma ConflictMeans(le: Collation, base: ClientTask, server: ClientTask, edit: Edit)
    ensures !edit.SetCompleted? ==>
      (Conflicting(le, base, server, edit) <==>
        var f := FieldOf(edit);
        && Desired(le, edit) != FieldValue(le, base, f) && FieldValue(le, server, f) != FieldValue(le, base, f)
        && FieldValue(le, server, f) != (if Desired(le, edit) == Null then Str("") else Desired(le, edit)))
    ensures edit.SetCompleted? ==>
      (Conflicting(le, base, server, edit) <==>
        Desired(le, edit) != Flag(base.completedAt != "") && (server.completedAt != "") != (base.completedAt != ""))
  {
  }

  /** The collation orders all texts and tells different ones apart. */
  ghost predicate TellsApart(le: Collation) {
    Total(le) && forall x, y :: le(x, y) && le(y, x) ==> x == y
  }

  /** The tags a list holds, blanks and order aside. */
  function TagBag(list: seq<string>): multiset<string> {
    multiset(TrimAll(JavaScript, list))["" := 0]
  }

  /** Three values of which each two differ. */
  predicate AllDiffer<T(==)>(base: T, local: T, server: T) {
    local != base && server != base && server != local
  }

  /** Both sides changed what the edit is about, and not to the same: texts as they are, null read as
      blank; tags and people whatever their order. Completed only has to differ from the base on
      both sides. */
  ghost predicate BothChanged(base: ClientTask, server: ClientTask, edit: Edit) {
    match edit
    case SetText(f, None) => Get(server, f) != Get(base, f) && Get(server, f) != ""
    case SetText(f, Some(text)) => AllDiffer(Get(base, f), text, Get(server, f))
    case SetTags(tags) => AllDiffer(TagBag(base.tags), TagBag(PatchTags(tags)), TagBag(server.tags))
    case SetAssignees(people) =>
      AllDiffer(multiset(AssigneesOf(base)), multiset(Array(people)), multiset(AssigneesOf(server)))
    case SetCompleted(flag) =>
      (flag == None || flag.value != (base.completedAt != "")) && (server.completedAt != "") != (base.completedAt != "")
  }

  /** Assignee lists come from the list of picked ids. */
  ghost predicate Built(patch: Patch) {
    forall edit :: edit in patch && edit.SetAssignees? ==> AsBuilt(edit)
  }

  lemma TextConflict(le: Collation, base: ClientTask, server: ClientTask, f: TextField, value: Option<string>)
    ensures Conflicting(le, base, server, SetText(f, value)) <==> BothChanged(base, server, SetText(f, value))
  {
  }

  lemma AllDifferAlike<A, B>(b: A, l: A, s: A, b': B, l': B, s': B)
    requires (l == b <==> l' == b') && (s == b <==> s' == b') && (s == l <==> s' == l')
    ensures AllDiffer(b, l, s) <==> AllDiffer(b', l', s')
  {
  }

  lemma SignatureConflict(le: Collation, base: ClientTask, server: ClientTask, edit: Edit)
    requires edit.SetTags? || edit.SetAssignees?
    ensures var f := FieldOf(edit);
      Conflicting(le, base, server, edit) <==> AllDiffer(FieldValue(le, base, f), Desired(le, edit), FieldValue(le, server, f))
  {
  }

  lemma TagsCompared(le: Collation, task: ClientTask, tags: TagInput)
    ensures FieldValue(le, task, FTags) == TagsSignature(le, task.tags)
    ensures Desired(le, SetTags(tags)) == TagsSignature(le, PatchTags(tags))
  {
  }

  lemma TagsConflict(le: Collation, base: ClientTask, server: ClientTask, tags: TagInput)
    requires TellsApart(le)
    ensures Conflicting(le, base, server, SetTags(tags)) <==> BothChanged(base, server, SetTags(tags))
  {
    var (b, l, s) := (base.tags, PatchTags(tags), server.tags);
    TagsSignatureUnordered(le, l, b);
    TagsSignatureUnordered(le, s, b);
    TagsSignatureUnordered(le, s, l);
    TagsCompared(le, base, tags);
    TagsCompared(le, server, tags);
    SignatureConflict(le, base, server, SetTags(tags));
    AllDifferAlike(TagsSignature(le, b), TagsSignature(le, l), TagsSignature(le, s), TagBag(b), TagBag(l), TagBag(s));
  }

  lemma PeopleCompared(le: Collation, task: ClientTask, people: Option<seq<Assignee>>)
    requires AsBuilt(SetAssignees(people))
    ensures FieldValue(le, task, FAssignees) == PeopleOf(le, AssigneesOf(task))
    ensures Desired(le, SetAssignees(people)) == PeopleOf(le, Array(people))
  {
    SignatureOfClean(le, SetAssignees(people));
  }

  lemma PeopleConflict(le: Collation, base: ClientTask, server: ClientTask, people: Option<seq<Assignee>>)
    requires TellsApart(le) && AsBuilt(SetAssignees(people))
    ensures Conflicting(le, base, server, SetAssignees(people)) <==> BothChanged(base, server, SetAssignees(people))
  {
    var (b, l, s) := (AssigneesOf(base), Array(people), AssigneesOf(server));
    ShownIsClean(base);
    ShownIsClean(server);
    PeopleSignatureUnordered(le, l, b);
    PeopleSignatureUnordered(le, s, b);
    PeopleSignatureUnordered(le, s, l);
    PeopleCompared(le, base, people);
    PeopleCompared(le, server, people);
    SignatureConflict(le, base, server, SetAssignees(people));
    AllDifferAlike(PeopleOf(le, b), PeopleOf(le, l), PeopleOf(le, s), multiset(b), multiset(l), multiset(s));
  }

  /** So a field conflicts exactly when both sides changed it: nothing the signatures leave out matters. */
  lemma ConflictIsBothChanged(le: Collation, base: ClientTask, server: ClientTask, edit: Edit)
    requires TellsApart(le) && (edit.SetAssignees? ==> AsBuilt(edit))
    ensures Conflicting(le, base, server, edit) <==> BothChanged(base, server, edit)
  {
    match edit
    case SetText(f, value) => TextConflict(le, base, server, f, value);
    case SetTags(tags) => TagsConflict(le, base, server, tags);
    case SetAssignees(people) => PeopleConflict(le, base, server, people);
    case SetCompleted(_) =>
  }

  /** The conflicts are the conflicting edits, in patch order. */
  lemma {:induction false} ConflictsListed(le: Collation, base: ClientTask, patch: Patch, server: ClientTask, edit: Edit)
    ensures (exists c :: c in ConflictsOf(le, base, patch, server) && c.local == edit) <==>
      edit in patch && Conflicting(le, base, server, edit)
  {
    if patch != [] {
      var init, last := patch[..|patch| - 1], patch[|patch| - 1];
      ConflictsListed(le, base, init, server, edit);
      assert forall e :: e in patch <==> e in init || e == last;
      var all, c := ConflictsOf(le, base, patch, server), Conflict(FieldOf(last), last, FieldValue(le, server, FieldOf(last)));
      if Conflicting(le, base, server, last) {
        assert forall x :: x in all <==> x in ConflictsOf(le, base, init, server) || x == c;
      } else {
        assert all == ConflictsOf(le, base, init, server);
      }
    }
  }

  function Locals(conflicts: seq<Conflict>): (r: seq<Edit>)
    ensures |r| == |conflicts| && forall i :: 0 <= i < |r| ==> r[i] == conflicts[i].local
  {
    seq(|conflicts|, i requires 0 <= i < |conflicts| => conflicts[i].local)
  }

  lemma LocalsNext(conflicts: seq<Conflict>, c: Conflict)
    ensures Locals(conflicts + [c]) == Locals(conflicts) + [c.local]
  {
  }

  lemma LastIsNew(patch: Patch)
    requires DistinctFields(patch) && patch != []
    ensures patch[|patch| - 1] !in patch[..|patch| - 1] && DistinctFields(patch[..|patch| - 1])
    ensures patch == patch[..|patch| - 1] + [patch[|patch| - 1]]
  {
  }

  /** Of two conflicts reported, the earlier concerns the earlier edit. */
  lemma {:induction false} ConflictsInOrder(le: Collation, base: ClientTask, patch: Patch, server: ClientTask)
    requires DistinctFields(patch)
    ensures InOrderOf(patch, Locals(ConflictsOf(le, base, patch, server)))
    decreases |patch|
  {
    if patch != [] {
      var init, last := patch[..|patch| - 1], patch[|patch| - 1];
      var before := ConflictsOf(le, base, init, server);
      LastIsNew(patch);
      ConflictsInOrder(le, base, init, server);
      InOrderNext(init, Locals(before), last);
      if Conflicting(le, base, server, last) {
        LocalsNext(before, Conflict(FieldOf(last), last, FieldValue(le, server, FieldOf(last))));
      } else {
        assert ConflictsOf(le, base, patch, server) == before;
      }
    }
  }

  /** The edits of the patch both sides changed are those the conflicts name. */
  ghost predicate ReportsEdits(base: ClientTask, patch: Patch, server: ClientTask, conflicts: seq<Conflict>) {
    forall edit :: (exists c :: c in conflicts && c.local == edit) <==> edit in patch && BothChanged(base, server, edit)
  }

  /** With each conflict goes its field and what the server shows there. */
  ghost predicate ReportsValues(le: Collation, server: ClientTask, conflicts: seq<Conflict>) {
    forall c :: c in conflicts ==> c.field == FieldOf(c.local) && c.server == FieldValue(le, server, c.field)
  }

  /** What a list of conflicts has to say: which edits, in the order of the patch, and the server's side. */
  ghost predicate Reports(le: Collation, base: ClientTask, patch: Patch, server: ClientTask, conflicts: seq<Conflict>) {
    ReportsEdits(base, patch, server, conflicts) && ReportsValues(le, server, conflicts) && InOrderOf(patch, Locals(conflicts))
  }

  lemma {:induction false} ConflictValues(le: Collation, base: ClientTask, patch: Patch, server: ClientTask, c: Conflict)
    requires c in ConflictsOf(le, base, patch, server)
    ensures c.field == FieldOf(c.local) && c.server == FieldValue(le, server, c.field)
  {
    if c in ConflictsOf(le, base, patch[..|patch| - 1], server) {
      ConflictValues(le, base, patch[..|patch| - 1], server, c);
    }
  }

  lemma ConflictEdits(le: Collation, base: ClientTask, patch: Patch, server: ClientTask)
    requires TellsApart(le) && Built(patch)
    ensures ReportsEdits(base, patch, server, ConflictsOf(le, base, patch, server))
  {
    var conflicts := ConflictsOf(le, base, patch, server);
    forall edit
      ensures (exists c :: c in conflicts && c.local == edit) <==> edit in patch && BothChanged(base, server, edit)
    {
      ConflictsListed(le, base, patch, server, edit);
      if edit in patch {
        ConflictIsBothChanged(le, base, server, edit);
      }
    }
  }

  lemma NothingToReport(base: ClientTask, patch: Patch, server: ClientTask, conflicts: seq<Conflict>)
    requires ReportsEdits(base, patch, server, conflicts)
    ensures conflicts == [] <==> forall edit :: edit in patch ==> !BothChanged(base, server, edit)
  {
    if conflicts != [] {
      var c := conflicts[0];
      assert c in conflicts && c.local == c.local;
      assert c.local in patch && BothChanged(base, server, c.local);
    }
  }

  lemma ConflictsReport(le: Collation, base: ClientTask, patch: Patch, server: ClientTask)
    requires TellsApart(le) && Built(patch) && DistinctFields(patch)
    ensures Reports(le, base, patch, server, ConflictsOf(le, base, patch, server))
    ensures ConflictsOf(le, base, patch, server) == [] <==> forall edit :: edit in patch ==> !BothChanged(base, server, edit)
  {
    ConflictEdits(le, base, patch, server);
    ConflictsInOrder(le, base, patch, server);
    NothingToReport(base, patch, server, ConflictsOf(le, base, patch, server));
    forall c | c in ConflictsOf(le, base, patch, server)
      ensures c.field == FieldOf(c.local) && c.server == FieldValue(le, server, c.field)
    {
      ConflictValues(le, base, patch, server, c);
    }
  }

  // --- what the merge computes ---

  ghost predicate DistinctFields(patch: Patch) {
    forall i, j :: 0 <= i < j < |patch| ==> FieldOf(patch[i]) != FieldOf(patch[j])
  }

  /** The property an edit writes, as stored: text, assignee array, tag array or flag. */
  datatype Slot = TextSlot(s: string) | PeopleSlot(people: seq<Assignee>) | TagSlot(tags: seq<string>) | FlagSlot(flag: Option<bool>)

  function SlotOf(task: ClientTask, field: Field): Slot {
    match field
    case FText(f) => TextSlot(Get(task, f))
    case FAssignees => PeopleSlot(task.assignees)
    case FTags => TagSlot(task.tags)
    case FCompleted => FlagSlot(task.completed)
  }

  function AppliedAll(task: ClientTask, patch: Patch): ClientTask {
    if patch == [] then task else Applied(AppliedAll(task, patch[..|patch| - 1]), patch[|patch| - 1])
  }

  lemma AppliedSlots(task: ClientTask, edit: Edit, field: Field)
    ensures field != FieldOf(edit) ==> SlotOf(Applied(task, edit), field) == SlotOf(task, field)
    ensures SlotOf(Applied(task, edit), FieldOf(edit)) == SlotOf(Applied(ClientTask(map[], [], [], "", None, 0), edit), FieldOf(edit))
    ensures Applied(task, edit).completedAt == task.completedAt && Applied(task, edit).version == task.version
  {
  }

  /** The value an edit leaves in its property. */
  function Written(edit: Edit): Slot {
    SlotOf(Applied(ClientTask(map[], [], [], "", None, 0), edit), FieldOf(edit))
  }

  ghost predicate Mentions(patch: Patch, field: Field) {
    exists i :: 0 <= i < |patch| && FieldOf(patch[i]) == field
  }

  lemma {:induction false} MergedElsewhere(le: Collation, base: ClientTask, patch: Patch, server: ClientTask, field: Field)
    requires !Mentions(patch, field)
    ensures SlotOf(MergedOf(le, base, patch, server), field) == SlotOf(server, field)
  {
    if patch != [] {
      var init := patch[..|patch| - 1];
      assert forall i :: 0 <= i < |init| ==> init[i] == patch[i];
      MergedElsewhere(le, base, init, server, field);
      AppliedSlots(MergedOf(le, base, init, server), patch[|patch| - 1], field);
    }
  }

  predicate TakesEdit(le: Collation, base: ClientTask, server: ClientTask, edit: Edit) {
    ChangedLocally(le, base, edit) && !Conflicting(le, base, server, edit)
  }

  lemma MergedStep(le: Collation, base: ClientTask, patch: Patch, server: ClientTask, field: Field, n: nat)
    requires n < |patch|
    ensures SlotOf(MergedOf(le, base, patch[..n + 1], server), field) ==
      if field == FieldOf(patch[n]) && TakesEdit(le, base, server, patch[n]) then Written(patch[n])
      else SlotOf(MergedOf(le, base, patch[..n], server), field)
  {
    assert patch[..n + 1][..n] == patch[..n];
    AppliedSlots(MergedOf(le, base, patch[..n], server), patch[n], field);
  }

  lemma OtherStep(le: Collation, base: ClientTask, patch: Patch, server: ClientTask, field: Field, n: nat)
    requires n < |patch| && field != FieldOf(patch[n])
    ensures SlotOf(MergedOf(le, base, patch[..n + 1], server), field) == SlotOf(MergedOf(le, base, patch[..n], server), field)
  {
    MergedStep(le, base, patch, server, field, n);
  }

  lemma {:induction false} SteadyAfter<T(!new)>(f: nat -> T, i: nat, n: nat)
    requires i <= n && forall k: nat :: i <= k < n ==> f(k + 1) == f(k)
    ensures f(n) == f(i)
    decreases n
  {
    if i < n {
      SteadyAfter(f, i, n - 1);
      assert f(n - 1 + 1) == f(n - 1);
    }
  }

  /** Once an edit has been merged, later edits of other properties leave its property alone. */
  lemma MergedAfter(le: Collation, base: ClientTask, patch: Patch, server: ClientTask, i: nat)
    requires DistinctFields(patch) && i < |patch|
    ensures SlotOf(MergedOf(le, base, patch, server), FieldOf(patch[i])) ==
      SlotOf(MergedOf(le, base, patch[..i + 1], server), FieldOf(patch[i]))
  {
    var field := FieldOf(patch[i]);
    var f := (k: nat) => SlotOf(MergedOf(le, base, if k <= |patch| then patch[..k] else [], server), field);
    forall k: nat | i + 1 <= k < |patch|
      ensures f(k + 1) == f(k)
    {
      OtherStep(le, base, patch, server, field, k);
    }
    SteadyAfter(f, i + 1, |patch|);
    assert patch[..|patch|] == patch;
  }

  /** In the merged task every edited property holds the edit when it was changed locally and
      does not conflict, and the server's value otherwise; other properties are the server's. */
  lemma MergedSlot(le: Collation, base: ClientTask, patch: Patch, server: ClientTask, i: nat)
    requires DistinctFields(patch) && i < |patch|
    ensures SlotOf(MergedOf(le, base, patch, server), FieldOf(patch[i])) ==
      if ChangedLocally(le, base, patch[i]) && !Conflicting(le, base, server, patch[i])
      then Written(patch[i]) else SlotOf(server, FieldOf(patch[i]))
  {
    MergedAfter(le, base, patch, server, i);
    MergedStep(le, base, patch, server, FieldOf(patch[i]), i);
    MergedElsewhere(le, base, patch[..i], server, FieldOf(patch[i]));
  }

  lemma {:induction false} AppliedElsewhere(task: ClientTask, patch: Patch, field: Field)
    requires !Mentions(patch, field)
    ensures SlotOf(AppliedAll(task, patch), field) == SlotOf(task, field)
  {
    if patch != [] {
      var init := patch[..|patch| - 1];
      assert forall i :: 0 <= i < |init| ==> init[i] == patch[i];
      AppliedElsewhere(task, init, field);
      AppliedSlots(AppliedAll(task, init), patch[|patch| - 1], field);
    }
  }

  lemma {:induction false} AppliedSlot(task: ClientTask, patch: Patch, i: nat)
    requires DistinctFields(patch) && i < |patch|
    ensures SlotOf(AppliedAll(task, patch), FieldOf(patch[i])) == Written(patch[i])
    decreases |patch|
  {
    var init, last := patch[..|patch| - 1], patch[|patch| - 1];
    AppliedSlots(AppliedAll(task, init), last, FieldOf(patch[i]));
    if i < |init| {
      AppliedSlot(task, init, i);
    }
  }

  lemma {:induction false} CleaningClean(list: seq<Assignee>)
    requires CleanList(list)
    ensures CleanPeople(list) == list
  {
    if list != [] {
      var init, last := list[..|list| - 1], list[|list| - 1];
      CleaningClean(init);
      assert Trim(JavaScript, last.userId) == last.userId && Trim(JavaScript, last.displayName) == last.displayName;
      assert list == init + [last];
    }
  }

  lemma {:induction false} TrimmingClean(list: seq<Assignee>)
    requires CleanList(list)
    ensures TrimmedPeople(list) == list
  {
    if list != [] {
      TrimmingClean(list[1..]);
      assert Trim(JavaScript, list[0].userId) == list[0].userId && Trim(JavaScript, list[0].displayName) == list[0].displayName;
    }
  }

  /** Lists built by buildAssigneesPayload are clean. */
  lemma {:induction false} PayloadIsClean(ids: seq<string>, labels: map<string, string>)
    ensures CleanList(Payload(ids, labels))
  {
    if ids != [] {
      PayloadIsClean(ids[..|ids| - 1], labels);
    }
  }

  /** The edit's value with null read as the empty text. */
  function Local(le: Collation, edit: Edit): Value {
    if Desired(le, edit) == Null then Str("") else Desired(le, edit)
  }

  /** Assignee arrays as buildAssigneesPayload makes them. Completed is compared through another
      property and has no three-way reading. */
  ghost predicate AsBuilt(edit: Edit) {
    !edit.SetCompleted? && (edit.SetAssignees? && edit.people.Some? ==> CleanList(edit.people.value))
  }

  function Array(people: Option<seq<Assignee>>): seq<Assignee> {
    if people.Some? then people.value else []
  }

  lemma SignatureOfClean(le: Collation, edit: Edit)
    requires edit.SetAssignees? && AsBuilt(edit)
    ensures Local(le, edit) == PeopleOf(le, Array(edit.people)) && CleanPeople(Array(edit.people)) == Array(edit.people)
  {
    CleaningClean(Array(edit.people));
    TrimmingClean(Array(edit.people));
    PayloadOfClean([]);
  }

  // --- signatures compare contents, not order ---

  /** Two tag lists have the same signature exactly when they hold the same trimmed tags,
      whatever the order, provided the collation tells different tags apart. */
  lemma TagsSignatureUnordered(le: Collation, a: seq<string>, b: seq<string>)
    requires TellsApart(le)
    ensures TagsSignature(le, a) == TagsSignature(le, b) <==> TagBag(a) == TagBag(b)
  {
    var s, t := NonEmpty(TrimAll(JavaScript, a)), NonEmpty(TrimAll(JavaScript, b));
    NonEmptyBag(TrimAll(JavaScript, a));
    NonEmptyBag(TrimAll(JavaScript, b));
    SortSorts(le, s);
    SortSorts(le, t);
    if multiset(s) == multiset(t) {
      SortedUnique(le, Sort(le, s), Sort(le, t));
    }
  }

  lemma PersonOrderTotal(le: Collation)
    requires Total(le)
    ensures Total(PersonLe(le))
  {
    var ple := PersonLe(le);
    forall x: Assignee, y: Assignee
      ensures ple(x, y) || ple(y, x)
    {
      assert le(x.userId, y.userId) || le(y.userId, x.userId);
    }
    forall x: Assignee, y: Assignee, z: Assignee | ple(x, y) && ple(y, z)
      ensures ple(x, z)
    {
      assert le(x.userId, y.userId) && le(y.userId, z.userId);
    }
  }

  lemma SortSeparates(le: Collation, list: seq<Assignee>)
    requires TellsApart(le) && CleanList(list)
    ensures Sorted(PersonLe(le), Sort(PersonLe(le), list)) && Separates(PersonLe(le), Sort(PersonLe(le), list))
  {
    var sorted := Sort(PersonLe(le), list);
    PersonOrderTotal(le);
    SortSorts(PersonLe(le), list);
    forall x, y | x in sorted && y in sorted && PersonLe(le)(x, y) && PersonLe(le)(y, x)
      ensures x == y
    {
      assert x in multiset(list) && y in multiset(list);
      var i :| 0 <= i < |list| && list[i] == x;
      var j :| 0 <= j < |list| && list[j] == y;
    }
  }

  /** Two assignee lists, of any length, have the same signature exactly when they hold the same
      people under the same names, whatever the order. */
  lemma PeopleSignatureUnordered(le: Collation, a: seq<Assignee>, b: seq<Assignee>)
    requires TellsApart(le) && CleanList(a) && CleanList(b)
    ensures PeopleOf(le, a) == PeopleOf(le, b) <==> multiset(a) == multiset(b)
  {
    PayloadOfClean(a);
    PayloadOfClean(b);
    SortSeparates(le, a);
    SortSeparates(le, b);
    if multiset(a) == multiset(b) {
      SortedUnique(PersonLe(le), Sort(PersonLe(le), a), Sort(PersonLe(le), b));
    }
  }

  lemma {:induction false} TrimmedNext(raw: seq<Assignee>, a: Assignee)
    ensures var next := Assignee(Trim(JavaScript, a.userId), Trim(JavaScript, a.displayName));
      TrimmedPeople(raw + [a]) == TrimmedPeople(raw) + if next.userId == "" then [] else [next]
  {
    if raw == [] {
      assert TrimmedPeople([a][1..]) == [];
    } else {
      assert (raw + [a])[1..] == raw[1..] + [a] && (raw + [a])[0] == raw[0];
      TrimmedNext(raw[1..], a);
      var first := Assignee(Trim(JavaScript, raw[0].userId), Trim(JavaScript, raw[0].displayName));
      var front := if first.userId == "" then [] else [first];
      assert TrimmedPeople(raw) == front + TrimmedPeople(raw[1..]);
      assert TrimmedPeople(raw + [a]) == front + TrimmedPeople(raw[1..] + [a]);
    }
  }

  /** In a patch's list, too, blanks do not count: not around ids and names, and not entries without an id. */
  lemma BlanksDoNotCount(le: Collation, raw: seq<Assignee>, a: Assignee)
    ensures var next := Assignee(Trim(JavaScript, a.userId), Trim(JavaScript, a.displayName));
      Desired(le, SetAssignees(Some(raw + [a]))) == Desired(le, SetAssignees(Some(if next.userId == "" then raw else raw + [next])))
  {
    var next := Assignee(Trim(JavaScript, a.userId), Trim(JavaScript, a.displayName));
    TrimmedNext(raw, a);
    TrimmedNext(raw, next);
    assert TrimmedPeople(raw) + [] == TrimmedPeople(raw);
  }

  /** Opening a task in the editor and saving it without touching the tags field sends a tags
      edit that the merge recognises as no change. */
  lemma UntouchedTagsUnchanged(le: Collation, base: ClientTask)
    requires Tags.Editable(base.tags)
    ensures var sent := Tags.ParseTagsInput(Tags.TagsInputFromTask(base.tags));
      !ChangedLocally(le, base, SetTags(TagList(sent)))
  {
    Tags.EditorRoundTrip(base.tags);
  }
}
