/** What the merge means: when the locally merged task is the three-way merge, and when sending the
    whole patch, as the client does, leaves what was merged. The assignees take the most care: an
    array that names nobody falls back to the legacy single assignee, which the patch may edit too. */
module MergeMeaning {
  import opened Text
  import opened Sorting
  import opened TaskModel
  import opened BoardMerge
  import Tags

  /** The textbook three-way merge of one field. */
  function ThreeWay(base: Value, local: Value, server: Value): Value {
    if local == base then server else local
  }

  // --- the legacy fields after the merge, and after the whole patch ---

  /** A text field once the edits the merge takes are made. */
  function TakenText(le: Collation, base: ClientTask, patch: Patch, server: ClientTask, f: TextField): string {
    if patch == [] then Get(server, f) else
      var edit := patch[|patch| - 1];
      if edit.SetText? && edit.field == f && TakesEdit(le, base, server, edit)
      then (if edit.value.Some? then edit.value.value else "")
      else TakenText(le, base, patch[..|patch| - 1], server, f)
  }

  /** A text field once every edit of the patch is made. */
  function SentText(patch: Patch, server: ClientTask, f: TextField): string {
    if patch == [] then Get(server, f) else
      var edit := patch[|patch| - 1];
      if edit.SetText? && edit.field == f then (if edit.value.Some? then edit.value.value else "")
      else SentText(patch[..|patch| - 1], server, f)
  }

  function ServerLegacy(server: ClientTask): seq<Assignee> {
    Legacy(Get(server, AssigneeUserId), Get(server, AssigneeName))
  }

  function TakenLegacy(le: Collation, base: ClientTask, patch: Patch, server: ClientTask): seq<Assignee> {
    Legacy(TakenText(le, base, patch, server, AssigneeUserId), TakenText(le, base, patch, server, AssigneeName))
  }

  function SentLegacy(patch: Patch, server: ClientTask): seq<Assignee> {
    Legacy(SentText(patch, server, AssigneeUserId), SentText(patch, server, AssigneeName))
  }

  lemma {:induction false} TakenTextIsMerged(le: Collation, base: ClientTask, patch: Patch, server: ClientTask, f: TextField)
    ensures Get(MergedOf(le, base, patch, server), f) == TakenText(le, base, patch, server, f)
  {
    if patch != [] {
      TakenTextIsMerged(le, base, patch[..|patch| - 1], server, f);
    }
  }

  lemma {:induction false} SentTextIsApplied(patch: Patch, server: ClientTask, f: TextField)
    ensures Get(AppliedAll(server, patch), f) == SentText(patch, server, f)
  {
    if patch != [] {
      SentTextIsApplied(patch[..|patch| - 1], server, f);
    }
  }

  lemma {:induction false} UnmentionedText(le: Collation, base: ClientTask, patch: Patch, server: ClientTask, f: TextField)
    requires !Mentions(patch, FText(f))
    ensures TakenText(le, base, patch, server, f) == SentText(patch, server, f) == Get(server, f)
  {
    if patch != [] {
      assert FieldOf(patch[|patch| - 1]) != FText(f);
      UnmentionedText(le, base, patch[..|patch| - 1], server, f);
    }
  }

  // --- reading an assignee array beside legacy fields ---

  lemma MergedAssignees(le: Collation, base: ClientTask, patch: Patch, server: ClientTask, i: nat)
    requires DistinctFields(patch) && i < |patch| && patch[i].SetAssignees?
    ensures AssigneesOf(MergedOf(le, base, patch, server)) ==
      Shown(if TakesEdit(le, base, server, patch[i]) then Array(patch[i].people) else server.assignees,
            TakenLegacy(le, base, patch, server))
  {
    MergedSlot(le, base, patch, server, i);
    TakenTextIsMerged(le, base, patch, server, AssigneeUserId);
    TakenTextIsMerged(le, base, patch, server, AssigneeName);
  }

  lemma AppliedAssignees(patch: Patch, server: ClientTask, i: nat)
    requires DistinctFields(patch) && i < |patch| && patch[i].SetAssignees?
    ensures AssigneesOf(AppliedAll(server, patch)) == Shown(Array(patch[i].people), SentLegacy(patch, server))
  {
    AppliedSlot(server, patch, i);
    SentTextIsApplied(patch, server, AssigneeUserId);
    SentTextIsApplied(patch, server, AssigneeName);
  }

  lemma LegacyIsClean(userId: string, name: string)
    ensures CleanList(Legacy(userId, name))
  {
  }

  /** Signatures of lists of at most one entry are equal exactly when the lists are. */
  lemma ShortSignatures(le: Collation, a: seq<Assignee>, b: seq<Assignee>)
    requires CleanList(a) && CleanList(b) && |b| <= 1
    ensures PeopleOf(le, a) == PeopleOf(le, b) <==> a == b
  {
    PayloadOfClean(a);
    PayloadOfClean(b);
    var s, t := Sort(PersonLe(le), a), Sort(PersonLe(le), b);
    if s == t && |a| == 1 {
      assert s == a && t == b;
    }
  }

  // --- the three-way merge ---

  predicate IsThreeWay(le: Collation, base: ClientTask, patch: Patch, server: ClientTask, edit: Edit) {
    var f := FieldOf(edit);
    FieldValue(le, MergedOf(le, base, patch, server), f) == ThreeWay(FieldValue(le, base, f), Local(le, edit), FieldValue(le, server, f))
  }

  /** When the merged task shows the three-way merge of the edit's field: always, but for tags sent
      as text, and for assignees when the array falls back to legacy fields that say otherwise. */
  predicate ThreeWayHolds(le: Collation, base: ClientTask, patch: Patch, server: ClientTask, edit: Edit) {
    match edit
    case SetText(_, _) => true
    case SetTags(TagList(_)) => true
    case SetTags(TagText(text)) => !ChangedLocally(le, base, edit) || Tags.ParseTagsInput(text) == []
    case SetAssignees(people) =>
      if ChangedLocally(le, base, edit) then Array(people) != [] || TakenLegacy(le, base, patch, server) == []
      else CleanPeople(server.assignees) != [] || TakenLegacy(le, base, patch, server) == ServerLegacy(server)
    case SetCompleted(_) => false
  }

  lemma AssigneesThreeWay(le: Collation, base: ClientTask, patch: Patch, server: ClientTask, i: nat)
    requires DistinctFields(patch) && i < |patch| && AsBuilt(patch[i]) && patch[i].SetAssignees?
    requires !Conflicting(le, base, server, patch[i])
    ensures IsThreeWay(le, base, patch, server, patch[i]) <==> ThreeWayHolds(le, base, patch, server, patch[i])
  {
    var edit, people := patch[i], Array(patch[i].people);
    var taken := TakenLegacy(le, base, patch, server);
    MergedAssignees(le, base, patch, server, i);
    SignatureOfClean(le, edit);
    LegacyIsClean(TakenText(le, base, patch, server, AssigneeUserId), TakenText(le, base, patch, server, AssigneeName));
    LegacyIsClean(Get(server, AssigneeUserId), Get(server, AssigneeName));
    if ChangedLocally(le, base, edit) {
      ShortSignatures(le, taken, []);
    } else {
      ShortSignatures(le, taken, ServerLegacy(server));
    }
  }

  lemma {:induction false} NonEmptyNotNone(xs: seq<string>, x: string)
    requires x in xs && x != ""
    ensures NonEmpty(xs) != []
  {
  }

  /** Text parsed into tags has an empty signature exactly when it holds no tag. */
  lemma ParsedSignature(le: Collation, text: string)
    ensures TagsSignature(le, Tags.ParseTagsInput(text)) == TagsSignature(le, []) <==> Tags.ParseTagsInput(text) == []
  {
    var tags := Tags.ParseTagsInput(text);
    Tags.ParsedIsEditable(text);
    if tags != [] {
      var xs := TrimAll(JavaScript, tags);
      assert tags[0] in tags && xs[0] in xs;
      assert xs[0] == tags[0] != "";
      NonEmptyNotNone(xs, xs[0]);
    }
    assert TrimAll(JavaScript, []) == [];
  }

  lemma TextThreeWay(le: Collation, base: ClientTask, patch: Patch, server: ClientTask, i: nat)
    requires DistinctFields(patch) && i < |patch| && patch[i].SetText?
    requires !Conflicting(le, base, server, patch[i])
    ensures IsThreeWay(le, base, patch, server, patch[i])
  {
    MergedSlot(le, base, patch, server, i);
    ConflictMeans(le, base, server, patch[i]);
  }

  lemma TagsThreeWay(le: Collation, base: ClientTask, patch: Patch, server: ClientTask, i: nat)
    requires DistinctFields(patch) && i < |patch| && patch[i].SetTags?
    requires !Conflicting(le, base, server, patch[i])
    ensures IsThreeWay(le, base, patch, server, patch[i]) <==> ThreeWayHolds(le, base, patch, server, patch[i])
  {
    MergedTags(le, base, patch, server, i);
    if patch[i].tags.TagText? {
      ParsedSignature(le, patch[i].tags.value);
    }
  }

  lemma MergedTags(le: Collation, base: ClientTask, patch: Patch, server: ClientTask, i: nat)
    requires DistinctFields(patch) && i < |patch| && patch[i].SetTags?
    ensures FieldValue(le, MergedOf(le, base, patch, server), FTags) ==
      if !TakesEdit(le, base, server, patch[i]) then FieldValue(le, server, FTags)
      else TagsSignature(le, if patch[i].tags.TagList? then patch[i].tags.list else [])
  {
    MergedSlot(le, base, patch, server, i);
  }

  /** A conflict-free merge is the three-way merge, on every patched field but completed: the
      server's value where the edit left the base alone, and the edit's value elsewhere. */
  lemma MergedIsThreeWay(le: Collation, base: ClientTask, patch: Patch, server: ClientTask, i: nat)
    requires DistinctFields(patch) && i < |patch| && AsBuilt(patch[i])
    requires !Conflicting(le, base, server, patch[i])
    ensures IsThreeWay(le, base, patch, server, patch[i]) <==> ThreeWayHolds(le, base, patch, server, patch[i])
  {
    if patch[i].SetAssignees? {
      AssigneesThreeWay(le, base, patch, server, i);
    } else if patch[i].SetTags? {
      TagsThreeWay(le, base, patch, server, i);
    } else {
      TextThreeWay(le, base, patch, server, i);
    }
  }

  /** So it is for a non-empty assignee list the user chose, whatever the server holds, and for a
      list left alone when the server has an array or the patch leaves the legacy fields alone. */
  lemma UsualThreeWay(le: Collation, base: ClientTask, patch: Patch, server: ClientTask, i: nat)
    requires DistinctFields(patch) && i < |patch| && patch[i].SetAssignees?
    ensures ChangedLocally(le, base, patch[i]) && Array(patch[i].people) != [] ==>
      ThreeWayHolds(le, base, patch, server, patch[i])
    ensures !ChangedLocally(le, base, patch[i]) && CleanPeople(server.assignees) != [] ==>
      ThreeWayHolds(le, base, patch, server, patch[i])
    ensures !ChangedLocally(le, base, patch[i]) && !Mentions(patch, FText(AssigneeUserId)) && !Mentions(patch, FText(AssigneeName)) ==>
      ThreeWayHolds(le, base, patch, server, patch[i])
  {
    if !Mentions(patch, FText(AssigneeUserId)) && !Mentions(patch, FText(AssigneeName)) {
      UnmentionedText(le, base, patch, server, AssigneeUserId);
      UnmentionedText(le, base, patch, server, AssigneeName);
    }
  }

  /** Clearing the assignees in the merged task only shows when no legacy assignee is left behind. */
  lemma ClearedAssigneesReadLegacy(le: Collation, base: ClientTask, patch: Patch, server: ClientTask, i: nat)
    requires DistinctFields(patch) && i < |patch| && patch[i] == SetAssignees(Some([]))
    requires TakesEdit(le, base, server, patch[i])
    ensures AssigneesOf(MergedOf(le, base, patch, server)) == [] <==> TakenLegacy(le, base, patch, server) == []
  {
    MergedAssignees(le, base, patch, server, i);
  }

  // --- sending the whole patch ---

  /** The field reads the same with the whole patch sent as in the merge. */
  predicate SentShowsMerged(le: Collation, base: ClientTask, patch: Patch, server: ClientTask, f: Field) {
    FieldValue(le, AppliedAll(server, patch), f) == FieldValue(le, MergedOf(le, base, patch, server), f)
  }

  /** When making every edit of the patch shows the same in the edit's field as the merge does. */
  predicate BodyKeepsMerge(le: Collation, base: ClientTask, patch: Patch, server: ClientTask, edit: Edit) {
    var changed, moved := ChangedLocally(le, base, edit), ChangedOnServer(le, base, server, FieldOf(edit));
    match edit
    case SetText(_, _) => changed || !moved
    case SetTags(TagList(_)) => changed || !moved
    case SetTags(TagText(_)) => changed || FieldValue(le, server, FTags) == TagsSignature(le, [])
    case SetAssignees(people) =>
      var taken, sent := TakenLegacy(le, base, patch, server), SentLegacy(patch, server);
      if Array(people) != [] then
        changed || (if CleanPeople(server.assignees) != [] then !moved else PeopleOf(le, taken) == FieldValue(le, base, FAssignees))
      else if changed || CleanPeople(server.assignees) == [] then sent == taken
      else FieldValue(le, server, FAssignees) == PeopleOf(le, sent)
    case SetCompleted(_) => true
  }

  lemma ChosenBody(le: Collation, base: ClientTask, patch: Patch, server: ClientTask, i: nat)
    requires DistinctFields(patch) && i < |patch| && AsBuilt(patch[i]) && patch[i].SetAssignees?
    requires !Conflicting(le, base, server, patch[i]) && Array(patch[i].people) != []
    ensures SentShowsMerged(le, base, patch, server, FAssignees) <==> BodyKeepsMerge(le, base, patch, server, patch[i])
  {
    MergedAssignees(le, base, patch, server, i);
    AppliedAssignees(patch, server, i);
    SignatureOfClean(le, patch[i]);
  }

  lemma EmptiedBody(le: Collation, base: ClientTask, patch: Patch, server: ClientTask, i: nat)
    requires DistinctFields(patch) && i < |patch| && AsBuilt(patch[i]) && patch[i].SetAssignees?
    requires !Conflicting(le, base, server, patch[i]) && Array(patch[i].people) == []
    ensures SentShowsMerged(le, base, patch, server, FAssignees) <==> BodyKeepsMerge(le, base, patch, server, patch[i])
  {
    MergedAssignees(le, base, patch, server, i);
    AppliedAssignees(patch, server, i);
    LegacyIsClean(TakenText(le, base, patch, server, AssigneeUserId), TakenText(le, base, patch, server, AssigneeName));
    LegacyIsClean(SentText(patch, server, AssigneeUserId), SentText(patch, server, AssigneeName));
    ShortSignatures(le, SentLegacy(patch, server), TakenLegacy(le, base, patch, server));
  }

  lemma TagsAndTextBody(le: Collation, base: ClientTask, patch: Patch, server: ClientTask, i: nat)
    requires DistinctFields(patch) && i < |patch| && (patch[i].SetText? || patch[i].SetTags?)
    requires !Conflicting(le, base, server, patch[i])
    ensures SentShowsMerged(le, base, patch, server, FieldOf(patch[i])) <==> BodyKeepsMerge(le, base, patch, server, patch[i])
  {
    MergedSlot(le, base, patch, server, i);
    AppliedSlot(server, patch, i);
  }

  /** What is sent is the whole patch, not the merged task. It leaves what was merged exactly when
      the edit changed the field or the server did not: an untouched field that moved on the server
      is put back to the base value. For assignees the legacy fields decide where no array does. */
  lemma BodyMatchesMerged(le: Collation, base: ClientTask, patch: Patch, server: ClientTask, i: nat)
    requires DistinctFields(patch) && i < |patch| && AsBuilt(patch[i])
    requires !Conflicting(le, base, server, patch[i])
    ensures SentShowsMerged(le, base, patch, server, FieldOf(patch[i])) <==> BodyKeepsMerge(le, base, patch, server, patch[i])
  {
    if patch[i].SetAssignees? {
      if Array(patch[i].people) != [] {
        ChosenBody(le, base, patch, server, i);
      } else {
        EmptiedBody(le, base, patch, server, i);
      }
    } else {
      TagsAndTextBody(le, base, patch, server, i);
    }
  }

  lemma {:induction false} CompletionStays(le: Collation, base: ClientTask, patch: Patch, server: ClientTask)
    ensures AppliedAll(server, patch).completedAt == MergedOf(le, base, patch, server).completedAt == server.completedAt
  {
    if patch != [] {
      CompletionStays(le, base, patch[..|patch| - 1], server);
    }
  }

  /** A field the patch does not edit shows the same sent as merged; but assignees shown by the legacy
      fields change with those. */
  lemma UnsentField(le: Collation, base: ClientTask, patch: Patch, server: ClientTask, f: Field)
    requires !Mentions(patch, f)
    ensures SentShowsMerged(le, base, patch, server, f) <==>
      (f == FAssignees && CleanPeople(server.assignees) == [] ==> SentLegacy(patch, server) == TakenLegacy(le, base, patch, server))
  {
    MergedElsewhere(le, base, patch, server, f);
    AppliedElsewhere(server, patch, f);
    CompletionStays(le, base, patch, server);
    if f == FAssignees {
      TakenTextIsMerged(le, base, patch, server, AssigneeUserId);
      TakenTextIsMerged(le, base, patch, server, AssigneeName);
      SentTextIsApplied(patch, server, AssigneeUserId);
      SentTextIsApplied(patch, server, AssigneeName);
      LegacyIsClean(TakenText(le, base, patch, server, AssigneeUserId), TakenText(le, base, patch, server, AssigneeName));
      LegacyIsClean(SentText(patch, server, AssigneeUserId), SentText(patch, server, AssigneeName));
      ShortSignatures(le, SentLegacy(patch, server), TakenLegacy(le, base, patch, server));
    }
  }

  lemma SentField(le: Collation, base: ClientTask, patch: Patch, server: ClientTask, i: nat)
    requires DistinctFields(patch) && i < |patch| && (AsBuilt(patch[i]) || patch[i].SetCompleted?)
    requires !Conflicting(le, base, server, patch[i])
    ensures SentShowsMerged(le, base, patch, server, FieldOf(patch[i])) <==> BodyKeepsMerge(le, base, patch, server, patch[i])
  {
    if patch[i].SetCompleted? {
      CompletionStays(le, base, patch, server);
    } else {
      BodyMatchesMerged(le, base, patch, server, i);
    }
  }

  /** The whole patch sent and the merge read alike. */
  ghost predicate SentReadsMerged(le: Collation, base: ClientTask, patch: Patch, server: ClientTask) {
    forall f :: SentShowsMerged(le, base, patch, server, f)
  }

  /** Every edit keeps the merge; and without an assignee edit, those of the legacy fields do. */
  ghost predicate PatchKeepsMerge(le: Collation, base: ClientTask, patch: Patch, server: ClientTask) {
    && (forall edit :: edit in patch ==> BodyKeepsMerge(le, base, patch, server, edit))
    && (!Mentions(patch, FAssignees) && CleanPeople(server.assignees) == [] ==>
          SentLegacy(patch, server) == TakenLegacy(le, base, patch, server))
  }

  /** An accepted merge and the patch sent in its place leave tasks that read alike in every field
      exactly when every edit keeps the merge. */
  lemma SentMatchesMerged(le: Collation, base: ClientTask, patch: Patch, server: ClientTask)
    requires DistinctFields(patch) && forall edit :: edit in patch ==> AsBuilt(edit) || edit.SetCompleted?
    requires ConflictsOf(le, base, patch, server) == []
    ensures SentReadsMerged(le, base, patch, server) <==> PatchKeepsMerge(le, base, patch, server)
  {
    NoConflictsIff(le, base, patch, server);
    forall i | 0 <= i < |patch|
      ensures SentShowsMerged(le, base, patch, server, FieldOf(patch[i])) <==> BodyKeepsMerge(le, base, patch, server, patch[i])
    {
      assert patch[i] in patch;
      SentField(le, base, patch, server, i);
    }
    forall f | !Mentions(patch, f)
      ensures SentShowsMerged(le, base, patch, server, f) <==>
        (f == FAssignees && CleanPeople(server.assignees) == [] ==> SentLegacy(patch, server) == TakenLegacy(le, base, patch, server))
    {
      UnsentField(le, base, patch, server, f);
    }
  }

  // --- the task form ---

  /** The due date comes last, and only when the form holds one. */
  function FormEdits(title: string, description: string, status: string, priority: string, people: seq<Assignee>,
                     tags: seq<string>, primaryId: string, primaryName: string, due: Option<string>): Patch {
    [ SetText(Title, Some(title)), SetText(Description, Some(description)), SetText(Status, Some(status)),
      SetText(Priority, Some(priority)), SetAssignees(Some(people)), SetTags(TagList(tags)),
      SetText(AssigneeUserId, Some(primaryId)), SetText(AssigneeName, Some(primaryName)) ] +
    if due.Some? then [SetText(DueAt, due)] else []
  }

  /** What the task editor sends on every save, whichever fields were touched. */
  function FormPatch(title: string, description: string, status: string, priority: string, people: seq<Assignee>,
                     primaryName: string, tags: string, due: Option<string>): Patch {
    FormEdits(title, Trim(JavaScript, description), status, priority, people, Tags.ParseTagsInput(tags),
              if people == [] then "" else people[0].userId, if people == [] then "" else primaryName, due)
  }

  /** A patch with edits of these eight fields, in this order, and perhaps of the due date. */
  predicate FormShaped(patch: Patch) {
    && 8 <= |patch| <= 9
    && FieldOf(patch[0]) == FText(Title) && FieldOf(patch[1]) == FText(Description) && FieldOf(patch[2]) == FText(Status)
    && FieldOf(patch[3]) == FText(Priority) && FieldOf(patch[4]) == FAssignees && FieldOf(patch[5]) == FTags
    && FieldOf(patch[6]) == FText(AssigneeUserId) && FieldOf(patch[7]) == FText(AssigneeName)
    && (|patch| == 9 ==> FieldOf(patch[8]) == FText(DueAt))
  }

  lemma FormFieldsDistinct(patch: Patch)
    requires FormShaped(patch)
    ensures DistinctFields(patch)
  {
  }

  lemma FormIsShaped(title: string, description: string, status: string, priority: string, people: seq<Assignee>,
                     tags: seq<string>, primaryId: string, primaryName: string, due: Option<string>)
    ensures var patch := FormEdits(title, description, status, priority, people, tags, primaryId, primaryName, due);
      FormShaped(patch) && patch[4] == SetAssignees(Some(people))
  {
  }

  lemma FormAsBuilt(patch: Patch)
    requires FormShaped(patch) && AsBuilt(patch[4])
    ensures forall edit :: edit in patch ==> AsBuilt(edit)
  {
    forall i | 0 <= i < |patch|
      ensures AsBuilt(patch[i])
    {
    }
  }

  /** For the form's patch, with the assignees built from the ids picked, nothing need be assumed. */
  lemma FormMatchesMerged(le: Collation, base: ClientTask, server: ClientTask, title: string, description: string, status: string,
                          priority: string, ids: seq<string>, labels: map<string, string>, name: string, tags: string, due: Option<string>)
    ensures var patch := FormPatch(title, description, status, priority, Payload(ids, labels), name, tags, due);
      ConflictsOf(le, base, patch, server) == [] ==>
      (SentReadsMerged(le, base, patch, server) <==> PatchKeepsMerge(le, base, patch, server))
  {
    var patch := FormPatch(title, description, status, priority, Payload(ids, labels), name, tags, due);
    PayloadIsClean(ids, labels);
    FormIsShaped(title, Trim(JavaScript, description), status, priority, Payload(ids, labels), Tags.ParseTagsInput(tags),
                 patch[6].value.value, patch[7].value.value, due);
    FormAsBuilt(patch);
    FormFieldsDistinct(patch);
    if ConflictsOf(le, base, patch, server) == [] {
      SentMatchesMerged(le, base, patch, server);
    }
  }

  /** A patch that sends an empty assignee list and an empty legacy id keeps the server's assignees
      exactly when the server has none, whatever the user meant to edit. */
  lemma EmptyListClears(patch: Patch, server: ClientTask, i: nat, j: nat)
    requires DistinctFields(patch) && i < |patch| && patch[i] == SetAssignees(Some([]))
    requires j < |patch| && patch[j] == SetText(AssigneeUserId, Some(""))
    ensures AssigneesOf(AppliedAll(server, patch)) == []
    ensures AssigneesOf(AppliedAll(server, patch)) == AssigneesOf(server) <==> AssigneesOf(server) == []
  {
    AppliedAssignees(patch, server, i);
    AppliedSlot(server, patch, j);
    SentTextIsApplied(patch, server, AssigneeUserId);
  }

  lemma {:induction false} NothingTaken(le: Collation, base: ClientTask, patch: Patch, server: ClientTask, f: TextField)
    requires forall edit :: edit in patch && FieldOf(edit) == FText(f) ==> !ChangedLocally(le, base, edit)
    ensures TakenText(le, base, patch, server, f) == Get(server, f)
  {
    if patch != [] {
      assert patch[|patch| - 1] in patch;
      NothingTaken(le, base, patch[..|patch| - 1], server, f);
    }
  }

  /** The form of an unassigned task as the user leaves it when editing the title, and the due date
      as the form prints it. */
  function TitleOnly(base: ClientTask, title: string, due: Option<string>): Patch {
    FormPatch(title, Get(base, Description), Get(base, Status), Get(base, Priority), [], "", Tags.TagsInputFromTask(base.tags), due)
  }

  lemma TextUntouched(le: Collation, base: ClientTask, f: TextField)
    ensures !ChangedLocally(le, base, SetText(f, Some(Get(base, f))))
  {
  }

  lemma NoAssigneesUntouched(le: Collation, base: ClientTask)
    requires AssigneesOf(base) == []
    ensures !ChangedLocally(le, base, SetAssignees(Some([])))
  {
    SignatureOfClean(le, SetAssignees(Some([])));
  }

  predicate TitleOrDue(edit: Edit) {
    FieldOf(edit) == FText(Title) || FieldOf(edit) == FText(DueAt)
  }

  /** The rest of the patch leaves its base alone. */
  ghost predicate RestUnchanged(le: Collation, base: ClientTask, patch: Patch) {
    forall edit :: edit in patch && !TitleOrDue(edit) ==> !ChangedLocally(le, base, edit)
  }

  /** The edit sends what an unassigned base task holds already. */
  predicate Resends(base: ClientTask, tags: seq<string>, edit: Edit) {
    match edit
    case SetText(f, value) => value == Some(Get(base, f))
    case SetAssignees(people) => people == Some([])
    case SetTags(input) => input == TagList(tags)
    case SetCompleted(_) => false
  }

  lemma ResentUnchanged(le: Collation, base: ClientTask, tags: seq<string>, edit: Edit)
    requires AssigneesOf(base) == [] && !ChangedLocally(le, base, SetTags(TagList(tags))) && Resends(base, tags, edit)
    ensures !ChangedLocally(le, base, edit)
  {
    match edit
    case SetText(f, _) => TextUntouched(le, base, f);
    case SetAssignees(_) => NoAssigneesUntouched(le, base);
    case SetTags(_) =>
  }

  lemma FormResends(base: ClientTask, title: string, tags: seq<string>, due: Option<string>)
    requires Get(base, AssigneeUserId) == "" && Get(base, AssigneeName) == ""
    ensures var patch := FormEdits(title, Get(base, Description), Get(base, Status), Get(base, Priority), [], tags, "", "", due);
      FormShaped(patch) && forall i :: 0 <= i < |patch| && !TitleOrDue(patch[i]) ==> Resends(base, tags, patch[i])
  {
  }

  lemma TitleOnlyLeavesRest(le: Collation, base: ClientTask, title: string, due: Option<string>)
    requires AssigneesOf(base) == [] && Get(base, AssigneeUserId) == "" && Get(base, AssigneeName) == ""
    requires IsTrimmed(JavaScript, Get(base, Description)) && Tags.Editable(base.tags)
    ensures FormShaped(TitleOnly(base, title, due)) && RestUnchanged(le, base, TitleOnly(base, title, due))
  {
    var tags := Tags.ParseTagsInput(Tags.TagsInputFromTask(base.tags));
    FormResends(base, title, tags, due);
    UntouchedTagsUnchanged(le, base);
    forall edit | edit in TitleOnly(base, title, due) && !TitleOrDue(edit)
      ensures !ChangedLocally(le, base, edit)
    {
      ResentUnchanged(le, base, tags, edit);
    }
  }

  lemma TitleOrDuePlaces(patch: Patch, edit: Edit)
    requires FormShaped(patch) && edit in patch && TitleOrDue(edit)
    ensures edit == patch[0] || (|patch| == 9 && edit == patch[8])
  {
    var i :| 0 <= i < |patch| && patch[i] == edit;
  }

  lemma FormConflicts(le: Collation, base: ClientTask, patch: Patch, server: ClientTask)
    requires FormShaped(patch) && RestUnchanged(le, base, patch)
    ensures ConflictsOf(le, base, patch, server) == [] <==>
      !Conflicting(le, base, server, patch[0]) && (|patch| == 9 ==> !Conflicting(le, base, server, patch[8]))
  {
    NoConflictsIff(le, base, patch, server);
    assert patch[0] in patch && (|patch| == 9 ==> patch[8] in patch);
    forall edit | edit in patch
      ensures !Conflicting(le, base, server, edit) || edit == patch[0] || (|patch| == 9 && edit == patch[8])
    {
      if TitleOrDue(edit) {
        TitleOrDuePlaces(patch, edit);
      }
    }
  }

  lemma FormKeepsAssignees(le: Collation, base: ClientTask, patch: Patch, server: ClientTask)
    requires FormShaped(patch) && RestUnchanged(le, base, patch)
    ensures AssigneesOf(MergedOf(le, base, patch, server)) == AssigneesOf(server)
  {
    FormFieldsDistinct(patch);
    MergedAssignees(le, base, patch, server, 4);
    assert patch[4] in patch;
    NothingTaken(le, base, patch, server, AssigneeUserId);
    NothingTaken(le, base, patch, server, AssigneeName);
  }

  /** Only the title and the due date of such a form can conflict, and the merge keeps the assignees
      the server has by now; but sending the patch leaves the task unassigned. */
  lemma TitleEditUnassigns(le: Collation, base: ClientTask, server: ClientTask, title: string, due: Option<string>)
    requires AssigneesOf(base) == [] && Get(base, AssigneeUserId) == "" && Get(base, AssigneeName) == ""
    requires IsTrimmed(JavaScript, Get(base, Description)) && Tags.Editable(base.tags)
    ensures ConflictsOf(le, base, TitleOnly(base, title, due), server) == [] <==>
      && !Conflicting(le, base, server, SetText(Title, Some(title)))
      && (due.Some? ==> !Conflicting(le, base, server, SetText(DueAt, due)))
    ensures AssigneesOf(MergedOf(le, base, TitleOnly(base, title, due), server)) == AssigneesOf(server)
    ensures AssigneesOf(AppliedAll(server, TitleOnly(base, title, due))) == []
  {
    var patch := TitleOnly(base, title, due);
    TitleOnlyLeavesRest(le, base, title, due);
    FormConflicts(le, base, patch, server);
    FormKeepsAssignees(le, base, patch, server);
    FormFieldsDistinct(patch);
    EmptyListClears(patch, server, 4, 6);
  }
}
